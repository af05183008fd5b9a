/** C strings and the small text helpers that the HTTP code takes from libc and Boost. */
module CText {
  import opened Options

  const NUL: char := '\0'
  const CRLF := "\r\n"

  predicate MatchesAt(s: string, p: string, i: nat) {
    i + |p| <= |s| && s[i..i + |p|] == p
  }

  /** strstr from position `from`: the search gives up at the first NUL. */
  function StrStr(s: string, p: string, from: nat): (r: Option<nat>)
    requires from <= |s|
    ensures r.Some? ==> FirstMatch(s, p, from, r.value)
    decreases |s| - from
  {
    if MatchesAt(s, p, from) then Some(from)
    else if from == |s| || s[from] == NUL then None
    else StrStr(s, p, from + 1)
  }

  /** p occurs at i, and neither p nor a NUL occurs before. */
  ghost predicate FirstMatch(s: string, p: string, from: nat, i: nat) {
    from <= i && MatchesAt(s, p, i) && forall j :: from <= j < i ==> !MatchesAt(s, p, j) && s[j] != NUL
  }

  /** The search finds the first match whenever there is one. */
  lemma {:induction false} FirstMatchIs(s: string, p: string, from: nat, i: nat)
    requires from <= |s| && FirstMatch(s, p, from, i)
    ensures StrStr(s, p, from) == Some(i)
    decreases i - from
  {
    if from < i {
      assert FirstMatch(s, p, from + 1, i);
      FirstMatchIs(s, p, from + 1, i);
    }
  }

  lemma {:induction false} NoMatchByChar(s: string, p: string, i: nat, k: nat)
    requires k < |p| && i + k < |s| && s[i + k] != p[k]
    ensures !MatchesAt(s, p, i)
  {
    if i + |p| <= |s| {
      assert s[i..i + |p|][k] == s[i + k];
    }
  }

  /** Any match that no NUL precedes bounds the first one. */
  lemma {:induction false} StrStrFinds(s: string, p: string, from: nat, k: nat)
    requires from <= k && MatchesAt(s, p, k) && forall j :: from <= j < k ==> s[j] != NUL
    ensures StrStr(s, p, from).Some? && StrStr(s, p, from).value <= k
    decreases k - from
  {
    if !MatchesAt(s, p, from) {
      StrStrFinds(s, p, from + 1, k);
    }
  }

  lemma {:induction false} MatchWithin(s: string, t: string, p: string, i: nat)
    requires i + |p| <= |s|
    ensures MatchesAt(s + t, p, i) <==> MatchesAt(s, p, i)
  {
    assert (s + t)[i..i + |p|] == s[i..i + |p|];
  }

  /** Bytes added behind a match do not change it, and bytes behind it are not needed. */
  lemma {:induction false} StrStrPrefix(s: string, t: string, p: string, from: nat)
    requires from <= |s|
    ensures StrStr(s, p, from).Some? ==> StrStr(s + t, p, from) == StrStr(s, p, from)
    ensures StrStr(s + t, p, from).Some? && StrStr(s + t, p, from).value + |p| <= |s|
        ==> StrStr(s, p, from) == StrStr(s + t, p, from)
  {
    forall j: nat | j + |p| <= |s| ensures MatchesAt(s + t, p, j) <==> MatchesAt(s, p, j) {
      MatchWithin(s, t, p, j);
    }
    var r, r' := StrStr(s, p, from), StrStr(s + t, p, from);
    if r.Some? {
      assert FirstMatch(s + t, p, from, r.value);
      FirstMatchIs(s + t, p, from, r.value);
    } else if r'.Some? && r'.value + |p| <= |s| {
      MatchWithin(s, t, p, r'.value);
      forall j | from <= j < r'.value ensures !MatchesAt(s, p, j) && s[j] != NUL {
        assert (s + t)[j] == s[j];
      }
      FirstMatchIs(s, p, from, r'.value);
    }
  }

  /** The first position from `from` on that holds c, or the end. */
  function IndexOf(s: string, c: char, from: nat): (i: nat)
    requires from <= |s|
    ensures from <= i <= |s| && (i < |s| ==> s[i] == c)
    ensures forall k :: from <= k < i ==> s[k] != c
    decreases |s| - from
  {
    if from == |s| || s[from] == c then from else IndexOf(s, c, from + 1)
  }

  /** The first position from `from` on that does not hold c, or the end. */
  function SkipAll(s: string, c: char, from: nat): (i: nat)
    requires from <= |s|
    ensures from <= i <= |s| && (i < |s| ==> s[i] != c)
    ensures forall k :: from <= k < i ==> s[k] == c
    decreases |s| - from
  {
    if from == |s| || s[from] != c then from else SkipAll(s, c, from + 1)
  }

  /** isspace of the C locale. */
  predicate IsSpace(c: char) {
    c == ' ' || '\t' <= c <= '\r'
  }

  function TrimLeft(s: string): (t: string)
    ensures |t| <= |s| && t == s[|s| - |t|..]
    ensures t != "" ==> !IsSpace(t[0])
  {
    if s == "" || !IsSpace(s[0]) then s else TrimLeft(s[1..])
  }

  function TrimRight(s: string): (t: string)
    ensures |t| <= |s| && t == s[..|t|]
    ensures t != "" ==> !IsSpace(t[|t| - 1])
  {
    if s == "" || !IsSpace(s[|s| - 1]) then s else TrimRight(s[..|s| - 1])
  }

  /** boost::trim. */
  function Trim(s: string): (t: string) {
    TrimRight(TrimLeft(s))
  }

  predicate Trimmed(s: string) {
    s != "" ==> !IsSpace(s[0]) && !IsSpace(s[|s| - 1])
  }

  predicate AllSpace(s: string) {
    forall i :: 0 <= i < |s| ==> IsSpace(s[i])
  }

  /** White space around a trimmed text goes away, and nothing else. */
  lemma {:induction false} TrimSurrounded(left: string, s: string, right: string)
    requires AllSpace(left) && AllSpace(right) && Trimmed(s)
    ensures Trim(left + s + right) == s
  {
    if s == "" {
      assert left + s + right == (left + right) + "";
      TrimLeftDrops(left + right, "");
    } else {
      assert left + s + right == left + (s + right);
      TrimLeftDrops(left, s + right);
      TrimRightDrops(s, right);
    }
  }

  lemma {:induction false} TrimLeftDrops(left: string, s: string)
    requires AllSpace(left) && (s != "" ==> !IsSpace(s[0]))
    ensures TrimLeft(left + s) == s
  {
    if left == "" {
      assert left + s == s;
    } else {
      assert (left + s)[1..] == left[1..] + s;
      TrimLeftDrops(left[1..], s);
    }
  }

  lemma {:induction false} TrimRightDrops(s: string, right: string)
    requires AllSpace(right) && (s != "" ==> !IsSpace(s[|s| - 1]))
    ensures TrimRight(s + right) == s
  {
    if right == "" {
      assert s + right == s;
    } else {
      assert (s + right)[..|s + right| - 1] == s + right[..|right| - 1];
      TrimRightDrops(s, right[..|right| - 1]);
    }
  }

  /** tolower of the C locale. */
  function ToLower(c: char): (d: char) {
    if 'A' <= c <= 'Z' then c - 'A' + 'a' else c
  }

  function LowerCase(s: string): (t: string)
    ensures |t| == |s|
  {
    seq(|s|, i requires 0 <= i < |s| => ToLower(s[i]))
  }

  /** The same character, or the same letter of the alphabet in another case. */
  predicate SameLetter(c: char, d: char) {
    c == d || ('A' <= c <= 'Z' && d as int == c as int + 32) || ('A' <= d <= 'Z' && c as int == d as int + 32)
  }

  /** Texts agree in lower case exactly when they agree letter by letter, whatever the cases. */
  lemma {:induction false} LowerCaseIgnoresCase(a: string, b: string)
    ensures LowerCase(a) == LowerCase(b) <==> |a| == |b| && forall i :: 0 <= i < |a| ==> SameLetter(a[i], b[i])
  {
    if |a| == |b| {
      var s, t := LowerCase(a), LowerCase(b);
      forall i | 0 <= i < |a| ensures s[i] == t[i] <==> SameLetter(a[i], b[i]) {
        assert s[i] == ToLower(a[i]) && t[i] == ToLower(b[i]);
      }
      if forall i :: 0 <= i < |a| ==> SameLetter(a[i], b[i]) {
        assert forall i :: 0 <= i < |a| ==> s[i] == t[i];
      }
    }
  }

  /** boost::algorithm::replace_all with the empty string. */
  function EraseAll(s: string, p: string): (t: string)
    requires p != ""
    ensures |t| <= |s|
  {
    if s == "" then ""
    else if MatchesAt(s, p, 0) then EraseAll(s[|p|..], p)
    else [s[0]] + EraseAll(s[1..], p)
  }

  lemma {:induction false} EraseMatch(p: string, t: string)
    requires p != ""
    ensures EraseAll(p + t, p) == EraseAll(t, p)
  {
    assert (p + t)[0..|p|] == p && (p + t)[|p|..] == t;
  }

  lemma {:induction false} EraseNothing(s: string, p: string, c: char)
    requires c in p && c !in s
    ensures EraseAll(s, p) == s
  {
    if s != "" {
      var k :| 0 <= k < |p| && p[k] == c;
      assert |p| <= |s| ==> s[0..|p|][k] == s[k];
      EraseNothing(s[1..], p, c);
    }
  }

  // ---- decimal numbers

  const SIZE_MODULUS: nat := 0x1_0000_0000_0000_0000

  predicate IsDigit(c: char) {
    '0' <= c <= '9'
  }

  predicate AllDigits(s: string) {
    forall i :: 0 <= i < |s| ==> IsDigit(s[i])
  }

  function DigitsValue(s: string): (n: nat)
    requires AllDigits(s)
  {
    if s == "" then 0 else 10 * DigitsValue(s[..|s| - 1]) + (s[|s| - 1] - '0') as nat
  }

  /** boost::lexical_cast<size_t>: an optional sign and digits whose value fits; a minus sign
      negates modulo 2^64. None stands for bad_lexical_cast. */
  function LexicalCastSize(s: string): (r: Option<nat>)
    ensures r.Some? ==> r.value < SIZE_MODULUS
  {
    var signed := s != "" && (s[0] == '-' || s[0] == '+');
    var digits := if signed then s[1..] else s;
    if digits == "" || !AllDigits(digits) || DigitsValue(digits) >= SIZE_MODULUS then None
    else if signed && s[0] == '-' then Some((SIZE_MODULUS - DigitsValue(digits)) % SIZE_MODULUS)
    else Some(DigitsValue(digits))
  }

  /** boost::lexical_cast<std::string> of a size. */
  function Decimal(n: nat): (s: string)
    ensures s != "" && AllDigits(s) && DigitsValue(s) == n
    ensures |s| > 1 ==> s[0] != '0'
  {
    if n < 10 then
      var s := ['0' + n as char];
      assert DigitsValue(s[..0]) == 0;
      s
    else
      var s := Decimal(n / 10) + ['0' + (n % 10) as char];
      assert s[..|s| - 1] == Decimal(n / 10);
      s
  }

  lemma {:induction false} DecimalReadsBack(n: nat)
    requires n < SIZE_MODULUS
    ensures LexicalCastSize(Decimal(n)) == Some(n)
    ensures Trimmed(Decimal(n)) && '\n' !in Decimal(n) && '\r' !in Decimal(n) && NUL !in Decimal(n)
  {
    var s := Decimal(n);
    assert IsDigit(s[0]) && IsDigit(s[|s| - 1]);
  }

  /** The cast succeeds exactly for an optional sign and digits whose value fits. */
  lemma {:induction false} CastExactly(s: string)
    ensures LexicalCastSize(s).Some? <==>
              exists sign, digits :: CastsAs(s, sign, digits) && DigitsValue(digits) < SIZE_MODULUS
  {
    if LexicalCastSize(s).Some? {
      var n := if s[0] == '-' || s[0] == '+' then 1 else 0;
      assert CastsAs(s, s[..n], s[n..]);
    }
    forall sign, digits | CastsAs(s, sign, digits) && DigitsValue(digits) < SIZE_MODULUS
      ensures LexicalCastSize(s).Some?
    {
      assert digits[0] == s[|sign|] && IsDigit(digits[0]);
      assert s[|sign|..] == digits;
    }
  }

  predicate CastsAs(s: string, sign: string, digits: string) {
    s == sign + digits && (sign == "" || sign == "+" || sign == "-") && digits != "" && AllDigits(digits)
  }

  /** A plus sign changes nothing, a minus sign negates modulo 2^64. */
  lemma {:induction false} CastSigned(n: nat)
    requires n < SIZE_MODULUS
    ensures LexicalCastSize("+" + Decimal(n)) == Some(n)
    ensures LexicalCastSize("-" + Decimal(n)) == Some(if n == 0 then 0 else SIZE_MODULUS - n)
  {
    assert ("+" + Decimal(n))[1..] == Decimal(n) && ("-" + Decimal(n))[1..] == Decimal(n);
  }

  lemma {:induction false} DecimalExample()
    ensures Decimal(1945) == "1945"
  {
    assert Decimal(1) == "1" && Decimal(19) == "19" && Decimal(194) == "194";
  }
}
