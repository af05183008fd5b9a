/** RPC clients: retrying calls, and the pool that lends clients to request threads. */
module ClientPool {
  import opened Options

  // ---- one client

  /** m_is_inited, and whether m_client points to a client. */
  datatype Link = Link(inited: bool, live: bool)

  /** How the network treats one pass of the retry loop: does a connection open, is the call answered. */
  datatype Luck = Luck(opens: bool, answers: bool)

  /** A pass issued a call, or could not even connect; the call was answered or not. */
  datatype Pass = Pass(link: Link, issued: bool, answered: bool)

  function Init(link: Link, opens: bool): (up: Link) {
    if link.inited then link else Link(opens, opens)
  }

  function OnePass(link: Link, luck: Luck): (pass: Pass) {
    var up := Init(link, luck.opens);
    if !up.inited then Pass(up, false, false)
    else if luck.answers then Pass(up, true, true)
    else Pass(up.(inited := false), true, false)
  }

  datatype Outcome = Outcome(link: Link, ok: bool, issued: nat)

  /** At most n passes, up to the first answer; pass k is treated as env(k) says. */
  function Attempts(link: Link, n: nat, env: nat -> Luck, k: nat): (outcome: Outcome)
    decreases n
  {
    if n == 0 then Outcome(link, false, 0)
    else
      var pass := OnePass(link, env(k));
      if pass.answered then Outcome(pass.link, true, 1)
      else
        var rest := Attempts(pass.link, n - 1, env, k + 1);
        rest.(issued := rest.issued + if pass.issued then 1 else 0)
  }

  /** Pass k can issue its call: a connection is left over from before, or one opens. */
  predicate Reaches(link: Link, env: nat -> Luck, first: nat, k: nat) {
    env(k).opens || (k == first && link.inited)
  }

  /** Pass i answers the call, and none of the passes from k on did before. */
  ghost predicate FirstAnswer(link: Link, env: nat -> Luck, k: nat, i: nat) {
    k <= i && Reaches(link, env, k, i) && env(i).answers
    && forall j :: k <= j < i ==> !(Reaches(link, env, k, j) && env(j).answers)
  }

  /** The passes from k on and before m that can issue their call. */
  ghost function Reaching(link: Link, env: nat -> Luck, k: nat, m: nat): (passes: set<nat>) {
    set i | k <= i < m && Reaches(link, env, k, i)
  }

  /** The calls issued are one for each pass that reaches the server, up to the one that is answered. */
  lemma {:induction false} IssuedExactly(link: Link, n: nat, env: nat -> Luck, k: nat)
    ensures forall i: nat :: FirstAnswer(link, env, k, i) && i < k + n ==>
              Attempts(link, n, env, k).issued == |Reaching(link, env, k, i + 1)|
    ensures !Attempts(link, n, env, k).ok ==> Attempts(link, n, env, k).issued == |Reaching(link, env, k, k + n)|
    decreases n
  {
    if n == 0 {
      assert Reaching(link, env, k, k) == {};
    } else {
      var pass := OnePass(link, env(k));
      assert pass.answered <==> Reaches(link, env, k, k) && env(k).answers;
      assert pass.issued <==> Reaches(link, env, k, k);
      if pass.answered {
        assert Reaching(link, env, k, k + 1) == {k};
      } else {
        IssuedExactly(pass.link, n - 1, env, k + 1);
        ReachingShift(link, env, k, k + n);
        forall i: nat | FirstAnswer(link, env, k, i) && i < k + n
          ensures Attempts(link, n, env, k).issued == |Reaching(link, env, k, i + 1)|
        {
          ReachingShift(link, env, k, i + 1);
          assert FirstAnswer(pass.link, env, k + 1, i) by {
            assert forall j :: k < j ==> Reaches(link, env, k, j) == Reaches(pass.link, env, k + 1, j);
          }
        }
      }
    }
  }

  lemma {:induction false} ReachingShift(link: Link, env: nat -> Luck, k: nat, m: nat)
    requires k < m && !OnePass(link, env(k)).answered
    ensures |Reaching(link, env, k, m)|
         == |Reaching(OnePass(link, env(k)).link, env, k + 1, m)| + if OnePass(link, env(k)).issued then 1 else 0
  {
    var pass := OnePass(link, env(k));
    var later := Reaching(pass.link, env, k + 1, m);
    forall i | k < i < m ensures Reaches(link, env, k, i) == Reaches(pass.link, env, k + 1, i) {
    }
    assert Reaching(link, env, k, m) == later + if pass.issued then {k} else {};
  }

  /** The call succeeds exactly when one of the n passes both reaches the server and is answered; at
      most n calls are issued; a client that succeeded is connected. */
  lemma {:induction false} AttemptsExactly(link: Link, n: nat, env: nat -> Luck, k: nat)
    ensures var r := Attempts(link, n, env, k);
            (r.ok <==> exists i :: k <= i < k + n && Reaches(link, env, k, i) && env(i).answers)
            && r.issued <= n && (r.ok ==> r.issued > 0 && r.link.inited)
            && ((link.inited ==> link.live) ==> (r.link.inited ==> r.link.live))
            && (!r.ok && n > 0 ==> !r.link.inited)
    decreases n
  {
    if n > 0 {
      var pass := OnePass(link, env(k));
      if pass.answered {
        assert Reaches(link, env, k, k);
      } else {
        AttemptsExactly(pass.link, n - 1, env, k + 1);
        forall i | k < i < k + n ensures Reaches(link, env, k, i) == Reaches(pass.link, env, k + 1, i) {
        }
        assert Reaches(link, env, k, k) && env(k).answers ==> pass.answered;
      }
    }
  }

  /** `while (retry_time--)`: how often the loop test holds for a 32-bit flag. A negative one counts
      down past -2^31, where the subtraction is taken to wrap. */
  function Passes(flag: int): (n: nat)
    requires -0x8000_0000 <= flag < 0x8000_0000
    ensures flag >= 0 ==> n == flag
  {
    flag % 0x1_0000_0000
  }

  /** `retry_time--`. */
  function Decrement(retryTime: int): (r: int)
    requires -0x8000_0000 <= retryTime < 0x8000_0000
    ensures -0x8000_0000 <= r < 0x8000_0000
    ensures retryTime != 0 ==> Passes(r) == Passes(retryTime) - 1
  {
    if retryTime == -0x8000_0000 then 0x7fff_ffff else retryTime - 1
  }

  class TradeInfoWrapper {
    var isInited: bool
    var hasClient: bool

    function State(): (link: Link)
      reads this
    {
      Link(isInited, hasClient)
    }

    /** The constructor tries to connect; a failure only shows in the state. */
    constructor (opens: bool)
      ensures State() == Init(Link(false, false), opens)
    {
      isInited, hasClient := false, false;
      new;
      var _ := InitClient(opens);
    }

    method InitClient(opens: bool) returns (ok: bool)
      modifies this
      ensures State() == Init(old(State()), opens) && ok == isInited
      ensures if old(isInited) then isInited && hasClient == old(hasClient) else isInited == hasClient == opens
    {
      if isInited {
        return true;
      }
      hasClient := false;
      if opens {
        hasClient := true;
        isInited := true;
        return true;
      } else {
        isInited := false;
        return false;
      }
    }

    /** The retry loop that all calls share; `flag` is rpc_call_times for the calls that place or
        delete orders and m_retry_times for the queries. */
    method AddOrder(flag: int, env: nat -> Luck) returns (ok: bool, issued: nat)
      requires -0x8000_0000 <= flag < 0x8000_0000 && (isInited ==> hasClient)
      modifies this
      ensures Outcome(State(), ok, issued) == Attempts(old(State()), Passes(flag), env, 0)
      ensures isInited ==> hasClient
    {
      hide Passes, Decrement;
      var retryTime := flag;
      issued := 0;
      var k := 0;
      while retryTime != 0
        invariant -0x8000_0000 <= retryTime < 0x8000_0000
        invariant k + Passes(retryTime) == Passes(flag) && (isInited ==> hasClient)
        invariant var rest := Attempts(State(), Passes(retryTime), env, k);
                  Attempts(old(State()), Passes(flag), env, 0) == rest.(issued := rest.issued + issued)
        decreases Passes(retryTime)
      {
        var luck := env(k);
        retryTime := Decrement(retryTime);
        k := k + 1;
        var up := InitClient(luck.opens);
        if !up {
          continue;
        }
        assert hasClient;
        issued := issued + 1;
        if luck.answers {
          return true, issued;
        }
        isInited := false;
      }
      return false, issued;
    }
  }

  // ---- the pool, under every interleaving

  type Client = TradeInfoWrapper
  type Thread = nat

  /** A request thread's work with the client it was lent: how the client was then, how the network
      will treat the passes, and how far the thread has come. */
  datatype Job = Job(client: Client, start: Link, env: nat -> Luck, times: nat, remaining: nat, issued: nat,
                     answered: bool)

  datatype Pool = Pool(idle: set<Client>, jobs: map<Thread, Job>, dropped: set<Client>, created: set<Client>,
                       links: map<Client, Link>)

  /** Get, Free and Drop hold the lock; the passes of the retry loop in between do not. */
  datatype Event =
    | Get(t: Thread, c: Client, opens: bool, times: nat, env: nat -> Luck)
    | Try(t: Thread)
    | Free(t: Thread)  // FreeClientPtr(client, true), which only a job that was answered calls
    | Drop(t: Thread)  // FreeClientPtr(client, false), or the client is just left to be destroyed

  const EMPTY := Pool({}, map[], {}, {}, map[])

  /** GetClientPtr takes some idle client, and makes a new one only when there is none. */
  ghost predicate Enabled(p: Pool, e: Event) {
    match e
    case Get(t, c, _, _, _) => t !in p.jobs && (if p.idle != {} then c in p.idle && c in p.links else c !in p.created)
    case Try(t) =>
      t in p.jobs && p.jobs[t].client in p.links && !p.jobs[t].answered && 0 < p.jobs[t].remaining <= p.jobs[t].times
    case Free(t) => t in p.jobs && p.jobs[t].answered
    case Drop(t) => t in p.jobs
  }

  ghost function Next(p: Pool, e: Event): (n: Pool)
    requires Enabled(p, e)
  {
    match e
    case Get(t, c, opens, times, env) =>
      var link := if p.idle != {} then p.links[c] else Init(Link(false, false), opens);
      var n := p.(jobs := p.jobs[t := Job(c, link, env, times, times, 0, false)]);
      if p.idle != {} then n.(idle := p.idle - {c})
      else n.(created := p.created + {c}, links := p.links[c := link])
    case Try(t) =>
      var job := p.jobs[t];
      var pass := OnePass(p.links[job.client], job.env(job.times - job.remaining));
      p.(links := p.links[job.client := pass.link],
         jobs := p.jobs[t := job.(remaining := job.remaining - 1, answered := pass.answered,
                                  issued := job.issued + if pass.issued then 1 else 0)])
    case Free(t) => p.(idle := p.idle + {p.jobs[t].client}, jobs := p.jobs - {t})
    case Drop(t) => p.(dropped := p.dropped + {p.jobs[t].client}, jobs := p.jobs - {t})
  }

  /** The clients in the hands of some thread. */
  ghost function Lent(p: Pool): (lent: set<Client>) {
    set t | t in p.jobs :: p.jobs[t].client
  }

  ghost predicate Connected(p: Pool, c: Client) {
    c in p.links && p.links[c].inited && p.links[c].live
  }

  /** Every client is in one place, and lent to one thread only. */
  ghost predicate Conserved(p: Pool) {
    p.created == p.idle + Lent(p) + p.dropped && p.created == p.links.Keys &&
    p.idle !! p.dropped && p.idle !! Lent(p) && p.dropped !! Lent(p) &&
    (forall t, u :: t in p.jobs && u in p.jobs && p.jobs[t].client == p.jobs[u].client ==> t == u)
  }

  ghost predicate Healthy(p: Pool) {
    (forall c :: c in p.links && p.links[c].inited ==> p.links[c].live) &&
    (forall c :: c in p.idle ==> Connected(p, c)) &&
    (forall t :: t in p.jobs ==> JobInvariant(p, p.jobs[t]))
  }

  /** The job is a part of the retry loop: what is left of it, run alone from here on, completes it. */
  ghost predicate JobInvariant(p: Pool, job: Job) {
    job.client in p.links && job.issued + job.remaining <= job.times &&
    (job.answered ==> Connected(p, job.client)) &&
    Attempts(job.start, job.times, job.env, 0) == Ahead(p.links[job.client], job)
  }

  /** The outcome of the whole loop, when the client is in state `link` now. */
  function Ahead(link: Link, job: Job): (r: Outcome)
    requires job.remaining <= job.times
  {
    if job.answered then Outcome(link, true, job.issued)
    else
      var rest := Attempts(link, job.remaining, job.env, job.times - job.remaining);
      rest.(issued := rest.issued + job.issued)
  }

  ghost predicate Invariant(p: Pool) {
    Conserved(p) && Healthy(p)
  }

  lemma {:induction false} NextKeeps(p: Pool, e: Event)
    requires Invariant(p) && Enabled(p, e)
    ensures Invariant(Next(p, e))
  {
    hide Conserved, Healthy;
    ConservedNext(p, e);
    HealthyNext(p, e);
  }

  lemma {:induction false} ConservedNext(p: Pool, e: Event)
    requires Conserved(p) && Enabled(p, e)
    ensures Conserved(Next(p, e))
  {
    match e
    case Get(_, _, _, _, _) => LentAfterGet(p, e);
    case Try(_) => LentAfterTry(p, e);
    case _ => LentAfterReturn(p, e);
  }

  lemma {:induction false} LentAfterGet(p: Pool, e: Event)
    requires e.Get? && Conserved(p) && Enabled(p, e)
    ensures Lent(Next(p, e)) == Lent(p) + {e.c}
  {
    var n := Next(p, e);
    forall c | c in Lent(p) + {e.c} ensures c in Lent(n) {
      if c == e.c {
        assert n.jobs[e.t].client == c;
      } else {
        var u :| u in p.jobs && p.jobs[u].client == c;
        assert n.jobs[u].client == c;
      }
    }
  }

  lemma {:induction false} LentAfterTry(p: Pool, e: Event)
    requires e.Try? && Enabled(p, e)
    ensures Lent(Next(p, e)) == Lent(p)
  {
    var n := Next(p, e);
    assert n.jobs.Keys == p.jobs.Keys && forall u :: u in p.jobs ==> n.jobs[u].client == p.jobs[u].client;
    forall c | c in Lent(p) ensures c in Lent(n) {
      var u :| u in p.jobs && p.jobs[u].client == c;
      assert n.jobs[u].client == c;
    }
  }

  lemma {:induction false} LentAfterReturn(p: Pool, e: Event)
    requires (e.Free? || e.Drop?) && Conserved(p) && Enabled(p, e)
    ensures Lent(Next(p, e)) == Lent(p) - {p.jobs[e.t].client}
  {
    var n := Next(p, e);
    forall c | c in Lent(p) - {p.jobs[e.t].client} ensures c in Lent(n) {
      var u :| u in p.jobs && p.jobs[u].client == c;
      assert n.jobs[u].client == c;
    }
  }

  lemma {:induction false} HealthyNext(p: Pool, e: Event)
    requires Conserved(p) && Healthy(p) && Enabled(p, e)
    ensures Healthy(Next(p, e))
  {
    match e
    case Get(_, _, _, _, _) => HealthyGet(p, e);
    case Try(_) => HealthyTry(p, e);
    case _ => HealthyReturn(p, e);
  }

  /** A job whose client is as before is as good as before. */
  lemma {:induction false} JobUntouched(p: Pool, n: Pool, job: Job)
    requires JobInvariant(p, job) && job.client in n.links && n.links[job.client] == p.links[job.client]
    ensures JobInvariant(n, job)
  {
    hide Ahead, Attempts;
  }

  lemma {:induction false} HealthyGet(p: Pool, e: Event)
    requires e.Get? && Conserved(p) && Healthy(p) && Enabled(p, e)
    ensures Healthy(Next(p, e))
  {
    var n := Next(p, e);
    assert JobInvariant(n, n.jobs[e.t]);
    hide JobInvariant;
    forall t | t in n.jobs ensures JobInvariant(n, n.jobs[t]) {
      if t != e.t {
        assert p.jobs[t].client in Lent(p);
        JobUntouched(p, n, p.jobs[t]);
      }
    }
  }

  lemma {:induction false} HealthyTry(p: Pool, e: Event)
    requires e.Try? && Conserved(p) && Healthy(p) && Enabled(p, e)
    ensures Healthy(Next(p, e))
  {
    var n := Next(p, e);
    TriedJob(p, e.t);
    hide JobInvariant, Attempts, OnePass;
    forall t | t in n.jobs ensures JobInvariant(n, n.jobs[t]) {
      if t != e.t {
        JobUntouched(p, n, p.jobs[t]);
      }
    }
  }

  lemma {:induction false} TriedJob(p: Pool, t: Thread)
    requires Healthy(p) && Enabled(p, Try(t))
    ensures JobInvariant(Next(p, Try(t)), Next(p, Try(t)).jobs[t])
  {
    var job := p.jobs[t];
    assert JobInvariant(p, job);
    hide Attempts;
    TryAhead(p.links[job.client], job);
  }

  lemma {:induction false} HealthyReturn(p: Pool, e: Event)
    requires (e.Free? || e.Drop?) && Healthy(p) && Enabled(p, e)
    ensures Healthy(Next(p, e))
  {
    var n := Next(p, e);
    assert JobInvariant(p, p.jobs[e.t]);
    hide JobInvariant;
    forall t | t in n.jobs ensures JobInvariant(n, n.jobs[t]) {
      JobUntouched(p, n, p.jobs[t]);
    }
  }

  /** The job after one more pass. */
  function Tried(link: Link, job: Job): (j: Job)
    requires 0 < job.remaining <= job.times
  {
    var pass := OnePass(link, job.env(job.times - job.remaining));
    job.(remaining := job.remaining - 1, answered := pass.answered, issued := job.issued + if pass.issued then 1 else 0)
  }

  /** A pass does not change where the loop is going. */
  lemma {:induction false} TryAhead(link: Link, job: Job)
    requires 0 < job.remaining <= job.times && !job.answered
    ensures var pass := OnePass(link, job.env(job.times - job.remaining));
            Ahead(pass.link, Tried(link, job)) == Ahead(link, job)
  {
  }

  ghost function RunEvents(es: seq<Event>): (r: Option<Pool>)
    ensures r.Some? ==> Invariant(r.value)
  {
    if es == [] then
      EmptyPool();
      Some(EMPTY)
    else
      var before := RunEvents(es[..|es| - 1]);
      if before.None? || !Enabled(before.value, es[|es| - 1]) then None
      else
        NextKeeps(before.value, es[|es| - 1]);
        Some(Next(before.value, es[|es| - 1]))
  }

  lemma {:induction false} EmptyPool()
    ensures Invariant(EMPTY)
  {
  }

  /** Over every interleaving: clients are conserved, none is in two threads' hands, every idle one
      is connected, and a job has issued at most as many calls as it was allowed. */
  lemma {:induction false} PoolSafety(es: seq<Event>)
    requires RunEvents(es).Some?
    ensures var p := RunEvents(es).value;
            |p.created| == |p.idle| + |Lent(p)| + |p.dropped|
            && (forall t, u :: t in p.jobs && u in p.jobs && t != u ==> p.jobs[t].client != p.jobs[u].client)
            && (forall c :: c in p.idle ==> Connected(p, c))
            && (forall t :: t in p.jobs ==> p.jobs[t].issued <= p.jobs[t].times)
  {
    var p := RunEvents(es).value;
    assert p.created == (p.idle + Lent(p)) + p.dropped;
    assert |p.idle + Lent(p)| == |p.idle| + |Lent(p)|;
  }

  /** No other thread gets in the way of a retry loop: over every interleaving, a job that was answered
      or has used up its passes ends as the loop would if its thread ran alone. */
  lemma {:induction false} JobsRunAsAlone(es: seq<Event>, t: Thread)
    requires RunEvents(es).Some? && t in RunEvents(es).value.jobs
    ensures var p := RunEvents(es).value;
            var job := p.jobs[t];
            job.client in p.links && (job.answered || job.remaining == 0 ==>
              Outcome(p.links[job.client], job.answered, job.issued)
              == Attempts(job.start, job.times, job.env, 0))
  {
    var p := RunEvents(es).value;
    assert JobInvariant(p, p.jobs[t]);
  }

  // ---- one thread's passes

  /** Try for thread t until the call is answered or the passes are used up. */
  ghost function TryAll(p: Pool, t: Thread): (n: Pool)
    requires t in p.jobs
    ensures t in n.jobs
    decreases p.jobs[t].remaining
  {
    if Enabled(p, Try(t)) then TryAll(Next(p, Try(t)), t) else p
  }

  /** These events are the method: they change the client and the job as Attempts says. */
  lemma {:induction false} TryAllIsAttempts(p: Pool, t: Thread)
    requires t in p.jobs && p.jobs[t].client in p.links && !p.jobs[t].answered && p.jobs[t].remaining <= p.jobs[t].times
    ensures var job, n := p.jobs[t], TryAll(p, t);
            var r := Attempts(p.links[job.client], job.remaining, job.env, job.times - job.remaining);
            n == p.(links := p.links[job.client := r.link],
                    jobs := p.jobs[t := job.(remaining := n.jobs[t].remaining, answered := r.ok,
                                             issued := job.issued + r.issued)])
            && n.jobs[t].remaining <= job.remaining && (r.ok || n.jobs[t].remaining == 0)
    decreases p.jobs[t].remaining
  {
    var job := p.jobs[t];
    if job.remaining == 0 {
      assert p.links == p.links[job.client := p.links[job.client]] && p.jobs == p.jobs[t := job];
    } else {
      var next := Next(p, Try(t));
      if !next.jobs[t].answered {
        TryAllIsAttempts(next, t);
      }
    }
  }

  lemma {:induction false} TryAllKeeps(p: Pool, t: Thread)
    requires Invariant(p) && t in p.jobs
    ensures Invariant(TryAll(p, t))
    decreases p.jobs[t].remaining
  {
    hide Invariant;
    if Enabled(p, Try(t)) {
      NextKeeps(p, Try(t));
      TryAllKeeps(Next(p, Try(t)), t);
    }
  }

  lemma {:induction false} ClientsInLinks(p: Pool)
    requires Invariant(p)
    ensures p.links.Keys == p.created && p.idle <= p.created
    ensures forall t :: t in p.jobs ==> p.jobs[t].client in p.created
    ensures forall c :: c in p.idle ==> p.links[c] == Link(true, true)
    ensures forall c :: c in p.links && p.links[c].inited ==> p.links[c].live
  {
    forall t | t in p.jobs ensures p.jobs[t].client in p.created {
      assert p.jobs[t].client in Lent(p);
    }
    forall c | c in p.idle ensures p.links[c] == Link(true, true) {
      assert Connected(p, c);
    }
  }

  /** A whole trade of thread t: get, call, and give the client back or drop it. */
  ghost function Traded(p: Pool, get: Event): (n: Pool)
    requires get.Get? && Enabled(p, get)
  {
    var called := TryAll(Next(p, get), get.t);
    Next(called, if called.jobs[get.t].answered then Free(get.t) else Drop(get.t))
  }

  lemma {:induction false} AfterGet(p: Pool, get: Event)
    requires get.Get? && Invariant(p) && Enabled(p, get)
    ensures var n, c := Next(p, get), get.c;
            c in n.links && n.idle == p.idle - {c} && n.dropped == p.dropped && n.created == p.created + {c}
            && n.links == p.links[c := n.links[c]]
            && n.jobs == p.jobs[get.t := Job(c, n.links[c], get.env, get.times, get.times, 0, false)]
  {
    ClientsInLinks(p);
    hide Invariant, Init;
    if p.idle != {} {
      assert p.created == p.created + {get.c} && p.links == p.links[get.c := p.links[get.c]];
    }
  }

  lemma {:induction false} AfterCall(p: Pool, get: Event)
    requires get.Get? && Invariant(p) && Enabled(p, get) && get.c in Next(p, get).links
    ensures var c, called := get.c, TryAll(Next(p, get), get.t);
            var r := Attempts(Next(p, get).links[c], get.times, get.env, 0);
            called.idle == p.idle - {c} && called.dropped == p.dropped && called.created == p.created + {c}
            && called.links == p.links[c := r.link] && called.jobs - {get.t} == p.jobs
            && called.jobs[get.t].client == c && called.jobs[get.t].answered == r.ok
  {
    AfterGet(p, get);
    assert get.t !in p.jobs;
    hide Invariant, Attempts, TryAll, Enabled, Next;
    var begun := Next(p, get);
    TryAllIsAttempts(begun, get.t);
  }

  /** An answered trade leaves the client in the pool; the other keeps it out. Nobody else is affected. */
  lemma {:induction false} TradeChanges(p: Pool, get: Event)
    requires get.Get? && Invariant(p) && Enabled(p, get)
    ensures get.c in Next(p, get).links
    ensures var n, r := Traded(p, get), Attempts(Next(p, get).links[get.c], get.times, get.env, 0);
            n.idle == (if r.ok then p.idle + {get.c} else p.idle - {get.c})
            && n.dropped == (if r.ok then p.dropped else p.dropped + {get.c})
            && n.jobs == p.jobs && n.created == p.created + {get.c} && n.links == p.links[get.c := r.link]
            && (r.ok ==> 0 < r.issued) && r.issued <= get.times
  {
    AfterGet(p, get);
    AfterCall(p, get);
    AttemptsExactly(Next(p, get).links[get.c], get.times, get.env, 0);
    hide Invariant, Attempts, TryAll;
  }

  // ---- the pool class

  class TradeInfoPool {
    var clientSet: set<TradeInfoWrapper>
    ghost var jobs: map<Thread, Job>
    ghost var dropped: set<TradeInfoWrapper>
    ghost var created: set<TradeInfoWrapper>

    /** The pool with its clients and their borrowers, at a moment when nobody holds the lock. */
    ghost function State(): (p: Pool)
      reads this, created
    {
      Pool(clientSet, jobs, dropped, created, map c | c in created :: c.State())
    }

    ghost predicate Valid()
      reads this, created
    {
      Invariant(State())
    }

    constructor ()
      ensures Valid() && State() == EMPTY
    {
      clientSet, jobs, dropped, created := {}, map[], {}, {};
      new;
      hide Invariant;
      EmptyPool();
      assert State().links == map[];
    }

    /** GetClientPtr, called by thread t: some idle client, or a new one. */
    method GetClientPtr(opens: bool, ghost t: Thread, ghost times: nat, ghost env: nat -> Luck)
      returns (client: TradeInfoWrapper)
      requires Valid() && t !in jobs
      modifies this
      ensures Valid() && Enabled(old(State()), Get(t, client, opens, times, env))
      ensures State() == Next(old(State()), Get(t, client, opens, times, env))
      ensures if old(clientSet) != {} then client in old(clientSet) && clientSet == old(clientSet) - {client}
              else fresh(client) && clientSet == {} && client.State() == Init(Link(false, false), opens)
      ensures fresh(created - old(created)) && old(created) <= created
    {
      hide Invariant;
      ghost var before := State();
      ClientsInLinks(before);
      if clientSet != {} {
        client :| client in clientSet;
        clientSet := clientSet - {client};
      } else {
        client := new TradeInfoWrapper(opens);
        created := created + {client};
      }
      ghost var event := Get(t, client, opens, times, env);
      jobs := jobs[t := Job(client, client.State(), env, times, times, 0, false)];
      NextKeeps(before, event);
      assert State().links == Next(before, event).links;
    }

    /** FreeClientPtr: a client that is still usable can be lent again. */
    method FreeClientPtr(client: TradeInfoWrapper, usable: bool, ghost t: Thread)
      requires Valid() && t in jobs && jobs[t].client == client && (usable ==> jobs[t].answered)
      modifies this
      ensures Valid() && State() == Next(old(State()), if usable then Free(t) else Drop(t))
      ensures clientSet == old(clientSet) + if usable then {client} else {}
      ensures created == old(created)
    {
      hide Invariant;
      ghost var before := State();
      NextKeeps(before, if usable then Free(t) else Drop(t));
      if usable {
        clientSet := clientSet + {client};
      } else {
        dropped := dropped + {client};
      }
      jobs := jobs - {t};
      assert State().links == before.links;
    }

    /** The call on a client that was lent to thread t, from its first pass to its last. */
    method CallOn(client: TradeInfoWrapper, flag: int, env: nat -> Luck, ghost t: Thread)
      returns (ok: bool, issued: nat)
      requires Valid() && -0x8000_0000 <= flag < 0x8000_0000 && t in jobs && jobs[t].client == client
      requires jobs[t] == Job(client, client.State(), env, Passes(flag), Passes(flag), 0, false)
      modifies this, client
      ensures Valid() && State() == TryAll(old(State()), t)
      ensures ok == jobs[t].answered && issued == jobs[t].issued && created == old(created)
    {
      hide Invariant, Attempts, TryAll, Passes, Enabled;
      ghost var before := State();
      ClientsInLinks(before);
      TryAllIsAttempts(before, t);
      TryAllKeeps(before, t);
      ok, issued := client.AddOrder(flag, env);
      jobs := TryAll(before, t).jobs;
      assert State().links == TryAll(before, t).links;
    }

    /** The pattern of src/futures_proxy.cc: get a client, call, give it back only on success. Seen
        from the pool these are the thread's events; TradeChanges says what they add up to. */
    method Trade(opens: bool, flag: int, env: nat -> Luck, ghost t: Thread)
      returns (ok: bool, issued: nat, ghost lent: TradeInfoWrapper)
      requires Valid() && -0x8000_0000 <= flag < 0x8000_0000 && t !in jobs
      modifies this, created
      ensures var get := Get(t, lent, opens, Passes(flag), env);
              Valid() && Enabled(old(State()), get) && State() == Traded(old(State()), get)
              && var r := Attempts(Next(old(State()), get).links[lent], Passes(flag), env, 0);
              ok == r.ok && issued == r.issued <= Passes(flag) && (ok ==> issued > 0)
      ensures clientSet == if ok then old(clientSet) + {lent} else old(clientSet) - {lent}
      ensures old(clientSet) != {} ==> lent in old(clientSet)
    {
      hide Invariant, TryAll, Passes, Attempts;
      var client := GetClientPtr(opens, t, Passes(flag), env);
      lent := client;
      ghost var get := Get(t, client, opens, Passes(flag), env);
      TradeChanges(old(State()), get);
      TryAllIsAttempts(State(), t);
      ok, issued := CallOn(client, flag, env, t);
      FreeClientPtr(client, ok, t);
    }
  }
}
