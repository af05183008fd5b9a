/** The set of open connections, shared by all callback threads and the monitor thread. */
module ConnectionManager {
  import opened Options

  /** A ConnectionPtr: which connection it is. */
  type Ptr = nat

  /** The managed set, what the lock holder is in the middle of, and the history: connections that
      were handed to Start, whose first read was issued, that were inserted, refused (Start failed),
      or erased without a stop, and how often each one was told to stop. */
  datatype Manager = Manager(connections: set<Ptr>, starting: Starting, begun: set<Ptr>, reading: set<Ptr>,
                             inserted: set<Ptr>, refused: set<Ptr>, erased: set<Ptr>, stops: multiset<Ptr>)

  datatype Starting = Unlocked | Holding(c: Ptr, ok: bool)

  /** Start holds the lock across both halves: c->Start(), which issues the first read, and the
      insertion. The other operations take the lock for as long as they run. */
  datatype Event =
    | StartBegin(c: Ptr, ok: bool)
    | StartEnd
    | Stop(c: Ptr)
    | Erase(c: Ptr)
    | StopAll
    | Sweep(timedOut: set<Ptr>)

  const EMPTY := Manager({}, Unlocked, {}, {}, {}, {}, {}, multiset{})

  /** A thread gets to run only when the lock allows it. */
  predicate Enabled(m: Manager, e: Event) {
    if e.StartEnd? then m.starting.Holding? else m.starting.Unlocked?
  }

  /** The server starts each connection once. */
  predicate StartsOnce(m: Manager, e: Event) {
    e.StartBegin? ==> e.c !in m.begun
  }

  function Next(m: Manager, e: Event): (after: Manager)
    requires Enabled(m, e)
  {
    match e
    case StartBegin(c, ok) =>
      m.(starting := Holding(c, ok), begun := m.begun + {c}, reading := m.reading + (if ok then {c} else {}))
    case StartEnd =>
      var c := m.starting.c;
      if m.starting.ok then m.(starting := Unlocked, connections := m.connections + {c}, inserted := m.inserted + {c})
      else m.(starting := Unlocked, refused := m.refused + {c}, stops := m.stops + multiset{c})
    case Stop(c) => StopEach(m, m.connections * {c})
    case Erase(c) => m.(connections := m.connections - {c}, erased := m.erased + m.connections * {c})
    case StopAll => StopEach(m, m.connections)
    case Sweep(timedOut) => StopEach(m, m.connections * timedOut)
  }

  /** Members taken out of the set are told to stop, once each. */
  function StopEach(m: Manager, cs: set<Ptr>): (after: Manager) {
    m.(connections := m.connections - cs, stops := m.stops + multiset(cs))
  }

  /** Inserted connections that are neither managed nor erased. */
  function Stopped(m: Manager): (ps: set<Ptr>) {
    m.inserted - m.connections - m.erased
  }

  /** Every connection that Start was called for is in exactly one place. */
  ghost predicate Placed(m: Manager) {
    m.connections <= m.inserted && m.erased <= m.inserted && m.connections !! m.erased &&
    m.refused !! m.inserted &&
    m.begun == m.inserted + m.refused + (if m.starting.Holding? then {m.starting.c} else {}) &&
    (m.starting.Holding? ==> m.starting.c !in m.inserted + m.refused) &&
    m.reading == m.inserted + (if m.starting.Holding? && m.starting.ok then {m.starting.c} else {})
  }

  /** The connections that the manager has told to stop. */
  function ToldToStop(m: Manager): (ps: set<Ptr>) {
    m.refused + Stopped(m)
  }

  ghost predicate Invariant(m: Manager) {
    Placed(m) && m.stops == multiset(ToldToStop(m))
  }

  lemma {:induction false} MultisetOfUnion(a: set<Ptr>, b: set<Ptr>)
    requires a !! b
    ensures multiset(a + b) == multiset(a) + multiset(b)
  {
  }

  lemma {:induction false} NextKeeps(m: Manager, e: Event)
    requires Invariant(m) && Enabled(m, e) && StartsOnce(m, e)
    ensures Invariant(Next(m, e))
  {
    hide Placed, ToldToStop;
    match e
    case StartBegin(c, ok) => StartBeginPlaced(m, c, ok);
    case StartEnd => StartEndKeeps(m);
    case Stop(c) => StopsAdd(m, m.connections * {c});
    case Erase(c) => ErasePlaced(m, c);
    case StopAll => StopsAdd(m, m.connections);
    case Sweep(timedOut) => StopsAdd(m, m.connections * timedOut);
  }

  lemma {:induction false} StartBeginPlaced(m: Manager, c: Ptr, ok: bool)
    requires Placed(m) && m.starting.Unlocked? && c !in m.begun
    ensures Placed(Next(m, StartBegin(c, ok))) && ToldToStop(Next(m, StartBegin(c, ok))) == ToldToStop(m)
  {
  }

  lemma {:induction false} ErasePlaced(m: Manager, c: Ptr)
    requires Placed(m) && m.starting.Unlocked?
    ensures Placed(Next(m, Erase(c))) && ToldToStop(Next(m, Erase(c))) == ToldToStop(m)
  {
    assert Stopped(Next(m, Erase(c))) == Stopped(m);
  }

  lemma {:induction false} StartEndKeeps(m: Manager)
    requires Invariant(m) && m.starting.Holding?
    ensures Invariant(Next(m, StartEnd))
  {
    StartEndPlaced(m);
    hide Placed;
    if !m.starting.ok {
      MultisetOfUnion(ToldToStop(m), {m.starting.c});
    }
  }

  lemma {:induction false} StartEndPlaced(m: Manager)
    requires Placed(m) && m.starting.Holding?
    ensures Placed(Next(m, StartEnd)) && m.starting.c !in ToldToStop(m)
    ensures ToldToStop(Next(m, StartEnd)) == if m.starting.ok then ToldToStop(m) else ToldToStop(m) + {m.starting.c}
  {
    var c := m.starting.c;
    if m.starting.ok {
      InsertStopsNobody(m, c);
    } else {
      assert ToldToStop(Next(m, StartEnd)) == ToldToStop(m) + {c};
    }
  }

  lemma {:induction false} InsertStopsNobody(m: Manager, c: Ptr)
    requires m.connections <= m.inserted && c !in m.inserted && m.erased <= m.inserted
    ensures m.inserted + {c} - (m.connections + {c}) - m.erased == Stopped(m)
  {
  }

  lemma {:induction false} StopsAdd(m: Manager, cs: set<Ptr>)
    requires Invariant(m) && cs <= m.connections
    ensures Invariant(StopEach(m, cs))
  {
    assert ToldToStop(StopEach(m, cs)) == ToldToStop(m) + cs;
    MultisetOfUnion(ToldToStop(m), cs);
  }

  /** An interleaving of the locked operations; None when some thread ran against the lock, or a
      connection was started again. */
  function RunEvents(es: seq<Event>): (r: Option<Manager>)
    ensures r.Some? ==> Invariant(r.value)
  {
    if es == [] then Some(EMPTY)
    else
      var before := RunEvents(es[..|es| - 1]);
      if before.None? || !Enabled(before.value, es[|es| - 1]) || !StartsOnce(before.value, es[|es| - 1]) then None
      else
        NextKeeps(before.value, es[|es| - 1]);
        Some(Next(before.value, es[|es| - 1]))
  }

  /** Conservation, over every interleaving: inserted = managed + stopped + erased, and nobody is
      told to stop twice. */
  lemma {:induction false} Conservation(es: seq<Event>)
    requires RunEvents(es).Some?
    ensures var m := RunEvents(es).value;
            |m.inserted| == |m.connections| + |Stopped(m)| + |m.erased|
            && (forall c :: m.stops[c] <= 1)
            && (forall c :: m.stops[c] == 1 <==> c in m.refused || c in Stopped(m))
  {
    var m := RunEvents(es).value;
    assert m.inserted == m.connections + Stopped(m) + m.erased;
    assert m.refused !! Stopped(m);
  }

  /** A connection whose first read was issued is found by the first operation that looks for it: at
      any moment at which the lock is free it is managed, or it was already stopped or erased. */
  lemma {:induction false} StartedIsFound(es: seq<Event>, c: Ptr)
    requires RunEvents(es).Some? && RunEvents(es).value.starting.Unlocked? && c in RunEvents(es).value.reading
    ensures var m := RunEvents(es).value;
            c in m.connections || m.stops[c] == 1 || c in m.erased
    ensures RunEvents(es).value.stops[c] == 0 && c !in RunEvents(es).value.erased ==>
              RunEvents(es + [Stop(c)]).Some? && RunEvents(es + [Stop(c)]).value.stops[c] == 1
  {
    Conservation(es);
    assert (es + [Stop(c)])[..|es|] == es;
  }

  // What each locked operation does to each connection c, at the end of any run.

  /** A sweep takes out the members that have timed out, and tells each of them once to stop. */
  lemma {:induction false} SweepExactly(es: seq<Event>, timedOut: set<Ptr>, c: Ptr)
    requires RunEvents(es + [Sweep(timedOut)]).Some?
    ensures RunEvents(es).Some?
    ensures var before, after := RunEvents(es).value, RunEvents(es + [Sweep(timedOut)]).value;
            (c in after.connections <==> c in before.connections && c !in timedOut)
            && after.stops[c] == before.stops[c] + (if c in before.connections && c in timedOut then 1 else 0)
            && (c in after.erased <==> c in before.erased) && (c in after.inserted <==> c in before.inserted)
  {
    assert (es + [Sweep(timedOut)])[..|es|] == es;
  }

  /** Stop(d) takes out d, tells it to stop if it was a member, and touches nobody else. */
  lemma {:induction false} StopExactly(es: seq<Event>, d: Ptr, c: Ptr)
    requires RunEvents(es + [Stop(d)]).Some?
    ensures RunEvents(es).Some?
    ensures var before, after := RunEvents(es).value, RunEvents(es + [Stop(d)]).value;
            (c in after.connections <==> c in before.connections && c != d)
            && after.stops[c] == before.stops[c] + (if c == d && c in before.connections then 1 else 0)
            && (c in after.erased <==> c in before.erased) && (c in after.inserted <==> c in before.inserted)
  {
    assert (es + [Stop(d)])[..|es|] == es;
  }

  /** Erase(d) takes out d and tells nobody to stop. */
  lemma {:induction false} EraseExactly(es: seq<Event>, d: Ptr, c: Ptr)
    requires RunEvents(es + [Erase(d)]).Some?
    ensures RunEvents(es).Some?
    ensures var before, after := RunEvents(es).value, RunEvents(es + [Erase(d)]).value;
            (c in after.connections <==> c in before.connections && c != d) && after.stops[c] == before.stops[c]
            && (c in after.erased <==> c in before.erased || (c == d && c in before.connections))
            && (c in after.inserted <==> c in before.inserted)
  {
    assert (es + [Erase(d)])[..|es|] == es;
  }

  /** StopAll takes out everybody and tells every member once to stop. */
  lemma {:induction false} StopAllExactly(es: seq<Event>, c: Ptr)
    requires RunEvents(es + [StopAll]).Some?
    ensures RunEvents(es).Some?
    ensures var before, after := RunEvents(es).value, RunEvents(es + [StopAll]).value;
            c !in after.connections && after.stops[c] == before.stops[c] + (if c in before.connections then 1 else 0)
  {
    assert (es + [StopAll])[..|es|] == es;
  }

  /** Start(d) makes d a member if its Start succeeded, and else tells it to stop. */
  lemma {:induction false} StartExactly(es: seq<Event>, d: Ptr, ok: bool, c: Ptr)
    requires RunEvents(es + [StartBegin(d, ok), StartEnd]).Some?
    ensures RunEvents(es).Some?
    ensures var before, after := RunEvents(es).value, RunEvents(es + [StartBegin(d, ok), StartEnd]).value;
            (c in after.connections <==> c in before.connections || (c == d && ok))
            && after.stops[c] == before.stops[c] + (if c == d && !ok then 1 else 0)
  {
    hide Invariant, ToldToStop;
    var begun := es + [StartBegin(d, ok)];
    assert begun[..|es|] == es;
    assert es + [StartBegin(d, ok), StartEnd] == begun + [StartEnd] && (begun + [StartEnd])[..|begun|] == begun;
  }

  /** After StopAll nothing is managed, and every inserted connection was stopped once or erased. */
  lemma {:induction false} StopAllStops(es: seq<Event>)
    requires RunEvents(es + [StopAll]).Some?
    ensures var m := RunEvents(es + [StopAll]).value;
            m.connections == {} && forall c :: c in m.inserted - m.erased ==> m.stops[c] == 1
  {
    assert (es + [StopAll])[..|es|] == es;
    Conservation(es + [StopAll]);
  }

  // ---- the class

  /** The timed-out connections among those that the walk has passed, when `todo` is still to come. */
  function Due(all: set<Ptr>, todo: set<Ptr>, timedOut: set<Ptr>): (due: set<Ptr>)
    ensures due <= all && due !! todo
    ensures (todo == all ==> due == {}) && (todo == {} ==> due == all * timedOut)
  {
    (all - todo) * timedOut
  }

  lemma {:induction false} WalkOne(all: set<Ptr>, todo: set<Ptr>, timedOut: set<Ptr>, c: Ptr)
    requires c in todo && todo <= all
    ensures c !in Due(all, todo, timedOut)
    ensures Due(all, todo - {c}, timedOut) == Due(all, todo, timedOut) + if c in timedOut then {c} else {}
  {
  }

  /** One more stop, for a connection that was not stopped in this walk. */
  lemma {:induction false} OneMore(m: Manager, gone: set<Ptr>, c: Ptr)
    requires c !in gone
    ensures StopEach(StopEach(m, gone), {c}) == StopEach(m, gone + {c})
  {
    MultisetOfUnion(gone, {c});
    assert m.connections - gone - {c} == m.connections - (gone + {c});
  }

  lemma {:induction false} NoneStopped(m: Manager)
    ensures StopEach(m, {}) == m
  {
  }

  class ConnectionManager {
    var connections: set<Ptr>
    ghost var begun: set<Ptr>
    ghost var reading: set<Ptr>
    ghost var inserted: set<Ptr>
    ghost var refused: set<Ptr>
    ghost var erased: set<Ptr>
    ghost var stops: multiset<Ptr>

    ghost function State(): (after: Manager)
      reads this
    {
      Manager(connections, Unlocked, begun, reading, inserted, refused, erased, stops)
    }

    constructor ()
      ensures State() == EMPTY
    {
      connections, begun, reading, inserted, refused, erased, stops := {}, {}, {}, {}, {}, {}, multiset{};
    }

    /** c->Stop(). */
    method StopConnection(c: Ptr)
      modifies `stops
      ensures stops == old(stops) + multiset{c}
    {
      stops := stops + multiset{c};
    }

    /** Start; `ok` is what c->Start() returns. */
    method Start(c: Ptr, ok: bool)
      modifies this
      ensures State() == Next(Next(old(State()), StartBegin(c, ok)), StartEnd)
    {
      begun := begun + {c};
      if ok {
        reading := reading + {c};
        connections, inserted := connections + {c}, inserted + {c};
      } else {
        refused := refused + {c};
        StopConnection(c);
      }
    }

    /** What Stop and the sweep do with a member. */
    method TakeOut(c: Ptr)
      modifies this
      ensures State() == StopEach(old(State()), {c})
    {
      connections := connections - {c};
      StopConnection(c);
    }

    method Stop(c: Ptr)
      modifies this
      ensures State() == Next(old(State()), Event.Stop(c))
    {
      if c in connections {
        TakeOut(c);
        assert old(connections) * {c} == {c};
      } else {
        assert old(connections) * {c} == {};
      }
    }

    method Erase(c: Ptr)
      modifies this
      ensures State() == Next(old(State()), Event.Erase(c))
    {
      erased := erased + connections * {c};
      connections := connections - {c};
    }

    method StopAll()
      modifies this
      ensures State() == Next(old(State()), Event.StopAll)
    {
      var todo := connections;
      while todo != {}
        invariant todo <= connections == old(connections) && State() == old(State()).(stops := stops)
        invariant stops == old(stops) + multiset(connections - todo)
      {
        var c :| c in todo;
        todo := todo - {c};
        StopConnection(c);
        assert connections - todo == (connections - (todo + {c})) + {c};
      }
      connections := {};
    }

    /** One round of the monitor thread: members are erased while the set is walked. */
    method Sweep(timedOut: set<Ptr>)
      modifies this
      ensures State() == Next(old(State()), Event.Sweep(timedOut))
    {
      hide Due, StopEach;
      NoneStopped(State());
      var todo := connections;
      ghost var all, gone := connections, Due(connections, connections, timedOut);
      while todo != {}
        invariant todo <= all && gone == Due(all, todo, timedOut)
        invariant State() == old(StopEach(State(), gone))
        decreases todo
      {
        var c :| c in todo;
        WalkOne(all, todo, timedOut, c);
        todo := todo - {c};
        if c in timedOut {
          OneMore(old(State()), gone, c);
          TakeOut(c);
          gone := gone + {c};
        }
      }
    }
  }
}
