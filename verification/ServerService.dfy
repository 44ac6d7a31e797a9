/**
 When the server gives service: accepting goes on, and a registered connection is read, unless
 one particular error has happened; and once it has happened, never again.
 */
module ServerService {
  import opened Wrappers
  import opened Server
  import opened ServerProperties

  // ----- accepting -----

  /** Nothing is accepting any more: no accept is outstanding and none is being handled. */
  ghost predicate Closed(s: State) { s.accepts == 0 && forall h :: h in s.handlers ==> !IsAccept(s.handlers[h]) }

  lemma StepStaysClosed(s: State, e: Event)
    requires Closed(s) && Step(s, e).Some?
    ensures Closed(Step(s, e).value) && Step(s, e).value.clients <= s.clients
  {
  }

  lemma {:induction false} ClosedForGood(s: State, events: seq<Event>)
    requires Closed(s) && Exec(s, events).Some?
    ensures Exec(s, events).value.clients <= s.clients && Closed(Exec(s, events).value)
    decreases |events|
  {
    hide Closed, Step;
    if events != [] {
      StepStaysClosed(s, events[0]);
      ClosedForGood(Step(s, events[0]).value, events[1..]);
    }
  }

  /** One failed accept ends admission: nobody is registered in any continuation. */
  lemma FailedAcceptIsFinal(max: nat, events: seq<Event>, s: State, more: seq<Event>)
    requires Reached(max, events, s) && Step(s, AcceptDone(true)).Some?
    requires Exec(Step(s, AcceptDone(true)).value, more).Some?
    ensures Exec(Step(s, AcceptDone(true)).value, more).value.clients <= s.clients
  {
    ReachedHasInv(max, events, s);
    ClosedForGood(Step(s, AcceptDone(true)).value, more);
  }

  /** No other event stops accepting. */
  lemma StepKeepsAccepting(s: State, e: Event)
    requires !Closed(s) && Fresh(s) && Step(s, e).Some? && e != AcceptDone(true)
    ensures !Closed(Step(s, e).value)
  {
    var s' := Step(s, e).value;
    match e
    case AcceptDone(_) => assert IsAccept(s'.handlers[s.nextHandler]);
    case ReadDone(_, _) =>
      if s.accepts == 0 {
        var h :| h in s.handlers && IsAccept(s.handlers[h]);
        assert h in s'.handlers && s'.handlers[h] == s.handlers[h];
      }
    case Proceed(k, _) =>
      if s.accepts == 0 {
        var h :| h in s.handlers && IsAccept(s.handlers[h]);
        AcceptorStays(s, k, e.insertFails, h);
      }
  }

  /** An accept handler stays one until it starts the next accept. */
  lemma AcceptorStays(s: State, k: nat, insertFails: bool, h: nat)
    requires k in s.handlers && StepOf(s, k, insertFails).Some? && h in s.handlers && IsAccept(s.handlers[h])
    ensures var s' := StepOf(s, k, insertFails).value;
      s'.accepts >= s.accepts && (s'.accepts > 0 || (h in s'.handlers && IsAccept(s'.handlers[h])))
  {
  }

  lemma FailureCloses(s: State)
    requires Inv(s) && Step(s, AcceptDone(true)).Some?
    ensures Closed(Step(s, AcceptDone(true)).value)
  {
  }

  lemma {:induction false} OpenUnlessFailed(s: State, events: seq<Event>)
    requires Inv(s) && !Closed(s) && Exec(s, events).Some?
    ensures Closed(Exec(s, events).value) <==> AcceptDone(true) in events
    decreases |events|
  {
    if events != [] {
      var next := Step(s, events[0]).value;
      assert events == [events[0]] + events[1..];
      assert Fresh(s);
      hide Closed, Step, Inv;
      if events[0] == AcceptDone(true) {
        FailureCloses(s);
        ClosedForGood(next, events[1..]);
      } else {
        StepKeepsAccepting(s, events[0]);
        StepKeepsInv(s, events[0]);
        OpenUnlessFailed(next, events[1..]);
      }
    }
  }

  /** Over every run: the server has stopped accepting if and only if some accept has failed. */
  lemma AcceptingExactly(max: nat, events: seq<Event>, s: State)
    requires Reached(max, events, s)
    ensures Closed(s) <==> AcceptDone(true) in events
  {
    InitHasInv(max);
    OpenUnlessFailed(Init(max), events);
  }

  /** The failure can be the first thing that happens; then nobody is ever admitted. */
  lemma FirstAcceptCanFail(max: nat, more: seq<Event>) returns (s: State)
    requires max < UINT32_RANGE
    ensures Reached(max, [AcceptDone(true)], s) && Closed(s)
    ensures Exec(s, more).Some? ==> Exec(s, more).value.clients == {}
  {
    s := Step(Init(max), AcceptDone(true)).value;
    assert [AcceptDone(true)][1..] == [];
    assert Exec(s, []) == Some(s);
    if Exec(s, more).Some? { ClosedForGood(s, more); }
  }

  // ----- serving a connection -----

  /** A read is outstanding on it, or some handler still has it. */
  ghost predicate Served(s: State, c: Conn) { c in s.pending || !NoUser(s.handlers, c) }

  /** On the list, with neither a read nor a handler. */
  ghost predicate Abandoned(s: State, c: Conn) { c in s.clients && c !in s.pending && NoUser(s.handlers, c) }

  lemma StepStaysAbandoned(s: State, e: Event, c: Conn)
    requires Inv(s) && Abandoned(s, c) && Step(s, e).Some?
    ensures Abandoned(Step(s, e).value, c)
  {
    assert c < s.nextConn;
    var hs := s.handlers;
    hide Inv, NoUser, StepOf;
    match e
    case AcceptDone(_) => UnusedPut(hs, s.nextHandler, Arrived, c);
    case ReadDone(conn, _) =>
      UnusedPut(hs, s.nextHandler, Serving(conn), c);
      UnusedPut(hs, s.nextHandler, Closing(conn), c);
    case Proceed(h, insertFails) =>
      ListKeepsUnused(s, h, insertFails, c);
      HandlersKeepUnused(s, h, insertFails, c);
  }

  lemma ListKeepsUnused(s: State, h: nat, insertFails: bool, c: Conn)
    requires Abandoned(s, c) && h in s.handlers && StepOf(s, h, insertFails).Some?
    ensures var s' := StepOf(s, h, insertFails).value; c in s'.clients && c !in s'.pending
  {
    if Uses(s.handlers[h]) { UnusedAt(s.handlers, h, c); }
    hide NoUser;
  }

  lemma HandlersKeepUnused(s: State, h: nat, insertFails: bool, c: Conn)
    requires c < s.nextConn && NoUser(s.handlers, c) && h in s.handlers && StepOf(s, h, insertFails).Some?
    ensures NoUser(StepOf(s, h, insertFails).value.handlers, c)
  {
    var s', hs := StepOf(s, h, insertFails).value, s.handlers;
    if Uses(hs[h]) { UnusedAt(hs, h, c); }
    hide NoUser;
    UnusedPut(hs, h, if h in s'.handlers then s'.handlers[h] else Answering, c);
  }

  lemma UnusedAt(hs: Handlers, h: nat, c: Conn)
    requires NoUser(hs, c) && h in hs && Uses(hs[h])
    ensures hs[h].conn != c
  {
  }

  lemma UnusedPut(hs: Handlers, h: nat, pc: Pc, c: Conn)
    requires NoUser(hs, c) && (Uses(pc) ==> pc.conn != c)
    ensures NoUser(hs[h := pc], c) && NoUser(hs - {h}, c)
  {
  }

  lemma {:induction false} AbandonedForGood(s: State, events: seq<Event>, c: Conn)
    requires Inv(s) && Abandoned(s, c) && Exec(s, events).Some?
    ensures Abandoned(Exec(s, events).value, c)
    decreases |events|
  {
    hide Step, Inv, Abandoned;
    if events != [] {
      StepKeepsInv(s, events[0]);
      StepStaysAbandoned(s, events[0], c);
      AbandonedForGood(Step(s, events[0]).value, events[1..], c);
    }
  }

  /** A read error that is not the end of the stream leaves the connection registered for good. */
  lemma OtherErrorKeepsTheSlot(max: nat, events: seq<Event>, s: State, c: Conn, more: seq<Event>)
    requires Reached(max, events, s) && c in s.pending
    requires Exec(Step(s, ReadDone(c, OtherError)).value, more).Some?
    ensures c in Exec(Step(s, ReadDone(c, OtherError)).value, more).value.clients
  {
    ReachedHasInv(max, events, s);
    StepKeepsInv(s, ReadDone(c, OtherError));
    AbandonedForGood(Step(s, ReadDone(c, OtherError)).value, more, c);
  }

  /** No other event leaves a registered connection without a read and without a handler. */
  lemma StepKeepsServed(s: State, e: Event, c: Conn)
    requires Inv(s) && (c in s.clients ==> Served(s, c)) && Step(s, e).Some? && e != ReadDone(c, OtherError)
    ensures c in Step(s, e).value.clients ==> Served(Step(s, e).value, c)
  {
    var hs := s.handlers;
    assert s.nextHandler !in hs;
    hide Inv, NoUser, StepOf;
    match e
    case AcceptDone(_) =>
      if !NoUser(hs, c) { UserStays(hs, s.nextHandler, Arrived, c); }
    case ReadDone(conn, _) =>
      UserPut(hs, s.nextHandler, Serving(conn));
      UserPut(hs, s.nextHandler, Closing(conn));
      if !NoUser(hs, c) {
        UserStays(hs, s.nextHandler, Serving(conn), c);
        UserStays(hs, s.nextHandler, Closing(conn), c);
      }
    case Proceed(h, insertFails) => ProceedKeepsServed(s, h, insertFails, c);
  }

  lemma ProceedKeepsServed(s: State, h: nat, insertFails: bool, c: Conn)
    requires (c in s.clients ==> Served(s, c)) && h in s.handlers && StepOf(s, h, insertFails).Some?
    ensures var s' := StepOf(s, h, insertFails).value; c in s'.clients ==> Served(s', c)
  {
    var s', hs := StepOf(s, h, insertFails).value, s.handlers;
    hide NoUser;
    if h in s'.handlers && Uses(s'.handlers[h]) { UserPut(hs, h, s'.handlers[h]); }
    if !NoUser(hs, c) && (!Uses(hs[h]) || hs[h].conn != c) {
      UserStays(hs, h, if h in s'.handlers then s'.handlers[h] else Answering, c);
    }
  }

  lemma UserPut(hs: Handlers, h: nat, pc: Pc)
    requires Uses(pc)
    ensures !NoUser(hs[h := pc], pc.conn)
  {
    assert hs[h := pc][h] == pc;
  }

  /** A user other than handler h stays one. */
  lemma UserStays(hs: Handlers, h: nat, pc: Pc, c: Conn)
    requires !NoUser(hs, c) && (h !in hs || !Uses(hs[h]) || hs[h].conn != c)
    ensures !NoUser(hs[h := pc], c) && !NoUser(hs - {h}, c)
  {
    var g :| g in hs && Uses(hs[g]) && hs[g].conn == c;
    assert hs[h := pc][g] == hs[g] && (hs - {h})[g] == hs[g];
  }

  lemma {:induction false} ServedUnlessError(s: State, events: seq<Event>, c: Conn)
    requires Inv(s) && (c in s.clients ==> Served(s, c)) && Exec(s, events).Some?
    ensures var s' := Exec(s, events).value;
      c in s'.clients ==> (Served(s', c) <==> ReadDone(c, OtherError) !in events)
    decreases |events|
  {
    if events != [] {
      var next := Step(s, events[0]).value;
      assert events == [events[0]] + events[1..];
      hide Step, Inv, NoUser;
      StepKeepsInv(s, events[0]);
      if events[0] == ReadDone(c, OtherError) {
        ErrorAbandons(s, c);
        AbandonedForGood(next, events[1..], c);
      } else {
        StepKeepsServed(s, events[0], c);
        ServedUnlessError(next, events[1..], c);
      }
    }
  }

  lemma ErrorAbandons(s: State, c: Conn)
    requires Inv(s) && Step(s, ReadDone(c, OtherError)).Some?
    ensures Abandoned(Step(s, ReadDone(c, OtherError)).value, c)
  {
    hide NoUser;
    ReadEnded(s.clients, s.pending, s.handlers, c);
  }

  /**
   Over every run: a registered connection is served if and only if none of its reads has
   ended in an error other than the end of the stream.
   */
  lemma ServedExactly(max: nat, events: seq<Event>, s: State, c: Conn)
    requires Reached(max, events, s) && c in s.clients
    ensures Served(s, c) <==> ReadDone(c, OtherError) !in events
  {
    InitHasInv(max);
    ServedUnlessError(Init(max), events, c);
  }

  // ----- a server full of connections nobody reads -----

  function FirstConns(k: nat): (cs: set<Conn>)
    ensures forall c: Conn :: c in cs <==> c < k
    ensures |cs| == k
  {
    if k == 0 then {} else FirstConns(k - 1) + {k - 1}
  }

  /** k connections were accepted, and each one's read failed. */
  function Forgotten(max: nat, k: nat): State {
    State(max, FirstConns(k), k, None, 1, multiset{}, map[], k, k)
  }

  /** Connection k on its way in: handler k at pc, with the shared state it has left so far. */
  function OnItsWay(max: nat, k: nat, pc: Pc, listed: bool, counter: nat): State {
    State(max, FirstConns(if listed then k + 1 else k), counter, if Holds(pc) then Some(k) else None, 0,
          if pc.Answering? then multiset{k} else multiset{}, map[k := pc], if listed then k + 1 else k, k + 1)
  }

  lemma ExecOne(s: State, e: Event, rest: seq<Event>)
    requires Step(s, e).Some?
    ensures Exec(s, [e] + rest) == Exec(Step(s, e).value, rest)
  {
    assert ([e] + rest)[1..] == rest;
  }

  /** Handler k is admitted and takes the mutex. */
  lemma Entering(max: nat, k: nat)
    requires k < max < UINT32_RANGE
    ensures var go := Proceed(k, false);
      && Step(Forgotten(max, k), AcceptDone(false)) == Some(OnItsWay(max, k, Arrived, false, k))
      && Step(OnItsWay(max, k, Arrived, false, k), go) == Some(OnItsWay(max, k, Admitting, false, k))
      && Step(OnItsWay(max, k, Admitting, false, k), go) == Some(OnItsWay(max, k, Locked, false, k))
  {
    hide FirstConns;
    PutTwice(k, Arrived, Admitting);
    PutTwice(k, Admitting, Locked);
  }

  lemma PutTwice(k: nat, a: Pc, b: Pc)
    ensures map[k := a][k := b] == map[k := b]
  {
  }

  /** It registers connection k, */
  lemma Registering(max: nat, k: nat)
    requires k < max < UINT32_RANGE
    ensures Step(OnItsWay(max, k, Locked, false, k), Proceed(k, false)) == Some(OnItsWay(max, k, Inserted(k), true, k))
  {
    assert FirstConns(k + 1) == FirstConns(k) + {k};
    hide FirstConns;
    PutTwice(k, Locked, Inserted(k));
  }

  /** and counts it. */
  lemma Counting(max: nat, k: nat)
    requires k < max < UINT32_RANGE
    ensures Step(OnItsWay(max, k, Inserted(k), true, k), Proceed(k, false))
      == Some(OnItsWay(max, k, Counted(k), true, k + 1))
  {
    assert (k + 1) % UINT32_RANGE == k + 1;
    hide FirstConns;
    PutTwice(k, Inserted(k), Counted(k));
  }

  /** It lets the mutex go and starts the read. */
  lemma Reading(max: nat, k: nat)
    requires k < max < UINT32_RANGE
    ensures var go := Proceed(k, false);
      && Step(OnItsWay(max, k, Counted(k), true, k + 1), go) == Some(OnItsWay(max, k, Released(k), true, k + 1))
      && Step(OnItsWay(max, k, Released(k), true, k + 1), go) == Some(OnItsWay(max, k, Answering, true, k + 1))
  {
    hide FirstConns;
    assert multiset{} + multiset{k} == multiset{k};
    PutTwice(k, Counted(k), Released(k));
    PutTwice(k, Released(k), Answering);
  }

  /** The handler starts the next accept, and the read fails. */
  lemma Forgetting(max: nat, k: nat)
    requires k < max < UINT32_RANGE
    ensures var answered := Step(OnItsWay(max, k, Answering, true, k + 1), Proceed(k, false));
      answered.Some? && Step(answered.value, ReadDone(k, OtherError)) == Some(Forgotten(max, k + 1))
  {
    hide FirstConns;
    assert map[k := Answering] - {k} == map[];
    assert multiset{k} - multiset{k} == multiset{};
  }

  /** The whole story of connection k. */
  function Lap(k: nat): seq<Event> {
    var go := Proceed(k, false);
    [AcceptDone(false), go, go, go, go, go, go, go, ReadDone(k, OtherError)]
  }

  lemma Steps(s: State, events: seq<Event>, i: nat, t: State)
    requires i < |events| && Step(s, events[i]) == Some(t)
    ensures Exec(s, events[i..]) == Exec(t, events[i + 1..])
  {
    hide Step;
    assert events[i..] == [events[i]] + events[i + 1..];
    ExecOne(s, events[i], events[i + 1..]);
  }

  lemma LapForgets(max: nat, k: nat)
    requires k < max < UINT32_RANGE
    ensures Exec(Forgotten(max, k), Lap(k)) == Some(Forgotten(max, k + 1))
  {
    var es, go := Lap(k), Proceed(k, false);
    Entering(max, k);
    Registering(max, k);
    Counting(max, k);
    Reading(max, k);
    Forgetting(max, k);
    var done := Step(OnItsWay(max, k, Answering, true, k + 1), go).value;
    hide Step, OnItsWay, Forgotten;
    Steps(Forgotten(max, k), es, 0, OnItsWay(max, k, Arrived, false, k));
    Steps(OnItsWay(max, k, Arrived, false, k), es, 1, OnItsWay(max, k, Admitting, false, k));
    Steps(OnItsWay(max, k, Admitting, false, k), es, 2, OnItsWay(max, k, Locked, false, k));
    Steps(OnItsWay(max, k, Locked, false, k), es, 3, OnItsWay(max, k, Inserted(k), true, k));
    Steps(OnItsWay(max, k, Inserted(k), true, k), es, 4, OnItsWay(max, k, Counted(k), true, k + 1));
    Steps(OnItsWay(max, k, Counted(k), true, k + 1), es, 5, OnItsWay(max, k, Released(k), true, k + 1));
    Steps(OnItsWay(max, k, Released(k), true, k + 1), es, 6, OnItsWay(max, k, Answering, true, k + 1));
    Steps(OnItsWay(max, k, Answering, true, k + 1), es, 7, done);
    Steps(done, es, 8, Forgotten(max, k + 1));
    assert es[0..] == es && es[9..] == [];
  }

  lemma {:induction false} LapsForget(max: nat, k: nat) returns (events: seq<Event>)
    requires k <= max < UINT32_RANGE
    ensures Exec(Init(max), events) == Some(Forgotten(max, k))
  {
    if k == 0 {
      events := [];
      assert FirstConns(0) == {};
    } else {
      var before := LapsForget(max, k - 1);
      LapForgets(max, k - 1);
      hide Exec, Forgotten;
      ExecBoth(Init(max), before, Lap(k - 1));
      events := before + Lap(k - 1);
    }
  }

  /**
   Read errors can fill the server for good: for every limit some run leads to a state with all
   places taken by connections nobody reads, and no continuation ever serves one of them or
   registers anybody else.
   */
  lemma ErrorsCanFillTheServer(max: nat, more: seq<Event>) returns (events: seq<Event>, s: State)
    requires max < UINT32_RANGE
    ensures Reached(max, events, s) && |s.clients| == max && forall c :: c in s.clients ==> Abandoned(s, c)
    ensures Exec(s, more).Some? ==>
      Exec(s, more).value.clients == s.clients && forall c :: c in s.clients ==> Abandoned(Exec(s, more).value, c)
  {
    events := LapsForget(max, max);
    s := Forgotten(max, max);
    assert forall c :: c in s.clients ==> Abandoned(s, c);
    ReachedHasInv(max, events, s);
    if Exec(s, more).Some? {
      var s' := Exec(s, more).value;
      ExecBoth(Init(max), events, more);
      CounterAccounts(max, events + more, s');
      hide Abandoned;
      forall c | c in s.clients ensures Abandoned(s', c) { AbandonedForGood(s, more, c); }
      AbandonedAreListed(s, s');
      SubsetOfSameSize(s.clients, s'.clients);
    }
  }

  lemma AbandonedAreListed(s: State, s': State)
    requires forall c :: c in s.clients ==> Abandoned(s', c)
    ensures s.clients <= s'.clients
  {
  }

  lemma SubsetOfSameSize(a: set<Conn>, b: set<Conn>)
    requires a <= b && |b| <= |a|
    ensures a == b
  {
    assert b == a + (b - a);
  }
}
