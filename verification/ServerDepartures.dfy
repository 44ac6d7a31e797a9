/**
 What becomes of a client that hangs up: it leaves the list and is counted off, and no handler waits
 for ever.
 */
module ServerDepartures {
  import opened Wrappers
  import opened Server
  import opened ServerProperties

  // ----- off the list -----

  /** A handler on its way to erase c. */
  predicate Removes(pc: Pc, c: Conn) { (pc.Closing? || pc.Shut? || pc.Owning?) && pc.conn == c }

  ghost predicate BeingRemoved(hs: Handlers, c: Conn) { exists h :: h in hs && Removes(hs[h], c) }

  /** Of the connections so far, those are registered whose stream has not ended, and those being removed. */
  ghost predicate ListOk(s: State, c: Conn, ended: bool) {
    && (c < s.nextConn ==> (c in s.clients <==> !ended || BeingRemoved(s.handlers, c)))
    && (BeingRemoved(s.handlers, c) ==> ended)
    && (ended ==> c < s.nextConn)
  }

  /** The other handlers decide, or the one that has just moved. */
  lemma RemovedAfter(hs: Handlers, h: nat, pc: Pc, c: Conn)
    ensures BeingRemoved(hs[h := pc], c) <==> Removes(pc, c) || BeingRemoved(hs - {h}, c)
    ensures BeingRemoved(hs, c) <==> (h in hs && Removes(hs[h], c)) || BeingRemoved(hs - {h}, c)
  {
    var put, cut := hs[h := pc], hs - {h};
    if Removes(pc, c) { assert put[h] == pc; }
    if g :| g in cut && Removes(cut[g], c) { assert put[g] == cut[g] && hs[g] == cut[g]; }
    if g :| g in hs && g != h && Removes(hs[g], c) { assert cut[g] == hs[g]; }
    if g :| g in put && g != h && Removes(put[g], c) { assert cut[g] == put[g]; }
  }

  /** A connection with another user is not being removed, but by that user. */
  lemma RemoverIsUser(s: State, h: nat, c: Conn)
    requires Inv(s) && h in s.handlers && Uses(s.handlers[h]) && s.handlers[h].conn == c
    ensures !BeingRemoved(s.handlers - {h}, c)
  {
    SoleUser(s.clients, s.pending, s.handlers, h);
  }

  lemma RemovedIsListed(s: State, c: Conn)
    requires Inv(s) && (BeingRemoved(s.handlers, c) || c in s.pending)
    ensures c in s.clients && c < s.nextConn && (c in s.pending ==> !BeingRemoved(s.handlers, c))
  {
  }

  lemma FreshHandler(s: State)
    requires Inv(s)
    ensures s.nextHandler !in s.handlers && s.handlers - {s.nextHandler} == s.handlers && s.nextConn !in s.clients
  {
  }

  lemma StepKeepsListOk(s: State, e: Event, c: Conn, ended: bool)
    requires Inv(s) && ListOk(s, c, ended) && Step(s, e).Some?
    ensures ListOk(Step(s, e).value, c, ended || e == ReadDone(c, EndOfFile))
  {
    FreshHandler(s);
    if BeingRemoved(s.handlers, c) || c in s.pending { RemovedIsListed(s, c); }
    match e
    case AcceptDone(_) =>
      hide Inv, BeingRemoved;
      RemovedAfter(s.handlers, s.nextHandler, Arrived, c);
    case ReadDone(conn, _) =>
      hide Inv, BeingRemoved;
      RemovedAfter(s.handlers, s.nextHandler, Serving(conn), c);
      RemovedAfter(s.handlers, s.nextHandler, Closing(conn), c);
    case Proceed(h, insertFails) =>
      hide ListOk;
      ProceedKeepsListOk(s, h, insertFails, c, ended);
  }

  /** Whether handler h removes c once it has moved; a handler that is done removes nothing. */
  predicate StillRemoves(s: State, h: nat, c: Conn) { h in s.handlers && Removes(s.handlers[h], c) }

  /** What one step of a handler does to the list, and to its own task. */
  lemma ProceedMoves(s: State, h: nat, insertFails: bool, c: Conn)
    requires h in s.handlers && StepOf(s, h, insertFails).Some?
    ensures var s', pc := StepOf(s, h, insertFails).value, s.handlers[h];
      var inserts := pc.Locked? && !insertFails;
      && s'.handlers - {h} == s.handlers - {h}
      && s'.nextConn == s.nextConn + (if inserts then 1 else 0)
      && (c in s'.clients <==> (c in s.clients || (inserts && c == s.nextConn)) && !(pc.Owning? && pc.conn == c))
      && (StillRemoves(s', h, c) <==> Removes(pc, c) && !pc.Owning?)
  {
  }

  lemma RemovedBy(hs: Handlers, h: nat, c: Conn)
    ensures BeingRemoved(hs, c) <==> (h in hs && Removes(hs[h], c)) || BeingRemoved(hs - {h}, c)
  {
    RemovedAfter(hs, h, Answering, c);
  }

  lemma ProceedKeepsListOk(s: State, h: nat, insertFails: bool, c: Conn, ended: bool)
    requires Inv(s) && ListOk(s, c, ended) && h in s.handlers && StepOf(s, h, insertFails).Some?
    ensures ListOk(StepOf(s, h, insertFails).value, c, ended)
  {
    FreshHandler(s);
    if Uses(s.handlers[h]) && s.handlers[h].conn == c { RemoverIsUser(s, h, c); }
    if BeingRemoved(s.handlers, c) { RemovedIsListed(s, c); }
    hide Inv, BeingRemoved, StepOf;
    ProceedMoves(s, h, insertFails, c);
    RemovedBy(s.handlers, h, c);
    RemovedBy(StepOf(s, h, insertFails).value.handlers, h, c);
  }

  lemma {:induction false} ExecKeepsListOk(s: State, events: seq<Event>, c: Conn, ended: bool)
    requires Inv(s) && ListOk(s, c, ended) && Exec(s, events).Some?
    ensures ListOk(Exec(s, events).value, c, ended || ReadDone(c, EndOfFile) in events)
    decreases |events|
  {
    if events != [] {
      assert events == [events[0]] + events[1..];
      hide Step, Inv, ListOk;
      StepKeepsInv(s, events[0]);
      StepKeepsListOk(s, events[0], c, ended);
      ExecKeepsListOk(Step(s, events[0]).value, events[1..], c, ended || events[0] == ReadDone(c, EndOfFile));
    }
  }

  /**
   Over every run: a connection that was registered is on the list if and only if its stream has
   not ended, or the handler that erases it is still on its way; and only the end of its stream
   starts such a handler.
   */
  lemma RegisteredExactly(max: nat, events: seq<Event>, s: State, c: Conn)
    requires Reached(max, events, s) && c < s.nextConn
    ensures c in s.clients <==> ReadDone(c, EndOfFile) !in events || BeingRemoved(s.handlers, c)
    ensures BeingRemoved(s.handlers, c) ==> ReadDone(c, EndOfFile) in events
  {
    InitHasInv(max);
    ExecKeepsListOk(Init(max), events, c, false);
  }

  // ----- no handler waits for ever -----

  /** How many steps a handler has left at most. */
  function Rank(pc: Pc): nat {
    match pc
    case Arrived => 7 case Admitting => 6 case Locked => 5 case Inserted(_) => 4 case Counted(_) => 3
    case Released(_) => 2 case Answering => 1
    case Serving(_) => 1
    case Closing(_) => 6 case Shut(_) => 5 case Owning(_) => 4 case Erased(_) => 3 case Leaving(_) => 2
  }

  /** The steps left of all handlers numbered below n. */
  function Work(hs: Handlers, n: nat): nat {
    if n == 0 then 0 else Work(hs, n - 1) + (if n - 1 in hs then Rank(hs[n - 1]) else 0)
  }

  lemma {:induction false} WorkAfter(hs: Handlers, h: nat, pc: Pc, n: nat)
    requires h in hs
    ensures Work(hs[h := pc], n) == Work(hs, n) + (if h < n then Rank(pc) - Rank(hs[h]) else 0)
    ensures Work(hs - {h}, n) == Work(hs, n) - (if h < n then Rank(hs[h]) else 0)
  {
    hide Rank;
    if n > 0 { WorkAfter(hs, h, pc, n - 1); }
  }

  /** Each step of a handler leaves less to do. */
  lemma ProceedWorks(s: State, h: nat, insertFails: bool)
    requires Fresh(s) && h in s.handlers && StepOf(s, h, insertFails).Some?
    ensures var s' := StepOf(s, h, insertFails).value;
      s'.nextHandler == s.nextHandler && Work(s'.handlers, s'.nextHandler) < Work(s.handlers, s.nextHandler)
  {
    hide Work;
    var s' := StepOf(s, h, insertFails).value;
    WorkAfter(s.handlers, h, if h in s'.handlers then s'.handlers[h] else Answering, s.nextHandler);
  }

  /** Some handler can go on: the one inside the mutex, or any if there is none. */
  lemma SomebodyCan(s: State) returns (h: nat)
    requires MutexOk(s.mutex, s.handlers) && s.handlers != map[]
    ensures h in s.handlers && StepOf(s, h, false).Some?
  {
    if s.mutex.Some? {
      h := s.mutex.value;
      assert Holds(s.handlers[h]);
    } else {
      h :| h in s.handlers;
    }
  }

  ghost predicate OnlyProceed(events: seq<Event>) { forall i :: 0 <= i < |events| ==> events[i].Proceed? }

  /** However the handlers are scheduled, they come to an end: no run of their steps is longer than the work left. */
  lemma {:induction false} HandlersEnd(s: State, events: seq<Event>)
    requires Inv(s) && Exec(s, events).Some? && OnlyProceed(events)
    ensures |events| <= Work(s.handlers, s.nextHandler)
    decreases |events|
  {
    if events != [] {
      var e := events[0];
      assert Fresh(s) && Step(s, e) == StepOf(s, e.handler, e.insertFails) && OnlyProceed(events[1..]);
      hide Inv, Step, StepOf, Work;
      StepKeepsInv(s, e);
      ProceedWorks(s, e.handler, e.insertFails);
      HandlersEnd(Step(s, e).value, events[1..]);
    }
  }

  /** As long as there are handlers one of them can go on, until none is left. */
  lemma {:induction false} Settles(s: State) returns (events: seq<Event>)
    requires Inv(s)
    ensures OnlyProceed(events) && Exec(s, events).Some? && Exec(s, events).value.handlers == map[]
    decreases Work(s.handlers, s.nextHandler)
  {
    if s.handlers == map[] {
      events := [];
    } else {
      assert MutexOk(s.mutex, s.handlers) && Fresh(s);
      hide Inv, StepOf, Work;
      var h := SomebodyCan(s);
      var e := Proceed(h, false);
      ProceedWorks(s, h, false);
      StepKeepsInv(s, e);
      var rest := Settles(Step(s, e).value);
      events := [e] + rest;
      assert events[1..] == rest;
    }
  }

  /**
   From every reachable state the handlers alone can finish, and then the counter is the number of
   connections on the list, and these are exactly the ones whose stream has not ended: whoever hung up
   has been erased and counted off.
   */
  lemma SettlesExactly(max: nat, events: seq<Event>, s: State) returns (more: seq<Event>, s': State)
    requires Reached(max, events, s)
    ensures OnlyProceed(more) && Reached(max, events + more, s') && s'.handlers == map[]
    ensures s'.counter == |s'.clients|
    ensures forall c: Conn :: c in s'.clients <==> c < s'.nextConn && ReadDone(c, EndOfFile) !in events
  {
    ReachedHasInv(max, events, s);
    more := Settles(s);
    s' := Exec(s, more).value;
    hide Inv, Work;
    ExecBoth(Init(max), events, more);
    CounterAccounts(max, events + more, s');
    assert Inserting(s'.handlers) == {} && Departing(s'.handlers) == {};
    forall c: Conn ensures c in s'.clients <==> c < s'.nextConn && ReadDone(c, EndOfFile) !in events {
      if c < s'.nextConn { RegisteredExactly(max, events + more, s', c); }
      if c in s'.clients { ListedIsNumbered(max, events + more, s', c); }
    }
  }

  lemma ListedIsNumbered(max: nat, events: seq<Event>, s: State, c: Conn)
    requires Reached(max, events, s) && c in s.clients
    ensures c < s.nextConn
  {
    ReachedHasInv(max, events, s);
  }
}
