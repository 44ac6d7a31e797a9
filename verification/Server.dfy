/**
 Admission of connections: accept handlers and read handlers run on any number of threads,
 each in atomic steps, and share the client list, its mutex and the client counter.
 */
module Server {
  import opened Wrappers

  const UINT32_RANGE := 0x1_0000_0000

  type Conn = nat

  /** Where a running handler is. */
  datatype Pc =
    // on_accept
    | Arrived
    | Admitting
    | Locked
    | Inserted(conn: Conn)
    | Counted(conn: Conn)
    | Released(conn: Conn)
    | Answering
    // on_read
    | Serving(conn: Conn)
    | Closing(conn: Conn)
    | Shut(conn: Conn)
    | Owning(conn: Conn)
    | Erased(conn: Conn)
    | Leaving(conn: Conn)

  predicate IsAccept(pc: Pc) {
    pc.Arrived? || pc.Admitting? || pc.Locked? || pc.Inserted? || pc.Counted? || pc.Released? || pc.Answering?
  }

  /** Between locking and unlocking the mutex. */
  predicate Holds(pc: Pc) { pc.Locked? || pc.Inserted? || pc.Counted? || pc.Owning? || pc.Erased? }

  /** Has a connection it may still touch. */
  predicate Uses(pc: Pc) {
    pc.Inserted? || pc.Counted? || pc.Released? || pc.Serving? || pc.Closing? || pc.Shut? || pc.Owning?
  }

  /** Has erased its connection and not yet counted it off. */
  predicate OnTheWayOut(pc: Pc) { pc.Erased? || pc.Leaving? }

  predicate SameConn(a: Pc, b: Pc) { Uses(a) && Uses(b) && a.conn == b.conn }

  /**
   `accepts` and `pending` (reads, by connection) are the operations outstanding in the io service. Nothing in the
   state says that there is one of a kind only.
   */
  datatype State = State(
    max: nat, clients: set<Conn>, counter: nat, mutex: Option<nat>, accepts: nat, pending: multiset<Conn>,
    handlers: map<nat, Pc>, nextConn: Conn, nextHandler: nat)

  function Init(max: nat): State {
    State(max, {}, 0, None, 1, multiset{}, map[], 0, 0)
  }

  /** How an operation ends, or which handler moves on. */
  datatype Event =
    | AcceptDone(failed: bool)
    | ReadDone(conn: Conn, outcome: ReadOutcome)
    | Proceed(handler: nat, insertFails: bool)

  datatype ReadOutcome = Message | EndOfFile | OtherError

  function Spawn(s: State, pc: Pc): State {
    s.(handlers := s.handlers[s.nextHandler := pc], nextHandler := s.nextHandler + 1)
  }

  function MoveTo(s: State, h: nat, pc: Pc): State { s.(handlers := s.handlers[h := pc]) }

  function Finish(s: State, h: nat): State { s.(handlers := s.handlers - {h}) }

  function StartAccept(s: State): State { s.(accepts := s.accepts + 1) }

  function StartRead(s: State, conn: Conn): State { s.(pending := s.pending + multiset{conn}) }

  /** One atomic step of handler h; None when it has to wait for the mutex. */
  function StepOf(s: State, h: nat, insertFails: bool): Option<State>
    requires h in s.handlers
  {
    match s.handlers[h]
    case Arrived => Some(MoveTo(s, h, if s.counter == s.max then Answering else Admitting))
    case Admitting => if s.mutex.Some? then None else Some(MoveTo(s.(mutex := Some(h)), h, Locked))
    case Locked =>
      if insertFails then Some(MoveTo(s.(mutex := None), h, Answering))
      else Some(MoveTo(s.(clients := s.clients + {s.nextConn}, nextConn := s.nextConn + 1), h, Inserted(s.nextConn)))
    case Inserted(conn) => Some(MoveTo(s.(counter := (s.counter + 1) % UINT32_RANGE), h, Counted(conn)))
    case Counted(conn) => Some(MoveTo(s.(mutex := None), h, Released(conn)))
    case Released(conn) => Some(MoveTo(StartRead(s, conn), h, Answering))
    case Answering => Some(Finish(StartAccept(s), h))
    case Serving(conn) => Some(Finish(StartRead(s, conn), h))
    case Closing(conn) => Some(MoveTo(s, h, Shut(conn)))
    case Shut(conn) => if s.mutex.Some? then None else Some(MoveTo(s.(mutex := Some(h)), h, Owning(conn)))
    case Owning(conn) => Some(MoveTo(s.(clients := s.clients - {conn}), h, Erased(conn)))
    case Erased(conn) => Some(MoveTo(s.(mutex := None), h, Leaving(conn)))
    case Leaving(_) => Some(Finish(s.(counter := (s.counter - 1) % UINT32_RANGE), h))
  }

  function Step(s: State, e: Event): Option<State> {
    match e
    case AcceptDone(failed) =>
      if s.accepts == 0 then None
      else
        var s' := s.(accepts := s.accepts - 1);
        Some(if failed then s' else Spawn(s', Arrived))
    case ReadDone(conn, outcome) =>
      if conn !in s.pending then None
      else
        var s' := s.(pending := s.pending - multiset{conn});
        Some(match outcome
             case Message => Spawn(s', Serving(conn))
             case EndOfFile => Spawn(s', Closing(conn))
             case OtherError => s')
    case Proceed(h, insertFails) => if h !in s.handlers then None else StepOf(s, h, insertFails)
  }

  /** The state after a run; None when some event cannot happen. */
  function Exec(s: State, events: seq<Event>): Option<State>
    decreases |events|
  {
    if events == [] then Some(s)
    else
      var next := Step(s, events[0]);
      if next.None? then None else Exec(next.value, events[1..])
  }

  // ----- invariant -----

  type Handlers = map<nat, Pc>

  /** One accept at a time, outstanding or being handled. */
  ghost predicate OneAccept(accepts: nat, hs: Handlers) {
    && accepts <= 1
    && (forall h :: h in hs && IsAccept(hs[h]) ==> accepts == 0)
    && (forall g, h :: g in hs && h in hs && IsAccept(hs[g]) && IsAccept(hs[h]) ==> g == h)
  }

  /** The holder of the mutex is the handler between lock and unlock. */
  ghost predicate MutexOk(mutex: Option<nat>, hs: Handlers) {
    && (mutex.Some? ==> mutex.value in hs)
    && (forall h :: h in hs ==> (Holds(hs[h]) <==> mutex == Some(h)))
  }

  ghost predicate NoUser(hs: Handlers, c: Conn) { forall h :: h in hs && Uses(hs[h]) ==> hs[h].conn != c }

  /** A connection in use is registered, and by one read or one handler only. */
  ghost predicate OneUser(clients: set<Conn>, pending: multiset<Conn>, hs: Handlers) {
    && (forall c :: c in pending ==> pending[c] == 1 && c in clients && NoUser(hs, c))
    && (forall h :: h in hs && Uses(hs[h]) ==> hs[h].conn in clients)
    && (forall g, h :: g in hs && h in hs && SameConn(hs[g], hs[h]) ==> g == h)
  }

  ghost predicate Fresh(s: State) {
    && (forall c :: c in s.clients ==> c < s.nextConn)
    && (forall h :: h in s.handlers ==> h < s.nextHandler)
  }

  function Inserting(hs: Handlers): set<nat> { set h | h in hs && hs[h].Inserted? }

  function Departing(hs: Handlers): set<nat> { set h | h in hs && OnTheWayOut(hs[h]) }

  /** The counter, against the list. */
  ghost predicate Counts(s: State) {
    s.counter + |Inserting(s.handlers)| == |s.clients| + |Departing(s.handlers)|
  }

  predicate LetIn(pc: Pc) { pc.Admitting? || pc.Locked? || pc.Inserted? }

  /** The limit holds, with room for whoever has been let in but not counted. */
  ghost predicate Limited(counter: nat, max: nat, hs: Handlers) {
    && counter <= max < UINT32_RANGE
    && (forall h :: h in hs && LetIn(hs[h]) ==> counter < max)
  }

  ghost predicate Inv(s: State) {
    && OneAccept(s.accepts, s.handlers) && MutexOk(s.mutex, s.handlers) && OneUser(s.clients, s.pending, s.handlers)
    && Fresh(s) && Counts(s) && Limited(s.counter, s.max, s.handlers)
  }

  lemma InitHasInv(max: nat)
    requires max < UINT32_RANGE
    ensures Inv(Init(max))
  {
    assert Inserting(map[]) == {} && Departing(map[]) == {};
  }

  // ----- one accept -----

  lemma AcceptorIsAlone(accepts: nat, hs: Handlers, h: nat, pc: Pc)
    requires OneAccept(accepts, hs) && h in hs && IsAccept(hs[h])
    ensures accepts == 0 && OneAccept(0, hs[h := pc])
    ensures OneAccept(1, hs - {h})
  {
  }

  lemma OtherHandler(accepts: nat, hs: Handlers, h: nat, pc: Pc)
    requires OneAccept(accepts, hs) && !IsAccept(pc)
    ensures OneAccept(accepts, hs[h := pc]) && OneAccept(accepts, hs - {h})
  {
  }

  lemma AcceptorArrives(hs: Handlers, h: nat)
    requires OneAccept(1, hs)
    ensures OneAccept(0, hs) && OneAccept(0, hs[h := Arrived])
  {
  }

  lemma StepKeepsOneAccept(s: State, e: Event)
    requires OneAccept(s.accepts, s.handlers) && Step(s, e).Some?
    ensures OneAccept(Step(s, e).value.accepts, Step(s, e).value.handlers)
  {
    hide OneAccept;
    var s', hs := Step(s, e).value, s.handlers;
    match e
    case AcceptDone(_) =>
      OneOutstanding(s.accepts, hs);
      AcceptorArrives(hs, s.nextHandler);
    case ReadDone(conn, _) =>
      OtherHandler(s.accepts, hs, s.nextHandler, Serving(conn));
      OtherHandler(s.accepts, hs, s.nextHandler, Closing(conn));
    case Proceed(h, _) =>
      var next := if h in s'.handlers then s'.handlers[h] else hs[h];
      if IsAccept(hs[h]) { AcceptorIsAlone(s.accepts, hs, h, next); } else { OtherHandler(s.accepts, hs, h, next); }
  }

  lemma OneOutstanding(accepts: nat, hs: Handlers)
    requires OneAccept(accepts, hs)
    ensures accepts <= 1
  {
  }

  // ----- the mutex -----

  lemma MutexAfter(mutex: Option<nat>, hs: Handlers, h: nat, pc: Pc, after: Option<nat>)
    requires MutexOk(mutex, hs)
    requires h in hs || mutex != Some(h)
    requires after == (if Holds(pc) then Some(h) else if mutex == Some(h) then None else mutex)
    requires Holds(pc) ==> mutex.None? || mutex == Some(h)
    ensures MutexOk(after, hs[h := pc])
    ensures !Holds(pc) ==> MutexOk(after, hs - {h})
  {
  }

  lemma StepKeepsMutexOk(s: State, e: Event)
    requires MutexOk(s.mutex, s.handlers) && Fresh(s) && Step(s, e).Some?
    ensures MutexOk(Step(s, e).value.mutex, Step(s, e).value.handlers)
  {
    var s' := Step(s, e).value;
    match e
    case AcceptDone(_) => MutexAfter(s.mutex, s.handlers, s.nextHandler, Arrived, s.mutex);
    case ReadDone(conn, _) =>
      MutexAfter(s.mutex, s.handlers, s.nextHandler, Serving(conn), s.mutex);
      MutexAfter(s.mutex, s.handlers, s.nextHandler, Closing(conn), s.mutex);
    case Proceed(h, _) =>
      assert Holds(s.handlers[h]) <==> s.mutex == Some(h);
      hide MutexOk;
      MutexAfter(s.mutex, s.handlers, h, if h in s'.handlers then s'.handlers[h] else Answering, s'.mutex);
  }

  lemma StepKeepsFresh(s: State, e: Event)
    requires Fresh(s) && Step(s, e).Some?
    ensures Fresh(Step(s, e).value)
  {
  }

  // ----- users of a connection -----

  lemma PutUser(clients: set<Conn>, pending: multiset<Conn>, hs: Handlers, h: nat, pc: Pc)
    requires OneUser(clients, pending, hs)
    requires Uses(pc) ==> pc.conn in clients && pc.conn !in pending && NoUser(hs - {h}, pc.conn)
    ensures OneUser(clients, pending, hs[h := pc]) && OneUser(clients, pending, hs - {h})
  {
    forall g | g in hs && g != h && Uses(pc) && Uses(hs[g]) ensures hs[g].conn != pc.conn {
      assert g in hs - {h} && (hs - {h})[g] == hs[g];
    }
  }

  lemma Another(clients: set<Conn>, pending: multiset<Conn>, hs: Handlers, c: Conn)
    requires OneUser(clients, pending, hs)
    ensures OneUser(clients + {c}, pending, hs)
  {
  }

  lemma Removed(clients: set<Conn>, pending: multiset<Conn>, hs: Handlers, c: Conn)
    requires OneUser(clients, pending, hs) && c !in pending && NoUser(hs, c)
    ensures OneUser(clients - {c}, pending, hs)
  {
  }

  lemma ReadStarted(clients: set<Conn>, pending: multiset<Conn>, hs: Handlers, c: Conn)
    requires OneUser(clients, pending, hs) && c !in pending && NoUser(hs, c) && c in clients
    ensures OneUser(clients, pending + multiset{c}, hs)
  {
  }

  lemma ReadEnded(clients: set<Conn>, pending: multiset<Conn>, hs: Handlers, c: Conn)
    requires OneUser(clients, pending, hs) && c in pending
    ensures OneUser(clients, pending - multiset{c}, hs) && c !in pending - multiset{c} && c in clients && NoUser(hs, c)
  {
  }

  /** Nobody else uses the connection of a handler, and no read is outstanding on it. */
  lemma SoleUser(clients: set<Conn>, pending: multiset<Conn>, hs: Handlers, h: nat)
    requires OneUser(clients, pending, hs) && h in hs && Uses(hs[h])
    ensures hs[h].conn in clients && hs[h].conn !in pending && NoUser(hs - {h}, hs[h].conn)
    ensures forall pc :: !Uses(pc) ==> NoUser(hs[h := pc], hs[h].conn)
  {
    forall g | g in hs && g != h && Uses(hs[g]) ensures hs[g].conn != hs[h].conn {
      if hs[g].conn == hs[h].conn { assert SameConn(hs[g], hs[h]); }
    }
  }

  lemma NewConnHasNoUser(clients: set<Conn>, pending: multiset<Conn>, hs: Handlers, c: Conn)
    requires OneUser(clients, pending, hs) && c !in clients
    ensures c !in pending && NoUser(hs, c)
  {
  }

  lemma NoUserWithout(hs: Handlers, h: nat, c: Conn)
    requires NoUser(hs, c)
    ensures NoUser(hs - {h}, c)
  {
  }

  lemma StepKeepsOneUser(s: State, e: Event)
    requires OneUser(s.clients, s.pending, s.handlers) && Fresh(s) && Step(s, e).Some?
    ensures var s' := Step(s, e).value; OneUser(s'.clients, s'.pending, s'.handlers)
  {
    hide OneUser, NoUser;
    var s', hs := Step(s, e).value, s.handlers;
    match e
    case AcceptDone(_) => PutUser(s.clients, s.pending, hs, s.nextHandler, Arrived);
    case ReadDone(conn, outcome) =>
      ReadEnded(s.clients, s.pending, hs, conn);
      NoUserWithout(hs, s.nextHandler, conn);
      PutUser(s.clients, s'.pending, hs, s.nextHandler, Serving(conn));
      PutUser(s.clients, s'.pending, hs, s.nextHandler, Closing(conn));
    case Proceed(h, insertFails) =>
      if Uses(hs[h]) { SoleUser(s.clients, s.pending, hs, h); }
      ProceedKeepsOneUser(s, h, insertFails);
  }

  lemma ProceedKeepsOneUser(s: State, h: nat, insertFails: bool)
    requires OneUser(s.clients, s.pending, s.handlers) && Fresh(s) && h in s.handlers && StepOf(s, h, insertFails).Some?
    ensures var s' := StepOf(s, h, insertFails).value; OneUser(s'.clients, s'.pending, s'.handlers)
  {
    hide OneUser, NoUser;
    var s', hs := StepOf(s, h, insertFails).value, s.handlers;
    var next := if h in s'.handlers then s'.handlers[h] else Answering;
    if Uses(hs[h]) { SoleUser(s.clients, s.pending, hs, h); }
    match hs[h]
    case Locked =>
      if insertFails {
        PutUser(s.clients, s.pending, hs, h, next);
      } else {
        NewConnHasNoUser(s.clients, s.pending, hs, s.nextConn);
        NoUserWithout(hs, h, s.nextConn);
        Another(s.clients, s.pending, hs, s.nextConn);
        PutUser(s'.clients, s.pending, hs, h, next);
      }
    case Released(conn) =>
      PutUser(s.clients, s.pending, hs, h, next);
      ReadStarted(s.clients, s.pending, s'.handlers, conn);
    case Serving(conn) =>
      PutUser(s.clients, s.pending, hs, h, next);
      ReadStarted(s.clients, s.pending, s'.handlers, conn);
    case Owning(conn) =>
      PutUser(s.clients, s.pending, hs, h, next);
      Removed(s.clients, s.pending, s'.handlers, conn);
    case _ => PutUser(s.clients, s.pending, hs, h, next);
  }

  // ----- counting -----

  lemma InMeansNonempty(x: nat, xs: set<nat>)
    requires x in xs
    ensures |xs| >= 1
  {
  }

  /** A departing handler has something to count off. */
  lemma CounterPositive(s: State, h: nat)
    requires Inv(s) && h in s.handlers && OnTheWayOut(s.handlers[h])
    ensures s.counter >= 1
  {
    InMeansNonempty(h, Departing(s.handlers));
    if g :| g in Inserting(s.handlers) {
      assert Inserting(s.handlers) == {g};
      InMeansNonempty(s.handlers[g].conn, s.clients);
    } else {
      assert Inserting(s.handlers) == {};
    }
  }

  lemma LimitAfter(counter: nat, max: nat, hs: Handlers, h: nat, pc: Pc, after: nat)
    requires Limited(counter, max, hs) && after <= max
    requires after <= counter || forall g :: g in hs && LetIn(hs[g]) ==> g == h
    requires LetIn(pc) ==> after < max
    ensures Limited(after, max, hs[h := pc])
    ensures !LetIn(pc) ==> Limited(after, max, hs - {h})
  {
  }

  lemma StepKeepsLimited(s: State, e: Event)
    requires Inv(s) && Step(s, e).Some?
    ensures Limited(Step(s, e).value.counter, s.max, Step(s, e).value.handlers)
  {
    hide OneUser, MutexOk, Counts;
    var s', hs := Step(s, e).value, s.handlers;
    match e
    case AcceptDone(_) => LimitAfter(s.counter, s.max, hs, s.nextHandler, Arrived, s.counter);
    case ReadDone(conn, _) =>
      LimitAfter(s.counter, s.max, hs, s.nextHandler, Serving(conn), s.counter);
      LimitAfter(s.counter, s.max, hs, s.nextHandler, Closing(conn), s.counter);
    case Proceed(h, _) =>
      if hs[h].Leaving? { CounterPositive(s, h); }
      assert LetIn(hs[h]) ==> s.counter < s.max;
      assert hs[h].Inserted? ==> forall g :: g in hs && LetIn(hs[g]) ==> g == h;
      hide OneAccept, Limited;
      LimitAfter(s.counter, s.max, hs, h, if h in s'.handlers then s'.handlers[h] else Answering, s'.counter);
  }

  function One(b: bool): int { if b then 1 else 0 }

  lemma SetSizes(xs: set<nat>, x: nat)
    ensures |xs + {x}| == |xs| + One(x !in xs) && |xs - {x}| == |xs| - One(x in xs)
  {
  }

  lemma InsertingAfter(hs: Handlers, h: nat, pc: Pc)
    ensures var inside := One(h in hs && hs[h].Inserted?);
      |Inserting(hs[h := pc])| == |Inserting(hs)| + One(pc.Inserted?) - inside
      && |Inserting(hs - {h})| == |Inserting(hs)| - inside
  {
    var xs := Inserting(hs);
    SetSizes(xs, h);
    assert Inserting(hs[h := pc]) == if pc.Inserted? then xs + {h} else xs - {h};
    assert Inserting(hs - {h}) == xs - {h};
  }

  lemma DepartingAfter(hs: Handlers, h: nat, pc: Pc)
    ensures var outside := One(h in hs && OnTheWayOut(hs[h]));
      |Departing(hs[h := pc])| == |Departing(hs)| + One(OnTheWayOut(pc)) - outside
      && |Departing(hs - {h})| == |Departing(hs)| - outside
  {
    var xs := Departing(hs);
    SetSizes(xs, h);
    assert Departing(hs[h := pc]) == if OnTheWayOut(pc) then xs + {h} else xs - {h};
    assert Departing(hs - {h}) == xs - {h};
  }

  /** A handler that starts changes nothing that is counted. */
  lemma SpawnKeepsCounts(s: State, pc: Pc)
    requires Counts(s) && s.nextHandler !in s.handlers && !pc.Inserted? && !OnTheWayOut(pc)
    ensures Counts(Spawn(s, pc))
  {
    hide Inserting, Departing;
    InsertingAfter(s.handlers, s.nextHandler, pc);
    DepartingAfter(s.handlers, s.nextHandler, pc);
  }

  lemma StepKeepsCounts(s: State, e: Event)
    requires Inv(s) && Step(s, e).Some?
    ensures Counts(Step(s, e).value)
  {
    assert Counts(s) && s.nextHandler !in s.handlers;
    hide StepOf, Inserting, Departing;
    match e
    case AcceptDone(failed) =>
      hide Inv;
      if !failed { SpawnKeepsCounts(s.(accepts := s.accepts - 1), Arrived); }
    case ReadDone(conn, outcome) =>
      hide Inv;
      var s' := s.(pending := s.pending - multiset{conn});
      if outcome.Message? { SpawnKeepsCounts(s', Serving(conn)); }
      if outcome.EndOfFile? { SpawnKeepsCounts(s', Closing(conn)); }
    case Proceed(h, insertFails) =>
      hide Counts;
      ProceedKeepsCounts(s, h, insertFails);
  }

  lemma CounterAfter(s: State, h: nat, insertFails: bool)
    requires Inv(s) && h in s.handlers && StepOf(s, h, insertFails).Some?
    ensures StepOf(s, h, insertFails).value.counter
      == s.counter + One(s.handlers[h].Inserted?) - One(s.handlers[h].Leaving?)
  {
    if s.handlers[h].Leaving? { CounterPositive(s, h); }
    assert s.counter <= s.max < UINT32_RANGE && (s.handlers[h].Inserted? ==> s.counter < s.max);
    hide Inv;
  }

  lemma ClientsAfter(s: State, h: nat, insertFails: bool)
    requires Inv(s) && h in s.handlers && StepOf(s, h, insertFails).Some?
    ensures |StepOf(s, h, insertFails).value.clients|
      == |s.clients| + One(s.handlers[h].Locked? && !insertFails) - One(s.handlers[h].Owning?)
  {
    if s.handlers[h].Owning? {
      SoleUser(s.clients, s.pending, s.handlers, h);
      SetSizes(s.clients, s.handlers[h].conn);
    }
    assert s.nextConn !in s.clients;
    SetSizes(s.clients, s.nextConn);
    hide Inv;
  }

  lemma HandlersAfter(s: State, h: nat, insertFails: bool)
    requires h in s.handlers && StepOf(s, h, insertFails).Some?
    ensures var s', pc := StepOf(s, h, insertFails).value, s.handlers[h];
      |Inserting(s'.handlers)| == |Inserting(s.handlers)| + One(pc.Locked? && !insertFails) - One(pc.Inserted?)
      && |Departing(s'.handlers)| == |Departing(s.handlers)| + One(pc.Owning?) - One(pc.Leaving?)
  {
    hide Inserting, Departing;
    var s', hs := StepOf(s, h, insertFails).value, s.handlers;
    var next := if h in s'.handlers then s'.handlers[h] else Answering;
    InsertingAfter(hs, h, next);
    DepartingAfter(hs, h, next);
  }

  lemma ProceedKeepsCounts(s: State, h: nat, insertFails: bool)
    requires Inv(s) && h in s.handlers && StepOf(s, h, insertFails).Some?
    ensures Counts(StepOf(s, h, insertFails).value)
  {
    assert Counts(s);
    hide Inv, StepOf, Inserting, Departing;
    CounterAfter(s, h, insertFails);
    ClientsAfter(s, h, insertFails);
    HandlersAfter(s, h, insertFails);
  }

  lemma StepKeepsInv(s: State, e: Event)
    requires Inv(s) && Step(s, e).Some?
    ensures Inv(Step(s, e).value) && Step(s, e).value.max == s.max
  {
    hide OneAccept, MutexOk, OneUser, Fresh, Counts, Limited;
    StepKeepsOneAccept(s, e);
    StepKeepsMutexOk(s, e);
    StepKeepsOneUser(s, e);
    StepKeepsFresh(s, e);
    StepKeepsCounts(s, e);
    StepKeepsLimited(s, e);
  }

  lemma {:induction false} RunKeepsInv(s: State, events: seq<Event>)
    requires Inv(s) && Exec(s, events).Some?
    ensures Inv(Exec(s, events).value) && Exec(s, events).value.max == s.max
    decreases |events|
  {
    hide Inv, Step;
    if events != [] {
      StepKeepsInv(s, events[0]);
      RunKeepsInv(Step(s, events[0]).value, events[1..]);
    }
  }
}
