/**
 What the worker, and a push, do when no other thread moves: the worker hands every waiting
 message to the sinks, flushes if it was asked to, and exits if it was told to.
 */
module LoggerProgress {
  import opened Wrappers
  import QueueProtocol
  import QueueProperties
  import QueueProgress
  import opened AsyncLogger

  // ----- the worker on its own -----

  /** The worker's next step; the flush interval has not elapsed. */
  function WorkerOne<R>(l: Logger<R>): (l': Logger<R>)
    requires |l.ring.cells| > 0
    ensures |l'.ring.cells| > 0
  {
    if l.worker.op.Quiet() then
      var (w, sinks) := WorkerStep(l.worker, l.sinks, false);
      l.(worker := w, sinks := sinks)
    else
      var (r, op) := QueueProtocol.Step(l.ring, l.worker.op, false);
      l.(ring := r, worker := l.worker.(op := op))
  }

  function WorkerAlone<R>(l: Logger<R>, m: nat): (l': Logger<R>)
    requires |l.ring.cells| > 0
    ensures |l'.ring.cells| > 0
    decreases m
  {
    if m == 0 then l else WorkerAlone(WorkerOne(l), m - 1)
  }

  lemma {:induction false} AloneBoth<R>(l: Logger<R>, a: nat, b: nat)
    requires |l.ring.cells| > 0
    ensures WorkerAlone(l, a + b) == WorkerAlone(WorkerAlone(l, a), b)
    decreases a
  {
    hide WorkerOne;
    if a > 0 { AloneBoth(WorkerOne(l), a - 1, b); }
  }

  ghost predicate ProducersQuiet<R>(l: Logger<R>) {
    forall k :: 0 <= k < |l.producers| ==> l.producers[k].op.Quiet()
  }

  /** Nobody but the worker is inside a call. */
  ghost predicate Calm<R(!new)>(l: Logger<R>) { Inv(l) && ProducersQuiet(l) }

  /** The worker's steps are steps of the logger. */
  lemma WorkerOneIsStep<R(!new)>(l: Logger<R>, policy: Policy)
    requires Inv(l) && |l.ring.cells| > 0
    ensures Next(l, WorkerOne(l), policy) && WorkerOne(l).producers == l.producers
  {
    if l.worker.op.Quiet() {
      assert WorkerActs(l, WorkerOne(l), false);
    } else {
      assert WorkerRuns(l, WorkerOne(l), false);
    }
  }

  lemma OneStaysCalm<R(!new)>(l: Logger<R>)
    requires Calm(l)
    ensures |l.ring.cells| > 0 && Calm(WorkerOne(l)) && WorkerOne(l).producers == l.producers
  {
    CalmFacts(l);
    WorkerOneIsStep(l, BlockRetry);
    NextKeepsInv(l, WorkerOne(l), BlockRetry);
  }

  lemma {:induction false} StaysCalm<R(!new)>(l: Logger<R>, m: nat)
    requires Calm(l)
    ensures |l.ring.cells| > 0 && Calm(WorkerAlone(l, m)) && WorkerAlone(l, m).producers == l.producers
    decreases m
  {
    hide Calm, WorkerOne;
    OneStaysCalm(l);
    if m > 0 { StaysCalm(WorkerOne(l), m - 1); }
  }

  // ----- inside the queue -----

  lemma {:induction false} QuietStays<T>(s: QueueProtocol.State<T>, k: nat, m: nat)
    requires |s.ring.cells| > 0 && k < |s.ops| && s.ops[k].Quiet()
    ensures QueueProgress.Alone(s, k, m) == s
    decreases m
  {
    if m > 0 {
      assert s.ops[k := s.ops[k]] == s.ops;
      QuietStays(s, k, m - 1);
    }
  }

  lemma QueueOfWorker<R>(l: Logger<R>)
    ensures var s := QueueOf(l);
      s.ring == l.ring && |s.ops| == |l.producers| + 1 && s.ops[|l.producers|] == l.worker.op
    ensures forall r, op :: QueueOf(l.(ring := r, worker := l.worker.(op := op)))
                            == QueueProtocol.State(r, QueueOf(l).ops[|l.producers| := op])
  {
  }

  /** Up to the end of its call the worker does what the queue protocol does. */
  lemma {:induction false} FollowsQueue<R>(l: Logger<R>, m: nat) returns (steps: nat)
    requires |l.ring.cells| > 0
    requires QueueProgress.Alone(QueueOf(l), |l.producers|, m).ops[|l.producers|].Quiet()
    ensures var s', l' := QueueProgress.Alone(QueueOf(l), |l.producers|, m), WorkerAlone(l, steps);
      l' == l.(ring := s'.ring, worker := l.worker.(op := s'.ops[|l.producers|]))
    decreases m
  {
    QueueOfWorker(l);
    if l.worker.op.Quiet() {
      QuietStays(QueueOf(l), |l.producers|, m);
      steps := 0;
    } else {
      var l1 := WorkerOne(l);
      var (r, op) := QueueProtocol.Step(l.ring, l.worker.op, false);
      hide QueueProtocol.Step, QueueOf;
      var rest := FollowsQueue(l1, m - 1);
      steps := rest + 1;
    }
  }

  /** The messages in the queue. */
  function Waiting<R>(l: Logger<R>): seq<Msg<R>>
    requires l.ring.dequeuePos <= |l.ring.enqueued|
  {
    l.ring.enqueued[l.ring.dequeuePos..]
  }

  /** The same but for what the worker has done. */
  ghost predicate WorkerOnly<R>(l: Logger<R>, l': Logger<R>) {
    && l'.producers == l.producers && l'.ring.enqueued == l.ring.enqueued
    && l.ring.dequeuePos <= l'.ring.dequeuePos <= |l.ring.enqueued|
    && |l'.sinks| == |l.sinks| && |l'.ring.cells| == |l.ring.cells|
  }

  /** The worker is about to look for a message. */
  ghost predicate Polls<R(!new)>(l: Logger<R>) { Calm(l) && l.worker.pc.Polling? && l.worker.op.Idle? }

  lemma CalmFacts<R(!new)>(l: Logger<R>)
    requires Calm(l)
    ensures var s := QueueOf(l);
      && QueueProtocol.Inv(s) && QueueProperties.OthersQuiet(s, |l.producers|)
      && |l.ring.cells| >= 2 && l.ring.dequeuePos <= |l.ring.enqueued| == l.ring.enqueuePos
      && QueueProperties.Queued(s) == Waiting(l)
  {
    var s := QueueOf(l);
    ShapeOf(s);
    assert forall k :: 0 <= k < |l.producers| ==> s.ops[k] == l.producers[k].op;
  }

  /** How far an undisturbed dequeue moves the queue, and what it brings. */
  lemma QueueYields<T>(s: QueueProtocol.State<T>, k: nat) returns (n: nat)
    requires QueueProtocol.Inv(s) && k < |s.ops| && QueueProperties.OthersQuiet(s, k)
    requires s.ops[k].DeqLoad? || s.ops[k].DeqSeq? || s.ops[k].DeqCas?
    ensures |s.ring.cells| > 0 && s.ring.dequeuePos <= |s.ring.enqueued|
    ensures var s', q := QueueProgress.Alone(s, k, n), s.ring.enqueued[s.ring.dequeuePos..];
      && s'.ring.enqueued == s.ring.enqueued && s'.ops[k].Quiet()
      && if q == [] then s'.ring == s.ring && s'.ops[k] == QueueProtocol.DeqFalse
         else s'.ring.dequeuePos == s.ring.dequeuePos + 1 && s'.ops[k] == QueueProtocol.DeqTrue(Some(q[0]))
    ensures s.ring.dequeuePos <= QueueProgress.Alone(s, k, n).ring.dequeuePos <= |s.ring.enqueued|
    ensures |QueueProgress.Alone(s, k, n).ring.cells| == |s.ring.cells|
  {
    ShapeOf(s);
    hide QueueProtocol.Inv, QueueProgress.Alone;
    n := QueueProgress.DequeueAloneEnds(s, k);
    QueueProgress.SameCells(s, k, n);
  }

  /** A call to dequeue, at whatever point before it has won a ticket. */
  lemma PollEnds<R(!new)>(l: Logger<R>) returns (m: nat)
    requires Calm(l) && l.worker.pc.Polling?
    requires l.worker.op.DeqLoad? || l.worker.op.DeqSeq? || l.worker.op.DeqCas?
    ensures |l.ring.cells| > 0 && l.ring.dequeuePos <= |l.ring.enqueued|
    ensures var l' := WorkerAlone(l, m);
      && l' == l.(ring := l'.ring, worker := l.worker.(op := l'.worker.op)) && WorkerOnly(l, l')
      && if Waiting(l) == [] then l'.ring == l.ring && l'.worker.op == QueueProtocol.DeqFalse
         else l'.ring.dequeuePos == l.ring.dequeuePos + 1 && l'.worker.op == QueueProtocol.DeqTrue(Some(Waiting(l)[0]))
  {
    CalmFacts(l);
    QueueOfWorker(l);
    var s, k := QueueOf(l), |l.producers|;
    hide Inv, QueueProtocol.Inv, QueueOf, WorkerAlone, QueueProgress.Alone;
    var n := QueueYields(s, k);
    m := FollowsQueue(l, n);
  }

  // ----- handling a message -----

  function With<R>(sinks: seq<seq<SinkEvent<R>>>, from: nat, e: SinkEvent<R>): (r: seq<seq<SinkEvent<R>>>)
    ensures |r| == |sinks| && forall j :: 0 <= j < |r| ==> r[j] == if j >= from then sinks[j] + [e] else sinks[j]
  {
    seq(|sinks|, j requires 0 <= j < |sinks| => if j >= from then sinks[j] + [e] else sinks[j])
  }

  lemma WithStep<R>(sinks: seq<seq<SinkEvent<R>>>, from: nat, e: SinkEvent<R>)
    ensures from < |sinks| ==> With(sinks[from := sinks[from] + [e]], from + 1, e) == With(sinks, from, e)
    ensures from >= |sinks| ==> With(sinks, from, e) == sinks
  {
  }

  lemma {:induction false} Delivers<R>(l: Logger<R>) returns (m: nat)
    requires |l.ring.cells| > 0 && l.worker.op.Idle? && l.worker.pc.Delivering? && l.worker.pc.i <= |l.sinks|
    ensures WorkerAlone(l, m) ==
      l.(worker := l.worker.(pc := Polling), sinks := With(l.sinks, l.worker.pc.i, Logged(l.worker.pc.record)))
    decreases |l.sinks| - l.worker.pc.i
  {
    WithStep(l.sinks, l.worker.pc.i, Logged(l.worker.pc.record));
    var l1, rest := WorkerOne(l), 0;
    if l.worker.pc.i < |l.sinks| { rest := Delivers(l1); }
    assert WorkerAlone(l, rest + 1) == WorkerAlone(l1, rest);
    m := rest + 1;
  }

  lemma {:induction false} Flushes<R>(l: Logger<R>) returns (m: nat)
    requires |l.ring.cells| > 0 && l.worker.op.Idle? && l.worker.pc.Flushing? && l.worker.pc.i <= |l.sinks|
    ensures WorkerAlone(l, m) ==
      l.(worker := l.worker.(pc := Deciding, flushRequested := false), sinks := With(l.sinks, l.worker.pc.i, Flushed))
    decreases |l.sinks| - l.worker.pc.i
  {
    WithStep(l.sinks, l.worker.pc.i, Flushed);
    var l1, rest := WorkerOne(l), 0;
    if l.worker.pc.i < |l.sinks| { rest := Flushes(l1); }
    assert WorkerAlone(l, rest + 1) == WorkerAlone(l1, rest);
    m := rest + 1;
  }

  /** What the sinks are asked to do for some messages. */
  function Events<R>(ms: seq<Msg<R>>): seq<SinkEvent<R>> {
    if ms == [] then [] else (if ms[0].Log? then [Logged(ms[0].record)] else []) + Events(ms[1..])
  }

  /** Every sink has had these events more. */
  ghost predicate Given<R>(sinks: seq<seq<SinkEvent<R>>>, es: seq<SinkEvent<R>>, sinks': seq<seq<SinkEvent<R>>>) {
    |sinks'| == |sinks| && forall j :: 0 <= j < |sinks| ==> sinks'[j] == sinks[j] + es
  }

  /** A message in hand: its record goes to the sinks, or it raises its flags. */
  lemma Handles<R>(l: Logger<R>, msg: Msg<R>) returns (m: nat)
    requires |l.ring.cells| > 0 && l.worker.pc.Polling? && l.worker.op == QueueProtocol.DeqTrue(Some(msg))
    ensures var l' := WorkerAlone(l, m);
      && l' == l.(worker := Worker(QueueProtocol.Idle, Polling, l.worker.flushRequested || !msg.Log?,
                                   l.worker.terminateRequested || msg.Terminate?), sinks := l'.sinks)
      && Given(l.sinks, if msg.Log? then [Logged(msg.record)] else [], l'.sinks)
  {
    var l1, rest := WorkerOne(l), 0;
    if msg.Log? { rest := Delivers(l1); }
    assert WorkerAlone(l, rest + 1) == WorkerAlone(l1, rest);
    m := rest + 1;
  }

  lemma ChainGiven<R>(a: seq<seq<SinkEvent<R>>>, b: seq<seq<SinkEvent<R>>>, c: seq<seq<SinkEvent<R>>>,
                      es: seq<SinkEvent<R>>, fs: seq<SinkEvent<R>>)
    requires Given(a, es, b) && Given(b, fs, c)
    ensures Given(a, es + fs, c)
  {
  }

  /** The worker starts to look: it enters dequeue and comes out again. */
  lemma Looks<R(!new)>(l: Logger<R>) returns (m: nat)
    requires Polls(l)
    ensures |l.ring.cells| > 0 && l.ring.dequeuePos <= |l.ring.enqueued|
    ensures var l' := WorkerAlone(l, m);
      && l' == l.(ring := l'.ring, worker := l.worker.(op := l'.worker.op)) && WorkerOnly(l, l')
      && if Waiting(l) == [] then l'.ring == l.ring && l'.worker.op == QueueProtocol.DeqFalse
         else l'.ring.dequeuePos == l.ring.dequeuePos + 1 && l'.worker.op == QueueProtocol.DeqTrue(Some(Waiting(l)[0]))
  {
    hide Calm;
    CalmFacts(l);
    OneStaysCalm(l);
    var l1 := WorkerOne(l);
    assert l1.worker.op.DeqLoad? && l1.ring == l.ring;
    hide WorkerOne;
    var rest := PollEnds(l1);
    assert WorkerAlone(l, rest + 1) == WorkerAlone(l1, rest);
    m := rest + 1;
  }

  /** One waiting message is taken and handled. */
  lemma TakesOne<R(!new)>(l: Logger<R>) returns (m: nat)
    requires Polls(l) && l.ring.dequeuePos < |l.ring.enqueued|
    ensures |l.ring.cells| > 0 && Taken(l, WorkerAlone(l, m), Waiting(l)[..1])
  {
    hide Calm, WorkerAlone;
    CalmFacts(l);
    var a := Looks(l);
    var b := Handles(WorkerAlone(l, a), Waiting(l)[0]);
    AloneBoth(l, a, b);
    m := a + b;
    FrontEvents(Waiting(l)[..1]);
    assert Waiting(l)[..1][1..] == [];
  }

  lemma FrontEvents<R>(ms: seq<Msg<R>>)
    requires ms != []
    ensures Events(ms) == (if ms[0].Log? then [Logged(ms[0].record)] else []) + Events(ms[1..])
    ensures AsksFlush(ms) <==> !ms[0].Log? || AsksFlush(ms[1..])
    ensures Terminate in ms <==> ms[0].Terminate? || Terminate in ms[1..]
  {
    assert ms == [ms[0]] + ms[1..];
  }

  /** There is a flush or a terminate message among them. */
  ghost predicate AsksFlush<R>(ms: seq<Msg<R>>) { exists msg :: msg in ms && !msg.Log? }

  /** These messages, at the front of the queue, are taken and handled. */
  ghost predicate Taken<R>(l: Logger<R>, l': Logger<R>, ms: seq<Msg<R>>) {
    && WorkerOnly(l, l') && l'.ring.dequeuePos == l.ring.dequeuePos + |ms|
    && l'.worker == Worker(QueueProtocol.Idle, Polling, l.worker.flushRequested || AsksFlush(ms),
                           l.worker.terminateRequested || Terminate in ms)
    && Given(l.sinks, Events(ms), l'.sinks)
  }

  lemma TakenMore<R>(l: Logger<R>, l1: Logger<R>, l2: Logger<R>, ms: seq<Msg<R>>)
    requires ms != [] && Taken(l, l1, ms[..1]) && Taken(l1, l2, ms[1..])
    ensures Taken(l, l2, ms)
  {
    hide Events, AsksFlush, Given;
    assert ms[..1][0] == ms[0] && ms[..1][1..] == [];
    FrontEvents(ms[..1]);
    FrontEvents(ms);
    NoEvents<R>();
    var first := if ms[0].Log? then [Logged(ms[0].record)] else [];
    assert first + [] == first;
    ChainGiven(l.sinks, l1.sinks, l2.sinks, Events(ms[..1]), Events(ms[1..]));
  }

  lemma NoEvents<R>()
    ensures Events<R>([]) == [] && !AsksFlush<R>([])
  {
  }

  /** Every waiting message is taken and handled, in order. */
  lemma {:induction false} TakesAll<R(!new)>(l: Logger<R>) returns (m: nat)
    requires Polls(l) && l.ring.dequeuePos <= |l.ring.enqueued|
    ensures |l.ring.cells| > 0 && Taken(l, WorkerAlone(l, m), Waiting(l))
    decreases |l.ring.enqueued| - l.ring.dequeuePos
  {
    hide Calm;
    CalmFacts(l);
    if l.ring.dequeuePos == |l.ring.enqueued| {
      m := 0;
    } else {
      var a := TakesOne(l);
      StaysCalm(l, a);
      var l1 := WorkerAlone(l, a);
      assert Waiting(l1) == Waiting(l)[1..] && l1.worker.pc.Polling? && l1.worker.op.Idle?;
      hide Taken, WorkerAlone;
      var b := TakesAll(l1);
      AloneBoth(l, a, b);
      TakenMore(l, l1, WorkerAlone(l1, b), Waiting(l));
      m := a + b;
    }
  }

  /** Where a worker that found nothing goes: it flushes if it was asked to, and exits if it was told to. */
  ghost predicate Rested<R>(l: Logger<R>, l': Logger<R>) {
    && l'.ring == l.ring && l'.producers == l.producers
    && l'.worker == Worker(QueueProtocol.Idle, if l.worker.terminateRequested then Exited else Polling, false,
                           l.worker.terminateRequested)
    && Given(l.sinks, if l.worker.flushRequested then [Flushed] else [], l'.sinks)
  }

  lemma FindsNothing<R(!new)>(l: Logger<R>) returns (m: nat)
    requires Polls(l) && l.ring.dequeuePos == |l.ring.enqueued|
    ensures |l.ring.cells| > 0 && Rested(l, WorkerAlone(l, m))
  {
    hide Calm;
    CalmFacts(l);
    var a := Looks(l);
    var l1 := WorkerAlone(l, a);
    var b := Decides(l1);
    AloneBoth(l, a, b);
    m := a + b;
  }

  /** Dequeue came back false, or the worker has just noticed that. */
  lemma Decides<R>(l: Logger<R>) returns (m: nat)
    requires |l.ring.cells| > 0
    requires (l.worker.pc.Polling? && l.worker.op.DeqFalse?) || (l.worker.pc.Idling? && l.worker.op.Idle?)
    ensures Rested(l, WorkerAlone(l, m))
    decreases l.worker.pc.Polling?
  {
    var l1 := WorkerOne(l);
    if l.worker.pc.Polling? {
      var rest := Decides(l1);
      assert WorkerAlone(l, rest + 1) == WorkerAlone(l1, rest);
      m := rest + 1;
    } else {
      var n := 0;
      if l.worker.flushRequested { n := Flushes(l1); }
      var l2 := WorkerAlone(l1, n);
      assert WorkerAlone(l2, 1) == WorkerOne(l2);
      AloneBoth(l1, n, 1);
      assert WorkerAlone(l, n + 2) == WorkerAlone(l1, n + 1);
      m := n + 2;
    }
  }

  /**
   Left alone, a worker that is about to look for a message hands the record of every waiting one
   to every sink, in order, and nothing else; then it flushes each sink once if a flush or a terminate
   message was among them or a flush was due; then it exits if it was told to terminate, and
   goes on looking otherwise.
   */
  lemma WorkerDrains<R(!new)>(l: Logger<R>) returns (m: nat)
    requires Polls(l)
    ensures |l.ring.cells| > 0 && l.ring.dequeuePos <= |l.ring.enqueued|
    ensures var l', q := WorkerAlone(l, m), Waiting(l);
      && WorkerOnly(l, l') && l'.ring.dequeuePos == |l.ring.enqueued|
      && Given(l.sinks, Events(q) + (if l.worker.flushRequested || AsksFlush(q) then [Flushed] else []), l'.sinks)
      && l'.worker == (var stop := l.worker.terminateRequested || Terminate in q;
                       Worker(QueueProtocol.Idle, if stop then Exited else Polling, false, stop))
  {
    hide Calm, WorkerAlone;
    CalmFacts(l);
    var a := TakesAll(l);
    var l1 := WorkerAlone(l, a);
    StaysCalm(l, a);
    var b := FindsNothing(l1);
    AloneBoth(l, a, b);
    ChainGiven(l.sinks, l1.sinks, WorkerAlone(l1, b).sinks, Events(Waiting(l)),
               if l1.worker.flushRequested then [Flushed] else []);
    m := a + b;
  }

  // ----- from any point -----

  /** A message in hand, or none: then the worker looks again, or has exited. */
  lemma FromResult<R>(l: Logger<R>) returns (m: nat)
    requires |l.ring.cells| > 0 && l.worker.pc.Polling?
    requires l.worker.op.DeqFalse? || (l.worker.op.DeqTrue? && l.worker.op.got.Some?)
    ensures var l' := WorkerAlone(l, m);
      l'.ring == l.ring && l'.worker.op.Idle? && (l'.worker.pc.Polling? || l'.worker.pc.Exited?)
  {
    if l.worker.op.DeqFalse? { m := Decides(l); } else { m := Handles(l, l.worker.op.got.value); }
  }

  /** A call to dequeue that has won its ticket. */
  lemma ReadEnds<R(!new)>(l: Logger<R>) returns (m: nat)
    requires Calm(l) && l.worker.pc.Polling? && (l.worker.op.DeqRead? || l.worker.op.DeqRelease?)
    ensures |l.ring.cells| > 0
    ensures var l' := WorkerAlone(l, m);
      && l'.worker.pc.Polling? && l'.worker.op.DeqTrue? && l'.worker.op.got.Some?
      && l'.ring.enqueued == l.ring.enqueued
  {
    hide Calm;
    CalmFacts(l);
    QueueOfWorker(l);
    var s, k := QueueOf(l), |l.producers|;
    hide QueueProtocol.Inv, QueueOf, WorkerAlone, QueueProgress.Alone;
    var n := QueueProgress.ReaderFinishes(s, k);
    m := FollowsQueue(l, n);
  }

  lemma CallEnds<R(!new)>(l: Logger<R>) returns (m: nat)
    requires Calm(l) && l.worker.pc.Polling? && DequeueOp(l.worker.op)
    ensures |l.ring.cells| > 0
    ensures var l' := WorkerAlone(l, m);
      && l'.worker.pc.Polling? && (l'.worker.op.DeqFalse? || (l'.worker.op.DeqTrue? && l'.worker.op.got.Some?))
      && l'.ring.enqueued == l.ring.enqueued
  {
    if l.worker.op.DeqFalse? || l.worker.op.DeqTrue? {
      m := 0;
    } else if l.worker.op.DeqRead? || l.worker.op.DeqRelease? {
      m := ReadEnds(l);
    } else {
      m := PollEnds(l);
    }
  }

  /** Where the worker stands outside a call to dequeue. */
  lemma FromOutside<R>(l: Logger<R>) returns (m: nat)
    requires |l.ring.cells| > 0 && l.worker.op.Idle?
    requires l.worker.pc.Flushing? || l.worker.pc.Delivering? ==> l.worker.pc.i <= |l.sinks|
    ensures var l' := WorkerAlone(l, m);
      l'.ring == l.ring && l'.worker.op.Idle? && (l'.worker.pc.Polling? || l'.worker.pc.Exited?)
  {
    match l.worker.pc
    case Polling => m := 0;
    case Exited => m := 0;
    case Delivering(_, _) => m := Delivers(l);
    case Idling => m := Decides(l);
    case Deciding => m := 1; assert WorkerAlone(l, 1) == WorkerOne(l);
    case Flushing(_) =>
      var n := Flushes(l);
      var l1 := WorkerAlone(l, n);
      assert WorkerAlone(l1, 1) == WorkerOne(l1);
      AloneBoth(l, n, 1);
      m := n + 1;
  }

  /** Whatever the worker is doing, it comes to look for a message again, or it exits. */
  lemma ComesBack<R(!new)>(l: Logger<R>) returns (m: nat)
    requires Calm(l)
    ensures |l.ring.cells| > 0
    ensures var l' := WorkerAlone(l, m);
      Calm(l') && l'.ring.enqueued == l.ring.enqueued && (Polls(l') || l'.worker.pc.Exited?)
  {
    hide Calm, WorkerAlone;
    WorkerFacts(l);
    CalmFacts(l);
    if l.worker.op.Idle? {
      m := FromOutside(l);
    } else {
      var a := CallEnds(l);
      var b := FromResult(WorkerAlone(l, a));
      AloneBoth(l, a, b);
      m := a + b;
    }
    StaysCalm(l, m);
  }

  lemma WorkerFacts<R(!new)>(l: Logger<R>)
    requires Calm(l)
    ensures l.worker.op.Idle? || (l.worker.pc.Polling? && DequeueOp(l.worker.op))
    ensures l.worker.pc.Flushing? || l.worker.pc.Delivering? ==> l.worker.pc.i <= |l.sinks|
    ensures l.worker.pc.Polling? && l.worker.op.Idle? && l.ring.dequeuePos <= |l.ring.enqueued| ==>
      (l.worker.terminateRequested <==> Terminate in l.ring.enqueued[..l.ring.dequeuePos])
  {
    assert WorkerOk(l.ring.enqueued, l.ring.dequeuePos, l.worker, l.sinks);
  }

  /**
   Once a terminate message is in the queue and the producers are between calls, the worker exits
   after finitely many steps of its own, from wherever it is.
   */
  lemma WorkerExits<R(!new)>(ls: seq<Logger<R>>, n: nat, policy: Policy, i: nat) returns (m: nat)
    requires n >= 2 && Run(ls, n, policy) && i < |ls|
    requires ProducersQuiet(ls[i]) && Terminate in ls[i].ring.enqueued
    ensures |ls[i].ring.cells| > 0 && WorkerAlone(ls[i], m).worker.pc.Exited?
  {
    RunHasInv(ls, n, policy, i);
    m := ExitsFrom(ls[i]);
  }

  lemma ExitsFrom<R(!new)>(l: Logger<R>) returns (m: nat)
    requires Calm(l) && Terminate in l.ring.enqueued
    ensures |l.ring.cells| > 0 && WorkerAlone(l, m).worker.pc.Exited?
  {
    hide Calm, WorkerAlone;
    var a := ComesBack(l);
    var l1 := WorkerAlone(l, a);
    if l1.worker.pc.Exited? {
      m := a;
    } else {
      WorkerFacts(l1);
      var b := WorkerDrains(l1);
      assert l.ring.enqueued == l.ring.enqueued[..l1.ring.dequeuePos] + Waiting(l1);
      AloneBoth(l, a, b);
      m := a + b;
    }
  }

  // ----- a push on its own -----

  /** The producer's next step: inside the queue, or after a failed enqueue as the policy says. */
  function ProducerOne<R>(l: Logger<R>, k: nat, policy: Policy): (l': Logger<R>)
    requires |l.ring.cells| > 0 && k < |l.producers|
    ensures |l'.ring.cells| > 0 && |l'.producers| == |l.producers|
  {
    var p := l.producers[k];
    if p.op.EnqFalse? then
      l.(producers := l.producers[k := p.(op := if policy == BlockRetry then QueueProtocol.EnqLoad(p.op.item)
                                                   else QueueProtocol.Idle)])
    else if p.op.Quiet() then l
    else
      var (r, op) := QueueProtocol.Step(l.ring, p.op, false);
      var tickets := if p.op.EnqCas? && op.EnqWrite? then p.tickets + [op.pos] else p.tickets;
      l.(ring := r, producers := l.producers[k := Producer(op, p.calls, tickets)])
  }

  lemma ProducerOneIsStep<R(!new)>(l: Logger<R>, k: nat, policy: Policy)
    requires |l.ring.cells| > 0 && k < |l.producers|
    requires !l.producers[k].op.Quiet() || l.producers[k].op.EnqFalse?
    ensures Next(l, ProducerOne(l, k, policy), policy)
  {
    if l.producers[k].op.EnqFalse? {
      assert ProducerRetries(l, ProducerOne(l, k, policy), k, policy);
    } else {
      assert ProducerRuns(l, ProducerOne(l, k, policy), k, false);
    }
  }

  function PushSteps<R>(l: Logger<R>, k: nat, policy: Policy, m: nat): (l': Logger<R>)
    requires |l.ring.cells| > 0 && k < |l.producers|
    ensures |l'.ring.cells| > 0 && |l'.producers| == |l.producers|
    decreases m
  {
    if m == 0 then l else PushSteps(ProducerOne(l, k, policy), k, policy, m - 1)
  }

  ghost predicate OnlyProducer<R>(l: Logger<R>, l': Logger<R>, k: nat) {
    k < |l.producers| == |l'.producers| && l'.producers == l.producers[k := l'.producers[k]]
  }

  lemma QueueOfProducer<R>(l: Logger<R>, k: nat, l': Logger<R>)
    requires k < |l.producers|
    ensures var s := QueueOf(l); s.ring == l.ring && |s.ops| == |l.producers| + 1 && s.ops[k] == l.producers[k].op
    ensures l' == l.(ring := l'.ring, producers := l'.producers) && OnlyProducer(l, l', k) ==>
      QueueOf(l') == QueueProtocol.State(l'.ring, QueueOf(l).ops[k := l'.producers[k].op])
  {
  }

  function Range(from: nat, to: nat): seq<nat>
    requires from <= to
  {
    seq(to - from, i requires 0 <= i < to - from => from + i)
  }

  /** The tickets a step wins are those by which the history of items grows. */
  lemma StepTickets<T>(r: QueueProtocol.Ring<T>, op: QueueProtocol.Op<T>)
    requires |r.cells| > 0 && |r.enqueued| == r.enqueuePos
    ensures var (r', op') := QueueProtocol.Step(r, op, false);
      && |r'.enqueued| == r'.enqueuePos && |r.enqueued| <= |r'.enqueued|
      && Range(|r.enqueued|, |r'.enqueued|) == if op.EnqCas? && op'.EnqWrite? then [op'.pos] else []
  {
  }

  lemma RangeBoth(a: nat, b: nat, c: nat)
    requires a <= b <= c
    ensures Range(a, b) + Range(b, c) == Range(a, c)
  {
  }

  /** Up to the end of its call the producer does what the queue protocol does, and notes its ticket. */
  lemma {:induction false} FollowsPush<R>(l: Logger<R>, k: nat, policy: Policy, m: nat) returns (steps: nat)
    requires |l.ring.cells| > 0 && k < |l.producers| && |l.ring.enqueued| == l.ring.enqueuePos
    requires QueueProgress.Alone(QueueOf(l), k, m).ops[k].Quiet()
    ensures var s', l' := QueueProgress.Alone(QueueOf(l), k, m), PushSteps(l, k, policy, steps);
      && |l.ring.enqueued| <= |s'.ring.enqueued|
      && l' == l.(ring := s'.ring, producers := l.producers[k := Producer(s'.ops[k], l.producers[k].calls,
           l.producers[k].tickets + Range(|l.ring.enqueued|, |s'.ring.enqueued|))])
    decreases m
  {
    QueueOfProducer(l, k, ProducerOne(l, k, policy));
    var p := l.producers[k];
    if p.op.Quiet() {
      QuietStays(QueueOf(l), k, m);
      assert p.tickets + Range(|l.ring.enqueued|, |l.ring.enqueued|) == p.tickets && l.producers[k := p] == l.producers;
      steps := 0;
    } else {
      var l1 := ProducerOne(l, k, policy);
      StepTickets(l.ring, p.op);
      var (r, op) := QueueProtocol.Step(l.ring, p.op, false);
      assert l1.producers[k].tickets == p.tickets + Range(|l.ring.enqueued|, |r.enqueued|);
      assert QueueOf(l1) == QueueProtocol.State(r, QueueOf(l).ops[k := op]);
      hide QueueProtocol.Step, QueueOf, ProducerOne;
      var rest := FollowsPush(l1, k, policy, m - 1);
      hide Range, QueueProgress.Alone;
      var s' := QueueProgress.Alone(QueueOf(l1), k, m - 1);
      RangeBoth(|l.ring.enqueued|, |r.enqueued|, |s'.ring.enqueued|);
      Joined(p.tickets, Range(|l.ring.enqueued|, |r.enqueued|), Range(|r.enqueued|, |s'.ring.enqueued|));
      steps := rest + 1;
    }
  }

  lemma Joined<T>(a: seq<T>, b: seq<T>, c: seq<T>)
    ensures a + b + c == a + (b + c)
  {
  }

  /** Nobody but producer k is inside a call. */
  ghost predicate Pushes<R(!new)>(l: Logger<R>, k: nat) {
    && Inv(l) && k < |l.producers| && l.worker.op.Quiet()
    && forall j :: 0 <= j < |l.producers| && j != k ==> l.producers[j].op.Quiet()
  }

  lemma PushFacts<R(!new)>(l: Logger<R>, k: nat)
    requires Pushes(l, k)
    ensures k < |l.producers| && |l.ring.cells| > 0 && |l.ring.enqueued| == l.ring.enqueuePos
    ensures l.ring.dequeuePos <= |l.ring.enqueued|
    ensures QueueProtocol.Inv(QueueOf(l)) && QueueProperties.OthersQuiet(QueueOf(l), k)
    ensures QueueProperties.Queued(QueueOf(l)) == Waiting(l)
    ensures |QueueOf(l).ops| == |l.producers| + 1 && QueueOf(l).ops[k] == l.producers[k].op
  {
    ShapeOf(QueueOf(l));
  }

  /** The queue after an undisturbed enqueue of x. */
  lemma QueueAccepts<T>(s: QueueProtocol.State<T>, k: nat) returns (n: nat)
    requires QueueProtocol.Inv(s) && k < |s.ops| && QueueProperties.OthersQuiet(s, k)
    requires s.ops[k].EnqLoad? || s.ops[k].EnqSeq? || s.ops[k].EnqCas?
    ensures |s.ring.cells| > 0 && s.ring.dequeuePos <= |s.ring.enqueued|
    ensures var s', x := QueueProgress.Alone(s, k, n), s.ops[k].item;
      if |s.ring.enqueued| - s.ring.dequeuePos < |s.ring.cells|
      then s'.ring.enqueued == s.ring.enqueued + [x] && s'.ring.dequeuePos == s.ring.dequeuePos &&
           s'.ops[k] == QueueProtocol.EnqTrue
      else s'.ring == s.ring && s'.ops[k] == QueueProtocol.EnqFalse(x)
  {
    ShapeOf(s);
    hide QueueProtocol.Inv, QueueProgress.Alone;
    n := QueueProgress.EnqueueAloneEnds(s, k);
  }

  /**
   Left alone, a push that has not won a ticket either wins the next one with its message, if there
   is room; or finds the queue full, and then tries again with the same message under the
   blocking policy, or gives the message up under the other; the queue is then unchanged.
   */
  lemma PushEnds<R(!new)>(l: Logger<R>, k: nat, policy: Policy) returns (m: nat)
    requires Pushes(l, k)
    requires var op := l.producers[k].op; op.EnqLoad? || op.EnqSeq? || op.EnqCas?
    ensures |l.ring.cells| > 0 && k < |l.producers| && l.ring.dequeuePos <= |l.ring.enqueued|
    ensures var l', p := PushSteps(l, k, policy, m), l.producers[k];
      if |Waiting(l)| < |l.ring.cells| then
        && l'.ring.enqueued == l.ring.enqueued + [p.op.item] && l'.ring.dequeuePos == l.ring.dequeuePos
        && l' == l.(ring := l'.ring, producers := l.producers[k :=
             Producer(QueueProtocol.EnqTrue, p.calls, p.tickets + [|l.ring.enqueued|])])
      else
        l' == l.(producers := l.producers[k := p.(op :=
                if policy.BlockRetry? then QueueProtocol.EnqLoad(p.op.item) else QueueProtocol.Idle)])
  {
    hide Pushes;
    PushFacts(l, k);
    var p := l.producers[k];
    hide QueueProtocol.Inv, QueueOf, QueueProgress.Alone, PushSteps;
    var n := QueueAccepts(QueueOf(l), k);
    var steps := FollowsPush(l, k, policy, n);
    var l1 := PushSteps(l, k, policy, steps);
    if |Waiting(l)| < |l.ring.cells| {
      assert Range(|l.ring.enqueued|, |l.ring.enqueued| + 1) == [|l.ring.enqueued|];
      m := steps;
    } else {
      assert p.tickets + Range(|l.ring.enqueued|, |l.ring.enqueued|) == p.tickets;
      assert l1 == l.(producers := l.producers[k := p.(op := QueueProtocol.EnqFalse(p.op.item))]);
      OnePush(l1, k, policy);
      PushBoth(l, k, policy, steps, 1);
      m := steps + 1;
    }
  }

  lemma OnePush<R>(l: Logger<R>, k: nat, policy: Policy)
    requires |l.ring.cells| > 0 && k < |l.producers|
    ensures PushSteps(l, k, policy, 1) == ProducerOne(l, k, policy)
  {
  }

  lemma {:induction false} PushBoth<R>(l: Logger<R>, k: nat, policy: Policy, a: nat, b: nat)
    requires |l.ring.cells| > 0 && k < |l.producers|
    ensures PushSteps(l, k, policy, a + b) == PushSteps(PushSteps(l, k, policy, a), k, policy, b)
    decreases a
  {
    hide ProducerOne;
    if a > 0 { PushBoth(ProducerOne(l, k, policy), k, policy, a - 1, b); }
  }
}
