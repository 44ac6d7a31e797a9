/**
 The asynchronous logger on top of the queue protocol: any number of producer threads
 push messages, one worker thread drains the queue to the sinks and shuts down on a
 terminate message. Every atomic step of a push or a pop is a step of the queue protocol;
 delivery to each sink is a step of its own.
 */
module AsyncLogger {
  import opened Wrappers
  import opened QueueProtocol

  datatype Msg<R> = Log(record: R) | Flush | Terminate

  datatype Policy = BlockRetry | DiscardLogMsg

  /** What a sink has been asked to do, in order. */
  datatype SinkEvent<R> = Logged(record: R) | Flushed

  /**
   A producer: where it is inside push_msg, the messages of its calls so far, and the
   tickets they won (history).
   */
  datatype Producer<R> = Producer(op: Op<Msg<R>>, calls: seq<Msg<R>>, tickets: seq<nat>)

  /** Where the worker is in process_next_msg. */
  datatype WorkerPc<R> =
    | Polling                       // inside _q.dequeue
    | Delivering(record: R, i: nat) // about to call sink i
    | Idling                        // dequeue came back false; about to decide on a flush
    | Flushing(i: nat)              // about to flush sink i
    | Deciding                      // about to return !_terminate_requested
    | Exited

  datatype Worker<R> = Worker(
    op: Op<Msg<R>>, pc: WorkerPc<R>, flushRequested: bool, terminateRequested: bool)

  datatype Logger<R> = Logger(
    ring: Ring<Msg<R>>, producers: seq<Producer<R>>, worker: Worker<R>, sinks: seq<seq<SinkEvent<R>>>)

  // ----- steps -----

  /** A producer calls log, flush or the destructor's push of Terminate. */
  ghost predicate ProducerCalls<R>(l: Logger<R>, l': Logger<R>, k: nat, m: Msg<R>) {
    && k < |l.producers|
    && var p := l.producers[k];
    && (p.op.Idle? || p.op.EnqTrue?)
    && l' == l.(producers := l.producers[k := Producer(EnqLoad(m), p.calls + [m], p.tickets)])
  }

  /** push_msg after a failed enqueue: try again, or give the message up. */
  ghost predicate ProducerRetries<R>(l: Logger<R>, l': Logger<R>, k: nat, policy: Policy) {
    && k < |l.producers|
    && var p := l.producers[k];
    && p.op.EnqFalse?
    && l' == l.(producers := l.producers[k :=
         p.(op := if policy == BlockRetry then EnqLoad(p.op.item) else Idle)])
  }

  /** A producer takes one step inside the queue. */
  ghost predicate ProducerRuns<R>(l: Logger<R>, l': Logger<R>, k: nat, weak: bool)
    requires |l.ring.cells| > 0
  {
    && k < |l.producers|
    && var p := l.producers[k];
    && !p.op.Quiet()
    && var (r, op) := Step(l.ring, p.op, weak);
    && l' == l.(ring := r, producers := l.producers[k := Producer(op, p.calls,
         if p.op.EnqCas? && op.EnqWrite? then p.tickets + [op.pos] else p.tickets)])
  }

  /** The worker takes one step inside the queue. */
  ghost predicate WorkerRuns<R>(l: Logger<R>, l': Logger<R>, weak: bool)
    requires |l.ring.cells| > 0
  {
    && l.worker.pc.Polling? && !l.worker.op.Quiet()
    && var (r, op) := Step(l.ring, l.worker.op, weak);
    && l' == l.(ring := r, worker := l.worker.(op := op))
  }

  /** The worker's own code between queue steps; `elapsed` is the flush interval's verdict. */
  function WorkerStep<R>(w: Worker<R>, sinks: seq<seq<SinkEvent<R>>>, elapsed: bool)
    : (Worker<R>, seq<seq<SinkEvent<R>>>)
  {
    match w.pc
    case Polling =>
      (match w.op
       case DeqTrue(got) =>
         var w := w.(op := Idle);
         (match got
          case Some(Flush) => (w.(flushRequested := true), sinks)
          case Some(Terminate) => (w.(flushRequested := true, terminateRequested := true), sinks)
          case Some(Log(record)) => (w.(pc := Delivering(record, 0)), sinks)
          case None => (w, sinks))
       case DeqFalse => (w.(op := Idle, pc := Idling), sinks)
       case _ => (w.(op := DeqLoad), sinks))
    case Delivering(record, i) =>
      if i < |sinks|
      then (w.(pc := Delivering(record, i + 1)), sinks[i := sinks[i] + [Logged(record)]])
      else (w.(pc := Polling), sinks)
    case Idling =>
      (w.(pc := if w.flushRequested || elapsed then Flushing(0) else Deciding), sinks)
    case Flushing(i) =>
      if i < |sinks|
      then (w.(pc := Flushing(i + 1)), sinks[i := sinks[i] + [Flushed]])
      else (w.(pc := Deciding, flushRequested := false), sinks)
    case Deciding => (w.(pc := if w.terminateRequested then Exited else Polling), sinks)
    case Exited => (w, sinks)
  }

  ghost predicate WorkerActs<R>(l: Logger<R>, l': Logger<R>, elapsed: bool) {
    && l.worker.op.Quiet()
    && var (w, sinks) := WorkerStep(l.worker, l.sinks, elapsed);
       l' == l.(worker := w, sinks := sinks)
  }

  ghost predicate Next<R(!new)>(l: Logger<R>, l': Logger<R>, policy: Policy)
    requires |l.ring.cells| > 0
  {
    || (exists k: nat, m :: ProducerCalls(l, l', k, m))
    || (exists k: nat :: ProducerRetries(l, l', k, policy))
    || (exists k: nat, weak :: ProducerRuns(l, l', k, weak))
    || (exists weak :: WorkerRuns(l, l', weak))
    || (exists elapsed :: WorkerActs(l, l', elapsed))
  }

  ghost predicate Init<R>(l: Logger<R>, n: nat) {
    && QueueProtocol.Init(QueueOf(l), n)
    && (forall k :: 0 <= k < |l.producers| ==> l.producers[k] == Producer(Idle, [], []))
    && l.worker == Worker(Idle, Polling, false, false)
    && forall i :: 0 <= i < |l.sinks| ==> l.sinks[i] == []
  }

  ghost predicate StepAt<R(!new)>(ls: seq<Logger<R>>, policy: Policy, i: nat)
    requires 0 < i < |ls|
  {
    |ls[i-1].ring.cells| > 0 && Next(ls[i-1], ls[i], policy)
  }

  ghost predicate Run<R(!new)>(ls: seq<Logger<R>>, n: nat, policy: Policy) {
    && |ls| > 0 && Init(ls[0], n)
    && forall i: nat :: 0 < i < |ls| ==> StepAt(ls, policy, i)
  }

  // ----- the queue underneath -----

  /** The logger seen as a state of the queue protocol: producers first, the worker last. */
  function QueueOf<R>(l: Logger<R>): State<Msg<R>> {
    State(l.ring, seq(|l.producers|, i requires 0 <= i < |l.producers| => l.producers[i].op) + [l.worker.op])
  }

  lemma ProducerStepIsQueueStep<R(!new)>(l: Logger<R>, l': Logger<R>, k: nat)
    requires |l.ring.cells| > 0
    ensures forall m :: ProducerCalls(l, l', k, m) ==> Calls(QueueOf(l), QueueOf(l'), k, EnqLoad(m))
    ensures forall policy :: ProducerRetries(l, l', k, policy) ==> Calls(QueueOf(l), QueueOf(l'), k, l'.producers[k].op)
    ensures forall weak :: ProducerRuns(l, l', k, weak) ==> Runs(QueueOf(l), QueueOf(l'), k, weak)
  {
  }

  lemma WorkerStepIsQueueStep<R(!new)>(l: Logger<R>, l': Logger<R>)
    requires |l.ring.cells| > 0
    ensures forall weak :: WorkerRuns(l, l', weak) ==> Runs(QueueOf(l), QueueOf(l'), |l.producers|, weak)
    ensures forall elapsed :: WorkerActs(l, l', elapsed) ==>
      QueueOf(l') == QueueOf(l) || Calls(QueueOf(l), QueueOf(l'), |l.producers|, l'.worker.op)
  {
  }

  /** Every logger step is a step of the queue protocol or leaves it alone. */
  lemma NextIsQueueNext<R(!new)>(l: Logger<R>, l': Logger<R>, policy: Policy)
    requires |l.ring.cells| > 0 && Next(l, l', policy)
    ensures QueueOf(l') == QueueOf(l) || QueueProtocol.Next(QueueOf(l), QueueOf(l'))
  {
    WorkerStepIsQueueStep(l, l');
    if k: nat, m :| ProducerCalls(l, l', k, m) {
      ProducerStepIsQueueStep(l, l', k);
    } else if k: nat :| ProducerRetries(l, l', k, policy) {
      ProducerStepIsQueueStep(l, l', k);
    } else if k: nat, weak :| ProducerRuns(l, l', k, weak) {
      ProducerStepIsQueueStep(l, l', k);
    }
  }

  // ----- what has been processed -----

  /** The log records among the messages, in order. */
  function Records<R>(ms: seq<Msg<R>>): seq<R> {
    if ms == [] then [] else
      var rest := Records(ms[..|ms|-1]);
      match ms[|ms|-1] case Log(r) => rest + [r] case _ => rest
  }

  /** The records a sink has been given, in order. */
  function Seen<R>(es: seq<SinkEvent<R>>): seq<R> {
    if es == [] then [] else
      var rest := Seen(es[..|es|-1]);
      match es[|es|-1] case Logged(r) => rest + [r] case Flushed => rest
  }

  ghost predicate EndsFlushed<R>(es: seq<SinkEvent<R>>) {
    |es| > 0 && es[|es|-1].Flushed?
  }

  /** How many records the sink has had when it was last flushed. */
  function FlushedCount<R>(es: seq<SinkEvent<R>>): nat {
    if es == [] then 0
    else if es[|es|-1].Flushed? then |Seen(es)| else FlushedCount(es[..|es|-1])
  }

  lemma {:induction false} FlushedCountBound<R>(es: seq<SinkEvent<R>>)
    ensures FlushedCount(es) <= |Seen(es)|
  {
    if es != [] { FlushedCountBound(es[..|es|-1]); }
  }

  lemma SinkAppend<R>(es: seq<SinkEvent<R>>, e: SinkEvent<R>)
    ensures Seen(es + [e]) == Seen(es) + (if e.Logged? then [e.record] else [])
    ensures FlushedCount(es + [e]) == if e.Flushed? then |Seen(es)| else FlushedCount(es)
  {
    assert (es + [e])[..|es|] == es;
  }

  lemma {:induction false} RecordsPrefix<R>(ms: seq<Msg<R>>, i: nat, j: nat)
    requires i <= j <= |ms|
    ensures Records(ms[..i]) <= Records(ms[..j])
    decreases j
  {
    if i < j {
      RecordsPrefix(ms, i, j - 1);
      assert ms[..j][..j-1] == ms[..j-1];
    }
  }

  lemma RecordsAppend<R>(ms: seq<Msg<R>>, m: Msg<R>)
    ensures Records(ms + [m]) == Records(ms) + (if m.Log? then [m.record] else [])
  {
    assert (ms + [m])[..|ms|] == ms;
  }

  // ----- the worker's invariant -----

  predicate DequeueOp<R>(op: Op<Msg<R>>) {
    op.DeqLoad? || op.DeqSeq? || op.DeqCas? || op.DeqRead? || op.DeqRelease? || op.DeqTrue? || op.DeqFalse?
  }

  /** The worker has claimed a ticket whose message it has not finished with. */
  predicate Busy<R>(w: Worker<R>) {
    w.op.DeqRead? || w.op.DeqRelease? || w.op.DeqTrue? || w.pc.Delivering?
  }

  /** Messages whose processing is over. */
  function Processed<R>(claimed: nat, w: Worker<R>): nat {
    if Busy(w) && claimed > 0 then claimed - 1 else claimed
  }

  ghost predicate PcOk<R>(ms: seq<Msg<R>>, claimed: nat, w: Worker<R>) {
    && claimed <= |ms|
    && (w.pc.Polling? || w.op.Idle?)
    && (w.op.Idle? || DequeueOp(w.op))
    && (Busy(w) ==> claimed > 0)
    && (w.op.DeqRead? || w.op.DeqRelease? ==> w.op.pos == claimed - 1)
    && (w.op.DeqTrue? ==> w.op.got == Some(ms[claimed-1]))
    && (w.pc.Delivering? ==> ms[claimed-1] == Log(w.pc.record))
  }

  /** Records given to sink j beyond those of the processed messages. */
  function Extra<R>(w: Worker<R>, j: nat): seq<R> {
    if w.pc.Delivering? && j < w.pc.i then [w.pc.record] else []
  }

  ghost predicate SinkOk<R>(ms: seq<Msg<R>>, done: nat, w: Worker<R>, j: nat, es: seq<SinkEvent<R>>)
    requires done <= |ms|
  {
    && Seen(es) == Records(ms[..done]) + Extra(w, j)
    && (w.pc.Flushing? && j < w.pc.i ==> EndsFlushed(es))
    && (w.terminateRequested && !w.flushRequested ==> EndsFlushed(es))
    && (!w.flushRequested ==> forall t :: 0 <= t < done && !ms[t].Log? ==> |Records(ms[..t])| <= FlushedCount(es))
  }

  ghost predicate WorkerOk<R>(ms: seq<Msg<R>>, claimed: nat, w: Worker<R>, sinks: seq<seq<SinkEvent<R>>>) {
    && PcOk(ms, claimed, w)
    && var done := Processed(claimed, w);
    && (w.terminateRequested <==> Terminate in ms[..done])
    && (w.terminateRequested && !w.flushRequested ==> w.pc.Deciding? || w.pc.Exited?)
    && (w.pc.Deciding? || w.pc.Exited? ==> !w.flushRequested)
    && (w.pc.Exited? ==> w.terminateRequested)
    && (w.pc.Flushing? ==> w.pc.i <= |sinks|)
    && (w.pc.Delivering? ==> w.pc.i <= |sinks|)
    && forall j :: 0 <= j < |sinks| ==> SinkOk(ms, done, w, j, sinks[j])
  }

  /** More messages may be enqueued without disturbing the worker. */
  lemma MoreMessagesKeepWorker<R>(
      ms: seq<Msg<R>>, ms': seq<Msg<R>>, claimed: nat, w: Worker<R>, sinks: seq<seq<SinkEvent<R>>>)
    requires WorkerOk(ms, claimed, w, sinks) && ms <= ms'
    ensures WorkerOk(ms', claimed, w, sinks)
  {
    var done := Processed(claimed, w);
    assert forall t :: 0 <= t <= done ==> ms'[..t] == ms[..t];
    forall j | 0 <= j < |sinks| ensures SinkOk(ms', done, w, j, sinks[j]) {
      assert SinkOk(ms, done, w, j, sinks[j]);
    }
  }

  /** The worker moves inside the queue; it may claim the next ticket. */
  lemma PollKeepsWorker<R>(
      ms: seq<Msg<R>>, claimed: nat, claimed': nat, w: Worker<R>, w': Worker<R>, sinks: seq<seq<SinkEvent<R>>>)
    requires WorkerOk(ms, claimed, w, sinks) && w.pc.Polling? && w' == w.(op := w'.op)
    requires PcOk(ms, claimed', w') && Processed(claimed', w') == Processed(claimed, w)
    ensures WorkerOk(ms, claimed', w', sinks)
  {
    forall j | 0 <= j < |sinks| ensures SinkOk(ms, Processed(claimed', w'), w', j, sinks[j]) {
      assert SinkOk(ms, Processed(claimed, w), w, j, sinks[j]);
    }
  }

  ghost predicate SinkKept<R>(
      ms: seq<Msg<R>>, claimed: nat, w: Worker<R>, sinks: seq<seq<SinkEvent<R>>>, elapsed: bool, j: nat)
    requires j < |sinks|
  {
    var (w', sinks') := WorkerStep(w, sinks, elapsed);
    && |sinks'| == |sinks| && Processed(claimed, w') <= |ms|
    && SinkOk(ms, Processed(claimed, w'), w', j, sinks'[j])
  }

  /** Finishing with the claimed message, whatever it was. */
  lemma FinishKeepsSink<R>(
      ms: seq<Msg<R>>, claimed: nat, w: Worker<R>, sinks: seq<seq<SinkEvent<R>>>, elapsed: bool, j: nat)
    requires WorkerOk(ms, claimed, w, sinks) && w.op.Quiet() && j < |sinks|
    requires w.pc.Polling? || (w.pc.Delivering? && w.pc.i == |sinks|)
    ensures SinkKept(ms, claimed, w, sinks, elapsed, j)
  {
    hide Seen, FlushedCount, EndsFlushed, Records;
    var (w', sinks') := WorkerStep(w, sinks, elapsed);
    var done, done' := Processed(claimed, w), Processed(claimed, w');
    assert SinkOk(ms, done, w, j, sinks[j]);
    if done' != done {
      assert ms[..done'] == ms[..done] + [ms[done]];
      RecordsAppend(ms[..done], ms[done]);
    }
  }

  lemma DeliverKeepsSink<R>(
      ms: seq<Msg<R>>, claimed: nat, w: Worker<R>, sinks: seq<seq<SinkEvent<R>>>, elapsed: bool, j: nat)
    requires WorkerOk(ms, claimed, w, sinks) && w.op.Quiet() && j < |sinks|
    requires w.pc.Delivering? && w.pc.i < |sinks|
    ensures SinkKept(ms, claimed, w, sinks, elapsed, j)
  {
    assert SinkOk(ms, Processed(claimed, w), w, j, sinks[j]);
    SinkAppend(sinks[w.pc.i], Logged(w.pc.record));
  }

  lemma FlushKeepsSink<R>(
      ms: seq<Msg<R>>, claimed: nat, w: Worker<R>, sinks: seq<seq<SinkEvent<R>>>, elapsed: bool, j: nat)
    requires WorkerOk(ms, claimed, w, sinks) && w.op.Quiet() && j < |sinks| && w.pc.Flushing?
    ensures SinkKept(ms, claimed, w, sinks, elapsed, j)
  {
    var done := Processed(claimed, w);
    assert SinkOk(ms, done, w, j, sinks[j]);
    if w.pc.i < |sinks| {
      SinkAppend(sinks[w.pc.i], Flushed);
      FlushedCountBound(sinks[w.pc.i]);
    } else {
      assert FlushedCount(sinks[j]) == |Seen(sinks[j])|;
    }
    forall t | 0 <= t <= done ensures Records(ms[..t]) <= Records(ms[..done]) { RecordsPrefix(ms, t, done); }
  }

  /** The worker's own code, outside the queue. */
  lemma ActKeepsWorker<R>(
      ms: seq<Msg<R>>, claimed: nat, w: Worker<R>, sinks: seq<seq<SinkEvent<R>>>, elapsed: bool)
    requires WorkerOk(ms, claimed, w, sinks) && w.op.Quiet()
    ensures WorkerOk(ms, claimed, WorkerStep(w, sinks, elapsed).0, WorkerStep(w, sinks, elapsed).1)
  {
    var (w', sinks') := WorkerStep(w, sinks, elapsed);
    var done, done' := Processed(claimed, w), Processed(claimed, w');
    if done' != done {
      assert ms[..done'] == ms[..done] + [ms[done]];
    }
    forall j | 0 <= j < |sinks| ensures SinkOk(ms, done', w', j, sinks'[j]) {
      assert SinkOk(ms, done, w, j, sinks[j]);
      if w.pc.Polling? || (w.pc.Delivering? && w.pc.i == |sinks|) {
        FinishKeepsSink(ms, claimed, w, sinks, elapsed, j);
      } else if w.pc.Delivering? {
        DeliverKeepsSink(ms, claimed, w, sinks, elapsed, j);
      } else if w.pc.Flushing? {
        FlushKeepsSink(ms, claimed, w, sinks, elapsed, j);
      }
    }
  }

  // ----- the whole logger -----

  ghost predicate Inv<R>(l: Logger<R>) {
    QueueProtocol.Inv(QueueOf(l)) && Upper(l)
  }

  /** One queue step of a thread that does not dequeue claims no ticket. */
  lemma EnqueuerStep<T>(r: Ring<T>, op: Op<T>, weak: bool)
    requires |r.cells| > 0
    requires op.EnqLoad? || op.EnqSeq? || op.EnqCas? || op.EnqWrite? || op.EnqPublish?
    ensures var (r', op') := Step(r, op, weak);
      && r.enqueued <= r'.enqueued && r'.dequeuePos == r.dequeuePos && |r'.cells| == |r.cells|
      && !(op'.DeqLoad? || op'.DeqSeq? || op'.DeqCas? || op'.DeqRead? || op'.DeqRelease? || op'.DeqTrue?
           || op'.DeqFalse?)
  {
  }

  /** One queue step of the worker keeps the count of processed messages. */
  lemma PollStep<R(!new)>(l: Logger<R>, l': Logger<R>, weak: bool)
    requires Inv(l) && WorkerRuns(l, l', weak)
    ensures l'.ring.enqueued == l.ring.enqueued
    ensures PcOk(l'.ring.enqueued, l'.ring.dequeuePos, l'.worker)
    ensures Processed(l'.ring.dequeuePos, l'.worker) == Processed(l.ring.dequeuePos, l.worker)
  {
    var s, s' := QueueOf(l), QueueOf(l');
    assert s.ops[|l.producers|] == l.worker.op;
    assert OpOk(s.ring, l.worker.op);
    WorkerStepIsQueueStep(l, l');
    RunsKeepsInv(s, s', |l.producers|, weak);
    ShapeOf(s');
  }

  lemma ShapeOf<T>(s: State<T>)
    requires QueueProtocol.Inv(s)
    ensures Shape(s)
  {
  }

  /** What a step must keep besides the queue's own invariant. */
  ghost predicate Upper<R>(l: Logger<R>) {
    && (forall k :: 0 <= k < |l.producers| ==> !DequeueOp(l.producers[k].op))
    && WorkerOk(l.ring.enqueued, l.ring.dequeuePos, l.worker, l.sinks)
  }

  lemma ProducerKeepsUpper<R(!new)>(l: Logger<R>, l': Logger<R>, k: nat, m: Msg<R>, weak: bool, policy: Policy)
    requires Upper(l) && |l.ring.cells| > 0
    requires ProducerCalls(l, l', k, m) || ProducerRetries(l, l', k, policy) || ProducerRuns(l, l', k, weak)
    ensures Upper(l')
  {
    if ProducerRuns(l, l', k, weak) {
      EnqueuerStep(l.ring, l.producers[k].op, weak);
      MoreMessagesKeepWorker(l.ring.enqueued, l'.ring.enqueued, l.ring.dequeuePos, l.worker, l.sinks);
    }
  }

  lemma WorkerKeepsUpper<R(!new)>(l: Logger<R>, l': Logger<R>, weak: bool, elapsed: bool)
    requires Inv(l) && (WorkerRuns(l, l', weak) || WorkerActs(l, l', elapsed))
    ensures Upper(l')
  {
    if WorkerRuns(l, l', weak) {
      PollStep(l, l', weak);
      PollKeepsWorker(l.ring.enqueued, l.ring.dequeuePos, l'.ring.dequeuePos, l.worker, l'.worker, l.sinks);
    } else {
      ActKeepsWorker(l.ring.enqueued, l.ring.dequeuePos, l.worker, l.sinks, elapsed);
    }
  }

  lemma NextKeepsUpper<R(!new)>(l: Logger<R>, l': Logger<R>, policy: Policy)
    requires Inv(l) && |l.ring.cells| > 0 && Next(l, l', policy)
    ensures Upper(l')
  {
    if k: nat, m :| ProducerCalls(l, l', k, m) {
      ProducerKeepsUpper(l, l', k, m, true, policy);
    } else if k: nat :| ProducerRetries(l, l', k, policy) {
      ProducerKeepsUpper(l, l', k, Flush, true, policy);
    } else if k: nat, weak :| ProducerRuns(l, l', k, weak) {
      ProducerKeepsUpper(l, l', k, Flush, weak, policy);
    } else if weak :| WorkerRuns(l, l', weak) {
      WorkerKeepsUpper(l, l', weak, true);
    } else {
      var elapsed :| WorkerActs(l, l', elapsed);
      WorkerKeepsUpper(l, l', true, elapsed);
    }
  }

  lemma NextKeepsInv<R(!new)>(l: Logger<R>, l': Logger<R>, policy: Policy)
    requires Inv(l) && |l.ring.cells| > 0 && Next(l, l', policy)
    ensures Inv(l')
  {
    NextIsQueueNext(l, l', policy);
    if QueueOf(l') != QueueOf(l) { QueueProtocol.NextKeepsInv(QueueOf(l), QueueOf(l')); }
    NextKeepsUpper(l, l', policy);
  }

  lemma InitHasInv<R>(l: Logger<R>, n: nat)
    requires n >= 2 && Init(l, n)
    ensures Inv(l)
  {
    QueueProtocol.InitHasInv(QueueOf(l), n);
  }

  lemma {:induction false} RunHasInv<R(!new)>(ls: seq<Logger<R>>, n: nat, policy: Policy, i: nat)
    requires n >= 2 && Run(ls, n, policy) && i < |ls|
    ensures Inv(ls[i])
  {
    if i == 0 {
      InitHasInv(ls[0], n);
    } else {
      RunHasInv(ls, n, policy, i - 1);
      assert StepAt(ls, policy, i);
      NextKeepsInv(ls[i-1], ls[i], policy);
    }
  }
}
