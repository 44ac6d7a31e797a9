/**
 What the asynchronous logger promises once its worker has exited, and what a push
 promises under the block_retry policy, over every run.
 */
module LoggerProperties {
  import QueueProtocol
  import opened AsyncLogger

  // ----- shutdown -----

  /**
   When the worker has exited, every sink has been given exactly the records of the
   messages taken from the queue, each once and in ticket order; the terminate message is
   among those taken, so nothing enqueued before it is missing; and the last thing each
   sink was asked to do is to flush.
   */
  lemma ShutdownDeliversAll<R(!new)>(ls: seq<Logger<R>>, n: nat, policy: Policy, i: nat, j: nat)
    requires n >= 2 && Run(ls, n, policy) && i < |ls| && ls[i].worker.pc.Exited? && j < |ls[i].sinks|
    ensures var l := ls[i];
      && l.ring.dequeuePos <= |l.ring.enqueued|
      && Terminate in l.ring.enqueued[..l.ring.dequeuePos]
      && Seen(l.sinks[j]) == Records(l.ring.enqueued[..l.ring.dequeuePos])
      && EndsFlushed(l.sinks[j])
  {
    RunHasInv(ls, n, policy, i);
    var l := ls[i];
    assert WorkerOk(l.ring.enqueued, l.ring.dequeuePos, l.worker, l.sinks);
    assert SinkOk(l.ring.enqueued, l.ring.dequeuePos, l.worker, j, l.sinks[j]);
  }

  /** Any record enqueued before a terminate message that was taken is in every sink. */
  lemma BeforeTerminateIsDelivered<R(!new)>(
      ls: seq<Logger<R>>, n: nat, policy: Policy, i: nat, j: nat, stop: nat, p: nat)
    requires n >= 2 && Run(ls, n, policy) && i < |ls| && ls[i].worker.pc.Exited? && j < |ls[i].sinks|
    requires stop < ls[i].ring.dequeuePos <= |ls[i].ring.enqueued|
    requires ls[i].ring.enqueued[stop] == Terminate
    requires p < stop && ls[i].ring.enqueued[p].Log?
    ensures var l := ls[i]; var at := |Records(l.ring.enqueued[..p])|;
      at < |Seen(l.sinks[j])| && Seen(l.sinks[j])[at] == l.ring.enqueued[p].record
  {
    var l := ls[i];
    ShutdownDeliversAll(ls, n, policy, i, j);
    RecordHasPlace(l.ring.enqueued, p, l.ring.dequeuePos);
  }

  /** The record of message p stands after the records of the messages before it. */
  lemma RecordHasPlace<R>(ms: seq<Msg<R>>, p: nat, end: nat)
    requires p < end <= |ms| && ms[p].Log?
    ensures |Records(ms[..p])| < |Records(ms[..end])|
    ensures Records(ms[..end])[|Records(ms[..p])|] == ms[p].record
  {
    assert ms[..p+1] == ms[..p] + [ms[p]];
    RecordsAppend(ms[..p], ms[p]);
    RecordsPrefix(ms, p + 1, end);
  }

  /** Until the flag is raised again, every flush asked for has been carried out. */
  lemma FlushRequestsHonoured<R(!new)>(ls: seq<Logger<R>>, n: nat, policy: Policy, i: nat, j: nat, t: nat)
    requires n >= 2 && Run(ls, n, policy) && i < |ls| && j < |ls[i].sinks|
    requires !ls[i].worker.flushRequested && t < Processed(ls[i].ring.dequeuePos, ls[i].worker)
    requires t < |ls[i].ring.enqueued| && !ls[i].ring.enqueued[t].Log?
    ensures |Records(ls[i].ring.enqueued[..t])| <= FlushedCount(ls[i].sinks[j]) <= |Seen(ls[i].sinks[j])|
  {
    RunHasInv(ls, n, policy, i);
    var l := ls[i];
    assert WorkerOk(l.ring.enqueued, l.ring.dequeuePos, l.worker, l.sinks);
    assert SinkOk(l.ring.enqueued, Processed(l.ring.dequeuePos, l.worker), l.worker, j, l.sinks[j]);
    FlushedCountBound(l.sinks[j]);
  }

  // ----- producers under block_retry -----

  /** The last call of this producer has not won a ticket yet. */
  predicate Pending<R>(p: Producer<R>) {
    p.op.EnqLoad? || p.op.EnqSeq? || p.op.EnqCas? || p.op.EnqFalse?
  }

  /**
   Every finished call won a ticket, in program order, that carries its message; a call
   whose enqueue failed still holds its message.
   */
  ghost predicate ProducerOk<R>(ms: seq<Msg<R>>, p: Producer<R>) {
    && !DequeueOp(p.op)
    && |p.calls| == |p.tickets| + (if Pending(p) then 1 else 0)
    && (Pending(p) ==> p.op.item == p.calls[|p.calls|-1])
    && (forall c :: 0 <= c < |p.tickets| ==> p.tickets[c] < |ms| && ms[p.tickets[c]] == p.calls[c])
    && (forall c, d :: 0 <= c < d < |p.tickets| ==> p.tickets[c] < p.tickets[d])
  }

  /** Some producer's call won ticket t. */
  ghost predicate Owned<R>(ps: seq<Producer<R>>, t: nat) {
    exists k :: 0 <= k < |ps| && t in ps[k].tickets
  }

  ghost predicate ProducersOk<R>(l: Logger<R>) {
    && |l.ring.enqueued| == l.ring.enqueuePos
    && (forall k :: 0 <= k < |l.producers| ==> ProducerOk(l.ring.enqueued, l.producers[k]))
    && (forall t: nat :: t < |l.ring.enqueued| ==> Owned(l.producers, t))
  }

  lemma OwnersStay<R>(ps: seq<Producer<R>>, ps': seq<Producer<R>>, k: nat)
    requires k < |ps| == |ps'| && ps' == ps[k := ps'[k]] && ps[k].tickets <= ps'[k].tickets
    ensures forall t :: Owned(ps, t) ==> Owned(ps', t)
  {
    forall t | Owned(ps, t) ensures Owned(ps', t) {
      var j :| 0 <= j < |ps| && t in ps[j].tickets;
      if j == k {
        var c :| 0 <= c < |ps[k].tickets| && ps[k].tickets[c] == t;
        assert ps'[k].tickets[c] == t;
      }
      assert t in ps'[j].tickets;
    }
  }

  /** The producer after a step inside the queue. */
  function Stepped<R>(r: QueueProtocol.Ring<Msg<R>>, p: Producer<R>, weak: bool): Producer<R>
    requires |r.cells| > 0
  {
    var op := QueueProtocol.Step(r, p.op, weak).1;
    Producer(op, p.calls, if p.op.EnqCas? && op.EnqWrite? then p.tickets + [op.pos] else p.tickets)
  }

  lemma SteppedIsOk<R>(r: QueueProtocol.Ring<Msg<R>>, p: Producer<R>, weak: bool)
    requires |r.cells| > 0 && |r.enqueued| == r.enqueuePos
    requires ProducerOk(r.enqueued, p) && !p.op.Quiet()
    ensures var r' := QueueProtocol.Step(r, p.op, weak).0; var p' := Stepped(r, p, weak);
      && ProducerOk(r'.enqueued, p') && r.enqueued <= r'.enqueued && |r'.enqueued| == r'.enqueuePos
      && p.tickets <= p'.tickets
      && (|r'.enqueued| == |r.enqueued| || (|r'.enqueued| == |r.enqueued| + 1 && |r.enqueued| in p'.tickets))
  {
    var p' := Stepped(r, p, weak);
    if p'.tickets != p.tickets {
      assert p'.tickets[|p.tickets|] == r.enqueuePos;
    }
  }

  lemma ProducerStepKeepsOk<R(!new)>(l: Logger<R>, l': Logger<R>, k: nat, weak: bool)
    requires ProducersOk(l) && |l.ring.cells| > 0 && ProducerRuns(l, l', k, weak)
    ensures ProducersOk(l')
  {
    hide QueueProtocol.EnqueueStep, QueueProtocol.DequeueStep, ProducerOk, Owned;
    var p, p' := l.producers[k], Stepped(l.ring, l.producers[k], weak);
    SteppedIsOk(l.ring, p, weak);
    assert l'.producers == l.producers[k := p'] && l'.ring == QueueProtocol.Step(l.ring, p.op, weak).0;
    hide QueueProtocol.Step, Stepped;
    OwnersStay(l.producers, l'.producers, k);
    forall j | 0 <= j < |l'.producers| ensures ProducerOk(l'.ring.enqueued, l'.producers[j]) {
      if j != k { MoreEnqueuedKeepsProducer(l.ring.enqueued, l'.ring.enqueued, l.producers[j]); }
    }
    forall t: nat | t < |l'.ring.enqueued| ensures Owned(l'.producers, t) {
      if t == |l.ring.enqueued| { OwnedBy(l'.producers, k, t); } else { assert Owned(l.producers, t); }
    }
  }

  lemma MoreEnqueuedKeepsProducer<R>(ms: seq<Msg<R>>, ms': seq<Msg<R>>, p: Producer<R>)
    requires ProducerOk(ms, p) && ms <= ms'
    ensures ProducerOk(ms', p)
  {
  }

  lemma OwnedBy<R>(ps: seq<Producer<R>>, k: nat, t: nat)
    requires k < |ps| && t in ps[k].tickets
    ensures Owned(ps, t)
  {
  }

  /** The worker changes neither the producers nor what was enqueued. */
  lemma WorkerLeavesProducers<R(!new)>(l: Logger<R>, l': Logger<R>, weak: bool)
    requires Inv(l) && WorkerRuns(l, l', weak)
    ensures l'.producers == l.producers && l'.ring.enqueued == l.ring.enqueued
    ensures l'.ring.enqueuePos == l.ring.enqueuePos
  {
    PollStep(l, l', weak);
  }

  lemma NextKeepsProducers<R(!new)>(l: Logger<R>, l': Logger<R>)
    requires Inv(l) && ProducersOk(l) && |l.ring.cells| > 0 && Next(l, l', BlockRetry)
    ensures ProducersOk(l')
  {
    if k: nat, m :| ProducerCalls(l, l', k, m) {
      CallKeepsProducers(l, l', k);
    } else if k: nat :| ProducerRetries(l, l', k, BlockRetry) {
      CallKeepsProducers(l, l', k);
    } else if k: nat, weak :| ProducerRuns(l, l', k, weak) {
      ProducerStepKeepsOk(l, l', k, weak);
    } else if weak :| WorkerRuns(l, l', weak) {
      WorkerLeavesProducers(l, l', weak);
    }
  }

  lemma CallKeepsProducers<R(!new)>(l: Logger<R>, l': Logger<R>, k: nat)
    requires ProducersOk(l)
    requires (exists m :: ProducerCalls(l, l', k, m)) || ProducerRetries(l, l', k, BlockRetry)
    ensures ProducersOk(l')
  {
    OwnersStay(l.producers, l'.producers, k);
    assert ProducerOk(l.ring.enqueued, l.producers[k]);
    forall j | 0 <= j < |l'.producers| ensures ProducerOk(l'.ring.enqueued, l'.producers[j]) {
      assert ProducerOk(l.ring.enqueued, l.producers[j]);
    }
  }

  lemma {:induction false} RunHasProducers<R(!new)>(ls: seq<Logger<R>>, n: nat, i: nat)
    requires n >= 2 && Run(ls, n, BlockRetry) && i < |ls|
    ensures ProducersOk(ls[i])
  {
    if i > 0 {
      RunHasProducers(ls, n, i - 1);
      RunHasInv(ls, n, BlockRetry, i - 1);
      assert StepAt(ls, BlockRetry, i);
      NextKeepsProducers(ls[i-1], ls[i]);
    }
  }

  /**
   Under block_retry no push is ever lost: a producer between calls has won one ticket per
   call, carrying that call's message, in the order of its calls; one inside a call still
   holds the message until it wins the ticket. The queue holds nothing else.
   */
  lemma BlockRetryLosesNothing<R(!new)>(ls: seq<Logger<R>>, n: nat, i: nat, k: nat)
    requires n >= 2 && Run(ls, n, BlockRetry) && i < |ls| && k < |ls[i].producers|
    ensures var l := ls[i]; var p := l.producers[k];
      && (p.op.Idle? || p.op.EnqTrue? ==> |p.tickets| == |p.calls|)
      && (Pending(p) ==> |p.calls| == |p.tickets| + 1 && p.op.item == p.calls[|p.tickets|])
      && (forall c :: 0 <= c < |p.tickets| ==>
            c < |p.calls| && p.tickets[c] < |l.ring.enqueued| && l.ring.enqueued[p.tickets[c]] == p.calls[c])
      && (forall c, d :: 0 <= c < d < |p.tickets| ==> p.tickets[c] < p.tickets[d])
      && (forall t: nat :: t < |l.ring.enqueued| ==> Owned(l.producers, t))
  {
    RunHasProducers(ls, n, i);
    assert ProducerOk(ls[i].ring.enqueued, ls[i].producers[k]);
  }

  /** x stands before y in s. */
  ghost predicate InOrder<R>(s: seq<R>, x: R, y: R) {
    exists a, b :: 0 <= a < b < |s| && s[a] == x && s[b] == y
  }

  /**
   End to end: after the worker has exited, a log call whose ticket precedes a terminate
   message taken from the queue is in every sink, and the calls of one producer appear there
   in program order.
   */
  lemma CallsReachSinksInOrder<R(!new)>(
      ls: seq<Logger<R>>, n: nat, i: nat, j: nat, k: nat, c: nat, d: nat, stop: nat)
    requires n >= 2 && Run(ls, n, BlockRetry) && i < |ls| && ls[i].worker.pc.Exited? && j < |ls[i].sinks|
    requires stop < ls[i].ring.dequeuePos <= |ls[i].ring.enqueued|
    requires ls[i].ring.enqueued[stop] == Terminate
    requires k < |ls[i].producers| && c < d < |ls[i].producers[k].tickets|
    requires ls[i].producers[k].tickets[d] < stop
    requires d < |ls[i].producers[k].calls|
    requires ls[i].producers[k].calls[c].Log? && ls[i].producers[k].calls[d].Log?
    ensures InOrder(Seen(ls[i].sinks[j]),
      ls[i].producers[k].calls[c].record, ls[i].producers[k].calls[d].record)
  {
    BlockRetryLosesNothing(ls, n, i, k);
    var ms, p := ls[i].ring.enqueued, ls[i].producers[k];
    BeforeTerminateIsDelivered(ls, n, BlockRetry, i, j, stop, p.tickets[c]);
    BeforeTerminateIsDelivered(ls, n, BlockRetry, i, j, stop, p.tickets[d]);
    RecordHasPlace(ms, p.tickets[c], p.tickets[d]);
  }
}
