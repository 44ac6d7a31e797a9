/**
 What a call does when nobody else moves: it comes to an end, with the result its queue
 demands.
 */
module QueueProgress {
  import opened Wrappers
  import opened QueueProtocol
  import opened QueueProperties

  /** Thread k takes m steps; no other thread moves and no compare-exchange fails for no reason. */
  function Alone<T>(s: State<T>, k: nat, m: nat): (s': State<T>)
    requires |s.ring.cells| > 0 && k < |s.ops|
    ensures |s'.ring.cells| > 0 && |s'.ops| == |s.ops|
    decreases m
  {
    if m == 0 then s else
      var (r, op) := Step(s.ring, s.ops[k], false);
      Alone(State(r, s.ops[k := op]), k, m - 1)
  }

  /** One step of thread k keeps what the lemmas below need. */
  lemma StepAlone<T>(s: State<T>, k: nat) returns (s': State<T>)
    requires Inv(s) && k < |s.ops| && OthersQuiet(s, k)
    ensures Inv(s') && OthersQuiet(s', k) && Runs(s, s', k, false) && |s'.ops| == |s.ops|
    ensures OnlyThread(s, s', k) && Alone(s', k, 0) == s'
    ensures forall m: nat :: Alone(s, k, m + 1) == Alone(s', k, m)
  {
    var (r, op) := Step(s.ring, s.ops[k], false);
    s' := State(r, s.ops[k := op]);
    RunsKeepsInv(s, s', k, false);
  }

  lemma {:induction false} SameCells<T>(s: State<T>, k: nat, m: nat)
    requires |s.ring.cells| > 0 && k < |s.ops|
    ensures |Alone(s, k, m).ring.cells| == |s.ring.cells|
    decreases m
  {
    if m > 0 {
      var (r, op) := Step(s.ring, s.ops[k], false);
      SameCells(State(r, s.ops[k := op]), k, m - 1);
    }
  }

  lemma {:induction false} AloneKeeps<T>(s: State<T>, k: nat, m: nat)
    requires Inv(s) && k < |s.ops| && OthersQuiet(s, k)
    ensures Inv(Alone(s, k, m)) && OthersQuiet(Alone(s, k, m), k) && OnlyThread(s, Alone(s, k, m), k)
    decreases m
  {
    if m > 0 {
      var s1 := StepAlone(s, k);
      hide Inv;
      AloneKeeps(s1, k, m - 1);
    }
  }

  /** The call of k is over with result op, and the rest of the state but the ring is as it was. */
  ghost predicate Over<T>(s: State<T>, s': State<T>, k: nat, op: Op<T>) {
    k < |s.ops| && s'.ops == s.ops[k := op] && Shape(s')
  }

  // ----- enqueue -----

  /** The way an enqueue of x must end: with x in the queue, or with the queue full and unchanged. */
  ghost predicate EnqueueEnds<T>(s: State<T>, s': State<T>, k: nat, x: T)
    requires Shape(s)
  {
    if |Queued(s)| < |s.ring.cells|
    then Over(s, s', k, EnqTrue) && Queued(s') == Queued(s) + [x] && s'.ring.enqueued == s.ring.enqueued + [x] &&
         s'.ring.dequeuePos == s.ring.dequeuePos
    else Over(s, s', k, EnqFalse(x)) && s'.ring == s.ring
  }

  lemma WriterFinishes<T>(s: State<T>, k: nat) returns (m: nat)
    requires Inv(s) && k < |s.ops| && OthersQuiet(s, k) && (s.ops[k].EnqWrite? || s.ops[k].EnqPublish?)
    ensures m <= 2 && Over(s, Alone(s, k, m), k, EnqTrue)
    ensures Queued(Alone(s, k, m)) == Queued(s) && Alone(s, k, m).ring.enqueued == s.ring.enqueued
    ensures Alone(s, k, m).ring.dequeuePos == s.ring.dequeuePos
  {
    hide Alone;
    var s1 := StepAlone(s, k);
    if s.ops[k].EnqWrite? {
      var s2 := StepAlone(s1, k);
      assert Alone(s, k, 2) == Alone(s1, k, 1) == Alone(s2, k, 0);
      return 2;
    }
    assert Alone(s, k, 1) == Alone(s1, k, 0);
    return 1;
  }

  lemma CompareWins<T>(s: State<T>, k: nat) returns (m: nat)
    requires Inv(s) && k < |s.ops| && OthersQuiet(s, k)
    requires s.ops[k].EnqCas? && s.ops[k].pos == s.ring.enqueuePos
    ensures m <= 3 && EnqueueEnds(s, Alone(s, k, m), k, s.ops[k].item)
  {
    WinnerFindsRoom(s, k);
    hide Alone;
    var s1 := StepAlone(s, k);
    StepRefinesFifo(s, s1, k, false);
    var m1 := WriterFinishes(s1, k);
    assert Alone(s, k, m1 + 1) == Alone(s1, k, m1);
    m := m1 + 1;
  }

  lemma CurrentLoadEnds<T>(s: State<T>, k: nat) returns (m: nat)
    requires Inv(s) && k < |s.ops| && OthersQuiet(s, k)
    requires s.ops[k].EnqSeq? && s.ops[k].pos == s.ring.enqueuePos
    ensures m <= 4 && EnqueueEnds(s, Alone(s, k, m), k, s.ops[k].item)
  {
    hide Alone;
    var s1 := StepAlone(s, k);
    EnqueueFalseExactly(s, s1, k, false);
    if |Queued(s)| == |s.ring.cells| {
      assert Alone(s, k, 1) == Alone(s1, k, 0);
      return 1;
    }
    assert CellOk(s, s.ring.enqueuePos);
    assert s1.ring == s.ring && s1.ops[k] == EnqCas(s.ops[k].item, s.ring.enqueuePos);
    hide *;
    var m1 := CompareWins(s1, k);
    SameEnqueueEnd(s, s1, Alone(s1, k, m1), k, s.ops[k].item);
    assert Alone(s, k, m1 + 1) == Alone(s1, k, m1);
    m := m1 + 1;
  }

  /** An old position has been passed: its cell sends the enqueuer back to load again. */
  lemma OldPositionReloads<T>(s: State<T>, s': State<T>, k: nat)
    requires Inv(s) && OthersQuiet(s, k) && Runs(s, s', k, false)
    requires s.ops[k].EnqSeq? && s.ops[k].pos != s.ring.enqueuePos
    ensures s'.ops[k] == EnqLoad(s.ops[k].item) && s'.ring == s.ring
  {
    var p := s.ops[k].pos;
    assert OpOk(s.ring, s.ops[k]);
    if p < s.ring.dequeuePos { StaleCellMovedOn(s, p); } else { assert CellOk(s, p); }
  }

  lemma EnqueueFromStart<T>(s: State<T>, k: nat) returns (m: nat)
    requires Inv(s) && k < |s.ops| && OthersQuiet(s, k) && s.ops[k].EnqLoad?
    ensures m <= 5 && EnqueueEnds(s, Alone(s, k, m), k, s.ops[k].item)
  {
    hide Alone;
    var s1 := StepAlone(s, k);
    assert s1.ring == s.ring && s1.ops[k] == EnqSeq(s.ops[k].item, s.ring.enqueuePos);
    hide *;
    var m1 := CurrentLoadEnds(s1, k);
    SameEnqueueEnd(s, s1, Alone(s1, k, m1), k, s.ops[k].item);
    assert Alone(s, k, m1 + 1) == Alone(s1, k, m1);
    m := m1 + 1;
  }

  /** An enqueue that has not won a ticket, at whatever point and with however old a position. */
  lemma EnqueueAloneEnds<T>(s: State<T>, k: nat) returns (m: nat)
    requires Inv(s) && k < |s.ops| && OthersQuiet(s, k)
    requires s.ops[k].EnqLoad? || s.ops[k].EnqSeq? || s.ops[k].EnqCas?
    ensures m <= 6 && EnqueueEnds(s, Alone(s, k, m), k, s.ops[k].item)
  {
    hide Alone, EnqueueEnds;
    var op := s.ops[k];
    if op.EnqLoad? {
      m := EnqueueFromStart(s, k);
    } else if op.pos == s.ring.enqueuePos {
      if op.EnqCas? { m := CompareWins(s, k); } else { m := CurrentLoadEnds(s, k); }
    } else {
    var s1 := StepAlone(s, k);
      var m1;
      if op.EnqSeq? {
        OldPositionReloads(s, s1, k);
        m1 := EnqueueFromStart(s1, k);
      } else {
        m1 := CurrentLoadEnds(s1, k);
      }
      SameEnqueueEnd(s, s1, Alone(s1, k, m1), k, op.item);
      assert Alone(s, k, m1 + 1) == Alone(s1, k, m1);
      m := m1 + 1;
    }
  }

  /** Steps that only look do not matter to how the call ends. */
  lemma SameEnqueueEnd<T>(s: State<T>, s1: State<T>, s': State<T>, k: nat, x: T)
    requires Shape(s) && Shape(s1) && s1.ring == s.ring && OnlyThread(s, s1, k)
    ensures EnqueueEnds(s1, s', k, x) ==> EnqueueEnds(s, s', k, x)
  {
  }

  lemma SameDequeueEnd<T>(s: State<T>, s1: State<T>, s': State<T>, k: nat)
    requires Shape(s) && Shape(s1) && s1.ring == s.ring && OnlyThread(s, s1, k)
    ensures DequeueEnds(s1, s', k) ==> DequeueEnds(s, s', k)
  {
  }

  // ----- dequeue -----

  /** The way a dequeue must end: with the front of the queue taken, or with the queue empty. */
  ghost predicate DequeueEnds<T>(s: State<T>, s': State<T>, k: nat)
    requires Shape(s)
  {
    if Queued(s) != []
    then Over(s, s', k, DeqTrue(Some(Queued(s)[0]))) && Queued(s') == Queued(s)[1..] &&
         s'.ring.enqueued == s.ring.enqueued
    else Over(s, s', k, DeqFalse) && s'.ring == s.ring
  }

  lemma ReaderFinishes<T>(s: State<T>, k: nat) returns (m: nat)
    requires Inv(s) && k < |s.ops| && OthersQuiet(s, k) && (s.ops[k].DeqRead? || s.ops[k].DeqRelease?)
    ensures s.ops[k].pos < s.ring.enqueuePos
    ensures m <= 2 && Over(s, Alone(s, k, m), k, DeqTrue(Some(s.ring.enqueued[s.ops[k].pos])))
    ensures Queued(Alone(s, k, m)) == Queued(s) && Alone(s, k, m).ring.enqueued == s.ring.enqueued
  {
    assert OpOk(s.ring, s.ops[k]);
    hide Alone;
    var s1 := StepAlone(s, k);
    if s.ops[k].DeqRead? {
      var s2 := StepAlone(s1, k);
      assert Alone(s, k, 2) == Alone(s1, k, 1) == Alone(s2, k, 0);
      return 2;
    }
    assert Alone(s, k, 1) == Alone(s1, k, 0);
    return 1;
  }

  /** The winning compare-exchange takes the front of the queue. */
  lemma FrontTaken<T>(s: State<T>, s': State<T>, k: nat)
    requires Inv(s) && Runs(s, s', k, false) && s.ops[k].DeqCas? && s.ops[k].pos == s.ring.dequeuePos
    ensures Inv(s') && s'.ops[k] == DeqRead(s.ring.dequeuePos) && s'.ring.enqueued == s.ring.enqueued
    ensures Queued(s) != [] && Queued(s') == Queued(s)[1..] && s.ring.dequeuePos < |s.ring.enqueued|
    ensures Queued(s)[0] == s.ring.enqueued[s.ring.dequeuePos]
  {
    StepRefinesFifo(s, s', k, false);
  }

  lemma TakenThenRead<T>(s: State<T>, s1: State<T>, s': State<T>, k: nat)
    requires Shape(s) && Shape(s1) && OnlyThread(s, s1, k) && Queued(s) != []
    requires Queued(s1) == Queued(s)[1..] && s1.ring.enqueued == s.ring.enqueued
    requires Over(s1, s', k, DeqTrue(Some(Queued(s)[0])))
    requires Queued(s') == Queued(s1) && s'.ring.enqueued == s1.ring.enqueued
    ensures DequeueEnds(s, s', k)
  {
  }

  lemma CompareTakes<T>(s: State<T>, k: nat) returns (m: nat)
    requires Inv(s) && k < |s.ops| && OthersQuiet(s, k)
    requires s.ops[k].DeqCas? && s.ops[k].pos == s.ring.dequeuePos
    ensures m <= 3 && DequeueEnds(s, Alone(s, k, m), k)
  {
    assert Shape(s);
    hide *;
    var s1 := StepAlone(s, k);
    FrontTaken(s, s1, k);
    var m1 := ReaderFinishes(s1, k);
    TakenThenRead(s, s1, Alone(s1, k, m1), k);
    assert Alone(s, k, m1 + 1) == Alone(s1, k, m1);
    m := m1 + 1;
  }

  /** At the current position an undisturbed dequeuer finds the item published, or nothing. */
  lemma CurrentCellDecides<T>(s: State<T>, s': State<T>, k: nat)
    requires Inv(s) && Runs(s, s', k, false) && OthersQuiet(s, k)
    requires s.ops[k].DeqSeq? && s.ops[k].pos == s.ring.dequeuePos
    ensures s'.ring == s.ring && s'.ops[k] == if Queued(s) == [] then DeqFalse else DeqCas(s.ring.dequeuePos)
  {
    DequeueFalseExactly(s, s', k, false);
    assert CellOk(s, s.ring.dequeuePos);
  }

  lemma GivesUp<T>(s: State<T>, s': State<T>, k: nat)
    requires Shape(s) && Shape(s') && Queued(s) == [] && OnlyThread(s, s', k)
    requires s'.ring == s.ring && s'.ops[k] == DeqFalse
    ensures DequeueEnds(s, s', k)
  {
  }

  lemma CurrentCellEnds<T>(s: State<T>, k: nat) returns (m: nat)
    requires Inv(s) && k < |s.ops| && OthersQuiet(s, k)
    requires s.ops[k].DeqSeq? && s.ops[k].pos == s.ring.dequeuePos
    ensures m <= 4 && DequeueEnds(s, Alone(s, k, m), k)
  {
    assert Shape(s);
    hide *;
    var s1 := StepAlone(s, k);
    CurrentCellDecides(s, s1, k);
    if Queued(s) == [] {
      GivesUp(s, s1, k);
      assert Alone(s, k, 1) == Alone(s1, k, 0);
      return 1;
    }
    var m1 := CompareTakes(s1, k);
    SameDequeueEnd(s, s1, Alone(s1, k, m1), k);
    assert Alone(s, k, m1 + 1) == Alone(s1, k, m1);
    m := m1 + 1;
  }

  lemma DequeueFromStart<T>(s: State<T>, k: nat) returns (m: nat)
    requires Inv(s) && k < |s.ops| && OthersQuiet(s, k) && s.ops[k].DeqLoad?
    ensures m <= 5 && DequeueEnds(s, Alone(s, k, m), k)
  {
    hide Alone;
    var s1 := StepAlone(s, k);
    assert Shape(s) && s1.ring == s.ring && s1.ops[k] == DeqSeq(s.ring.dequeuePos);
    hide *;
    var m1 := CurrentCellEnds(s1, k);
    SameDequeueEnd(s, s1, Alone(s1, k, m1), k);
    assert Alone(s, k, m1 + 1) == Alone(s1, k, m1);
    m := m1 + 1;
  }

  lemma OldCellReloads<T>(s: State<T>, s': State<T>, k: nat)
    requires Inv(s) && OthersQuiet(s, k) && Runs(s, s', k, false)
    requires s.ops[k].DeqSeq? && s.ops[k].pos != s.ring.dequeuePos
    ensures s'.ops[k] == DeqLoad && s'.ring == s.ring
  {
    var p, n := s.ops[k].pos, |s.ring.cells|;
    assert OpOk(s.ring, s.ops[k]);
    var t := LapInto(p, s.ring.dequeuePos, n);
    assert CellOk(s, t);
  }

  /** A dequeue that has not won a ticket, at whatever point and with however old a position. */
  lemma DequeueAloneEnds<T>(s: State<T>, k: nat) returns (m: nat)
    requires Inv(s) && k < |s.ops| && OthersQuiet(s, k)
    requires s.ops[k].DeqLoad? || s.ops[k].DeqSeq? || s.ops[k].DeqCas?
    ensures m <= 6 && DequeueEnds(s, Alone(s, k, m), k)
  {
    hide Alone, DequeueEnds;
    var op := s.ops[k];
    if op.DeqLoad? {
      m := DequeueFromStart(s, k);
    } else if op.pos == s.ring.dequeuePos {
      if op.DeqCas? { m := CompareTakes(s, k); } else { m := CurrentCellEnds(s, k); }
    } else {
    var s1 := StepAlone(s, k);
      var m1;
      if op.DeqSeq? {
        OldCellReloads(s, s1, k);
        m1 := DequeueFromStart(s1, k);
      } else {
        m1 := CurrentCellEnds(s1, k);
      }
      SameDequeueEnd(s, s1, Alone(s1, k, m1), k);
      assert Alone(s, k, m1 + 1) == Alone(s1, k, m1);
      m := m1 + 1;
    }
  }
}
