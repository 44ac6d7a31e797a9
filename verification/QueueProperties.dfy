/**
 What the queue protocol guarantees, in every reachable state and over whole runs.
 */
module QueueProperties {
  import opened Wrappers
  import opened QueueProtocol

  // ----- refinement of a bounded FIFO -----

  /** The abstract queue: the items of the tickets issued and not yet claimed by a dequeuer. */
  ghost function Queued<T>(s: State<T>): seq<T>
    requires Shape(s)
  {
    s.ring.enqueued[s.ring.dequeuePos..]
  }

  datatype Event<T> = Push(item: T) | Pop(item: T) | Silent

  /** What a plain bounded FIFO of capacity n may do. */
  ghost predicate Fifo<T>(q: seq<T>, e: Event<T>, q': seq<T>, n: nat) {
    match e
    case Push(x) => |q| < n && q' == q + [x]
    case Pop(x) => q == [x] + q'
    case Silent => q' == q
  }

  /** The event of a step of thread k: a won compare-exchange, and nothing else, is visible. */
  ghost function EventOf<T>(s: State<T>, s': State<T>, k: nat): Event<T>
    requires Shape(s) && k < |s.ops| == |s'.ops|
  {
    if s.ops[k].EnqCas? && s'.ops[k].EnqWrite? then Push(s.ops[k].item)
    else if s.ops[k].DeqCas? && s'.ops[k].DeqRead? && s.ring.dequeuePos < s.ring.enqueuePos
    then Pop(s.ring.enqueued[s.ring.dequeuePos])
    else Silent
  }

  /**
   Each step is one step of a bounded FIFO, and a winner's ticket is the position it
   compared: Push takes the end of the queue, Pop its front.
   */
  lemma StepRefinesFifo<T>(s: State<T>, s': State<T>, k: nat, weak: bool)
    requires Inv(s) && Runs(s, s', k, weak)
    ensures Inv(s') && Fifo(Queued(s), EventOf(s, s', k), Queued(s'), |s.ring.cells|)
    ensures s.ops[k].EnqCas? && s'.ops[k].EnqWrite? ==> s'.ops[k].pos == s.ring.dequeuePos + |Queued(s)|
    ensures s.ops[k].DeqCas? && s'.ops[k].DeqRead? ==>
      s'.ops[k].pos == s.ring.dequeuePos && EventOf(s, s', k).Pop?
  {
    RunsKeepsInv(s, s', k, weak);
    if s.ops[k].EnqCas? && s'.ops[k].EnqWrite? { WinnerFindsRoom(s, k); }
    if s.ops[k].DeqCas? && s'.ops[k].DeqRead? {
      assert OpOk(s.ring, s.ops[k]);
      assert CellOk(s, s.ring.dequeuePos);
    }
  }

  /** What has happened is never rewritten: tickets keep their items, handed-out values stay. */
  ghost predicate HistoryGrows<T>(s: State<T>, s': State<T>) {
    && s.ring.enqueued <= s'.ring.enqueued
    && s.ring.dequeuePos <= s'.ring.dequeuePos
    && forall p :: p in s.ring.returned ==> p in s'.ring.returned && s'.ring.returned[p] == s.ring.returned[p]
  }

  lemma NextGrowsHistory<T(!new)>(s: State<T>, s': State<T>)
    requires Inv(s) && Next(s, s')
    ensures HistoryGrows(s, s')
  {
    if k: nat, weak :| Runs(s, s', k, weak) {
      assert OpOk(s.ring, s.ops[k]);
    }
  }

  lemma RunStepGrowsHistory<T(!new)>(states: seq<State<T>>, n: nat, i: nat)
    requires n >= 2 && Run(states, n) && 0 < i < |states|
    ensures HistoryGrows(states[i-1], states[i])
  {
    RunHasInv(states, n, i - 1);
    assert StepAt(states, i);
    NextGrowsHistory(states[i-1], states[i]);
  }

  lemma HistoryGrowsFurther<T>(s: State<T>, t: State<T>, u: State<T>)
    requires HistoryGrows(s, t) && HistoryGrows(t, u)
    ensures HistoryGrows(s, u)
  {
  }

  lemma {:induction false} RunGrowsHistory<T(!new)>(states: seq<State<T>>, n: nat, i: nat, j: nat)
    requires n >= 2 && Run(states, n) && i <= j < |states|
    ensures HistoryGrows(states[i], states[j])
    decreases j
  {
    if i < j {
      RunGrowsHistory(states, n, i, j - 1);
      RunStepGrowsHistory(states, n, j);
      HistoryGrowsFurther(states[i], states[j-1], states[j]);
    }
  }

  // ----- tickets -----

  ghost predicate Delivered<T>(s: State<T>, p: nat) { p in s.ring.returned }

  /** Published and not claimed: the cell of p holds exactly the item of p. */
  ghost predicate Stored<T>(s: State<T>, p: nat)
    requires Shape(s)
  {
    && s.ring.dequeuePos <= p < s.ring.enqueuePos
    && CellOf(s.ring, p) == Cell(p + 1, Some(s.ring.enqueued[p]))
  }

  /** A dequeuer has claimed p and not yet moved the payload out; its cell still holds it. */
  ghost predicate Claimed<T>(s: State<T>, p: nat)
    requires Shape(s)
  {
    && p < s.ring.enqueuePos && CellOf(s.ring, p) == Cell(p + 1, Some(s.ring.enqueued[p]))
    && exists k :: 0 <= k < |s.ops| && s.ops[k].DeqRead? && s.ops[k].Reads(p)
  }

  /** An enqueuer has won p, still holds its item, and has not published it. */
  ghost predicate InFlight<T>(s: State<T>, p: nat)
    requires Shape(s)
  {
    p < s.ring.enqueuePos &&
    exists k :: 0 <= k < |s.ops| && s.ops[k].Writes(p) && s.ops[k].item == s.ring.enqueued[p]
  }

  /**
   Nothing is lost, duplicated or reordered: each issued ticket is in exactly one of four
   places, and the value handed out for ticket p is the item enqueued with ticket p.
   */
  lemma TicketAccounted<T(!new)>(s: State<T>, p: nat)
    requires Inv(s) && p < s.ring.enqueuePos
    ensures Delivered(s, p) ==> s.ring.returned[p] == Some(s.ring.enqueued[p])
    ensures Delivered(s, p) || Claimed(s, p) || Stored(s, p) || InFlight(s, p)
    ensures Delivered(s, p) ==> !Claimed(s, p) && !Stored(s, p) && !InFlight(s, p)
    ensures Claimed(s, p) ==> !Stored(s, p) && !InFlight(s, p)
    ensures Stored(s, p) ==> !InFlight(s, p)
  {
    if p < s.ring.dequeuePos {
      if !Delivered(s, p) {
        assert Reading(s, p);
        var k :| 0 <= k < |s.ops| && s.ops[k].Reads(p);
        assert OpOk(s.ring, s.ops[k]);
      }
    } else {
      assert CellOk(s, p);
      if CellOf(s.ring, p).sequence == p {
        var k :| 0 <= k < |s.ops| && s.ops[k].Writes(p);
        assert OpOk(s.ring, s.ops[k]);
      }
    }
    HoldersAreOk(s, p);
  }

  lemma HoldersAreOk<T>(s: State<T>, p: nat)
    requires Inv(s)
    ensures forall k :: 0 <= k < |s.ops| ==> OpOk(s.ring, s.ops[k])
    ensures forall k :: 0 <= k < |s.ops| && s.ops[k].Writes(p) ==>
      s.ring.dequeuePos <= p && CellOf(s.ring, p).sequence == p
    ensures forall k :: 0 <= k < |s.ops| && s.ops[k].Reads(p) ==>
      p < s.ring.dequeuePos && (s.ops[k].DeqRead? ==> p !in s.ring.returned)
  {
    forall k | 0 <= k < |s.ops|
      ensures OpOk(s.ring, s.ops[k])
      ensures s.ops[k].Writes(p) ==> s.ring.dequeuePos <= p && CellOf(s.ring, p).sequence == p
      ensures s.ops[k].Reads(p) ==> p < s.ring.dequeuePos && (s.ops[k].DeqRead? ==> p !in s.ring.returned)
    {
      assert OpOk(s.ring, s.ops[k]);
    }
  }

  /** A dequeue that comes back true carries the item of the ticket it claimed. */
  lemma DequeueReturnsItsTicket<T>(s: State<T>, s': State<T>, k: nat, weak: bool)
    requires Inv(s) && Runs(s, s', k, weak) && s.ops[k].DeqRelease?
    ensures s.ops[k].pos < s.ring.enqueuePos
    ensures s'.ops[k] == DeqTrue(Some(s.ring.enqueued[s.ops[k].pos]))
  {
    assert OpOk(s.ring, s.ops[k]);
  }

  /**
   Two threads that hold tickets hold different cells: no cell is read while it is being
   written, and none is written or read by two threads at once.
   */
  lemma HoldersUseDifferentCells<T>(s: State<T>, j: nat, k: nat)
    requires Inv(s) && j < |s.ops| && k < |s.ops| && j != k
    requires HoldsTicket(s.ops[j]) && HoldsTicket(s.ops[k])
    ensures Slot(s.ops[j].pos, |s.ring.cells|) != Slot(s.ops[k].pos, |s.ring.cells|)
  {
    var a, b, n := s.ops[j], s.ops[k], |s.ring.cells|;
    assert OpOk(s.ring, a) && OpOk(s.ring, b);
    assert !SharesTicket(a, b) && !SharesTicket(b, a);
    if a.pos < b.pos { SlotsDifferWithin(a.pos, b.pos, n); }
    if b.pos < a.pos { SlotsDifferWithin(b.pos, a.pos, n); }
  }

  /** Tickets one apart never share one of two or more cells. */
  lemma SlotsDifferWithin(a: nat, b: nat, n: nat)
    requires n >= 2 && a < b
    ensures b == a + 1 ==> Slot(a, n) != Slot(b, n)
  {
    if b == a + 1 { SlotsDiffer(a, b, n); }
  }

  // ----- what a false return means -----

  /**
   An enqueue that has loaded a cell's sequence gives up exactly if its position is the current
   one and either the queue holds its full capacity of items, or the dequeuer one lap behind is
   still inside the cell. It has then changed nothing and kept its item.
   */
  lemma EnqueueFalseExactly<T>(s: State<T>, s': State<T>, k: nat, weak: bool)
    requires Inv(s) && Runs(s, s', k, weak) && s.ops[k].EnqSeq?
    ensures var pos, n := s.ops[k].pos, |s.ring.cells|;
      s'.ops[k].EnqFalse? <==>
        pos == s.ring.enqueuePos && (|Queued(s)| == n || (pos >= n && Reading(s, pos - n)))
    ensures s'.ring == s.ring && (s'.ops[k].EnqFalse? ==> s'.ops[k].item == s.ops[k].item)
  {
    var r, p, n := s.ring, s.ops[k].pos, |s.ring.cells|;
    assert OpOk(r, s.ops[k]);
    if p < r.dequeuePos {
      StaleCellMovedOn(s, p);
    } else if p < r.dequeuePos + n {
      assert CellOk(s, p);
      if p >= n && Reading(s, p - n) { ReaderIsInside(s, p - n); }
    } else {
      assert CellOk(s, r.dequeuePos);
      SlotLap(r.dequeuePos, n);
    }
  }

  /** While a dequeuer holds a ticket, the ticket's cell keeps its sequence number. */
  lemma ReaderIsInside<T>(s: State<T>, t: nat)
    requires Inv(s) && Reading(s, t)
    ensures CellOf(s.ring, t + |s.ring.cells|).sequence == t + 1
  {
    var j :| 0 <= j < |s.ops| && s.ops[j].Reads(t);
    assert OpOk(s.ring, s.ops[j]);
    SlotLap(t, |s.ring.cells|);
  }

  /** Sequence numbers do not fall behind: the cell of a ticket already claimed has passed it. */
  lemma StaleCellMovedOn<T>(s: State<T>, p: nat)
    requires Inv(s) && p < s.ring.dequeuePos
    ensures CellOf(s.ring, p).sequence > p
  {
    var n, d := |s.ring.cells|, s.ring.dequeuePos;
    var t := LapInto(p, d, n);
    assert CellOk(s, t);
  }

  /** The ticket of p's cell in the lap that starts at d. */
  lemma {:induction false} LapInto(p: nat, d: nat, n: nat) returns (t: nat)
    requires n > 0 && p < d
    ensures d <= t < d + n && t >= p + n && Slot(t, n) == Slot(p, n)
    decreases d - p
  {
    SlotLap(p, n);
    if p + n < d { t := LapInto(p + n, d, n); } else { t := p + n; }
  }

  /**
   A dequeue that has loaded a cell's sequence gives up exactly if its position is the current
   one and either the queue is empty, or the enqueuer that won this very ticket is still inside
   the cell.
   */
  lemma DequeueFalseExactly<T>(s: State<T>, s': State<T>, k: nat, weak: bool)
    requires Inv(s) && Runs(s, s', k, weak) && s.ops[k].DeqSeq?
    ensures s'.ops[k].DeqFalse? <==>
      s.ops[k].pos == s.ring.dequeuePos && (Queued(s) == [] || Writing(s, s.ring.dequeuePos))
    ensures s'.ring == s.ring
  {
    var r, p := s.ring, s.ops[k].pos;
    assert OpOk(r, s.ops[k]);
    if p < r.dequeuePos { StaleCellMovedOn(s, p); }
    assert CellOk(s, r.dequeuePos);
    if Writing(s, r.dequeuePos) {
      var j :| 0 <= j < |s.ops| && s.ops[j].Writes(r.dequeuePos);
      assert OpOk(r, s.ops[j]);
    }
    if Queued(s) == [] && r.dequeuePos >= |r.cells| && Reading(s, r.dequeuePos - |r.cells|) {
      ReaderIsInside(s, r.dequeuePos - |r.cells|);
    }
  }

  /** With no other thread inside a call, false is exactly full and exactly empty. */
  ghost predicate OthersQuiet<T>(s: State<T>, k: nat) {
    forall j :: 0 <= j < |s.ops| && j != k ==> s.ops[j].Quiet()
  }

  lemma AloneFalseIsExact<T>(s: State<T>, s': State<T>, k: nat, weak: bool)
    requires Inv(s) && Runs(s, s', k, weak) && OthersQuiet(s, k)
    ensures s.ops[k].EnqSeq? && s.ops[k].pos == s.ring.enqueuePos ==>
      (s'.ops[k].EnqFalse? <==> |Queued(s)| == |s.ring.cells|)
    ensures s.ops[k].DeqSeq? && s.ops[k].pos == s.ring.dequeuePos ==>
      (s'.ops[k].DeqFalse? <==> Queued(s) == [])
  {
    if s.ops[k].EnqSeq? { EnqueueFalseExactly(s, s', k, weak); }
    if s.ops[k].DeqSeq? { DequeueFalseExactly(s, s', k, weak); }
  }

  /** At rest the ring holds exactly the queue: cell by cell, and nothing else is pending. */
  lemma AtRestRingIsQueue<T>(s: State<T>)
    requires Inv(s) && forall k :: 0 <= k < |s.ops| ==> s.ops[k].Quiet()
    ensures forall t: nat :: s.ring.dequeuePos <= t < s.ring.dequeuePos + |s.ring.cells| ==>
      if t < s.ring.enqueuePos then CellOf(s.ring, t) == Cell(t + 1, Some(s.ring.enqueued[t]))
      else CellOf(s.ring, t).sequence == t
    ensures forall t: nat :: t in s.ring.returned <==> t < s.ring.dequeuePos
  {
    forall t: nat | s.ring.dequeuePos <= t < s.ring.dequeuePos + |s.ring.cells|
      ensures if t < s.ring.enqueuePos then CellOf(s.ring, t) == Cell(t + 1, Some(s.ring.enqueued[t]))
              else CellOf(s.ring, t).sequence == t
    {
      assert CellOk(s, t);
    }
  }

  // ----- why the constructor demands two cells, and what false does not mean -----

  /** The five steps of an enqueue on a single cell that is free. */
  lemma OneCellSteps<T>(r: Ring<T>, x: T)
    requires |r.cells| == 1 && r.cells[0].sequence == r.enqueuePos
    ensures var e := r.enqueuePos;
      var won := r.(enqueuePos := e + 1, enqueued := r.enqueued + [x]);
      var written := won.(cells := [Cell(e, Some(x))]);
      && Step(r, EnqLoad(x), false) == (r, EnqSeq(x, e))
      && Step(r, EnqSeq(x, e), false) == (r, EnqCas(x, e))
      && Step(r, EnqCas(x, e), false) == (won, EnqWrite(x, e))
      && Step(won, EnqWrite(x, e), false) == (written, EnqPublish(x, e))
      && Step(written, EnqPublish(x, e), false) == (written.(cells := [Cell(e + 1, Some(x))]), EnqTrue)
  {
    var e := r.enqueuePos;
    assert Slot(e, 1) == 0;
    assert r.cells[0 := Cell(e, Some(x))] == [Cell(e, Some(x))];
    assert [Cell(e, Some(x))][0 := Cell(e + 1, Some(x))] == [Cell(e + 1, Some(x))];
  }

  /** One thread's call from start to finish with nothing in between. */
  lemma OneCellEnqueue<T(!new)>(s: State<T>, x: T) returns (states: seq<State<T>>)
    requires |s.ring.cells| == 1 && |s.ops| == 1 && s.ops[0].Quiet()
    requires s.ring.cells[0].sequence == s.ring.enqueuePos
    ensures |states| == 7 && states[0] == s
    ensures forall i: nat :: 0 < i < |states| ==> StepAt(states, i)
    ensures states[6] == State(
      s.ring.(cells := [Cell(s.ring.enqueuePos + 1, Some(x))], enqueuePos := s.ring.enqueuePos + 1,
              enqueued := s.ring.enqueued + [x]), [EnqTrue])
  {
    OneCellSteps(s.ring, x);
    var s1 := State(s.ring, [EnqLoad(x)]);
    assert Calls(s, s1, 0, EnqLoad(x));
    hide Step, Calls, Runs;
    var s2 := RunAlone(s1);
    var s3 := RunAlone(s2);
    var s4 := RunAlone(s3);
    var s5 := RunAlone(s4);
    var s6 := RunAlone(s5);
    states := [s, s1, s2, s3, s4, s5, s6];
  }

  lemma RunAlone<T(!new)>(s: State<T>) returns (s': State<T>)
    requires |s.ring.cells| == 1 && |s.ops| == 1
    ensures s' == State(Step(s.ring, s.ops[0], false).0, [Step(s.ring, s.ops[0], false).1])
    ensures Next(s, s') && |s'.ring.cells| == 1
  {
    s' := State(Step(s.ring, s.ops[0], false).0, [Step(s.ring, s.ops[0], false).1]);
    assert Runs(s, s', 0, false);
  }

  /** With one cell the protocol overwrites: the second enqueue succeeds on a full ring. */
  lemma OneCellLosesItems<T(!new)>(x: T, y: T) returns (states: seq<State<T>>)
    ensures Run(states, 1)
    ensures var last := states[|states|-1];
      && last.ring.enqueued == [x, y] && last.ring.returned == map[]
      && last.ops == [EnqTrue] && last.ring.cells == [Cell(2, Some(y))]
  {
    var init := State(Ring([Cell(0, None)], 0, 0, [], map[]), [Idle]);
    var first := OneCellEnqueue(init, x);
    var second := OneCellEnqueue(first[6], y);
    states := first + second[1..];
    forall i: nat | 0 < i < |states| ensures StepAt(states, i) {
      if i > 6 { assert StepAt(second, i - 6); } else { assert StepAt(first, i); }
    }
  }
}
