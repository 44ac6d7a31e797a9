/**
 The lock-free bounded queue as a protocol: any number of threads run enqueue and
 dequeue on one ring of sequence-numbered cells, one atomic memory access per step,
 interleaved in any order. Memory is sequentially consistent and the weak
 compare-exchange may fail for no reason. Positions are unbounded here; the wrap
 of the machine counters is modelled by the sequential class in BoundedQueue.
 */
module QueueProtocol {
  import opened Wrappers

  /** A cell: its sequence number and its payload (None: default or moved-from). */
  datatype Cell<T> = Cell(sequence: nat, data: Option<T>)

  /**
   Shared memory plus two history variables that no step tests: the item of every
   ticket won on enqueue_pos_, and the value each dequeue ticket moved out of its cell.
   */
  datatype Ring<T> = Ring(
    cells: seq<Cell<T>>, enqueuePos: nat, dequeuePos: nat,
    enqueued: seq<T>, returned: map<nat, Option<T>>)

  /** Program counter and locals of one thread inside enqueue or dequeue. */
  datatype Op<T> =
    | Idle
    | EnqLoad(item: T)
    | EnqSeq(item: T, pos: nat)
    | EnqCas(item: T, pos: nat)
    | EnqWrite(item: T, pos: nat)
    | EnqPublish(item: T, pos: nat)
    | EnqTrue
    | EnqFalse(item: T)
    | DeqLoad
    | DeqSeq(pos: nat)
    | DeqCas(pos: nat)
    | DeqRead(pos: nat)
    | DeqRelease(pos: nat, got: Option<T>)
    | DeqTrue(got: Option<T>)
    | DeqFalse
  {
    /** Between two calls: nothing started, or the last call has returned. */
    predicate Quiet() { Idle? || EnqTrue? || EnqFalse? || DeqTrue? || DeqFalse? }

    /** Holds enqueue ticket t: won the compare-exchange, not yet published. */
    predicate Writes(t: nat) { (EnqWrite? || EnqPublish?) && pos == t }

    /** Holds dequeue ticket t: won the compare-exchange, not yet released. */
    predicate Reads(t: nat) { (DeqRead? || DeqRelease?) && pos == t }
  }

  datatype State<T> = State(ring: Ring<T>, ops: seq<Op<T>>)

  function Slot(pos: nat, n: nat): (i: nat)
    requires n > 0
    ensures i < n
  {
    pos % n
  }

  function CellOf<T>(r: Ring<T>, pos: nat): Cell<T>
    requires |r.cells| > 0
  {
    r.cells[Slot(pos, |r.cells|)]
  }

  function SetCell<T>(r: Ring<T>, pos: nat, c: Cell<T>): Ring<T>
    requires |r.cells| > 0
  {
    r.(cells := r.cells[Slot(pos, |r.cells|) := c])
  }

  // ----- the steps -----

  /** One atomic step of enqueue; `weak` lets a matching compare-exchange fail anyway. */
  function EnqueueStep<T>(r: Ring<T>, op: Op<T>, weak: bool): (Ring<T>, Op<T>)
    requires |r.cells| > 0
  {
    match op
    case EnqLoad(item) => (r, EnqSeq(item, r.enqueuePos))
    case EnqSeq(item, pos) =>
      var seen := CellOf(r, pos).sequence;
      if seen == pos then (r, EnqCas(item, pos))
      else if seen < pos then (r, EnqFalse(item))
      else (r, EnqLoad(item))
    case EnqCas(item, pos) =>
      if r.enqueuePos == pos && !weak
      then (r.(enqueuePos := pos + 1, enqueued := r.enqueued + [item]), EnqWrite(item, pos))
      else (r, EnqSeq(item, r.enqueuePos))
    case EnqWrite(item, pos) =>
      (SetCell(r, pos, CellOf(r, pos).(data := Some(item))), EnqPublish(item, pos))
    case EnqPublish(_, pos) =>
      (SetCell(r, pos, CellOf(r, pos).(sequence := pos + 1)), EnqTrue)
    case _ => (r, op)
  }

  /** One atomic step of dequeue. */
  function DequeueStep<T>(r: Ring<T>, op: Op<T>, weak: bool): (Ring<T>, Op<T>)
    requires |r.cells| > 0
  {
    match op
    case DeqLoad => (r, DeqSeq(r.dequeuePos))
    case DeqSeq(pos) =>
      var seen := CellOf(r, pos).sequence;
      if seen == pos + 1 then (r, DeqCas(pos))
      else if seen < pos + 1 then (r, DeqFalse)
      else (r, DeqLoad)
    case DeqCas(pos) =>
      if r.dequeuePos == pos && !weak
      then (r.(dequeuePos := pos + 1), DeqRead(pos))
      else (r, DeqSeq(r.dequeuePos))
    case DeqRead(pos) =>
      var got := CellOf(r, pos).data;
      (SetCell(r, pos, CellOf(r, pos).(data := None)).(returned := r.returned[pos := got]),
       DeqRelease(pos, got))
    case DeqRelease(pos, got) =>
      (SetCell(r, pos, CellOf(r, pos).(sequence := pos + |r.cells|)), DeqTrue(got))
    case _ => (r, op)
  }

  function Step<T>(r: Ring<T>, op: Op<T>, weak: bool): (Ring<T>, Op<T>)
    requires |r.cells| > 0
  {
    if op.EnqLoad? || op.EnqSeq? || op.EnqCas? || op.EnqWrite? || op.EnqPublish?
    then EnqueueStep(r, op, weak) else DequeueStep(r, op, weak)
  }

  /** Thread k of s takes one step inside its call. */
  ghost predicate Runs<T>(s: State<T>, s': State<T>, k: nat, weak: bool)
    requires |s.ring.cells| > 0
  {
    && k < |s.ops|
    && var (r, op) := Step(s.ring, s.ops[k], weak);
       s' == State(r, s.ops[k := op])
  }

  /** Thread k of s, between calls, starts a new call or forgets the result of the last. */
  ghost predicate Calls<T>(s: State<T>, s': State<T>, k: nat, op: Op<T>)
  {
    && k < |s.ops|
    && s.ops[k].Quiet() && (op.EnqLoad? || op.DeqLoad? || op.Idle?)
    && s' == s.(ops := s.ops[k := op])
  }

  ghost predicate Next<T(!new)>(s: State<T>, s': State<T>)
    requires |s.ring.cells| > 0
  {
    || (exists k: nat, weak :: Runs(s, s', k, weak))
    || (exists k: nat, op :: Calls(s, s', k, op))
  }

  /** The state the constructor leaves, before any of the threads has called. */
  ghost predicate Init<T>(s: State<T>, n: nat) {
    && |s.ring.cells| == n
    && (forall i :: 0 <= i < n ==> s.ring.cells[i] == Cell(i, None))
    && s.ring.enqueuePos == s.ring.dequeuePos == 0
    && s.ring.enqueued == [] && s.ring.returned == map[]
    && forall k :: 0 <= k < |s.ops| ==> s.ops[k].Idle?
  }

  ghost predicate StepAt<T(!new)>(states: seq<State<T>>, i: nat)
    requires 0 < i < |states|
  {
    |states[i-1].ring.cells| > 0 && Next(states[i-1], states[i])
  }

  /** A finite run of the protocol. */
  ghost predicate Run<T(!new)>(states: seq<State<T>>, n: nat) {
    && |states| > 0 && Init(states[0], n)
    && forall i: nat :: 0 < i < |states| ==> StepAt(states, i)
  }

  // ----- the invariant -----

  ghost predicate Writing<T>(s: State<T>, t: nat) {
    exists k :: 0 <= k < |s.ops| && s.ops[k].Writes(t)
  }

  ghost predicate Reading<T>(s: State<T>, t: nat) {
    exists k :: 0 <= k < |s.ops| && s.ops[k].Reads(t)
  }

  /**
   What the cell of ticket t holds, for t in the window of |cells| tickets from
   dequeuePos. Issued tickets are either being written or published; the others find
   their cell free, or still held by the reader one lap behind.
   */
  ghost predicate CellOk<T>(s: State<T>, t: nat)
    requires |s.ring.cells| > 0 && |s.ring.enqueued| == s.ring.enqueuePos
    requires s.ring.enqueuePos <= s.ring.dequeuePos + |s.ring.cells|
  {
    var r := s.ring; var n := |r.cells|;
    var c := CellOf(r, t);
    if t < r.enqueuePos then
      || (c.sequence == t && Writing(s, t))
      || (c.sequence == t + 1 && c.data == Some(r.enqueued[t]))
    else
      || c.sequence == t
      || (t >= n && c.sequence == t - n + 1 && Reading(s, t - n))
  }

  ghost predicate OpOk<T>(r: Ring<T>, op: Op<T>)
    requires |r.cells| > 0 && |r.enqueued| == r.enqueuePos
  {
    match op
    case EnqSeq(_, pos) => pos <= r.enqueuePos
    case EnqCas(_, pos) =>
      pos <= r.enqueuePos && (pos == r.enqueuePos ==> CellOf(r, pos).sequence == pos)
    case EnqWrite(item, pos) =>
      && r.dequeuePos <= pos < r.enqueuePos
      && CellOf(r, pos).sequence == pos && item == r.enqueued[pos]
    case EnqPublish(item, pos) =>
      && r.dequeuePos <= pos < r.enqueuePos
      && CellOf(r, pos) == Cell(pos, Some(item)) && item == r.enqueued[pos]
    case DeqSeq(pos) => pos <= r.dequeuePos
    case DeqCas(pos) =>
      pos <= r.dequeuePos && (pos == r.dequeuePos ==> CellOf(r, pos).sequence == pos + 1)
    case DeqRead(pos) =>
      && pos < r.dequeuePos && r.enqueuePos <= pos + |r.cells| && pos < r.enqueuePos
      && CellOf(r, pos) == Cell(pos + 1, Some(r.enqueued[pos]))
      && pos !in r.returned
    case DeqRelease(pos, got) =>
      && pos < r.dequeuePos && r.enqueuePos <= pos + |r.cells| && pos < r.enqueuePos
      && CellOf(r, pos).sequence == pos + 1
      && got == Some(r.enqueued[pos]) && pos in r.returned
    case _ => true
  }

  ghost predicate Shape<T>(s: State<T>) {
    var r := s.ring;
    && |r.cells| >= 2
    && r.dequeuePos <= r.enqueuePos <= r.dequeuePos + |r.cells|
    && |r.enqueued| == r.enqueuePos
  }

  /** No two threads hold the same enqueue ticket, nor the same dequeue ticket. */
  ghost predicate TicketsUnique<T>(s: State<T>) {
    forall j, k :: 0 <= j < k < |s.ops| ==> !SharesTicket(s.ops[j], s.ops[k])
  }

  predicate SharesTicket<T>(a: Op<T>, b: Op<T>) {
    || ((a.EnqWrite? || a.EnqPublish?) && b.Writes(a.pos))
    || ((a.DeqRead? || a.DeqRelease?) && b.Reads(a.pos))
  }

  /** Every value handed out is the value of its ticket; a dequeued ticket not yet handed
      out is in the hands of a reader. */
  ghost predicate ReturnsOk<T>(s: State<T>)
    requires Shape(s)
  {
    var r := s.ring;
    && (forall t :: t in r.returned ==> t < r.dequeuePos && r.returned[t] == Some(r.enqueued[t]))
    && forall t: nat :: t < r.dequeuePos && t !in r.returned ==> Reading(s, t)
  }

  ghost predicate CellsOk<T>(s: State<T>)
    requires Shape(s)
  {
    forall t: nat :: s.ring.dequeuePos <= t < s.ring.dequeuePos + |s.ring.cells| ==> CellOk(s, t)
  }

  ghost predicate OpsOk<T>(s: State<T>)
    requires Shape(s)
  {
    forall k :: 0 <= k < |s.ops| ==> OpOk(s.ring, s.ops[k])
  }

  ghost predicate Inv<T>(s: State<T>) {
    Shape(s) && CellsOk(s) && OpsOk(s) && TicketsUnique(s) && ReturnsOk(s)
  }

  // ----- arithmetic of the ring -----

  lemma LapsApart(x: nat, y: nat, n: nat)
    requires x < y
    ensures x * n + n <= y * n
  {
    var k: nat := y - x - 1;
    assert y == x + 1 + k;
    assert y * n == x * n + n + k * n;
    assert k * n >= 0;
  }

  lemma QuotientUnique(q: nat, r: nat, q': nat, r': nat, n: nat)
    requires r < n && r' < n && q * n + r == q' * n + r'
    ensures q == q' && r == r'
  {
    if q < q' { LapsApart(q, q', n); } else if q' < q { LapsApart(q', q, n); }
  }

  lemma SlotsDiffer(a: nat, b: nat, n: nat)
    requires 0 < n && a < b < a + n
    ensures Slot(a, n) != Slot(b, n)
  {
    var qa, qb := a / n, b / n;
    assert a == qa * n + a % n && b == qb * n + b % n;
    if a % n == b % n {
      if qa < qb { LapsApart(qa, qb, n); }
    }
  }

  lemma SlotLap(a: nat, n: nat)
    requires 0 < n
    ensures Slot(a + n, n) == Slot(a, n)
  {
    var q, q' := a / n, (a + n) / n;
    assert a == q * n + a % n;
    assert (q + 1) * n == q * n + n;
    assert a + n == q' * n + (a + n) % n;
    QuotientUnique(q + 1, a % n, q', (a + n) % n, n);
  }

  /** The tickets less than a lap away from t use other cells. */
  lemma OtherSlots(t: nat, n: nat)
    requires n > 0
    ensures forall u: nat {:trigger Slot(u, n)} :: u < t + n && t < u + n && u != t ==> Slot(u, n) != Slot(t, n)
  {
    forall u: nat | u < t + n && t < u + n && u != t
      ensures Slot(u, n) != Slot(t, n)
    {
      if u < t { SlotsDiffer(u, t, n); } else { SlotsDiffer(t, u, n); }
    }
  }

  // ----- every step keeps the invariant -----

  /** s' is s after a step of thread k: the other threads have not moved. */
  ghost predicate OnlyThread<T>(s: State<T>, s': State<T>, k: nat) {
    && k < |s.ops| == |s'.ops|
    && forall j :: 0 <= j < |s.ops| && j != k ==> s'.ops[j] == s.ops[j]
  }

  /** Ticket holders keep their tickets, unless they are the thread that steps. */
  lemma HoldersKeep<T>(s: State<T>, s': State<T>, k: nat)
    requires OnlyThread(s, s', k)
    ensures forall t :: Writing(s, t) && !s.ops[k].Writes(t) ==> Writing(s', t)
    ensures forall t :: Reading(s, t) && !s.ops[k].Reads(t) ==> Reading(s', t)
  {
    forall t | Writing(s, t) && !s.ops[k].Writes(t) ensures Writing(s', t) {
      var j :| 0 <= j < |s.ops| && s.ops[j].Writes(t);
      assert s'.ops[j].Writes(t);
    }
    forall t | Reading(s, t) && !s.ops[k].Reads(t) ensures Reading(s', t) {
      var j :| 0 <= j < |s.ops| && s.ops[j].Reads(t);
      assert s'.ops[j].Reads(t);
    }
  }

  predicate HoldsTicket<T>(op: Op<T>) {
    op.EnqWrite? || op.EnqPublish? || op.DeqRead? || op.DeqRelease?
  }

  /** Steps that change only the program counter and locals of their thread. */
  lemma LocalKeepsInv<T>(s: State<T>, s': State<T>, k: nat)
    requires Inv(s) && OnlyThread(s, s', k) && s'.ring == s.ring
    requires !HoldsTicket(s.ops[k]) && !HoldsTicket(s'.ops[k]) && OpOk(s.ring, s'.ops[k])
    ensures Inv(s')
  {
    HoldersKeep(s, s', k);
    forall t: nat | s.ring.dequeuePos <= t < s.ring.dequeuePos + |s.ring.cells| ensures CellOk(s', t) {
      assert CellOk(s, t);
    }
  }

  /** A matching enqueue compare-exchange finds room: the ticket before the window's end. */
  lemma WinnerFindsRoom<T>(s: State<T>, k: nat)
    requires Inv(s) && k < |s.ops| && s.ops[k].EnqCas? && s.ops[k].pos == s.ring.enqueuePos
    ensures s.ring.enqueuePos < s.ring.dequeuePos + |s.ring.cells|
  {
    assert OpOk(s.ring, s.ops[k]);
    assert CellOk(s, s.ring.dequeuePos);
    SlotLap(s.ring.dequeuePos, |s.ring.cells|);
  }

  lemma WinEnqueueKeepsInv<T>(s: State<T>, s': State<T>, k: nat)
    requires Inv(s) && k < |s.ops| && s.ops[k].EnqCas? && s.ops[k].pos == s.ring.enqueuePos
    requires Runs(s, s', k, false)
    ensures Inv(s')
  {
    var r, r', p := s.ring, s'.ring, s.ring.enqueuePos;
    WinnerFindsRoom(s, k);
    HoldersKeep(s, s', k);
    assert OpOk(r, s.ops[k]);
    assert s'.ops[k].Writes(p);
    forall t: nat | r.dequeuePos <= t < r.dequeuePos + |r.cells| ensures CellOk(s', t) {
      assert CellOk(s, t);
    }
    forall j | 0 <= j < |s'.ops| ensures OpOk(r', s'.ops[j]) {
      if j != k { WinEnqueueKeepsOp(s, s', k, j); }
    }
    WinEnqueueKeepsUnique(s, s', k);
  }

  /** The ticket just won is beyond all tickets held so far. */
  lemma WinEnqueueKeepsUnique<T>(s: State<T>, s': State<T>, k: nat)
    requires Inv(s) && k < |s.ops| && s.ops[k].EnqCas? && s.ops[k].pos == s.ring.enqueuePos
    requires Runs(s, s', k, false)
    ensures TicketsUnique(s')
  {
    forall i, j | 0 <= i < j < |s'.ops| ensures !SharesTicket(s'.ops[i], s'.ops[j]) {
      assert OpOk(s.ring, s.ops[i]) && OpOk(s.ring, s.ops[j]) && !SharesTicket(s.ops[i], s.ops[j]);
    }
  }

  lemma WinEnqueueKeepsOp<T>(s: State<T>, s': State<T>, k: nat, j: nat)
    requires Inv(s) && k < |s.ops| && s.ops[k].EnqCas? && s.ops[k].pos == s.ring.enqueuePos
    requires Runs(s, s', k, false) && j < |s.ops| && j != k
    ensures OpOk(s'.ring, s.ops[j])
  {
    var op, p, n := s.ops[j], s.ring.enqueuePos, |s.ring.cells|;
    assert OpOk(s.ring, op) && OpOk(s.ring, s.ops[k]);
    if (op.DeqRead? || op.DeqRelease?) && p == op.pos + n {
      // That reader still holds the cell the winner saw free.
      SlotLap(op.pos, n);
      assert false;
    }
  }

  /** Storing the payload touches no cell that another thread may look at. */
  lemma WriteKeepsInv<T>(s: State<T>, s': State<T>, k: nat, weak: bool)
    requires Inv(s) && k < |s.ops| && s.ops[k].EnqWrite? && Runs(s, s', k, weak)
    ensures Inv(s')
  {
    var r, r', p, n := s.ring, s'.ring, s.ops[k].pos, |s.ring.cells|;
    HoldersKeep(s, s', k);
    OtherSlots(p, n);
    assert OpOk(r, s.ops[k]);
    assert s'.ops[k].Writes(p);
    forall t: nat | r.dequeuePos <= t < r.dequeuePos + n ensures CellOk(s', t) {
      assert CellOk(s, t);
    }
    forall j | 0 <= j < |s'.ops| ensures OpOk(r', s'.ops[j]) {
      assert OpOk(r, s.ops[j]);
      if j != k { assert !SharesTicket(s.ops[j], s.ops[k]) && !SharesTicket(s.ops[k], s.ops[j]); }
    }
    TicketsStay(s, s', k);
  }

  /** A thread that keeps or drops its ticket keeps tickets unique. */
  lemma TicketsStay<T>(s: State<T>, s': State<T>, k: nat)
    requires OnlyThread(s, s', k) && TicketsUnique(s)
    requires forall t :: (s'.ops[k].Writes(t) ==> s.ops[k].Writes(t)) && (s'.ops[k].Reads(t) ==> s.ops[k].Reads(t))
    ensures TicketsUnique(s')
  {
    var op := s'.ops[k];
    assert op.EnqWrite? || op.EnqPublish? ==> op.Writes(op.pos);
    assert op.DeqRead? || op.DeqRelease? ==> op.Reads(op.pos);
    forall i, j | 0 <= i < j < |s'.ops| ensures !SharesTicket(s'.ops[i], s'.ops[j]) {
      assert !SharesTicket(s.ops[i], s.ops[j]);
    }
  }

  lemma PublishKeepsInv<T>(s: State<T>, s': State<T>, k: nat, weak: bool)
    requires Inv(s) && k < |s.ops| && s.ops[k].EnqPublish? && Runs(s, s', k, weak)
    ensures Inv(s')
  {
    var r, r', p, n := s.ring, s'.ring, s.ops[k].pos, |s.ring.cells|;
    HoldersKeep(s, s', k);
    OtherSlots(p, n);
    assert OpOk(r, s.ops[k]);
    forall t: nat | r.dequeuePos <= t < r.dequeuePos + n ensures CellOk(s', t) {
      assert CellOk(s, t);
    }
    forall j | 0 <= j < |s'.ops| ensures OpOk(r', s'.ops[j]) {
      assert OpOk(r, s.ops[j]);
      if j != k { assert !SharesTicket(s.ops[j], s.ops[k]) && !SharesTicket(s.ops[k], s.ops[j]); }
    }
    TicketsStay(s, s', k);
  }

  lemma WinDequeueKeepsInv<T>(s: State<T>, s': State<T>, k: nat)
    requires Inv(s) && k < |s.ops| && s.ops[k].DeqCas? && s.ops[k].pos == s.ring.dequeuePos
    requires Runs(s, s', k, false)
    ensures Inv(s')
  {
    var r, r', p, n := s.ring, s'.ring, s.ring.dequeuePos, |s.ring.cells|;
    HoldersKeep(s, s', k);
    assert OpOk(r, s.ops[k]);
    assert CellOk(s, p);
    assert s'.ops[k].Reads(p);
    SlotLap(p, n);
    forall t: nat | p + 1 <= t < p + 1 + n ensures CellOk(s', t) {
      if t < p + n { assert CellOk(s, t); }
    }
    forall j | 0 <= j < |s'.ops| ensures OpOk(r', s'.ops[j]) {
      assert OpOk(r, s.ops[j]);
    }
    WinDequeueKeepsUnique(s, s', k);
  }

  lemma WinDequeueKeepsUnique<T>(s: State<T>, s': State<T>, k: nat)
    requires Inv(s) && k < |s.ops| && s.ops[k].DeqCas? && s.ops[k].pos == s.ring.dequeuePos
    requires Runs(s, s', k, false)
    ensures TicketsUnique(s')
  {
    forall i, j | 0 <= i < j < |s'.ops| ensures !SharesTicket(s'.ops[i], s'.ops[j]) {
      assert OpOk(s.ring, s.ops[i]) && OpOk(s.ring, s.ops[j]) && !SharesTicket(s.ops[i], s.ops[j]);
    }
  }

  lemma ReadKeepsInv<T>(s: State<T>, s': State<T>, k: nat, weak: bool)
    requires Inv(s) && k < |s.ops| && s.ops[k].DeqRead? && Runs(s, s', k, weak)
    ensures Inv(s')
  {
    var r, r', p, n := s.ring, s'.ring, s.ops[k].pos, |s.ring.cells|;
    HoldersKeep(s, s', k);
    OtherSlots(p, n);
    OtherSlots(p + n, n);
    SlotLap(p, n);
    assert OpOk(r, s.ops[k]);
    assert s'.ops[k].Reads(p);
    forall t: nat | r.dequeuePos <= t < r.dequeuePos + n ensures CellOk(s', t) {
      assert CellOk(s, t);
    }
    forall j | 0 <= j < |s'.ops| ensures OpOk(r', s'.ops[j]) {
      assert OpOk(r, s.ops[j]);
      if j != k { assert !SharesTicket(s.ops[j], s.ops[k]) && !SharesTicket(s.ops[k], s.ops[j]); }
    }
    TicketsStay(s, s', k);
  }

  lemma ReleaseKeepsInv<T>(s: State<T>, s': State<T>, k: nat, weak: bool)
    requires Inv(s) && k < |s.ops| && s.ops[k].DeqRelease? && Runs(s, s', k, weak)
    ensures Inv(s')
  {
    var r, r', p, n := s.ring, s'.ring, s.ops[k].pos, |s.ring.cells|;
    HoldersKeep(s, s', k);
    OtherSlots(p, n);
    OtherSlots(p + n, n);
    SlotLap(p, n);
    assert OpOk(r, s.ops[k]);
    forall t: nat | r.dequeuePos <= t < r.dequeuePos + n ensures CellOk(s', t) {
      assert CellOk(s, t);
    }
    forall j | 0 <= j < |s'.ops| ensures OpOk(r', s'.ops[j]) {
      assert OpOk(r, s.ops[j]);
      if j != k { assert !SharesTicket(s.ops[j], s.ops[k]) && !SharesTicket(s.ops[k], s.ops[j]); }
    }
    TicketsStay(s, s', k);
  }

  /** This step of `op` wins a ticket or touches a cell. */
  predicate Commits<T>(r: Ring<T>, op: Op<T>, weak: bool) {
    || HoldsTicket(op)
    || (op.EnqCas? && r.enqueuePos == op.pos && !weak)
    || (op.DeqCas? && r.dequeuePos == op.pos && !weak)
  }

  /** Any other step only looks, and what it concludes is still true. */
  lemma LookStepOk<T>(r: Ring<T>, op: Op<T>, weak: bool)
    requires |r.cells| > 0 && |r.enqueued| == r.enqueuePos && OpOk(r, op) && !Commits(r, op, weak)
    ensures Step(r, op, weak).0 == r && !HoldsTicket(Step(r, op, weak).1) && OpOk(r, Step(r, op, weak).1)
  {
  }

  lemma RunsKeepsInv<T>(s: State<T>, s': State<T>, k: nat, weak: bool)
    requires Inv(s) && Runs(s, s', k, weak)
    ensures Inv(s')
  {
    var op := s.ops[k];
    if Commits(s.ring, op, weak) {
      match op {
        case EnqCas(_, _) => WinEnqueueKeepsInv(s, s', k);
        case DeqCas(_) => WinDequeueKeepsInv(s, s', k);
        case EnqWrite(_, _) => WriteKeepsInv(s, s', k, weak);
        case EnqPublish(_, _) => PublishKeepsInv(s, s', k, weak);
        case DeqRead(_) => ReadKeepsInv(s, s', k, weak);
        case DeqRelease(_, _) => ReleaseKeepsInv(s, s', k, weak);
      }
    } else {
      assert OpOk(s.ring, op);
      LookStepOk(s.ring, op, weak);
      LocalKeepsInv(s, s', k);
    }
  }

  lemma NextKeepsInv<T(!new)>(s: State<T>, s': State<T>)
    requires Inv(s) && Next(s, s')
    ensures Inv(s')
  {
    if k: nat, weak :| Runs(s, s', k, weak) {
      RunsKeepsInv(s, s', k, weak);
    } else {
      var k: nat, op :| Calls(s, s', k, op);
      LocalKeepsInv(s, s', k);
    }
  }

  lemma InitHasInv<T>(s: State<T>, n: nat)
    requires n >= 2 && Init(s, n)
    ensures Inv(s)
  {
    forall t: nat | t < n ensures CellOk(s, t) { FirstLap(t, n); }
  }

  lemma FirstLap(t: nat, n: nat)
    requires t < n
    ensures Slot(t, n) == t
  {
    assert t == (t / n) * n + t % n;
    QuotientUnique(t / n, t % n, 0, t, n);
  }

  /** Every state of every run, with any number of threads, satisfies the invariant. */
  lemma {:induction false} RunHasInv<T(!new)>(states: seq<State<T>>, n: nat, i: nat)
    requires n >= 2 && Run(states, n) && i < |states|
    ensures Inv(states[i])
  {
    if i == 0 {
      InitHasInv(states[0], n);
    } else {
      RunHasInv(states, n, i - 1);
      assert StepAt(states, i);
      NextKeepsInv(states[i-1], states[i]);
    }
  }
}
