/**
 The bounded queue used by one thread at a time, on the machine's own 64-bit counters:
 positions and sequence numbers wrap, the cell index is a mask, and the distance of a
 sequence number from a position is a signed difference.
 */
module BoundedQueue {
  import opened Wrappers
  import opened Bits
  import opened QueueProtocol

  // ----- word arithmetic -----

  lemma MulAssociates(x: nat, y: nat, z: nat)
    ensures (x * y) * z == x * (y * z)
  {
  }

  lemma Regroup(n: nat, m: nat, q: nat, q': nat, r: nat)
    ensures (n * m) * q + (n * q' + r) == n * (m * q + q') + r
  {
    MulAssociates(n, m, q);
    var x := m * q;
    assert n * (x + q') == n * x + n * q';
  }

  lemma RemainderOfRemainder(pos: nat, n: nat, m: nat)
    requires n > 0 && m > 0 && n * m > 0
    ensures (pos % (n * m)) % n == pos % n
  {
    var q, r := pos / (n * m), pos % (n * m);
    var q', r' := r / n, r % n;
    Regroup(n, m, q, q', r');
    RemainderIs(pos, n, m * q + q', r');
  }

  /** Masking the wrapped position picks the cell of the unbounded position. */
  lemma MaskPicksSlot(pos: nat, n: nat)
    requires 0 < n < WORD && PowerOfTwo(n)
    ensures And(pos % WORD, n - 1) == Slot(pos, n)
  {
    var k: nat :| n == Pow2(k);
    WordIsPow2();
    if k > 64 { Pow2Grows(64, k); }
    Pow2Product(k, 64 - k);
    AndMask(pos % WORD, k);
    RemainderOfRemainder(pos, n, Pow2(64 - k));
  }

  /** Distances below half a word survive the wrap with their sign. */
  lemma DifferenceSurvivesWrap(a: nat, b: nat)
    requires -HALF <= a - b < HALF
    ensures SignedDifference(a % WORD, b % WORD) == a - b
  {
    var qa, qb := a / WORD, b / WORD;
    assert a == WORD * qa + a % WORD && b == WORD * qb + b % WORD;
    var x := a % WORD - b % WORD;
    assert x == (a - b) - WORD * (qa - qb);
    assert x % WORD == (a - b) % WORD;
  }

  lemma WrapAdds(a: nat, b: nat)
    ensures (a % WORD + b) % WORD == (a + b) % WORD
  {
  }

  lemma PowerOfTwoBelowWord(n: nat)
    requires PowerOfTwo(n) && n < WORD
    ensures n <= HALF
  {
    var k: nat :| n == Pow2(k);
    WordIsPow2();
    if k > 63 { Pow2Grows(64, k); }
    Pow2Grows(k, 63);
    assert Pow2(64) == 2 * Pow2(63);
  }

  // ----- what the ring represents -----

  /**
   The cells hold `contents`, oldest first, after `taken` items have been taken out. The
   true position of an item never wraps; its cell and its number modulo a word are stored.
   */
  ghost predicate Represents<T>(cells: seq<Cell<T>>, taken: nat, contents: seq<T>) {
    && |cells| >= 2 && |contents| <= |cells|
    && forall t: nat :: taken <= t < taken + |cells| ==> CellFor(cells[Slot(t, |cells|)], t, taken, contents)
  }

  ghost predicate CellFor<T>(c: Cell<T>, t: nat, taken: nat, contents: seq<T>)
    requires t >= taken
  {
    if t < taken + |contents| then c == Cell((t + 1) % WORD, Some(contents[t - taken]))
    else c.sequence == t % WORD
  }

  lemma FreshRing<T>(cells: seq<Cell<T>>)
    requires 2 <= |cells| < WORD && forall i :: 0 <= i < |cells| ==> cells[i] == Cell(i, None)
    ensures Represents(cells, 0, [])
  {
    forall t: nat | t < |cells| ensures CellFor(cells[Slot(t, |cells|)], t, 0, []) {
      RemainderIs(t, |cells|, 0, t);
    }
  }

  lemma StoreKeeps<T>(cells: seq<Cell<T>>, taken: nat, contents: seq<T>, item: T)
    requires Represents(cells, taken, contents) && |contents| < |cells|
    ensures var end := taken + |contents|;
      Represents(cells[Slot(end, |cells|) := Cell((end + 1) % WORD, Some(item))], taken, contents + [item])
  {
    var end, n := taken + |contents|, |cells|;
    OtherSlots(end, n);
    var cells' := cells[Slot(end, n) := Cell((end + 1) % WORD, Some(item))];
    forall t: nat | taken <= t < taken + n ensures CellFor(cells'[Slot(t, n)], t, taken, contents + [item]) {
      assert CellFor(cells[Slot(t, n)], t, taken, contents);
    }
  }

  lemma TakeKeeps<T>(cells: seq<Cell<T>>, taken: nat, contents: seq<T>, left: Option<T>)
    requires Represents(cells, taken, contents) && contents != []
    ensures Represents(
      cells[Slot(taken, |cells|) := Cell((taken + |cells|) % WORD, left)], taken + 1, contents[1..])
  {
    var n := |cells|;
    OtherSlots(taken, n);
    SlotLap(taken, n);
    var cells' := cells[Slot(taken, n) := Cell((taken + n) % WORD, left)];
    forall t: nat | taken + 1 <= t < taken + 1 + n ensures CellFor(cells'[Slot(t, n)], t, taken + 1, contents[1..]) {
      if t < taken + n { assert CellFor(cells[Slot(t, n)], t, taken, contents); }
    }
  }

  /** At the enqueue position the signed distance is 0, or negative exactly when full. */
  lemma EnqueueDistance<T>(cells: seq<Cell<T>>, taken: nat, contents: seq<T>)
    requires Represents(cells, taken, contents) && |cells| <= HALF
    ensures var end := taken + |contents|; var seen := cells[Slot(end, |cells|)].sequence;
      && seen < WORD && SignedDifference(seen, end % WORD) == (if |contents| == |cells| then 1 - |cells| else 0)
      && |contents| <= |cells|
  {
    var end := taken + |contents|;
    SlotLap(taken, |cells|);
    assert CellFor(cells[Slot(taken, |cells|)], taken, taken, contents);
    if |contents| == |cells| {
      DifferenceSurvivesWrap(taken + 1, end);
    } else {
      assert CellFor(cells[Slot(end, |cells|)], end, taken, contents);
      DifferenceSurvivesWrap(end, end);
    }
  }

  /** At the dequeue position it is 0, or negative exactly when empty. */
  lemma DequeueDistance<T>(cells: seq<Cell<T>>, taken: nat, contents: seq<T>)
    requires Represents(cells, taken, contents)
    ensures var seen := cells[Slot(taken, |cells|)].sequence;
      seen < WORD && SignedDifference(seen, (taken + 1) % WORD) == if contents == [] then -1 else 0
  {
    assert CellFor(cells[Slot(taken, |cells|)], taken, taken, contents);
    DifferenceSurvivesWrap(if contents == [] then taken else taken + 1, taken + 1);
  }

  // ----- the class -----

  class Queue<T> {
    const buffer: array<Cell<T>>
    const bufferMask: nat
    var enqueuePos: nat
    var dequeuePos: nat
    // The items held, oldest first, and how many were ever taken out (never wraps).
    ghost var contents: seq<T>
    ghost var taken: nat

    ghost predicate Valid()
      reads this, buffer
    {
      && buffer.Length < WORD && PowerOfTwo(buffer.Length) && bufferMask == buffer.Length - 1
      && dequeuePos == taken % WORD
      && enqueuePos == (taken + |contents|) % WORD
      && Represents(buffer[..], taken, contents)
    }

    /** The constructor proper; the size has been checked. */
    constructor (size: nat)
      requires 2 <= size < WORD && PowerOfTwo(size)
      ensures Valid() && fresh(buffer) && buffer.Length == size && contents == []
    {
      buffer := new Cell<T>[size](i => Cell(i, None));
      bufferMask := size - 1;
      enqueuePos, dequeuePos := 0, 0;
      contents, taken := [], 0;
      new;
      FreshRing(buffer[..]);
    }

    /** The constructor as callers see it: any other size is an error. */
    static method Create(size: nat) returns (r: Result<Queue<T>, string>)
      requires size < WORD
      ensures r.Ok? <==> 2 <= size && PowerOfTwo(size)
      ensures r.Ok? ==> fresh(r.value) && fresh(r.value.buffer) && r.value.Valid() &&
                        r.value.buffer.Length == size && r.value.contents == []
    {
      if size >= 2 { PowerOfTwoTest(size); }
      if !(size >= 2 && And(size, size - 1) == 0) {
        return Err("async logger queue size must be power of two");
      }
      var q := new Queue<T>(size);
      return Ok(q);
    }

    /** `spurious` is how often the weak compare-exchange fails before it succeeds. */
    method Enqueue(item: T, spurious: nat) returns (ok: bool)
      requires Valid()
      modifies this`enqueuePos, this`contents, buffer
      ensures Valid()
      ensures ok <==> |old(contents)| < buffer.Length
      ensures contents == if ok then old(contents) + [item] else old(contents)
      ensures !ok ==> buffer[..] == old(buffer[..]) && enqueuePos == old(enqueuePos)
    {
      assert buffer.Length >= 2;
      hide And, Slot, SignedDifference, Represents, PowerOfTwo;
      ghost var end := taken + |contents|;
      MaskPicksSlot(end, buffer.Length);
      PowerOfTwoBelowWord(buffer.Length);
      EnqueueDistance(buffer[..], taken, contents);
      ghost var cells := buffer[..];
      ghost var full := |contents| == buffer.Length;
      ghost var seen := cells[Slot(end, buffer.Length)].sequence;
      assert SignedDifference(seen, enqueuePos) == if full then 1 - buffer.Length else 0;
      var pos, i, failures := enqueuePos, 0, spurious;
      while true
        invariant pos == enqueuePos
        decreases failures
      {
        i := And(pos, bufferMask);
        assert i == Slot(end, buffer.Length) && buffer[i].sequence == seen;
        var dif := SignedDifference(buffer[i].sequence, pos);
        if dif == 0 {
          assert !full;
          if failures == 0 { break; }
          pos, failures := enqueuePos, failures - 1;
        } else if dif < 0 {
          return false;
        } else {
          assert false; // reloading the position is for races only
        }
      }
      StoreKeeps(cells, taken, contents, item);
      WrapAdds(end, 1);
      enqueuePos := (pos + 1) % WORD;
      buffer[i] := buffer[i].(data := Some(item));
      buffer[i] := buffer[i].(sequence := (pos + 1) % WORD);
      contents := contents + [item];
      assert buffer[..] == old(buffer[..])[i := Cell((end + 1) % WORD, Some(item))];
      ok := true;
    }

    /** The payload of a dequeue that comes back true; None is the untouched argument. */
    method Dequeue(spurious: nat) returns (data: Option<T>)
      requires Valid()
      modifies this`dequeuePos, this`contents, this`taken, buffer
      ensures Valid()
      ensures data.Some? <==> old(contents) != []
      ensures if data.Some? then old(contents) == [data.value] + contents else contents == old(contents)
      ensures taken == old(taken) + (if data.Some? then 1 else 0)
      ensures data.None? ==> buffer[..] == old(buffer[..]) && dequeuePos == old(dequeuePos)
    {
      assert buffer.Length >= 2;
      assert CellFor(buffer[..][Slot(taken, buffer.Length)], taken, taken, contents);
      hide And, Slot, SignedDifference, Represents, PowerOfTwo;
      MaskPicksSlot(taken, buffer.Length);
      DequeueDistance(buffer[..], taken, contents);
      WrapAdds(taken, 1);
      ghost var cells := buffer[..];
      var pos, i, failures := dequeuePos, 0, spurious;
      while true
        invariant pos == dequeuePos
        decreases failures
      {
        i := And(pos, bufferMask);
        assert i == Slot(taken, buffer.Length) && buffer[i] == cells[i];
        var dif := SignedDifference(buffer[i].sequence, (pos + 1) % WORD);
        if dif == 0 {
          assert contents != [];
          if failures == 0 { break; }
          pos, failures := dequeuePos, failures - 1;
        } else if dif < 0 {
          return None;
        } else {
          assert false; // reloading the position is for races only
        }
      }
      TakeKeeps(cells, taken, contents, None);
      WrapAdds(taken, buffer.Length);
      dequeuePos := (pos + 1) % WORD;
      data := buffer[i].data;
      buffer[i] := buffer[i].(data := None);
      buffer[i] := buffer[i].(sequence := (pos + bufferMask + 1) % WORD);
      assert buffer[..] == old(buffer[..])[i := Cell((taken + buffer.Length) % WORD, None)];
      contents, taken := contents[1..], taken + 1;
    }
  }
}
