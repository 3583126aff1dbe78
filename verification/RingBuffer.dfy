/** The offset-indexed ring buffer, one call at a time. */
module RingBuffer {
  import opened Machine
  import opened Wrappers

  datatype Record = Record(offset: int, payload: seq<byte>)

  datatype SlotState = Empty | Filled

  datatype Slot = Slot(state: SlotState, record: Option<Record>, offset: int)

  /** Go's `%`, whose result has the sign of the dividend. */
  function GoRem(a: int, b: int): int
    requires b > 0
  {
    if a >= 0 then a % b else -((-a) % b)
  }

  function SlotIndex(offset: int, capacity: int): (i: int)
    requires capacity > 0
    ensures 0 <= i < capacity
  {
    var idx := GoRem(offset, capacity);
    if idx < 0 then idx + capacity else idx
  }

  /** Two offsets share a slot exactly when they differ by a multiple of the capacity. */
  lemma SameSlot(a: int, b: int, capacity: int)
    requires capacity > 0
    ensures SlotIndex(a, capacity) == SlotIndex(b, capacity) <==> exists k :: a == b + k * capacity
  {
    var ka := SlotTurn(a, capacity);
    var kb := SlotTurn(b, capacity);
    if SlotIndex(a, capacity) == SlotIndex(b, capacity) {
      assert a == b + (ka - kb) * capacity;
    }
    if k :| a == b + k * capacity {
      assert SlotIndex(a, capacity) - SlotIndex(b, capacity) == (k + kb - ka) * capacity;
      MulApart(k + kb - ka, capacity);
    }
  }

  lemma SlotTurn(a: int, capacity: int) returns (k: int)
    requires capacity > 0
    ensures a == k * capacity + SlotIndex(a, capacity)
  {
    DivMod(a, capacity);
    DivMod(-a, capacity);
    if a >= 0 {
      k := a / capacity;
    } else if (-a) % capacity == 0 {
      k := -((-a) / capacity);
    } else {
      k := -((-a) / capacity) - 1;
    }
  }

  /** slotIndex is injective on every window of `capacity` offsets, negative ones included. */
  lemma SlotInjective(a: int, b: int, capacity: int)
    requires capacity > 0 && SlotIndex(a, capacity) == SlotIndex(b, capacity)
    requires -capacity < a - b < capacity
    ensures a == b
  {
    SameSlot(a, b, capacity);
    var k :| a == b + k * capacity;
    MulApart(k, capacity);
  }

  lemma SlotNextLap(a: int, capacity: int)
    requires capacity > 0
    ensures SlotIndex(a + capacity, capacity) == SlotIndex(a, capacity)
  {
    assert a + capacity == a + 1 * capacity;
    SameSlot(a + capacity, a, capacity);
  }

  /** The offset of the window [base, base + capacity) whose slot `offset` falls into. */
  function Place(offset: int, base: int, capacity: int): (o: int)
    requires capacity > 0
    ensures base <= o < base + capacity
  {
    base + (offset - base) % capacity
  }

  /** An offset lands at its own place exactly when it lies in the window. */
  lemma PlaceExact(offset: int, base: int, capacity: int)
    requires capacity > 0
    ensures SlotIndex(Place(offset, base, capacity), capacity) == SlotIndex(offset, capacity)
    ensures Place(offset, base, capacity) == offset <==> base <= offset < base + capacity
  {
    DivMod(offset - base, capacity);
    var k := (offset - base) / capacity;
    assert offset == Place(offset, base, capacity) + k * capacity;
    SameSlot(offset, Place(offset, base, capacity), capacity);
    MulApart(k, capacity);
  }

  /** The entries of `contents` at offsets from `lo` on. */
  ghost function From(contents: map<int, Option<Record>>, lo: int): map<int, Option<Record>> {
    map o | o in contents && o >= lo :: contents[o]
  }

  lemma FromNext(contents: map<int, Option<Record>>, lo: int)
    ensures From(contents, lo) - {lo} == From(contents, lo + 1)
  {
  }

  /** `batch` is what `contents` holds at lo, lo + 1, ... */
  ghost predicate IsRun(contents: map<int, Option<Record>>, lo: int, batch: seq<Option<Record>>) {
    forall o :: lo <= o < lo + |batch| ==> o in contents && contents[o] == batch[o - lo]
  }

  datatype PutResult = Stored | Refused | PutBlocked
  datatype DrainResult = Drained | Ended | DrainBlocked

  class OrderedRingBuffer {
    const slots: array<Slot>
    const capacity: int
    var drainOffset: int
    var closed: bool

    ghost predicate Valid()
      reads this
    {
      capacity == slots.Length > 0
    }

    /** What the drainer would find at each offset of its window. */
    ghost function Contents(): (m: map<int, Option<Record>>)
      requires Valid()
      reads this, slots
      ensures forall o :: o in m ==> drainOffset <= o < drainOffset + capacity
    {
      map o | drainOffset <= o < drainOffset + capacity && slots[SlotIndex(o, capacity)].state == Filled
        :: slots[SlotIndex(o, capacity)].record
    }

    constructor (capacity: int, startOffset: int)
      requires capacity > 0
      ensures Valid() && fresh(slots) && this.capacity == capacity
      ensures drainOffset == startOffset && !closed && Contents() == map[]
    {
      this.capacity := capacity;
      slots := new Slot[capacity](_ => Slot(Empty, None, 0));
      drainOffset := startOffset;
      closed := false;
    }

    method Store(offset: int, record: Record)
      requires Valid() && slots[SlotIndex(offset, capacity)].state == Empty
      modifies slots
      ensures Place(offset, drainOffset, capacity) !in old(Contents())
      ensures Contents() == old(Contents())[Place(offset, drainOffset, capacity) := Some(record)]
    {
      var idx := SlotIndex(offset, capacity);
      ghost var place := Place(offset, drainOffset, capacity);
      PlaceExact(offset, drainOffset, capacity);
      forall o | drainOffset <= o < drainOffset + capacity && SlotIndex(o, capacity) == idx
        ensures o == place
      {
        SlotInjective(o, place, capacity);
      }
      slots[idx] := slots[idx].(record := Some(record), offset := offset);
      slots[idx] := slots[idx].(state := Filled);
    }

    /** The fast path: an empty slot is filled at once, whatever `closed` says. The record lands at
        the place of its offset in the window, which is the offset itself only inside the window. */
    method PutFast(offset: int, record: Record) returns (stored: bool)
      requires Valid()
      modifies slots
      ensures stored <==> Place(offset, drainOffset, capacity) !in old(Contents())
      ensures Contents() == if stored
                            then old(Contents())[Place(offset, drainOffset, capacity) := Some(record)]
                            else old(Contents())
    {
      PlaceExact(offset, drainOffset, capacity);
      stored := slots[SlotIndex(offset, capacity)].state == Empty;
      if stored {
        Store(offset, record);
      }
    }

    /** The slow path, re-examined at every wake-up. */
    method PutSlow(offset: int, record: Record, cancelled: bool) returns (r: PutResult)
      requires Valid()
      modifies slots
      ensures r == if closed || cancelled then Refused
                   else if Place(offset, drainOffset, capacity) in old(Contents()) then PutBlocked else Stored
      ensures Contents() == if r == Stored
                            then old(Contents())[Place(offset, drainOffset, capacity) := Some(record)]
                            else old(Contents())
    {
      PlaceExact(offset, drainOffset, capacity);
      if slots[SlotIndex(offset, capacity)].state != Empty && !closed && !cancelled {
        return PutBlocked;
      }
      if closed || cancelled {
        return Refused;
      }
      Store(offset, record);
      return Stored;
    }

    /** One turn of the drain loop: frees the slot of `off` if it is filled. Past a whole lap the
        slot is the one emptied first. */
    method Take(off: int) returns (taken: bool, rec: Option<Record>)
      requires Valid() && drainOffset <= off <= drainOffset + capacity
      requires off == drainOffset + capacity ==> drainOffset !in Contents()
      modifies slots
      ensures taken <==> off in old(Contents())
      ensures taken ==> rec == old(Contents())[off]
      ensures Contents() == old(Contents()) - {off}
    {
      var i := SlotIndex(off, capacity);
      if off == drainOffset + capacity {
        SlotNextLap(drainOffset, capacity);
      }
      if slots[i].state != Filled {
        return false, None;
      }
      forall o | drainOffset <= o < drainOffset + capacity && o != off
        ensures SlotIndex(o, capacity) != i
      {
        if SlotIndex(o, capacity) == i {
          SlotInjective(o, off, capacity);
        }
      }
      taken, rec := true, slots[i].record;
      slots[i] := slots[i].(record := None);
      slots[i] := slots[i].(state := Empty);
    }

    method Advance(n: nat)
      requires Valid() && n <= capacity
      requires forall o :: drainOffset <= o < drainOffset + n ==> o !in Contents()
      modifies this`drainOffset
      ensures drainOffset == old(drainOffset) + n && Contents() == old(Contents())
    {
      forall o | drainOffset + capacity <= o < drainOffset + n + capacity
        ensures slots[SlotIndex(o, capacity)].state == Empty
      {
        assert o - capacity !in Contents();
        SlotNextLap(o - capacity, capacity);
      }
      drainOffset := drainOffset + n;
    }

    /** Empties the longest filled run from drainOffset, at most `max` long. */
    method TakeRun(max: int) returns (batch: seq<Option<Record>>)
      requires Valid() && max > 0
      modifies slots
      ensures |batch| <= max && |batch| <= capacity
      ensures IsRun(old(Contents()), drainOffset, batch)
      ensures |batch| == max || drainOffset + |batch| !in old(Contents())
      ensures Contents() == From(old(Contents()), drainOffset + |batch|)
    {
      batch := [];
      hide Contents;
      ghost var all, left := Contents(), Contents();
      while |batch| < max
        invariant |batch| <= max && |batch| <= capacity
        invariant IsRun(all, drainOffset, batch)
        invariant left == From(all, drainOffset + |batch|)
        invariant Contents() == left
        decreases max - |batch|
      {
        var taken, rec := Take(drainOffset + |batch|);
        if !taken {
          break;
        }
        FromNext(all, drainOffset + |batch|);
        left := left - {drainOffset + |batch|};
        batch := batch + [rec];
      }
    }

    /** Takes exactly the longest filled run from drainOffset, at most `maxBatch` long (256 when
        `maxBatch` is not positive), and leaves everything after it. */
    method DrainBatch(maxBatch: int, cancelled: bool) returns (batch: seq<Option<Record>>, r: DrainResult)
      requires Valid()
      modifies this`drainOffset, slots
      ensures var head := old(drainOffset) in old(Contents());
              r == if cancelled || (closed && !head) then Ended else if head then Drained else DrainBlocked
      ensures r != Drained ==> batch == []
      ensures r == Drained ==>
        var max := if maxBatch <= 0 then 256 else maxBatch;
        0 < |batch| <= max && (|batch| == max || drainOffset !in old(Contents()))
      ensures drainOffset == old(drainOffset) + |batch|
      ensures IsRun(old(Contents()), old(drainOffset), batch)
      ensures Contents() == From(old(Contents()), drainOffset)
    {
      var max := if maxBatch <= 0 then 256 else maxBatch;
      var idx := SlotIndex(drainOffset, capacity);
      batch := [];
      assert Contents() == From(Contents(), drainOffset);
      if slots[idx].state != Filled && !closed && !cancelled {
        return batch, DrainBlocked;
      }
      if closed && slots[idx].state != Filled {
        return batch, Ended;
      }
      if cancelled {
        return batch, Ended;
      }
      assert drainOffset in Contents();
      batch := TakeRun(max);
      Advance(|batch|);
      r := Drained;
    }

    /** Close and CloseWithError: nothing but the flag changes, so a filled run can still be drained. */
    method Close()
      requires Valid()
      modifies this`closed
      ensures closed && Contents() == old(Contents())
    {
      closed := true;
    }
  }
}
