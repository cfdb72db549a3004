/**
 * A pool of integer ids in [0, capacity), one bit per id in a byte buffer, with a counter of
 * ids in use. The memory-mapped file behind the buffer is modelled by an array of bytes whose
 * initial contents are the file's.
 */
module IdPool {
  import opened Exceptions
  import opened Decimal

  // ---------------------------------------------------------------------------
  // Java integer arithmetic and the bit helpers

  /** Java's `/` on ints: truncates toward zero. */
  function JavaDiv(a: int, b: int): int
    requires b > 0
  {
    if a >= 0 then a / b else -((-a) / b)
  }

  /** Java's `%` on ints: takes the sign of the dividend. */
  function JavaRem(a: int, b: int): int
    requires b > 0
  {
    a - b * JavaDiv(a, b)
  }

  /** `alignAt8(num)`: the number of bytes that hold `num` bits. For a non-negative count it is
      the ceiling of num / 8: enough bytes, and not one more. */
  function AlignAt8(num: int): (r: int)
    ensures num >= 0 ==> r * 8 >= num && r * 8 < num + 8
  {
    JavaDiv(num, 8) + (if JavaRem(num, 8) == 0 then 0 else 1)
  }

  /** `index(id)`: the byte that holds id's bit. */
  function Index(id: int): (r: int)
    ensures 0 <= id ==> r == id / 8
  {
    JavaDiv(id, 8)
  }

  /** `bit(id)`: the mask of id's bit within its byte. */
  function Bit(id: nat): bv8 {
    (1 as bv8) << (id % 8)
  }

  /** Every id below `capacity` has its byte inside a buffer of alignAt8(capacity) bytes. */
  lemma IndexInBuffer(id: int, capacity: int, length: int)
    requires 0 <= id < capacity && AlignAt8(capacity) <= length
    ensures 0 <= Index(id) < length
  {
  }

  /** Masks of ids in different bit positions do not overlap. */
  lemma BitsDisjoint(i: nat, j: nat)
    requires i % 8 != j % 8
    ensures Bit(i) & Bit(j) == 0
  {
    var k, m := i % 8, j % 8;
    assert 0 <= k < 8 && 0 <= m < 8;
    if k == 0 { assert Bit(i) == 1; }
    else if k == 1 { assert Bit(i) == 2; }
    else if k == 2 { assert Bit(i) == 4; }
    else if k == 3 { assert Bit(i) == 8; }
    else if k == 4 { assert Bit(i) == 16; }
    else if k == 5 { assert Bit(i) == 32; }
    else if k == 6 { assert Bit(i) == 64; }
    else { assert Bit(i) == 128; }
    if m == 0 { assert Bit(j) == 1; }
    else if m == 1 { assert Bit(j) == 2; }
    else if m == 2 { assert Bit(j) == 4; }
    else if m == 3 { assert Bit(j) == 8; }
    else if m == 4 { assert Bit(j) == 16; }
    else if m == 5 { assert Bit(j) == 32; }
    else if m == 6 { assert Bit(j) == 64; }
    else { assert Bit(j) == 128; }
  }

  /** Each mask has exactly one bit. */
  lemma BitIsSingle(id: nat)
    ensures Bit(id) != 0 && Bit(id) & (Bit(id) - 1) == 0
  {
    var k := id % 8;
    if k == 0 { assert Bit(id) == 1; }
    else if k == 1 { assert Bit(id) == 2; }
    else if k == 2 { assert Bit(id) == 4; }
    else if k == 3 { assert Bit(id) == 8; }
    else if k == 4 { assert Bit(id) == 16; }
    else if k == 5 { assert Bit(id) == 32; }
    else if k == 6 { assert Bit(id) == 64; }
    else { assert Bit(id) == 128; }
  }

  /** The byte `o` with id's bit forced to b: `(byte) (o | bit(id))` or `(byte) (o & ~bit(id))`. */
  function Force(o: bv8, id: nat, b: bool): (r: bv8)
    ensures (r & Bit(id) != 0) == b
    ensures r & !Bit(id) == o & !Bit(id)
  {
    if b then o | Bit(id) else o & !Bit(id)
  }

  /** Forcing id's bit to b changes the byte exactly when the bit differed from b. */
  lemma ForceChanges(o: bv8, id: nat, b: bool)
    ensures (Force(o, id, b) != o) == ((o & Bit(id) != 0) != b)
  {
    BitIsSingle(id);
    var mask := Bit(id);
    assert mask != 0 && mask & (mask - 1) == 0;
  }

  // ---------------------------------------------------------------------------
  // The bitset as a value

  /** Is id's bit set in the buffer `bytes`? */
  predicate IsSet(bytes: seq<bv8>, id: nat)
    requires id / 8 < |bytes|
  {
    bytes[id / 8] & Bit(id) != 0
  }

  /** The buffer after `set(id, b)`: id's byte with id's bit forced to b. */
  function SetBit(bytes: seq<bv8>, id: nat, b: bool): (r: seq<bv8>)
    requires id / 8 < |bytes|
    ensures |r| == |bytes|
    ensures forall j :: 0 <= j < |r| && j != id / 8 ==> r[j] == bytes[j]
  {
    bytes[id / 8 := Force(bytes[id / 8], id, b)]
  }

  /** `set(id, b)` reports a change exactly when id's bit differed from b. */
  lemma SetBitReportsChange(bytes: seq<bv8>, id: nat, b: bool)
    requires id / 8 < |bytes|
    ensures (bytes[id / 8] != Force(bytes[id / 8], id, b)) == (IsSet(bytes, id) != b)
  {
    ForceChanges(bytes[id / 8], id, b);
  }

  /** `set(id, b)` makes id's bit equal to b and leaves every other bit of the buffer as it was. */
  lemma SetBitEffect(bytes: seq<bv8>, id: nat, b: bool, j: nat)
    requires id / 8 < |bytes| && j / 8 < |bytes|
    ensures |SetBit(bytes, id, b)| == |bytes|
    ensures IsSet(SetBit(bytes, id, b), j) == if j == id then b else IsSet(bytes, j)
  {
    if j != id && j / 8 == id / 8 {
      BitsDisjoint(id, j);
    }
  }

  /** Setting a bit twice is setting it once, and the second `set` reports no change, so a
      repeated `acquire(id)` or `release(id)` leaves both the buffer and the counter alone. */
  lemma SetBitIdempotent(bytes: seq<bv8>, id: nat, b: bool)
    requires id / 8 < |bytes|
    ensures SetBit(SetBit(bytes, id, b), id, b) == SetBit(bytes, id, b)
    ensures IsSet(SetBit(bytes, id, b), id) == b
  {
    SetBitEffect(bytes, id, b, id);
    var o := bytes[id / 8];
    assert Force(Force(o, id, b), id, b) == Force(o, id, b);
  }

  /** Number of ids in [0, n) whose bit is set. */
  function CountSet(bytes: seq<bv8>, n: nat): nat
    requires n <= 8 * |bytes|
  {
    if n == 0 then 0 else CountSet(bytes, n - 1) + (if IsSet(bytes, n - 1) then 1 else 0)
  }

  /** Two buffers that agree on every id below n except `id` have counts that differ only by
      the change at `id`. */
  lemma {:induction false} CountSetAfterChange(x: seq<bv8>, y: seq<bv8>, n: nat, id: nat, b: bool)
    requires n <= 8 * |x| && |y| == |x|
    requires forall j: nat :: j < n && j != id ==> IsSet(y, j) == IsSet(x, j)
    requires id < n ==> IsSet(y, id) == b
    ensures CountSet(y, n) ==
      CountSet(x, n) + if id < n then (if b then 1 else 0) - (if IsSet(x, id) then 1 else 0) else 0
  {
    if n > 0 {
      CountSetAfterChange(x, y, n - 1, id, b);
    }
  }

  /** Changing one bit below n moves the count by at most one, exactly when the bit changes;
      changing a bit at or above n leaves it alone. */
  lemma CountSetAfterSetBit(bytes: seq<bv8>, n: nat, id: nat, b: bool)
    requires n <= 8 * |bytes| && id / 8 < |bytes|
    ensures CountSet(SetBit(bytes, id, b), n) ==
      CountSet(bytes, n) + if id < n then (if b then 1 else 0) - (if IsSet(bytes, id) then 1 else 0) else 0
  {
    var after := SetBit(bytes, id, b);
    forall j: nat | j < n
      ensures IsSet(after, j) == if j == id then b else IsSet(bytes, j)
    {
      SetBitEffect(bytes, id, b, j);
    }
    CountSetAfterChange(bytes, after, n, id, b);
  }

  /** At most n of the ids below n are set. */
  lemma {:induction false} CountSetBound(bytes: seq<bv8>, n: nat)
    requires n <= 8 * |bytes|
    ensures CountSet(bytes, n) <= n
  {
    if n > 0 {
      CountSetBound(bytes, n - 1);
    }
  }

  /** Some id below n is free. */
  ghost predicate HasFree(bytes: seq<bv8>, n: nat)
    requires n <= 8 * |bytes|
  {
    exists id: nat :: id < n && !IsSet(bytes, id)
  }

  /** When fewer than n ids below n are set, one of them is free. */
  lemma {:induction false} FreeIdExists(bytes: seq<bv8>, n: nat)
    requires n <= 8 * |bytes|
    requires CountSet(bytes, n) < n
    ensures HasFree(bytes, n)
  {
    if IsSet(bytes, n - 1) {
      FreeIdExists(bytes, n - 1);
      var id: nat :| id < n - 1 && !IsSet(bytes, id);
      assert id < n;
    } else {
      assert !IsSet(bytes, n - 1);
    }
  }

  /** Every id below n is set exactly when the count is n. */
  lemma {:induction false} AllSetWhenFull(bytes: seq<bv8>, n: nat)
    requires n <= 8 * |bytes|
    requires CountSet(bytes, n) == n
    ensures !HasFree(bytes, n)
  {
    if n > 0 {
      CountSetBound(bytes, n - 1);
      AllSetWhenFull(bytes, n - 1);
      assert IsSet(bytes, n - 1);
      forall id: nat | id < n
        ensures IsSet(bytes, id)
      {
        if id < n - 1 {
          assert !HasFree(bytes, n - 1);
        }
      }
    }
  }

  /** The buffer after releasing ids 0, 1, ..., n - 1 in turn. */
  function ClearBelow(bytes: seq<bv8>, n: nat): (r: seq<bv8>)
    requires n <= 8 * |bytes|
    ensures |r| == |bytes|
  {
    if n == 0 then bytes else SetBit(ClearBelow(bytes, n - 1), n - 1, false)
  }

  /** Clearing ids below n clears exactly those bits, keeps the rest, and keeps the length. */
  lemma {:induction false} ClearBelowEffect(bytes: seq<bv8>, n: nat, j: nat)
    requires n <= 8 * |bytes| && j / 8 < |bytes|
    ensures |ClearBelow(bytes, n)| == |bytes|
    ensures IsSet(ClearBelow(bytes, n), j) == (j >= n && IsSet(bytes, j))
  {
    if n > 0 {
      var prev := ClearBelow(bytes, n - 1);
      ClearBelowEffect(bytes, n - 1, j);
      SetBitEffect(prev, n - 1, false, j);
      assert ClearBelow(bytes, n) == SetBit(prev, n - 1, false);
    }
  }

  /** When no id below n is set, the count is zero. */
  lemma {:induction false} NoneSetCountsZero(bytes: seq<bv8>, n: nat)
    requires n <= 8 * |bytes|
    requires forall id: nat :: id < n ==> !IsSet(bytes, id)
    ensures CountSet(bytes, n) == 0
  {
    if n > 0 {
      NoneSetCountsZero(bytes, n - 1);
    }
  }

  /** After clearing ids below n, none of them counts as set. */
  lemma ClearBelowCountsZero(bytes: seq<bv8>, n: nat)
    requires n <= 8 * |bytes|
    ensures CountSet(ClearBelow(bytes, n), n) == 0
  {
    forall id: nat | id < n
      ensures !IsSet(ClearBelow(bytes, n), id)
    {
      ClearBelowEffect(bytes, n, id);
    }
    NoneSetCountsZero(ClearBelow(bytes, n), n);
  }

  // ---------------------------------------------------------------------------
  // The pool

  class IdPoolBaseOnFile {
    const capacity: int
    const bits: array<bv8>
    var inUsed: int

    ghost predicate Valid()
      reads this
    {
      0 <= capacity && AlignAt8(capacity) <= bits.Length
    }

    /** The counter agrees with the bitset: the number of set ids below capacity. */
    ghost predicate Consistent()
      reads this, bits
      requires Valid()
    {
      inUsed == CountSet(bits[..], capacity)
    }

    /** Maps the file (`file` is its current contents), growing it with zero bytes to
        alignAt8(capacity) bytes when it is shorter. */
    constructor (capacity: int, file: seq<bv8>)
      requires 0 <= capacity
      ensures Valid() && fresh(bits)
      ensures this.capacity == capacity && inUsed == 0
      ensures bits.Length == if |file| < AlignAt8(capacity) then AlignAt8(capacity) else |file|
      ensures bits[..|file|] == file
      ensures forall k :: |file| <= k < bits.Length ==> bits[k] == 0
    {
      var length := if |file| < AlignAt8(capacity) then AlignAt8(capacity) else |file|;
      this.capacity := capacity;
      bits := new bv8[length](k => if 0 <= k < |file| then file[k] else 0);
      inUsed := 0;
    }

    /** `set(id, b)`: forces id's bit to b; reports whether the bit changed. */
    method Set(id: int, b: bool) returns (r: Result<bool>)
      requires Valid()
      modifies bits
      ensures r.Failure? <==> id < 0 || id >= capacity
      ensures r.Failure? ==> r.error == IllegalArgument("id : " + IntToString(id)) && bits[..] == old(bits[..])
      ensures r.Success? ==> 0 <= id < capacity && id / 8 < bits.Length
      ensures r.Success? ==> bits[..] == SetBit(old(bits[..]), id, b)
      ensures r.Success? ==> r.value == (IsSet(old(bits[..]), id) != b)
    {
      if id < 0 || id >= capacity {
        return Failure(IllegalArgument("id : " + IntToString(id)));
      }
      IndexInBuffer(id, capacity, bits.Length);
      assert Index(id) == id / 8;
      var k := Index(id);
      ghost var before := bits[..];
      var o := bits[k];
      var n := Force(o, id, b);
      SetBitReportsChange(before, id, b);
      bits[k] := n;
      assert bits[..] == SetBit(before, id, b);
      return Success(o != n);
    }

    /** `release(id)`: clears id's bit; one fewer id in use when it was set. */
    method Release(id: int) returns (r: Outcome)
      requires Valid()
      modifies this, bits
      ensures Valid()
      ensures r.Fail? <==> id < 0 || id >= capacity
      ensures r.Fail? ==> r.error == IllegalArgument("id : " + IntToString(id))
      ensures r.Fail? ==> bits[..] == old(bits[..]) && inUsed == old(inUsed)
      ensures r.Pass? ==> 0 <= id < capacity && id / 8 < bits.Length
      ensures r.Pass? ==> bits[..] == SetBit(old(bits[..]), id, false)
      ensures r.Pass? ==> inUsed == old(inUsed) - if IsSet(old(bits[..]), id) then 1 else 0
      ensures old(Consistent()) ==> Consistent()
    {
      var changed := Set(id, false);
      if changed.Failure? {
        return Fail(changed.error);
      }
      if changed.value {
        inUsed := inUsed - 1;
      }
      CountSetAfterSetBit(old(bits[..]), capacity, id, false);
      return Pass;
    }

    /** `acquire(id)`: sets id's bit; one more id in use when it was clear. */
    method AcquireId(id: int) returns (r: Outcome)
      requires Valid()
      modifies this, bits
      ensures Valid()
      ensures r.Fail? <==> id < 0 || id >= capacity
      ensures r.Fail? ==> r.error == IllegalArgument("id : " + IntToString(id))
      ensures r.Fail? ==> bits[..] == old(bits[..]) && inUsed == old(inUsed)
      ensures r.Pass? ==> 0 <= id < capacity && id / 8 < bits.Length
      ensures r.Pass? ==> bits[..] == SetBit(old(bits[..]), id, true)
      ensures r.Pass? ==> inUsed == old(inUsed) + if IsSet(old(bits[..]), id) then 0 else 1
      ensures old(Consistent()) ==> Consistent()
    {
      var changed := Set(id, true);
      if changed.Failure? {
        return Fail(changed.error);
      }
      if changed.value {
        inUsed := inUsed + 1;
      }
      CountSetAfterSetBit(old(bits[..]), capacity, id, true);
      return Pass;
    }

    /** `acquire()`: hands out some free id, or complains when the counter says all are in use.
        The source draws candidate ids from the clock until one is free; a free id is chosen
        here, and the requires states that one exists whenever the counter is short of capacity
        (otherwise the source's retry loop never ends). */
    method Acquire() returns (r: Result<int>)
      requires Valid()
      requires inUsed == capacity || HasFree(bits[..], capacity)
      modifies this, bits
      ensures Valid()
      ensures r.Failure? <==> old(inUsed) == capacity
      ensures r.Failure? ==> r.error == IllegalState("No more id for acquisition.")
      ensures r.Failure? ==> bits[..] == old(bits[..]) && inUsed == old(inUsed)
      ensures r.Success? ==> 0 <= r.value < capacity && r.value / 8 < bits.Length
      ensures r.Success? ==> !IsSet(old(bits[..]), r.value)
      ensures r.Success? ==> bits[..] == SetBit(old(bits[..]), r.value, true)
      ensures r.Success? ==> inUsed == old(inUsed) + 1
      ensures old(Consistent()) ==> Consistent()
    {
      if inUsed == capacity {
        return Failure(IllegalState("No more id for acquisition."));
      }
      // nextId() is retried until it names a free id below capacity
      var id: nat :| id < capacity && !IsSet(bits[..], id);
      IndexInBuffer(id, capacity, bits.Length);
      var cur := bits[Index(id)];
      bits[Index(id)] := cur | Bit(id);
      inUsed := inUsed + 1;
      CountSetAfterSetBit(old(bits[..]), capacity, id, true);
      return Success(id);
    }

    /** `reset()` as written: zeroes the counter first, then releases every id, so the counter
        ends at minus the number of ids that were in use. */
    method Reset()
      requires Valid()
      modifies this, bits
      ensures Valid()
      ensures capacity <= 8 * bits.Length
      ensures bits[..] == ClearBelow(old(bits[..]), capacity)
      ensures inUsed == -(CountSet(old(bits[..]), capacity) as int)
    {
      inUsed := 0;
      ReleaseAll();
    }

    /** `reset()` with the counter zeroed after the releases: the pool ends empty and consistent. */
    method ResetCorrected()
      requires Valid()
      modifies this, bits
      ensures Valid()
      ensures capacity <= 8 * bits.Length
      ensures bits[..] == ClearBelow(old(bits[..]), capacity)
      ensures inUsed == 0 && Consistent()
    {
      ReleaseAll();
      inUsed := 0;
      ClearBelowCountsZero(old(bits[..]), capacity);
    }

    /** The loop of `reset()`: releases ids 0 .. capacity - 1 in turn. */
    method ReleaseAll()
      requires Valid()
      modifies this, bits
      ensures Valid()
      ensures capacity <= 8 * bits.Length
      ensures bits[..] == ClearBelow(old(bits[..]), capacity)
      ensures inUsed == old(inUsed) - CountSet(old(bits[..]), capacity)
    {
      ghost var start := bits[..];
      var i := 0;
      while i < capacity
        invariant 0 <= i <= capacity
        invariant bits[..] == ClearBelow(start, i)
        invariant inUsed == old(inUsed) - CountSet(start, i)
      {
        ClearBelowEffect(start, i, i);
        assert i / 8 < |start|;
        assert CountSet(start, i + 1) == CountSet(start, i) + if IsSet(start, i) then 1 else 0;
        assert ClearBelow(start, i + 1) == SetBit(ClearBelow(start, i), i, false);
        var _ := Release(i);
        i := i + 1;
      }
    }
  }

  // ---------------------------------------------------------------------------
  // The pool's behaviour over whole call sequences

  /** A fresh pool over an empty file: all ids free and the counter consistent. */
  method NewEmptyPool(capacity: nat) returns (pool: IdPoolBaseOnFile)
    ensures fresh(pool) && fresh(pool.bits)
    ensures pool.Valid() && pool.capacity == capacity && pool.inUsed == 0 && pool.Consistent()
    ensures forall id: nat :: id < capacity ==> id / 8 < pool.bits.Length && !IsSet(pool.bits[..], id)
  {
    pool := new IdPoolBaseOnFile(capacity, []);
    forall id: nat | id < capacity
      ensures id / 8 < pool.bits.Length && !IsSet(pool.bits[..], id)
    {
      assert pool.bits[id / 8] == 0;
    }
    NoneSetCountsZero(pool.bits[..], capacity);
  }

  /** Taking every id one by one with acquire(id) and then asking for another is refused. */
  method NoMoreId(capacity: nat) returns (r: Result<int>)
    ensures r == Failure(IllegalState("No more id for acquisition."))
  {
    var pool := NewEmptyPool(capacity);
    var i := 0;
    while i < capacity
      invariant 0 <= i <= capacity
      invariant pool.Valid() && pool.Consistent() && pool.inUsed == i
      invariant forall id: nat :: i <= id < capacity ==> id / 8 < pool.bits.Length && !IsSet(pool.bits[..], id)
    {
      ghost var before := pool.bits[..];
      var _ := pool.AcquireId(i);
      forall id: nat | i + 1 <= id < capacity
        ensures id / 8 < pool.bits.Length && !IsSet(pool.bits[..], id)
      {
        SetBitEffect(before, i, true, id);
      }
      i := i + 1;
    }
    r := pool.Acquire();
  }

  /** `capacity` successive acquire() calls on an empty pool hand out distinct ids in range. */
  method AcquireEvery(capacity: nat) returns (ids: seq<int>)
    ensures |ids| == capacity
    ensures forall k :: 0 <= k < |ids| ==> 0 <= ids[k] < capacity
    ensures forall k, l :: 0 <= k < l < |ids| ==> ids[k] != ids[l]
  {
    var pool := NewEmptyPool(capacity);
    ids := [];
    while |ids| < capacity
      invariant pool.Valid() && pool.Consistent() && pool.inUsed == |ids| <= capacity
      invariant forall k :: 0 <= k < |ids| ==> 0 <= ids[k] < capacity && ids[k] / 8 < pool.bits.Length
      invariant forall k :: 0 <= k < |ids| ==> IsSet(pool.bits[..], ids[k])
      invariant forall k, l :: 0 <= k < l < |ids| ==> ids[k] != ids[l]
    {
      FreeIdExists(pool.bits[..], capacity);
      ghost var before := pool.bits[..];
      var r := pool.Acquire();
      forall k | 0 <= k < |ids|
        ensures IsSet(pool.bits[..], ids[k])
      {
        SetBitEffect(before, r.value, true, ids[k]);
      }
      SetBitEffect(before, r.value, true, r.value);
      ids := ids + [r.value];
    }
  }

  /** After reset() as written, a pool refilled by acquire() has every id taken while its
      counter is still below capacity: the next acquire() neither throws nor finds an id. */
  method ResetBreaksExhaustionGuard() returns (inUsed: int, capacity: int, free: bool)
    ensures capacity == 1 && inUsed == 0 && !free
  {
    var pool := NewEmptyPool(1);
    var _ := pool.AcquireId(0);
    ghost var held := pool.bits[..];
    SetBitEffect(held, 0, true, 0);
    pool.Reset();
    ClearBelowEffect(held, 1, 0);
    var _ := pool.Acquire();
    inUsed, capacity := pool.inUsed, pool.capacity;
    free := !IsSet(pool.bits[..], 0);
  }

  /** With the corrected reset() the same sequence ends with the guard intact: the next
      acquire() throws IllegalStateException. */
  method ResetCorrectedKeepsExhaustionGuard() returns (r: Result<int>)
    ensures r == Failure(IllegalState("No more id for acquisition."))
  {
    var pool := NewEmptyPool(1);
    var _ := pool.AcquireId(0);
    pool.ResetCorrected();
    var _ := pool.Acquire();
    r := pool.Acquire();
  }
}
