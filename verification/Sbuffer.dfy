/** The growing output buffer, with size_t arithmetic written out. */
module Sbuffer {
  import opened Bytes

  const INIT_SIZE: nat := 8192

  /** `n * 2` in a size_t. */
  function Times2(n: nat): nat
  {
    2 * n % TWO_64
  }

  /** The doubling loop: when doubling wraps, it settles for exactly what is needed. */
  function Doubled(n: nat, need: nat): nat
    requires n < TWO_64
    decreases TWO_64 - n
  {
    if n >= need then n
    else if Times2(n) <= n then need
    else Doubled(Times2(n), need)
  }

  /** The capacity after making room for `len` more bytes; `size + len` is a size_t sum. */
  function NewAlloc(alloc: nat, size: nat, len: nat): nat
    requires size <= alloc < TWO_64 && len < TWO_64
  {
    if alloc - size < len then
      Doubled(if alloc != 0 then Times2(alloc) else INIT_SIZE, (size + len) % TWO_64)
    else alloc
  }

  /** One turn of the loop. */
  lemma DoubledStep(n: nat, need: nat)
    requires n < TWO_64
    ensures Times2(n) < TWO_64
    ensures n >= need ==> Doubled(n, need) == n
    ensures n < need ==> Doubled(n, need) == if Times2(n) <= n then need else Doubled(Times2(n), need)
  {
  }

  lemma {:induction false} DoubledBounds(n: nat, need: nat)
    requires n < TWO_64 && need < TWO_64
    ensures need <= Doubled(n, need) < TWO_64
    ensures n < need ==> Doubled(n, need) < 2 * need
    ensures n >= need ==> Doubled(n, need) == n
    ensures need <= TWO_63 && 1 <= n ==> n <= Doubled(n, need)
    decreases TWO_64 - n
  {
    if n < need && Times2(n) > n {
      DoubledBounds(Times2(n), need);
    }
  }

  lemma Times2Wraps(n: nat)
    requires n < TWO_64
    ensures Times2(n) == if n < TWO_63 then 2 * n else 2 * n - TWO_64
  {
  }

  lemma RoomLeft(alloc: nat, size: nat, len: nat)
    requires size + len <= alloc < TWO_64
    ensures NewAlloc(alloc, size, len) == alloc
  {
  }

  /** Room is made for a total that is a size_t. */
  lemma RoomMade(alloc: nat, size: nat, len: nat)
    requires size <= alloc < size + len < TWO_64
    ensures var made := NewAlloc(alloc, size, len);
            && size + len <= made < TWO_64
            && (made <= INIT_SIZE || made <= 2 * (size + len))
            && (size + len <= TWO_63 ==> made >= 2 * alloc)
  {
    hide Doubled, Times2;
    Times2Wraps(alloc);
    Remainder(size + len, TWO_64, 0, size + len);
    DoubledBounds(if alloc != 0 then Times2(alloc) else INIT_SIZE, size + len);
  }

  /** Room is made for what is left of a total that is not. */
  lemma TotalWraps(alloc: nat, size: nat, len: nat)
    requires size <= alloc < TWO_64 <= size + len && len < TWO_64
    ensures NewAlloc(alloc, size, len) < TWO_64
  {
    hide Doubled, Times2;
    Times2Wraps(alloc);
    Remainder(size + len, TWO_64, 1, size + len - TWO_64);
    DoubledBounds(if alloc != 0 then Times2(alloc) else INIT_SIZE, size + len - TWO_64);
  }

  /**
   * The new capacity holds the old contents and the new bytes exactly when their total is a
   * size_t at all, whether or not doubling wraps on the way. In that case it exceeds twice that
   * total only to reach the initial 8192 bytes.
   */
  lemma GrowthExactly(alloc: nat, size: nat, len: nat)
    requires size <= alloc < TWO_64 && len < TWO_64
    ensures NewAlloc(alloc, size, len) < TWO_64
    ensures NewAlloc(alloc, size, len) >= size + len <==> size + len < TWO_64
    ensures size + len < TWO_64 && NewAlloc(alloc, size, len) != alloc ==>
              NewAlloc(alloc, size, len) <= INIT_SIZE || NewAlloc(alloc, size, len) <= 2 * (size + len)
    ensures size + len <= TWO_63 && NewAlloc(alloc, size, len) != alloc ==> NewAlloc(alloc, size, len) >= 2 * alloc
  {
    hide NewAlloc;
    if size + len <= alloc {
      RoomLeft(alloc, size, len);
    } else if size + len < TWO_64 {
      RoomMade(alloc, size, len);
    } else {
      TotalWraps(alloc, size, len);
    }
  }

  /** The buffer as a value; `moved` counts the bytes carried over by reallocations so far. */
  datatype Buffer = Buffer(contents: seq<byte>, alloc: nat, moved: nat)

  const EMPTY: Buffer := Buffer([], 0, 0)

  predicate ValidBuffer(b: Buffer)
  {
    |b.contents| <= b.alloc < TWO_64
  }

  function AfterWrite(b: Buffer, bytes: seq<byte>): Buffer
    requires ValidBuffer(b) && |bytes| < TWO_64
  {
    var alloc := NewAlloc(b.alloc, |b.contents|, |bytes|);
    Buffer(b.contents + bytes, alloc, if alloc != b.alloc then b.moved + b.alloc else b.moved)
  }

  function Concat(writes: seq<seq<byte>>): seq<byte>
  {
    if writes == [] then [] else Concat(writes[..|writes| - 1]) + writes[|writes| - 1]
  }

  /** A run of writes from the empty buffer. */
  function AfterWrites(writes: seq<seq<byte>>): (b: Buffer)
    requires |Concat(writes)| < TWO_64
    ensures ValidBuffer(b) && b.contents == Concat(writes)
  {
    if writes == [] then EMPTY
    else
      var last := writes[|writes| - 1];
      var b := AfterWrites(writes[..|writes| - 1]);
      GrowthExactly(b.alloc, |b.contents|, |last|);
      AfterWrite(b, last)
  }

  /**
   * Amortised growth, over every run of writes: the contents are the concatenation of the writes,
   * the capacity is at most twice the size (or 8192), and all the reallocations together have
   * carried over no more bytes than the final capacity, as long as doubling cannot wrap.
   */
  lemma {:induction false} AmortisedGrowth(writes: seq<seq<byte>>)
    requires |Concat(writes)| < TWO_64
    ensures var b := AfterWrites(writes);
            && b.contents == Concat(writes)
            && (b.alloc <= INIT_SIZE || b.alloc <= 2 * |b.contents|)
            && (|b.contents| <= TWO_63 ==> b.moved <= b.alloc)
  {
    if writes != [] {
      var init, last := writes[..|writes| - 1], writes[|writes| - 1];
      AmortisedGrowth(init);
      var b := AfterWrites(init);
      GrowthExactly(b.alloc, |b.contents|, |last|);
    }
  }

  /** The least of `n`, `2 * n`, `4 * n` and so on that is at least `total`. */
  function Least(n: nat, total: nat): (r: nat)
    requires n >= 1
    ensures r >= total && r >= n
    ensures r > n ==> r < 2 * total
    decreases total - n
  {
    if n >= total then n else Least(2 * n, total)
  }

  /** Nothing is allocated for nothing; otherwise 8192 bytes, doubled until they suffice. */
  function Capacity(total: nat): nat
  {
    if total == 0 then 0 else Least(8192, total)
  }

  lemma {:induction false} DoubledIsLeast(n: nat, need: nat)
    requires 1 <= n < TWO_64 && need <= TWO_63
    ensures Doubled(n, need) == Least(n, need)
    decreases TWO_64 - n
  {
    if n < need {
      Times2Wraps(n);
      DoubledIsLeast(2 * n, need);
    }
  }

  /** Doubling on from where a smaller total stopped is doubling from the start. */
  lemma {:induction false} LeastGoesOn(n: nat, size: nat, total: nat)
    requires n >= 1 && size <= total
    ensures var r := Least(n, size); Least(n, total) == if total <= r then r else Least(2 * r, total)
    decreases size - n
  {
    if n < size {
      LeastGoesOn(2 * n, size, total);
    }
  }

  lemma CapacityStep(size: nat, len: nat)
    requires size + len <= TWO_63 && size <= Capacity(size) < TWO_64
    ensures NewAlloc(Capacity(size), size, len) == Capacity(size + len)
  {
    hide Times2, Doubled, Least;
    var (alloc, total) := (Capacity(size), size + len);
    Remainder(total, TWO_64, 0, total);
    LeastGoesOn(8192, size, total);
    Times2Wraps(alloc);
    DoubledIsLeast(8192, total);
    if 0 < alloc < TWO_63 {
      DoubledIsLeast(2 * alloc, total);
    }
  }

  /**
   * The capacity exactly, over every run of writes of up to 2^63 bytes in all: it depends on their
   * total alone, however they are cut.
   */
  lemma {:induction false} CapacityExactly(writes: seq<seq<byte>>)
    requires |Concat(writes)| <= TWO_63
    ensures AfterWrites(writes).alloc == Capacity(|Concat(writes)|)
    decreases |writes|
  {
    hide NewAlloc, Capacity;
    if writes == [] {
      NoCapacity();
    } else {
      var init, last := writes[..|writes| - 1], writes[|writes| - 1];
      CapacityExactly(init);
      CapacityStep(|Concat(init)|, |last|);
    }
  }

  /** What one more write carries over: the old capacity if the total exceeds it, and else nothing. */
  lemma CarriedExactly(writes: seq<seq<byte>>, last: seq<byte>)
    requires |Concat(writes)| + |last| <= TWO_63
    ensures Concat(writes + [last]) == Concat(writes) + last
    ensures var size := |Concat(writes)|;
            AfterWrites(writes + [last]).moved ==
            AfterWrites(writes).moved + if size + |last| > Capacity(size) then Capacity(size) else 0
  {
    assert (writes + [last])[..|writes|] == writes;
    hide Capacity, Concat;
    CapacityExactly(writes);
    GrowthExactly(AfterWrites(writes).alloc, |Concat(writes)|, |last|);
  }

  lemma NoCapacity()
    ensures Capacity(0) == 0
  {
  }

  /** Up to 8192 bytes take 8192, the next byte takes twice that. */
  lemma FirstCapacities(total: nat)
    ensures 1 <= total <= 8192 ==> Capacity(total) == 8192
    ensures 8192 < total <= 16384 ==> Capacity(total) == 16384
  {
    assert 8192 < total ==> Least(8192, total) == Least(16384, total);
  }

  class Sbuffer {
    var size: nat
    var data: array?<byte>
    var alloc: nat
    ghost var moved: nat

    ghost predicate Valid()
      reads this
    {
      && size <= alloc < TWO_64
      && (if data == null then alloc == 0 else data.Length == alloc)
    }

    ghost function Model(): (b: Buffer)
      requires Valid()
      reads this, data
      ensures ValidBuffer(b)
    {
      Buffer(if data == null then [] else data[..size], alloc, moved)
    }

    /** `msgpack_sbuffer_init`. */
    constructor ()
      ensures Valid() && Model() == EMPTY
    {
      size, data, alloc := 0, null, 0;
      moved := 0;
    }

    /** The growth loop of `msgpack_sbuffer_write`. */
    method Grow(len: nat) returns (nsize: nat)
      requires Valid() && alloc - size < len && size + len < TWO_64
      ensures nsize == NewAlloc(alloc, size, len)
    {
      hide Doubled, Times2;
      Remainder(size + len, TWO_64, 0, size + len);
      if alloc != 0 { DoubledStep(alloc, 0); }
      nsize := if alloc != 0 then Times2(alloc) else INIT_SIZE;
      ghost var start := nsize;
      while nsize < size + len
        invariant nsize < TWO_64
        invariant Doubled(nsize, size + len) == Doubled(start, size + len)
        decreases TWO_64 - nsize
      {
        DoubledStep(nsize, size + len);
        var tmpNsize := Times2(nsize);
        if tmpNsize <= nsize {
          nsize := size + len;
          break;
        }
        nsize := tmpNsize;
      }
      DoubledStep(nsize, size + len);
    }

    /** The reallocation of `msgpack_sbuffer_write`; `granted` is the allocator's answer. */
    method Reserve(len: nat, granted: bool) returns (ok: bool)
      requires Valid() && size + len < TWO_64
      modifies this
      ensures Valid() && (data == old(data) || fresh(data))
      ensures ok <==> granted || old(alloc - size) >= len
      ensures !ok ==> unchanged(this)
      ensures ok ==>
                && size == old(size) && alloc == NewAlloc(old(alloc), size, len) >= size + len
                && Model().contents == old(Model().contents)
                && moved == if alloc != old(alloc) then old(moved) + old(alloc) else old(moved)
    {
      hide NewAlloc;
      GrowthExactly(alloc, size, len);
      if alloc - size >= len {
        RoomLeft(alloc, size, len);
        return true;
      }
      ghost var contents := Model().contents;
      var nsize := Grow(len);
      if !granted { return false; }
      var tmp := new byte[nsize];
      if data != null {
        CopyInto(tmp, 0, data, size);
        assert tmp[..size] == tmp[0..size] == contents;
      }
      moved := moved + alloc;
      data := tmp;
      alloc := nsize;
      ok := true;
    }

    /**
     * `msgpack_sbuffer_write`: a null buffer writes nothing, and a refused reallocation leaves
     * everything as it was.
     */
    method Write(buf: array?<byte>, len: nat, granted: bool) returns (ret: int)
      requires Valid() && (buf == null ==> len == 0) && (buf != null ==> len <= buf.Length)
      requires size + len < TWO_64 && (buf != null ==> buf != data)
      modifies this, data
      ensures Valid() && (data == old(data) || fresh(data))
      ensures ret == if granted || old(alloc - size) >= len then 0 else -1
      ensures var bytes := if buf == null then [] else old(buf[..len]);
              Model() == if ret == 0 then AfterWrite(old(Model()), bytes) else old(Model())
    {
      hide NewAlloc;
      if buf == null {
        RoomLeft(alloc, size, 0);
        assert Model().contents + [] == Model().contents;
        return 0;
      }
      ghost var contents := Model().contents;
      var ok := Reserve(len, granted);
      if !ok { return -1; }
      if data != null {
        CopyInto(data, size, buf, len);
        assert data[..size] == contents;
        assert data[..size + len] == data[..size] + data[size..size + len];
      } else {
        assert buf[..len] == [];
      }
      size := size + len;
      assert Model().contents == contents + buf[..len];
      ret := 0;
    }

    /** memcpy between distinct arrays. */
    static method CopyInto(to: array<byte>, at: nat, from: array<byte>, len: nat)
      requires to != from && at + len <= to.Length && len <= from.Length
      modifies to
      ensures to[..at] == old(to[..at]) && to[at..at + len] == from[..len] && to[at + len..] == old(to[at + len..])
    {
      forall i | 0 <= i < len {
        to[at + i] := from[i];
      }
    }

    /** `msgpack_sbuffer_release`: hands the bytes out and is empty again. */
    method Release() returns (bytes: array?<byte>)
      requires Valid()
      modifies this
      ensures Valid() && Model().contents == [] && alloc == 0 && bytes == old(data)
    {
      bytes := data;
      size, data, alloc := 0, null, 0;
      moved := 0;
    }

    /** `msgpack_sbuffer_clear`: forgets the contents and keeps the capacity. */
    method Clear()
      requires Valid()
      modifies this
      ensures Valid() && Model() == old(Model()).(contents := [])
    {
      size := 0;
    }
  }
}
