/** Bits of machine words. */
module Bits {
  const U64_MAX := 0xFFFF_FFFF_FFFF_FFFF

  function Pow2(n: nat): (r: nat)
    ensures r > 0
  {
    if n == 0 then 1 else 2 * Pow2(n - 1)
  }

  /** Bit `i` of `w`: what `w & (1 << i) > 0` tests. */
  predicate Bit(w: nat, i: nat) {
    if i == 0 then w % 2 == 1 else Bit(w / 2, i - 1)
  }

  /** `trailing_ones`. */
  function TrailingOnes(w: nat): nat {
    if w % 2 == 0 then 0 else 1 + TrailingOnes(w / 2)
  }

  lemma {:induction false} TrailingOnesIsLowestClear(w: nat)
    ensures !Bit(w, TrailingOnes(w))
    ensures forall i :: 0 <= i < TrailingOnes(w) ==> Bit(w, i)
  {
    if w % 2 == 1 {
      TrailingOnesIsLowestClear(w / 2);
    }
  }

  /** Only the all-ones word of `n` bits has no clear bit below `n`. */
  lemma {:induction false} TrailingOnesBound(w: nat, n: nat)
    requires w < Pow2(n)
    ensures w != Pow2(n) - 1 ==> TrailingOnes(w) < n
    ensures w == Pow2(n) - 1 ==> TrailingOnes(w) == n
  {
    if n > 0 && w % 2 == 1 {
      TrailingOnesBound(w / 2, n - 1);
    }
  }

  /** Or-ing in a clear bit is an addition, and changes that bit alone. */
  lemma {:induction false} AddBit(w: nat, p: nat, i: nat)
    requires !Bit(w, p)
    ensures Bit(w + Pow2(p), i) == (i == p || Bit(w, i))
  {
    if p > 0 {
      assert (w + Pow2(p)) / 2 == w / 2 + Pow2(p - 1);
      if i > 0 {
        AddBit(w / 2, p - 1, i - 1);
      }
    }
  }

  lemma {:induction false} AddBitBound(w: nat, p: nat, n: nat)
    requires w < Pow2(n) && p < n && !Bit(w, p)
    ensures w + Pow2(p) < Pow2(n)
  {
    assert Pow2(n) == 2 * Pow2(n - 1);
    if p > 0 {
      AddBitBound(w / 2, p - 1, n - 1);
      assert Pow2(p) == 2 * Pow2(p - 1);
    }
  }

  lemma {:induction false} BitIsThere(w: nat, p: nat)
    requires Bit(w, p)
    ensures Pow2(p) <= w
  {
    if p > 0 {
      BitIsThere(w / 2, p - 1);
    }
  }

  /** Subtracting a set bit clears it and changes nothing else. */
  lemma {:induction false} SubBit(w: nat, p: nat, i: nat)
    requires Bit(w, p) && Pow2(p) <= w
    ensures Bit(w - Pow2(p), i) == (i != p && Bit(w, i))
  {
    if p > 0 {
      BitIsThere(w / 2, p - 1);
      assert (w - Pow2(p)) / 2 == w / 2 - Pow2(p - 1);
      if i > 0 {
        SubBit(w / 2, p - 1, i - 1);
      }
    }
  }

  lemma {:induction false} BitOfZero(i: nat)
    ensures !Bit(0, i)
  {
    if i > 0 {
      BitOfZero(i - 1);
    }
  }
}

/** Bitmap blocks and the bitmap allocator (easy-fs/src/bitmap.rs): 4096 bits in
    a block, as 64 words of 64 bits. */
module Bitmaps {
  import opened Words
  import opened Bits
  import opened BlockCaches

  lemma Pow64()
    ensures Pow256(8) == U64_MAX + 1 == Pow2(64)
  {
    assert Pow256(4) == 0x1_0000_0000;
    assert Pow2(8) == 256;
    assert Pow2(16) == 0x1_0000;
    assert Pow2(24) == 0x100_0000;
    assert Pow2(32) == 0x1_0000_0000;
    assert Pow2(40) == 0x100_0000_0000;
    assert Pow2(48) == 0x1_0000_0000_0000;
    assert Pow2(56) == 0x100_0000_0000_0000;
  }

  /** Word `k` of a bitmap block viewed as `[u64; 64]`. */
  function U64At(b: Block, k: nat): nat
    requires k < 64
  {
    WordAt(b, 8 * k, 8)
  }

  predicate BlockBit(b: Block, i: nat)
    requires i < 4096
  {
    Bit(U64At(b, i / 64), i % 64)
  }

  ghost predicate OnesBelow(b: Block, n: nat)
    requires n <= 4096
  {
    forall i :: 0 <= i < n ==> BlockBit(b, i)
  }

  function FlipWord(w: nat, p: nat): nat {
    if Bit(w, p) then BitIsThere(w, p); w - Pow2(p) else w + Pow2(p)
  }

  /** The bitmap block with bit `i` inverted by the `|=` or `-=` of the source. */
  function FlipBit(b: Block, i: nat): (r: Block)
    requires i < 4096
  {
    var w := U64At(b, i / 64);
    SetWordAt(b, 8 * (i / 64), 8, FlipWord(w, i % 64))
  }

  lemma FlippedBit(b: Block, i: nat, j: nat)
    requires i < 4096 && j < 4096
    ensures BlockBit(FlipBit(b, i), j) == if j == i then !BlockBit(b, i) else BlockBit(b, j)
  {
    var k, m := i / 64, i % 64;
    var w := U64At(b, k);
    Pow64();
    if j / 64 != k {
      SetThenGetElsewhere(b, 8 * k, 8, FlipWord(w, m), 8 * (j / 64), 8);
    } else if Bit(w, m) {
      BitIsThere(w, m);
      SetThenGet(b, 8 * k, 8, w - Pow2(m));
      SubBit(w, m, j % 64);
    } else {
      AddBitBound(w, m, 64);
      SetThenGet(b, 8 * k, 8, w + Pow2(m));
      AddBit(w, m, j % 64);
    }
  }

  lemma ZeroBlockBit(i: nat)
    requires i < 4096
    ensures !BlockBit(ZERO_BLOCK, i)
  {
    LeNatOfZeros(ZERO_BLOCK[8 * (i / 64)..8 * (i / 64) + 8]);
    BitOfZero(i % 64);
  }

  lemma OnesBelowNext(b: Block, k: nat, t: nat)
    requires k < 64 && t <= 64 && OnesBelow(b, 64 * k)
    requires forall i :: 0 <= i < t ==> Bit(U64At(b, k), i)
    ensures OnesBelow(b, 64 * k + t)
  {
    forall i | 64 * k <= i < 64 * k + t ensures BlockBit(b, i) {
      assert i / 64 == k && i % 64 == i - 64 * k;
    }
  }

  /** The lowest clear bit of one bitmap block: the first word that is not all
      ones, then its trailing ones. */
  method FindClear(b: Block) returns (r: Option<nat>)
    ensures r.Some? ==> r.value < 4096 && !BlockBit(b, r.value)
    ensures r.Some? ==> OnesBelow(b, r.value)
    ensures r.None? ==> OnesBelow(b, 4096)
  {
    Pow64();
    var k := 0;
    while k < 64
      invariant 0 <= k <= 64
      invariant OnesBelow(b, 64 * k)
    {
      var w := U64At(b, k);
      TrailingOnesIsLowestClear(w);
      TrailingOnesBound(w, 64);
      OnesBelowNext(b, k, TrailingOnes(w));
      if w != U64_MAX {
        var i := 64 * k + TrailingOnes(w);
        assert i / 64 == k && i % 64 == TrailingOnes(w);
        return Some(i);
      }
      k := k + 1;
    }
    r := None;
  }

  datatype Bitmap = Bitmap(start: nat, blocks: nat) {
    function Maximum(): nat {
      blocks * 4096
    }

    ghost predicate Fits(disk: seq<Block>) {
      start + blocks <= |disk|
    }

    /** Bit `k` of the whole bitmap, by the decomposition into block, word and bit. */
    ghost predicate IsSet(disk: seq<Block>, k: nat)
      requires Fits(disk) && k < Maximum()
    {
      BlockBit(disk[start + k / 4096], k % 4096)
    }

    ghost predicate FullBelow(disk: seq<Block>, n: nat)
      requires Fits(disk) && n <= Maximum()
    {
      forall j :: 0 <= j < n ==> IsSet(disk, j)
    }

    lemma FullBelowNext(disk: seq<Block>, id: nat, n: nat)
      requires Fits(disk) && id < blocks && n <= 4096
      requires FullBelow(disk, id * 4096)
      requires OnesBelow(disk[start + id], n)
      ensures FullBelow(disk, id * 4096 + n)
    {
      forall j | 0 <= j < id * 4096 + n ensures IsSet(disk, j) {
        if id * 4096 <= j {
          assert j / 4096 == id;
        }
      }
    }

    /** Set the lowest clear bit of bitmap block `id`, if there is one. */
    method AllocIn(cache: BlockCacheManager, id: nat) returns (r: Option<nat>)
      requires cache.Valid() && Fits(cache.view) && |cache.pins| < MAX_PINS
      requires id < blocks && start + id !in cache.pins
      modifies cache
      ensures cache.Valid() && cache.pins == old(cache.pins)
      ensures r.None? ==> cache.view == old(cache.view)
      ensures r.None? ==> OnesBelow(old(cache.view)[start + id], 4096)
      ensures r.Some? ==> r.value < 4096 && !BlockBit(old(cache.view)[start + id], r.value)
      ensures r.Some? ==> OnesBelow(old(cache.view)[start + id], r.value)
      ensures r.Some? ==>
        cache.view == old(cache.view)[start + id := FlipBit(old(cache.view)[start + id], r.value)]
    {
      hide Queued, Counted, Coherent, BlockBit, FlipBit;
      cache.Acquire(start + id);
      var b := cache.Read(start + id);
      r := FindClear(b);
      if r.Some? {
        cache.Modify(start + id, FlipBit(b, r.value));
      }
      cache.DropHandle(start + id);
    }

    /** Set the lowest clear bit of the bitmap, if there is one. */
    method Alloc(cache: BlockCacheManager) returns (r: Option<nat>)
      requires cache.Valid() && Fits(cache.view) && |cache.pins| < MAX_PINS
      requires forall id :: start <= id < start + blocks ==> id !in cache.pins
      modifies cache
      ensures cache.Valid() && cache.pins == old(cache.pins)
      ensures r.None? ==> cache.view == old(cache.view) && FullBelow(cache.view, Maximum())
      ensures r.Some? ==> r.value < Maximum() && !IsSet(old(cache.view), r.value)
      ensures r.Some? ==> FullBelow(old(cache.view), r.value)
      ensures r.Some? ==> Toggled(old(cache.view), cache.view, r.value)
    {
      var id := 0;
      while id < blocks
        invariant 0 <= id <= blocks
        invariant cache.Valid() && cache.pins == old(cache.pins) && cache.view == old(cache.view)
        invariant FullBelow(cache.view, id * 4096)
      {
        var pos := AllocIn(cache, id);
        if pos.Some? {
          var k := id * 4096 + pos.value;
          assert k / 4096 == id && k % 4096 == pos.value;
          FullBelowNext(old(cache.view), id, pos.value);
          ToggledBy(old(cache.view), k);
          return Some(k);
        }
        FullBelowNext(cache.view, id, 4096);
        id := id + 1;
      }
      r := None;
    }

    /** Clear bit `k`, which must be set (the source asserts it). */
    method Dealloc(cache: BlockCacheManager, k: nat)
      requires cache.Valid() && Fits(cache.view) && |cache.pins| < MAX_PINS
      requires forall id :: start <= id < start + blocks ==> id !in cache.pins
      requires k < Maximum() && IsSet(cache.view, k)
      modifies cache
      ensures cache.Valid() && cache.pins == old(cache.pins) && Fits(cache.view)
      ensures Toggled(old(cache.view), cache.view, k)
    {
      hide Queued, Counted, Coherent, BlockBit, FlipBit, Toggled;
      var id := start + k / 4096;
      ToggledBy(cache.view, k);
      cache.Acquire(id);
      var b := cache.Read(id);
      cache.Modify(id, FlipBit(b, k % 4096));
      cache.DropHandle(id);
    }

    /** `disk'` is `disk` with bit `k` inverted: no other bit, and no block
        outside the bitmap, differs. */
    ghost predicate Toggled(disk: seq<Block>, disk': seq<Block>, k: nat)
      requires Fits(disk) && k < Maximum()
    {
      && |disk'| == |disk|
      && (forall j :: 0 <= j < Maximum() ==>
            IsSet(disk', j) == if j == k then !IsSet(disk, k) else IsSet(disk, j))
      && (forall id :: 0 <= id < |disk| && !(start <= id < start + blocks) ==> disk'[id] == disk[id])
    }

    lemma ToggledBy(disk: seq<Block>, k: nat)
      requires Fits(disk) && k < Maximum()
      ensures var id := start + k / 4096;
              Toggled(disk, disk[id := FlipBit(disk[id], k % 4096)], k)
    {
      var id := start + k / 4096;
      var disk' := disk[id := FlipBit(disk[id], k % 4096)];
      hide FlipBit, BlockBit;
      forall j | 0 <= j < Maximum()
        ensures IsSet(disk', j) == if j == k then !IsSet(disk, k) else IsSet(disk, j)
      {
        if j / 4096 == k / 4096 {
          FlippedBit(disk[id], k % 4096, j % 4096);
        }
      }
    }
  }
}
