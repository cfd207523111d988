/** User buffers in the kernel (os7-ref/src/mm/page_table.rs): a range of virtual
    addresses as a list of slices of physical pages. */
module UserBuffers {
  import opened Words
  import opened Sv39
  import opened FrameAllocators
  import opened PageTables

  /** The bytes `lo` to `hi` of page `ppn`. */
  datatype Slice = Slice(ppn: Ppn, lo: nat, hi: nat) {
    predicate NonEmpty() {
      lo < hi <= 4096
    }

    function Len(): nat {
      if lo < hi then hi - lo else 0
    }

    /** Their physical addresses, in order. */
    function Bytes(): (s: seq<nat>)
      ensures |s| == Len()
    {
      seq(Len(), (i: nat) => ppn * 4096 + lo + i)
    }
  }

  /** The physical address of one virtual address, by `translate_va`. */
  function PhysAddr(mem: Memory, root: nat, va: nat): Option<nat> {
    var t := TableAt(mem, root, va / 4096, 2);
    if t.Some? then Some(PpnOf(Pte(mem, t.value, Idx(va / 4096, 2))) * 4096 + va % 4096) else None
  }

  function Addr(mem: Memory, root: nat, va: nat): nat {
    var pa := PhysAddr(mem, root, va);
    if pa.Some? then pa.value else 0
  }

  /** The physical addresses of `n` virtual addresses from `va` on. */
  function Addresses(mem: Memory, root: nat, va: nat, n: nat): (s: seq<nat>)
    ensures |s| == n
    ensures forall i {:trigger s[i]} :: 0 <= i < n ==> s[i] == Addr(mem, root, va + i)
  {
    if n == 0 then [] else Addresses(mem, root, va, n - 1) + [Addr(mem, root, va + n - 1)]
  }

  function Flatten(v: seq<Slice>): seq<nat> {
    if v == [] then [] else Flatten(v[..|v| - 1]) + v[|v| - 1].Bytes()
  }

  /** One page's worth of addresses is one slice. */
  lemma SliceAddresses(mem: Memory, root: nat, va: nat, n: nat, s: Slice)
    requires 0 < n && va % 4096 + n <= 4096
    requires TableAt(mem, root, va / 4096, 2).Some?
    requires s == Slice(PpnOf(Pte(mem, TableAt(mem, root, va / 4096, 2).value, Idx(va / 4096, 2))), va % 4096, va % 4096 + n)
    ensures s.Bytes() == Addresses(mem, root, va, n)
  {
    hide TableAt, Pte, PpnOf, Idx;
    forall i | 0 <= i < n ensures s.Bytes()[i] == Addresses(mem, root, va, n)[i] {
      assert (va + i) / 4096 == va / 4096 && (va + i) % 4096 == va % 4096 + i;
    }
  }

  lemma AddressesSplit(mem: Memory, root: nat, va: nat, m: nat, n: nat)
    ensures Addresses(mem, root, va, m + n) == Addresses(mem, root, va, m) + Addresses(mem, root, va + m, n)
  {
    hide PhysAddr;
  }

  lemma FlattenSnoc(v: seq<Slice>, s: Slice)
    ensures Flatten(v + [s]) == Flatten(v) + s.Bytes()
  {
    assert (v + [s])[..|v|] == v;
  }

  /** Where the slice from `start` on ends: at the end of its page or of the range. */
  lemma PageEnd(start: nat, end: nat)
    requires start < end
    ensures var next := (start / 4096 + 1) * 4096;
      var stop := if next < end then next else end;
      && start < stop <= end && start % 4096 + (stop - start) <= 4096
      && start % 4096 + (stop - start) == (if stop % 4096 == 0 then 4096 else stop % 4096)
  {
  }

  /** The slices of a mapped range that ends below the top page: none is empty, and
      together they are the physical bytes of the range, in order and once each. */
  method TranslatedByteBuffer(pt: PageTable, ptr: nat, len: nat, a: StackFrameAllocator) returns (v: seq<Slice>)
    requires ptr + len <= 0x1_0000_0000_0000_0000 - 4096
    requires forall i :: ptr <= i < ptr + len ==> PhysAddr(a.mem, pt.root, i).Some?
    ensures forall k :: 0 <= k < |v| ==> v[k].NonEmpty()
    ensures Flatten(v) == Addresses(a.mem, pt.root, ptr, len)
  {
    hide Pte, Idx, PpnOf, TableAt, Addresses;
    var start, end := ptr, ptr + len;
    v := [];
    while start < end
      invariant ptr <= start <= end
      invariant forall k :: 0 <= k < |v| ==> v[k].NonEmpty()
      invariant Flatten(v) == Addresses(a.mem, pt.root, ptr, start - ptr)
    {
      var vpn := start / 4096;
      assert PhysAddr(a.mem, pt.root, start).Some?;
      var pte := pt.Translate(vpn, a);
      var ppn := PpnOf(pte.value);
      vpn := vpn + 1;
      var endVa := vpn * 4096;
      endVa := if endVa < end then endVa else end;
      var s := if endVa % 4096 == 0 then Slice(ppn, start % 4096, 4096)
               else Slice(ppn, start % 4096, endVa % 4096);
      PageEnd(start, end);
      SliceAddresses(a.mem, pt.root, start, endVa - start, s);
      AddressesSplit(a.mem, pt.root, ptr, start - ptr, endVa - start);
      FlattenSnoc(v, s);
      v := v + [s];
      start := endVa;
    }
  }

  /** The length of a buffer. */
  method Length(buffers: seq<Slice>) returns (total: nat)
    ensures total == |Flatten(buffers)|
  {
    total := 0;
    var i := 0;
    while i < |buffers|
      invariant 0 <= i <= |buffers| && total == |Flatten(buffers[..i])|
    {
      assert buffers[..i + 1] == buffers[..i] + [buffers[i]];
      FlattenSnoc(buffers[..i], buffers[i]);
      total := total + buffers[i].Len();
      i := i + 1;
    }
    assert buffers[..i] == buffers;
  }

  lemma {:induction false} FlattenAt(v: seq<Slice>, k: nat, i: nat)
    requires k < |v| && i < v[k].Len()
    ensures |Flatten(v[..k])| + i < |Flatten(v)|
    ensures Flatten(v)[|Flatten(v[..k])| + i] == v[k].Bytes()[i]
  {
    var n := |v| - 1;
    if k < n {
      FlattenAt(v[..n], k, i);
      assert v[..n][..k] == v[..k];
    }
  }

  class UserBufferIterator {
    const buffers: seq<Slice>
    var currentBuffer: nat
    var currentIdx: nat

    /** The cursor is inside a slice, or past the last one. */
    ghost predicate Valid()
      reads this
    {
      && (forall k :: 0 <= k < |buffers| ==> buffers[k].NonEmpty())
      && currentBuffer <= |buffers|
      && (if currentBuffer < |buffers| then currentIdx < buffers[currentBuffer].Len() else currentIdx == 0)
    }

    /** How many bytes have been visited. */
    ghost function Visited(): nat
      requires Valid()
      reads this
    {
      |Flatten(buffers[..currentBuffer])| + currentIdx
    }

    constructor (buffers: seq<Slice>)
      requires forall k :: 0 <= k < |buffers| ==> buffers[k].NonEmpty()
      ensures Valid() && this.buffers == buffers && Visited() == 0
    {
      this.buffers := buffers;
      currentBuffer, currentIdx := 0, 0;
    }

    /** The next byte, until all have been visited. */
    method Next() returns (r: Option<nat>)
      requires Valid()
      modifies this
      ensures Valid() && old(Visited()) <= |Flatten(buffers)|
      ensures r.None? <==> old(Visited()) == |Flatten(buffers)|
      ensures r.None? ==> Visited() == old(Visited())
      ensures r.Some? ==> r.value == Flatten(buffers)[old(Visited())] && Visited() == old(Visited()) + 1
    {
      if currentBuffer >= |buffers| {
        assert buffers[..currentBuffer] == buffers;
        return None;
      }
      FlattenAt(buffers, currentBuffer, currentIdx);
      var s := buffers[currentBuffer];
      r := Some(s.ppn * 4096 + s.lo + currentIdx);
      if currentIdx + 1 == s.Len() {
        assert buffers[..currentBuffer + 1] == buffers[..currentBuffer] + [s];
        FlattenSnoc(buffers[..currentBuffer], s);
        currentIdx := 0;
        currentBuffer := currentBuffer + 1;
      } else {
        currentIdx := currentIdx + 1;
      }
    }
  }

  /** Iterating over a user buffer visits exactly the physical bytes that translating
      each address of the range gives, in order and once each. */
  method VisitRange(pt: PageTable, ptr: nat, len: nat, a: StackFrameAllocator) returns (visited: seq<nat>)
    requires ptr + len <= 0x1_0000_0000_0000_0000 - 4096
    requires forall i :: ptr <= i < ptr + len ==> PhysAddr(a.mem, pt.root, i).Some?
    ensures visited == Addresses(a.mem, pt.root, ptr, len)
  {
    hide PhysAddr;
    var v := TranslatedByteBuffer(pt, ptr, len, a);
    var it := new UserBufferIterator(v);
    visited := [];
    var r := it.Next();
    while r.Some?
      modifies it
      invariant it.Valid() && it.buffers == v
      invariant r.Some? ==> it.Visited() == |visited| + 1 && |visited| < |Flatten(v)| && r.value == Flatten(v)[|visited|]
      invariant r.None? ==> |visited| == |Flatten(v)|
      invariant |visited| <= |Flatten(v)| && visited == Flatten(v)[..|visited|]
      decreases |Flatten(v)| - |visited|
    {
      visited := visited + [r.value];
      r := it.Next();
    }
  }
}
