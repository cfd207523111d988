/** Bytes, and little-endian words stored inside byte sequences.

    The kernel and the file system view raw blocks and pages as arrays of
    fixed-width integers by casting pointers on a little-endian machine.  Every
    such cast is a read or write of a word at a byte offset. */
module Words {
  type byte = b: int | 0 <= b < 256

  datatype Option<+T> = None | Some(value: T)

  function Pow256(n: nat): (r: nat)
    ensures r > 0
  {
    if n == 0 then 1 else 256 * Pow256(n - 1)
  }

  /** The number whose little-endian digits are `s`. */
  function LeNat(s: seq<byte>): (w: nat)
    ensures w < Pow256(|s|)
  {
    if s == [] then 0 else s[0] + 256 * LeNat(s[1..])
  }

  /** The low `n` little-endian digits of `w`. */
  function LeBytes(n: nat, w: nat): (s: seq<byte>)
    ensures |s| == n
  {
    if n == 0 then [] else [w % 256] + LeBytes(n - 1, w / 256)
  }

  lemma {:induction false} LeNatOfLeBytes(n: nat, w: nat)
    requires w < Pow256(n)
    ensures LeNat(LeBytes(n, w)) == w
  {
    if n > 0 {
      LeNatOfLeBytes(n - 1, w / 256);
      assert LeBytes(n, w)[1..] == LeBytes(n - 1, w / 256);
    }
  }

  function Zeros(n: nat): (s: seq<byte>)
    ensures |s| == n
  {
    seq(n, _ => 0)
  }

  /** Four bytes written out. */
  lemma LeNat4(s: seq<byte>)
    requires |s| == 4
    ensures LeNat(s) == s[0] as int + 0x100 * s[1] as int + 0x1_0000 * s[2] as int + 0x100_0000 * s[3] as int
  {
    var r1, r2, r3 := s[1..], s[2..], s[3..];
    assert r1[1..] == r2 && r2[1..] == r3 && r3[1..] == [];
    assert LeNat(r3) == s[3] && LeNat(r2) == s[2] + 256 * LeNat(r3) && LeNat(r1) == s[1] + 256 * LeNat(r2);
  }

  /** The low `k` bytes and the others. */
  lemma {:induction false} LeNatSplit(s: seq<byte>, k: nat)
    requires k <= |s|
    ensures LeNat(s) == LeNat(s[..k]) + Pow256(k) * LeNat(s[k..])
  {
    if k == 0 {
      assert s[..0] == [] && s[0..] == s;
    } else {
      var t := s[1..];
      LeNatSplit(t, k - 1);
      assert t[..k - 1] == s[..k][1..] && t[k - 1..] == s[k..];
      assert LeNat(s) == s[0] + 256 * LeNat(t) && LeNat(s[..k]) == s[0] + 256 * LeNat(t[..k - 1]);
      assert Pow256(k) == 256 * Pow256(k - 1);
      hide LeNat, Pow256;
      Regroup(LeNat(t[..k - 1]), Pow256(k - 1), LeNat(s[k..]));
    }
  }

  lemma Regroup(a: nat, p: nat, x: nat)
    ensures 256 * (a + p * x) == 256 * a + 256 * p * x
  {
  }

  lemma {:induction false} LeNatOfZeros(s: seq<byte>)
    requires forall i :: 0 <= i < |s| ==> s[i] == 0
    ensures LeNat(s) == 0
  {
    if s != [] {
      LeNatOfZeros(s[1..]);
    }
  }

  /** The `n`-byte word at byte offset `off`. */
  function WordAt(s: seq<byte>, off: nat, n: nat): (w: nat)
    requires off + n <= |s|
    ensures w < Pow256(n)
  {
    LeNat(s[off..off + n])
  }

  /** `s` with `part` copied over the bytes from `off`. */
  function Splice(s: seq<byte>, off: nat, part: seq<byte>): (r: seq<byte>)
    requires off + |part| <= |s|
    ensures |r| == |s|
    ensures forall i {:trigger r[i]} :: 0 <= i < |s| ==>
      r[i] == if off <= i < off + |part| then part[i - off] else s[i]
  {
    s[..off] + part + s[off + |part|..]
  }

  /** `s` with the `n`-byte word `w` stored at byte offset `off`. */
  function SetWordAt(s: seq<byte>, off: nat, n: nat, w: nat): (r: seq<byte>)
    requires off + n <= |s|
    ensures |r| == |s|
  {
    Splice(s, off, LeBytes(n, w))
  }

  lemma SetThenGet(s: seq<byte>, off: nat, n: nat, w: nat)
    requires off + n <= |s| && w < Pow256(n)
    ensures WordAt(SetWordAt(s, off, n, w), off, n) == w
  {
    assert SetWordAt(s, off, n, w)[off..off + n] == LeBytes(n, w);
    LeNatOfLeBytes(n, w);
  }

  lemma SetThenGetElsewhere(s: seq<byte>, off: nat, n: nat, w: nat, off': nat, n': nat)
    requires off + n <= |s| && off' + n' <= |s|
    requires off' + n' <= off || off + n <= off'
    ensures WordAt(SetWordAt(s, off, n, w), off', n') == WordAt(s, off', n')
  {
    assert SetWordAt(s, off, n, w)[off'..off' + n'] == s[off'..off' + n'];
  }

  /** Two adjacent splices are one. */
  lemma SpliceTwice(s: seq<byte>, off: nat, part: seq<byte>, k: nat, n: nat)
    requires k + n <= |part| && off + |part| <= |s|
    ensures Splice(Splice(s, off, part[..k]), off + k, part[k..k + n]) == Splice(s, off, part[..k + n])
  {
    assert part[..k + n] == part[..k] + part[k..k + n];
  }

  ghost function Range(lo: nat, hi: nat): (r: set<nat>)
    ensures forall id :: id in r <==> lo <= id < hi
    ensures lo <= hi ==> |r| == hi - lo
    decreases hi
  {
    if lo < hi then Range(lo, hi - 1) + {hi - 1} else {}
  }

  ghost function Members(s: seq<nat>): set<nat> {
    set x | x in s
  }

  /** A list without repetition has as many members as entries. */
  lemma {:induction false} MembersCard(s: seq<nat>)
    requires forall i, j :: 0 <= i < j < |s| ==> s[i] != s[j]
    ensures |Members(s)| == |s|
  {
    if s == [] {
      assert Members(s) == {};
    } else {
      var n := |s| - 1;
      MembersCard(s[..n]);
      assert Members(s) == Members(s[..n]) + {s[n]};
    }
  }
}
