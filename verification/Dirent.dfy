/** Directory entries (easy-fs/src/layout.rs): 28 name bytes padded with NULs, then
    the inode number as a 32-bit word. */
module Dirents {
  import opened Words

  type Name = seq<byte>

  /** A name that survives being stored. */
  predicate ValidName(name: Name) {
    |name| <= 27 && 0 !in name
  }

  function EncodeEntry(name: Name, id: nat): (e: seq<byte>)
    requires |name| <= 28
    ensures |e| == 32
  {
    name + Zeros(28 - |name|) + LeBytes(4, id)
  }

  /** The position of the first NUL of `b`, or its length. */
  function FirstNul(b: seq<byte>): (k: nat)
    ensures k <= |b| && 0 !in b[..k]
    ensures k < |b| ==> b[k] == 0
  {
    if b == [] || b[0] == 0 then 0
    else
      var k := FirstNul(b[1..]);
      assert b[..k + 1] == [b[0]] + b[1..][..k];
      k + 1
  }

  /** The stored name; `None` stands for the panic when no NUL ends it. */
  function NameOf(e: seq<byte>): Option<Name>
    requires |e| == 32
  {
    var k := FirstNul(e[..28]);
    if k < 28 then Some(e[..k]) else None
  }

  function NumberOf(e: seq<byte>): nat
    requires |e| == 32
  {
    WordAt(e, 28, 4)
  }

  lemma FirstNulIs(b: seq<byte>, n: nat)
    requires n < |b| && b[n] == 0 && 0 !in b[..n]
    ensures FirstNul(b) == n
  {
  }

  /** A name reads back as itself exactly when it is at most 27 bytes long and has
      no NUL. */
  lemma NameRoundTrip(name: Name, id: nat)
    requires |name| <= 28
    ensures NameOf(EncodeEntry(name, id)) == Some(name) <==> ValidName(name)
  {
    var e := EncodeEntry(name, id);
    assert e[..28] == name + Zeros(28 - |name|);
    assert e[..28][..|name|] == name == e[..|name|];
    if ValidName(name) {
      FirstNulIs(e[..28], |name|);
    } else if FirstNul(e[..28]) == |name| {
      assert e[..28][..|name|] == e[..|name|];
    }
  }

  lemma NumberRoundTrip(name: Name, id: nat)
    requires |name| <= 28 && id < 0x1_0000_0000
    ensures NumberOf(EncodeEntry(name, id)) == id
  {
    assert Pow256(4) == 0x1_0000_0000;
    assert EncodeEntry(name, id)[28..32] == LeBytes(4, id);
    LeNatOfLeBytes(4, id);
  }

  /** A directory whose k-th entry, counting from 0, names inode k + 1. */
  function EncodeDir(names: seq<Name>): (c: seq<byte>)
    requires forall k :: 0 <= k < |names| ==> |names[k]| <= 28
    ensures |c| == 32 * |names|
  {
    if names == [] then []
    else
      var n := |names| - 1;
      EncodeDir(names[..n]) + EncodeEntry(names[n], n + 1)
  }

  lemma {:induction false} DirSlice(names: seq<Name>, k: nat)
    requires (forall i :: 0 <= i < |names| ==> |names[i]| <= 28) && k < |names|
    ensures EncodeDir(names)[32 * k..32 * k + 32] == EncodeEntry(names[k], k + 1)
  {
    var n := |names| - 1;
    if k < n {
      DirSlice(names[..n], k);
      assert EncodeDir(names)[32 * k..32 * k + 32] == EncodeDir(names[..n])[32 * k..32 * k + 32];
    }
  }

  /** The names of a directory: valid and all different. */
  ghost predicate DirNames(names: seq<Name>) {
    && (forall k :: 0 <= k < |names| ==> ValidName(names[k]))
    && (forall j, k :: 0 <= j < k < |names| ==> names[j] != names[k])
  }

  /** Reading entry `k` of a directory gives its name and inode number. */
  lemma DirEntryAt(names: seq<Name>, k: nat, e: seq<byte>)
    requires DirNames(names) && k < |names| < 0x1_0000_0000
    requires e == EncodeDir(names)[32 * k..32 * k + 32]
    ensures NameOf(e) == Some(names[k]) && NumberOf(e) == k + 1
  {
    DirSlice(names, k);
    NameRoundTrip(names[k], k + 1);
    NumberRoundTrip(names[k], k + 1);
  }
}
