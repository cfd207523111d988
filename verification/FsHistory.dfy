/** What a run of easy-fs on a new image gives, by its operations alone: a byte is the one
    written last, a name is the number of its creation. */
module FsHistory {
  import opened Words
  import opened BlockCaches
  import opened InodeTree
  import opened Efs
  import opened FsState
  import opened Dirents
  import opened Vfs
  import opened FsRuns
  import Image

  const NO_FILES := Abs([], [])

  /** The names created, in order, each once. */
  function Created(ops: seq<Op>): seq<Name> {
    if ops == [] then []
    else
      var n := |ops| - 1;
      var names := Created(ops[..n]);
      if ops[n].Create? && ops[n].name !in names then names + [ops[n].name] else names
  }

  /** Byte `i` of file `k`: that of the last write to reach it, or zero if there is none
      since the file was last cleared. */
  function ByteBy(ops: seq<Op>, k: nat, i: nat): byte {
    if ops == [] then 0
    else
      var n, op := |ops| - 1, ops[|ops| - 1];
      if op.Write? && op.k == k && op.offset <= i < op.offset + |op.buf| then op.buf[i - op.offset]
      else if op == Clear(k) then 0
      else ByteBy(ops[..n], k, i)
  }

  /** The size of file `k`: where the furthest write since it was last cleared ends. */
  function SizeBy(ops: seq<Op>, k: nat): nat {
    if ops == [] then 0
    else
      var n, op := |ops| - 1, ops[|ops| - 1];
      var size := SizeBy(ops[..n], k);
      if op.Write? && op.k == k then if size < op.offset + |op.buf| then op.offset + |op.buf| else size
      else if op == Clear(k) then 0
      else size
  }

  /** The files are what the operations say. */
  ghost predicate FilesAre(a: Abs, ops: seq<Op>) {
    && a.names == Created(ops) && |a.contents| == |a.names|
    && forall k: nat :: FileIs(a, ops, k)
  }

  /** File `k` is; one that has not been created is empty. */
  ghost predicate FileIs(a: Abs, ops: seq<Op>, k: nat) {
    if k < |a.contents| then
      |a.contents[k]| == SizeBy(ops, k)
      && forall i :: 0 <= i < |a.contents[k]| ==> a.contents[k][i] == ByteBy(ops, k, i)
    else SizeBy(ops, k) == 0 && forall i: nat :: ByteBy(ops, k, i) == 0
  }

  /** What operation `op` answers after `ops`. */
  ghost predicate Answers(ops: seq<Op>, op: Op, out: Output) {
    var names := Created(ops);
    match op
    case Create(name) => out == File(if name in names then None else Some(|names|))
    case Write(_, _, buf) => out == Count(|buf|)
    case Read(k, offset, len) =>
      && out.Data? && |out.data| <= len
      && (|out.data| == len || offset + |out.data| >= SizeBy(ops, k))
      && (out.data != [] ==> offset + |out.data| <= SizeBy(ops, k))
      && forall i :: 0 <= i < |out.data| ==> out.data[i] == ByteBy(ops, k, offset + i)
    case Clear(_) => out == Nothing
    case Find(name) =>
      && out.File? && (out.found.None? <==> name !in names)
      && (out.found.Some? ==> out.found.value < |names| && names[out.found.value] == name)
    case Ls => out == Names(names)
  }

  /** Only an existing file is written, read or cleared. */
  predicate Exists(a: Abs, op: Op) {
    op.Write? || op.Read? || op.Clear? ==> op.k < |a.contents|
  }

  lemma FitsExists(g: Geometry, a: Abs, op: Op)
    requires WellFormed(a) && Fits(g, a, op)
    ensures Exists(a, op) && |a.contents| == |a.names|
  {
  }

  lemma StepFile(a: Abs, ops: seq<Op>, op: Op, k: nat)
    requires Exists(a, op) && |a.contents| == |a.names| && FileIs(a, ops, k)
    ensures FileIs(Step(a, op).0, ops + [op], k)
  {
    assert (ops + [op])[..|ops|] == ops;
    if op.Write? && op.k == k {
      WriteFile(a, ops, op);
    } else if op == Clear(k) {
      hide Written, IndexOf;
    } else {
      OtherFile(a, ops, op, k);
    }
  }

  lemma WriteFile(a: Abs, ops: seq<Op>, op: Op)
    requires op.Write? && op.k < |a.contents| && FileIs(a, ops, op.k)
    ensures FileIs(Step(a, op).0, ops + [op], op.k)
  {
    var k, more := op.k, ops + [op];
    assert more[..|ops|] == ops && more[|ops|] == op;
    assert SizeBy(more, k) == |Written(a.contents[k], op.offset, op.buf)|;
    hide Written, SizeBy, ByteBy;
    forall i | 0 <= i < |Written(a.contents[k], op.offset, op.buf)|
      ensures Written(a.contents[k], op.offset, op.buf)[i] == ByteBy(more, k, i)
    {
      WrittenByte(a.contents[k], ops, op, i);
    }
  }

  lemma WrittenByte(c: seq<byte>, ops: seq<Op>, op: Op, i: nat)
    requires op.Write? && i < |Written(c, op.offset, op.buf)|
    requires |c| == SizeBy(ops, op.k) && forall j :: 0 <= j < |c| ==> c[j] == ByteBy(ops, op.k, j)
    ensures Written(c, op.offset, op.buf)[i] == ByteBy(ops + [op], op.k, i)
  {
    hide Written, SizeBy;
    assert (ops + [op])[..|ops|] == ops;
    WrittenAt(c, op.offset, op.buf, i);
    if i >= |c| {
      PastEnd(ops, op.k, i);
    }
  }

  /** Past the end of a file there are only zeros. */
  lemma {:induction false} PastEnd(ops: seq<Op>, k: nat, i: nat)
    requires i >= SizeBy(ops, k)
    ensures ByteBy(ops, k, i) == 0
  {
    if ops != [] && ops[|ops| - 1] != Clear(k) {
      PastEnd(ops[..|ops| - 1], k, i);
    }
  }

  lemma OtherFile(a: Abs, ops: seq<Op>, op: Op, k: nat)
    requires Exists(a, op) && |a.contents| == |a.names| && FileIs(a, ops, k)
    requires !(op.Write? && op.k == k) && op != Clear(k)
    ensures FileIs(Step(a, op).0, ops + [op], k)
  {
    var more := ops + [op];
    assert more[..|ops|] == ops && more[|ops|] == op;
    assert SizeBy(more, k) == SizeBy(ops, k);
    assert forall i: nat :: ByteBy(more, k, i) == ByteBy(ops, k, i);
    hide Written, IndexOf, ByteBy, SizeBy;
  }

  lemma StepNames(g: Geometry, a: Abs, ops: seq<Op>, op: Op)
    requires WellFormed(a) && Fits(g, a, op) && a.names == Created(ops)
    ensures Step(a, op).0.names == Created(ops + [op])
    ensures |Step(a, op).0.contents| == |Step(a, op).0.names|
  {
    assert (ops + [op])[..|ops|] == ops;
    hide Written;
  }

  lemma StepAnswers(g: Geometry, a: Abs, ops: seq<Op>, op: Op)
    requires WellFormed(a) && Fits(g, a, op) && FilesAre(a, ops)
    ensures Answers(ops, op, Step(a, op).1)
  {
    hide Written, Created, ByteBy, SizeBy;
    if op.Read? {
      assert FileIs(a, ops, op.k);
    }
  }

  lemma PrefixFits(g: Geometry, a: Abs, ops: seq<Op>, n: nat)
    requires AllFit(g, a, ops) && n <= |ops|
    ensures AllFit(g, a, ops[..n])
  {
    hide Fits, Run, WellFormed;
    assert forall j :: 0 <= j < n ==> ops[..n][..j] == ops[..j] && ops[..n][j] == ops[j];
  }

  lemma {:induction false} RunFiles(g: Geometry, ops: seq<Op>)
    requires AllFit(g, NO_FILES, ops)
    ensures FilesAre(Run(NO_FILES, ops).0, ops)
  {
    hide Step, Fits, WellFormed, FileIs, Created;
    if ops == [] {
      NewImage();
    } else {
      var n := |ops| - 1;
      PrefixFits(g, NO_FILES, ops, n);
      RunFiles(g, ops[..n]);
      FilesNext(g, Run(NO_FILES, ops[..n]).0, ops[..n], ops[n]);
      assert ops == ops[..n] + [ops[n]];
    }
  }

  lemma FilesNext(g: Geometry, a: Abs, ops: seq<Op>, op: Op)
    requires WellFormed(a) && Fits(g, a, op) && FilesAre(a, ops)
    ensures FilesAre(Step(a, op).0, ops + [op])
  {
    hide Step, Fits, WellFormed, FileIs, Created;
    StepNames(g, a, ops, op);
    FitsExists(g, a, op);
    forall k: nat ensures FileIs(Step(a, op).0, ops + [op], k) {
      StepFile(a, ops, op, k);
    }
  }

  /** A run is its operations one after the other. */
  lemma {:induction false} RunSteps(a: Abs, ops: seq<Op>, j: nat)
    requires j < |ops|
    ensures |Run(a, ops).1| == |ops| && Run(a, ops).1[j] == Step(Run(a, ops[..j]).0, ops[j]).1
  {
    hide Step;
    var n := |ops| - 1;
    if n > 0 {
      RunSteps(a, ops[..n], if j < n then j else 0);
    }
    if j < n {
      assert ops[..n][..j] == ops[..j];
    }
  }

  /** Over every run on a new image: the files, and every answer, are what the operations
      before say. */
  lemma History(g: Geometry, ops: seq<Op>)
    requires AllFit(g, NO_FILES, ops)
    ensures FilesAre(Run(NO_FILES, ops).0, ops)
    ensures |Run(NO_FILES, ops).1| == |ops|
    ensures forall j :: 0 <= j < |ops| ==> Answers(ops[..j], ops[j], Run(NO_FILES, ops).1[j])
  {
    RunFiles(g, ops);
    if ops != [] {
      RunSteps(NO_FILES, ops, 0);
    }
    hide Run, Step, Fits, WellFormed, FilesAre, Answers;
    forall j | 0 <= j < |ops| ensures Answers(ops[..j], ops[j], Run(NO_FILES, ops).1[j]) {
      PrefixFits(g, NO_FILES, ops, j);
      RunFiles(g, ops[..j]);
      RunSteps(NO_FILES, ops, j);
      StepAnswers(g, Run(NO_FILES, ops[..j]).0, ops[..j], ops[j]);
    }
  }

  lemma NewImage()
    ensures FilesAre(NO_FILES, [])
  {
  }

  /** The bytes of the device, read by their addresses, are those of the files. */
  lemma DeviceReads(f: FileSystem, a: Abs, k: nat)
    requires Means(f, a) && k < |a.contents|
    ensures var d := f.cache.device;
      && Image.Word(d, Image.InodeAddr(d, k + 1)) == |a.contents[k]|
      && forall j :: 0 <= j < |a.contents[k]| ==> Image.FileByte(d, k + 1, j) == a.contents[k][j]
  {
    hide FsInv, Queued, Counted, Coherent, Image.Word, Image.InodeAddr, Image.FileByte;
    Image.ImageReads(f.g, f.cache.view, f.fs, k + 1);
  }

  /** A new image, and any run on it: every answer is the one the operations before say. */
  method MakeThenExec(cache: BlockCacheManager, total: u32, inodeBitmapBlocks: u32, ops: seq<Op>)
    returns (f: FileSystem, outs: seq<Output>)
    requires cache.Valid() && cache.pins == multiset{} && total <= |cache.view|
    requires 1 <= inodeBitmapBlocks && 1 + 1025 * inodeBitmapBlocks <= total
    requires AllFit(Regions(total, inodeBitmapBlocks), NO_FILES, ops)
    modifies cache
    ensures |outs| == |ops| && forall j :: 0 <= j < |ops| ==> Answers(ops[..j], ops[j], outs[j])
    ensures Means(f, Run(NO_FILES, ops).0) && FilesAre(Run(NO_FILES, ops).0, ops)
  {
    hide FsInv, Queued, Counted, Coherent, Regions, Answers, AllFit, FilesAre, Run;
    f := new FileSystem.Make(cache, total, inodeBitmapBlocks);
    assert Files(NO_FILES) == [[]];
    outs := ExecAll(f, ops, NO_FILES);
    History(Regions(total, inodeBitmapBlocks), ops);
  }
}
