/** Whole runs of easy-fs against the simplest model of it: a list of named byte
    sequences, in the order of their creation. */
module FsRuns {
  import opened Words
  import opened BlockCaches
  import opened InodeTree
  import opened DiskInodes
  import opened Efs
  import opened FsState
  import opened Dirents
  import opened Vfs

  datatype Abs = Abs(names: seq<Name>, contents: seq<seq<byte>>)

  /** File `k` is the k-th one created, counting from 0. */
  datatype Op =
    | Create(name: Name)
    | Write(k: nat, offset: nat, buf: seq<byte>)
    | Read(k: nat, offset: nat, len: nat)
    | Clear(k: nat)
    | Find(name: Name)
    | Ls

  datatype Output = Nothing | Data(data: seq<byte>) | Count(n: nat) | File(found: Option<nat>) | Names(names: seq<Name>)

  /** The blocks that files of these contents occupy. */
  function Occupied(files: seq<seq<byte>>): nat {
    if files == [] then 0
    else Occupied(files[..|files| - 1]) + TotalBlocks(|files[|files| - 1]|)
  }

  /** The owner map restricted to the first `k` inodes. */
  ghost function OwnedBelow(owner: map<nat, nat>, k: nat): set<nat> {
    set id | id in owner && owner[id] < k
  }

  lemma {:induction false} ListCard(l: seq<u32>)
    requires forall p, q :: 0 <= p < q < |l| ==> l[p] != l[q]
    ensures |SetOf(l)| == |l|
  {
    if l != [] {
      var n := |l| - 1;
      ListCard(l[..n]);
      assert l == l[..n] + [l[n]];
      SetOfSnoc(l[..n], l[n], {});
      assert l[n] !in SetOf(l[..n]);
    }
  }

  lemma OwnedNext(lists: seq<seq<u32>>, owner: map<nat, nat>, k: nat)
    requires Owners(lists, owner) && k < |lists|
    ensures OwnedBelow(owner, k + 1) == OwnedBelow(owner, k) + SetOf(lists[k])
    ensures OwnedBelow(owner, k) !! SetOf(lists[k])
  {
    var l := lists[k];
    forall id | id in SetOf(l) ensures id in owner && owner[id] == k {
      var p :| 0 <= p < |l| && l[p] == id;
    }
  }

  /** Every block in use is counted once: conservation of blocks. */
  lemma {:induction false} OwnedCount(files: seq<seq<byte>>, lists: seq<seq<u32>>, owner: map<nat, nat>, k: nat)
    requires Owners(lists, owner) && k <= |lists| == |files|
    requires forall i :: 0 <= i < |lists| ==> |lists[i]| == TotalBlocks(|files[i]|)
    ensures |OwnedBelow(owner, k)| == Occupied(files[..k])
  {
    if k == 0 {
      assert OwnedBelow(owner, 0) == {};
    } else {
      OwnedCount(files, lists, owner, k - 1);
      assert files[..k][..k - 1] == files[..k - 1];
      assert |SetOf(lists[k - 1])| == |lists[k - 1]| by { ListCard(lists[k - 1]); }
      OwnedNext(lists, owner, k - 1);
      hide TotalBlocks, Owners, OwnedBelow, SetOf;
    }
  }

  /** The blocks in use are exactly the data and index blocks of the files. */
  lemma UsedIsOccupied(g: Geometry, disk: Disk, fs: Fs)
    requires FsInv(g, disk, fs)
    ensures |fs.owner.Keys| == Occupied(fs.files)
  {
    hide Holds, TotalBlocks, InodeOf, LoadSuper, InodeBits, BitsAre, FreeZero;
    forall i | 0 <= i < |fs.lists| ensures |fs.lists[i]| == TotalBlocks(|fs.files[i]|) {
      assert InodeShows(g, disk, i, fs.files[i], fs.lists[i]);
      HoldsSize(InodeOf(g, disk, i), disk, fs.files[i]);
    }
    OwnedCount(fs.files, fs.lists, fs.owner, |fs.files|);
    assert OwnedBelow(fs.owner, |fs.files|) == fs.owner.Keys;
    assert fs.files[..|fs.files|] == fs.files;
  }

  /** All files of an image, the root directory first. */
  ghost function Files(a: Abs): seq<seq<byte>>
    requires DirNames(a.names)
  {
    [EncodeDir(a.names)] + a.contents
  }

  ghost predicate WellFormed(a: Abs) {
    DirNames(a.names) && |a.contents| == |a.names|
  }

  /** What the callers of one operation must see to: an existing file, room on the
      device and in the file, a storable name, and no empty write whose lookup would leave
      the blocks in use. */
  ghost predicate Fits(g: Geometry, a: Abs, op: Op)
    requires WellFormed(a)
  {
    match op
    case Create(name) =>
      var n := |a.names|;
      ValidName(name) && (name !in a.names ==>
        && n + 1 < g.InodeBitmap().Maximum() && 32 * (n + 1) <= MAX_SIZE
        && Occupied(Files(a)) + Needed(32 * n, 32 * n + 32) <= g.dataAreaBlocks)
    case Write(k, offset, buf) =>
      && k < |a.names| && Writable(|a.contents[k]|, offset, |buf|) && offset + |buf| <= MAX_SIZE
      && Occupied(Files(a)) + Needed(|a.contents[k]|, offset + |buf|) <= g.dataAreaBlocks
    case Read(k, _, _) => k < |a.names|
    case Clear(k) => k < |a.names|
    case Find(_) => true
    case Ls => true
  }

  /** The meaning of one operation on named byte sequences. */
  function Step(a: Abs, op: Op): (Abs, Output) {
    match op
    case Create(name) =>
      if name in a.names then (a, File(None))
      else (Abs(a.names + [name], a.contents + [[]]), File(Some(|a.names|)))
    case Write(k, offset, buf) =>
      if k < |a.contents| then (a.(contents := a.contents[k := Written(a.contents[k], offset, buf)]), Count(|buf|))
      else (a, Nothing)
    case Read(k, offset, len) =>
      if k < |a.contents| then
        var c := a.contents[k];
        (a, Data(if offset < |c| then c[offset..if offset + len < |c| then offset + len else |c|] else []))
      else (a, Nothing)
    case Clear(k) =>
      if k < |a.contents| then (a.(contents := a.contents[k := []]), Nothing) else (a, Nothing)
    case Find(name) => (a, File(IndexOf(a.names, name)))
    case Ls => (a, Names(a.names))
  }

  function IndexOf(names: seq<Name>, name: Name): (r: Option<nat>)
    ensures r.Some? ==> r.value < |names| && names[r.value] == name
    ensures r.None? <==> name !in names
  {
    if names == [] then None
    else if names[0] == name then Some(0)
    else
      var r := IndexOf(names[1..], name);
      if r.Some? then Some(r.value + 1) else None
  }

  lemma StepWellFormed(g: Geometry, a: Abs, op: Op)
    requires WellFormed(a) && Fits(g, a, op)
    ensures WellFormed(Step(a, op).0)
  {
  }

  /** The state and the outputs after a whole run. */
  function Run(a: Abs, ops: seq<Op>): (Abs, seq<Output>) {
    if ops == [] then (a, [])
    else
      var n := |ops| - 1;
      var r := Run(a, ops[..n]);
      var s := Step(r.0, ops[n]);
      (s.0, r.1 + [s.1])
  }

  ghost predicate AllFit(g: Geometry, a: Abs, ops: seq<Op>) {
    forall k :: 0 <= k < |ops| ==>
      WellFormed(Run(a, ops[..k]).0) && Fits(g, Run(a, ops[..k]).0, ops[k])
  }

  /** The image shows the named byte sequences `a`, and the device is in step with it. */
  ghost predicate Means(f: FileSystem, a: Abs)
    reads f, f.cache
  {
    f.DirValid() && f.cache.Clean() && WellFormed(a) && f.names == a.names && f.fs.files == Files(a)
  }

  lemma IndexOfUnique(names: seq<Name>, name: Name, k: nat)
    requires DirNames(names) && k < |names| && names[k] == name
    ensures IndexOf(names, name) == Some(k)
  {
  }

  /** Changing the contents of file `k` changes inode k + 1. */
  lemma ChangedFiles(a: Abs, k: nat, c: seq<byte>)
    requires WellFormed(a) && k < |a.contents|
    ensures Files(a)[k + 1] == a.contents[k]
    ensures Files(a)[k + 1 := c] == Files(a.(contents := a.contents[k := c]))
  {
  }

  method ExecCreate(f: FileSystem, name: Name, ghost a: Abs) returns (out: Output)
    requires Means(f, a) && Fits(f.g, a, Create(name))
    modifies f, f.cache
    ensures Means(f, Step(a, Create(name)).0) && out == Step(a, Create(name)).1
  {
    hide FsInv, Queued, Counted, Coherent, Occupied, Needed, EncodeDir, DirNames, ValidName;
    UsedIsOccupied(f.g, f.cache.view, f.fs);
    StepWellFormed(f.g, a, Create(name));
    var r := f.Create(name);
    out := File(if r.Some? then Some(r.value - 1) else None);
    if r.Some? {
      CreatedFiles(a, name, f.fs.files);
    }
  }

  method ExecWrite(f: FileSystem, k: nat, offset: nat, buf: seq<byte>, ghost a: Abs) returns (out: Output)
    requires Means(f, a) && Fits(f.g, a, Write(k, offset, buf))
    modifies f, f.cache
    ensures Means(f, Step(a, Write(k, offset, buf)).0) && out == Step(a, Write(k, offset, buf)).1
  {
    hide FsInv, Queued, Counted, Coherent, Occupied, Needed, Written, EncodeDir, DirNames, ValidName, Writable;
    StepWellFormed(f.g, a, Write(k, offset, buf));
    UsedIsOccupied(f.g, f.cache.view, f.fs);
    ChangedFiles(a, k, Written(a.contents[k], offset, buf));
    var n := f.WriteAt(k + 1, offset, buf);
    out := Count(n);
  }

  method ExecClear(f: FileSystem, k: nat, ghost a: Abs) returns (out: Output)
    requires Means(f, a) && Fits(f.g, a, Clear(k))
    modifies f, f.cache
    ensures Means(f, Step(a, Clear(k)).0) && out == Step(a, Clear(k)).1
  {
    hide FsInv, Queued, Counted, Coherent, EncodeDir, DirNames, Dropped;
    StepWellFormed(f.g, a, Clear(k));
    ChangedFiles(a, k, []);
    f.Clear(k + 1);
    out := Nothing;
  }

  method ExecFind(f: FileSystem, name: Name, ghost a: Abs) returns (out: Output)
    requires Means(f, a)
    modifies f.cache
    ensures Means(f, a) && out == Step(a, Find(name)).1
  {
    hide FsInv, Queued, Counted, Coherent, EncodeDir, DirNames, IndexOf;
    var r := f.Find(name);
    out := File(if r.Some? then Some(r.value - 1) else None);
    if r.Some? {
      IndexOfUnique(a.names, name, r.value - 1);
    }
  }

  /** One operation on the image does what it means. */
  method Exec(f: FileSystem, op: Op, ghost a: Abs) returns (out: Output)
    requires Means(f, a) && Fits(f.g, a, op)
    modifies f, f.cache
    ensures Means(f, Step(a, op).0) && out == Step(a, op).1
  {
    hide FsInv, Queued, Counted, Coherent, Occupied, Needed, Written, EncodeDir, DirNames, ValidName, IndexOf, Writable;
    match op
    case Create(name) => out := ExecCreate(f, name, a);
    case Write(k, offset, buf) => out := ExecWrite(f, k, offset, buf, a);
    case Read(k, offset, len) =>
      ChangedFiles(a, k, []);
      var data := f.ReadAt(k + 1, offset, len);
      out := Data(data);
    case Clear(k) => out := ExecClear(f, k, a);
    case Find(name) => out := ExecFind(f, name, a);
    case Ls =>
      var v := f.Ls();
      out := Names(v);
  }

  lemma CreatedFiles(a: Abs, name: Name, files: seq<seq<byte>>)
    requires WellFormed(a) && WellFormed(Step(a, Create(name)).0) && name !in a.names
    requires |files| == |a.names| + 2 && files[0] == EncodeDir(a.names + [name])
    requires files[|a.names| + 1] == [] && files[1..|a.names| + 1] == Files(a)[1..]
    ensures files == Files(Step(a, Create(name)).0)
  {
    hide EncodeDir;
    var b := Files(Step(a, Create(name)).0);
    forall i | 1 <= i <= |a.names| ensures files[i] == b[i] {
      assert files[i] == files[1..|a.names| + 1][i - 1] == Files(a)[1..][i - 1];
    }
  }

  /** Over every run, the image behaves as the list of named byte sequences. */
  method ExecAll(f: FileSystem, ops: seq<Op>, ghost a: Abs) returns (outs: seq<Output>)
    requires Means(f, a) && AllFit(f.g, a, ops)
    modifies f, f.cache
    ensures Means(f, Run(a, ops).0) && outs == Run(a, ops).1
  {
    hide FsInv, Queued, Counted, Coherent, Fits, Step;
    outs := [];
    var i := 0;
    while i < |ops|
      invariant 0 <= i <= |ops|
      invariant Means(f, Run(a, ops[..i]).0) && outs == Run(a, ops[..i]).1
    {
      assert ops[..i + 1][..i] == ops[..i];
      var out := Exec(f, ops[i], Run(a, ops[..i]).0);
      outs := outs + [out];
      i := i + 1;
    }
    assert ops[..i] == ops;
  }

  /** After any run, the device opened anew with an empty cache means the same. */
  method ExecThenRemount(f: FileSystem, ops: seq<Op>, ghost a: Abs) returns (f': FileSystem, outs: seq<Output>)
    requires Means(f, a) && AllFit(f.g, a, ops)
    modifies f, f.cache
    ensures Means(f', Run(a, ops).0) && outs == Run(a, ops).1
  {
    hide FsInv, Queued, Counted, Coherent, Run, AllFit;
    outs := ExecAll(f, ops, a);
    f' := Remount(f);
  }
}
