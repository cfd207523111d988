/** Pipes (os7-ref/src/fs/pipe.rs): a ring buffer of 32 bytes, and the loops of `read`
    and `write`, which give the processor up when the ring is empty or full.  What a
    call does between two suspensions is one step. */
module Pipes {
  import opened Words

  const RING_BUFFER_SIZE: nat := 32

  datatype RingBufferStatus = FULL | EMPTY | NORMAL

  /** How many bytes the ring holds. */
  function Count(head: nat, tail: nat, status: RingBufferStatus): nat
    requires head < 32 && tail < 32
  {
    if status == EMPTY then 0
    else if tail > head then tail - head
    else tail + 32 - head
  }

  /** `n` bytes of the ring, from `head` on. */
  ghost function Ring(arr: seq<byte>, head: nat, n: nat): (s: seq<byte>)
    requires |arr| == 32 && head < 32 && n <= 32
    ensures |s| == n
  {
    seq(n, i requires 0 <= i < n => arr[(head + i) % 32])
  }

  /** The tail is `Count` places after the head, and a write or a read moves one end. */
  lemma CountIs(head: nat, tail: nat, status: RingBufferStatus)
    requires head < 32 && tail < 32 && (status == NORMAL <==> head != tail)
    ensures Count(head, tail, status) <= 32 && (head + Count(head, tail, status)) % 32 == tail
    ensures Count(head, tail, status) < 32 ==>
      var t := (tail + 1) % 32;
      Count(head, t, if t == head then FULL else NORMAL) == Count(head, tail, status) + 1
    ensures Count(head, tail, status) > 0 ==>
      var h := (head + 1) % 32;
      Count(h, tail, if h == tail then EMPTY else NORMAL) == Count(head, tail, status) - 1
  {
  }

  /** Storing a byte behind the last one appends it; dropping the first one drops it. */
  lemma RingAppend(arr: seq<byte>, head: nat, n: nat, b: byte)
    requires |arr| == 32 && head < 32 && n < 32
    ensures Ring(arr[(head + n) % 32 := b], head, n + 1) == Ring(arr, head, n) + [b]
  {
    var a, b' := Ring(arr[(head + n) % 32 := b], head, n + 1), Ring(arr, head, n) + [b];
    forall i | 0 <= i <= n ensures a[i] == b'[i] {
    }
  }

  lemma RingDrop(arr: seq<byte>, head: nat, n: nat)
    requires |arr| == 32 && head < 32 && 0 < n <= 32
    ensures Ring(arr, head, n) == [arr[head]] + Ring(arr, (head + 1) % 32, n - 1)
  {
    var a, b := Ring(arr, head, n), [arr[head]] + Ring(arr, (head + 1) % 32, n - 1);
    forall i | 0 <= i < n ensures a[i] == b[i] {
    }
  }

  class PipeRingBuffer {
    const arr: array<byte>
    var head: nat
    var tail: nat
    var status: RingBufferStatus

    ghost predicate Valid()
      reads this
    {
      && arr.Length == 32 && head < 32 && tail < 32
      && (status == NORMAL <==> head != tail)
    }

    /** The bytes in the ring, oldest first. */
    ghost function Contents(): (s: seq<byte>)
      requires Valid()
      reads this, arr
      ensures |s| <= 32
    {
      Ring(arr[..], head, Count(head, tail, status))
    }

    constructor ()
      ensures Valid() && fresh(arr) && Contents() == []
    {
      arr := new byte[32](_ => 0);
      head, tail, status := 0, 0, EMPTY;
    }

    method AvailableRead() returns (n: nat)
      requires Valid()
      ensures n == |Contents()|
    {
      if status == EMPTY {
        n := 0;
      } else if tail > head {
        n := tail - head;
      } else {
        n := tail + RING_BUFFER_SIZE - head;
      }
    }

    method AvailableWrite() returns (n: nat)
      requires Valid()
      ensures n == 32 - |Contents()|
    {
      if status == FULL {
        n := 0;
      } else {
        var r := AvailableRead();
        n := RING_BUFFER_SIZE - r;
      }
    }

    method WriteByte(b: byte)
      requires Valid() && |Contents()| < 32
      modifies this, arr
      ensures Valid() && Contents() == old(Contents()) + [b]
    {
      CountIs(head, tail, status);
      hide Ring, Count;
      RingAppend(arr[..], head, Count(head, tail, status), b);
      status := NORMAL;
      arr[tail] := b;
      tail := (tail + 1) % 32;
      if tail == head {
        status := FULL;
      }
    }

    method ReadByte() returns (b: byte)
      requires Valid() && Contents() != []
      modifies this
      ensures Valid() && old(Contents()) == [b] + Contents()
    {
      CountIs(head, tail, status);
      hide Ring, Count;
      RingDrop(arr[..], head, Count(head, tail, status));
      status := NORMAL;
      b := arr[head];
      head := (head + 1) % 32;
      if head == tail {
        status := EMPTY;
      }
    }

    /** The inner loop of `read`: `n` bytes, or fewer when the user buffer has only
        `room` left, and then `stop`. */
    method Drain(n: nat, room: nat) returns (bs: seq<byte>, stop: bool)
      requires Valid() && n == |Contents()|
      modifies this
      ensures Valid() && old(Contents()) == bs + Contents()
      ensures |bs| == (if room < n then room else n) && stop == (room < n)
    {
      bs := [];
      var i := 0;
      while i < n
        invariant 0 <= i <= n && |bs| == i <= room && Valid()
        invariant old(Contents()) == bs + Contents()
      {
        if |bs| == room {
          return bs, true;
        }
        ghost var c := Contents();
        var b := ReadByte();
        assert bs + c == bs + [b] + Contents();
        bs := bs + [b];
        i := i + 1;
      }
      stop := false;
    }

    /** The inner loop of `write`. */
    method Fill(n: nat, data: seq<byte>) returns (k: nat, stop: bool)
      requires Valid() && n == 32 - |Contents()|
      modifies this, arr
      ensures Valid() && k == (if |data| < n then |data| else n) && stop == (|data| < n)
      ensures Contents() == old(Contents()) + data[..k]
    {
      k := 0;
      while k < n
        invariant 0 <= k <= n && k <= |data| && Valid()
        invariant Contents() == old(Contents()) + data[..k]
      {
        if k == |data| {
          return k, true;
        }
        WriteByte(data[k]);
        k := k + 1;
      }
      stop := false;
    }

    /** The loop of `read` from its top until it suspends or returns: it returns when
        there are more bytes than the user buffer has room for, or the write end is
        gone. */
    method ReadLoop(room: nat, closed: bool) returns (bs: seq<byte>, returned: bool)
      requires Valid()
      modifies this
      ensures Valid() && old(Contents()) == bs + Contents()
      ensures |bs| == (if room < |old(Contents())| then room else |old(Contents())|)
      ensures returned == (room < |old(Contents())| || closed)
    {
      hide Ring, Count;
      bs := [];
      while true
        invariant Valid() && old(Contents()) == bs + Contents() && |bs| <= room
        invariant Contents() == [] || bs == []
        decreases |Contents()|
      {
        var n := AvailableRead();
        if n == 0 {
          return bs, closed;
        }
        var more, stop := Drain(n, room - |bs|);
        assert bs + more == more;
        bs := bs + more;
        if stop {
          return bs, true;
        }
      }
    }

    /** The loop of `write` from its top until it suspends or returns: it returns when
        the ring has more room than there are bytes left. */
    method WriteLoop(data: seq<byte>) returns (k: nat, returned: bool)
      requires Valid()
      modifies this, arr
      ensures Valid() && k <= |data| && Contents() == old(Contents()) + data[..k]
      ensures var free := 32 - |old(Contents())|;
        k == (if |data| < free then |data| else free) && returned == (|data| < free)
    {
      k := 0;
      while true
        invariant Valid() && k <= |data| && Contents() == old(Contents()) + data[..k]
        invariant k == 0 || |Contents()| == 32
        decreases 32 - |Contents()|
      {
        var n := AvailableWrite();
        if n == 0 {
          return k, false;
        }
        var more, stop := Fill(n, data[k..]);
        assert data[..k] + data[k..][..more] == data[..k + more];
        k := k + more;
        if stop {
          return k, true;
        }
      }
    }
  }

  /** A byte passed by a call. */
  datatype Event = Event(call: nat, value: byte)

  ghost function Bytes(log: seq<Event>): (bs: seq<byte>)
    ensures |bs| == |log|
  {
    seq(|log|, i requires 0 <= i < |log| => log[i].value)
  }

  /** The bytes one call has passed, in order. */
  ghost function BytesOf(log: seq<Event>, call: nat): seq<byte> {
    if log == [] then []
    else
      var n := |log| - 1;
      BytesOf(log[..n], call) + if log[n].call == call then [log[n].value] else []
  }

  ghost function Tagged(call: nat, bs: seq<byte>): (log: seq<Event>)
    ensures |log| == |bs|
  {
    seq(|bs|, i requires 0 <= i < |bs| => Event(call, bs[i]))
  }

  lemma BytesMore(log: seq<Event>, call: nat, bs: seq<byte>)
    ensures Bytes(log + Tagged(call, bs)) == Bytes(log) + bs
  {
  }

  lemma {:induction false} BytesOfMore(log: seq<Event>, call: nat, bs: seq<byte>, other: nat)
    ensures BytesOf(log + Tagged(call, bs), other) == if other == call then BytesOf(log, other) + bs else BytesOf(log, other)
  {
    if bs == [] {
      assert log + Tagged(call, bs) == log;
    } else {
      var n := |bs| - 1;
      BytesOfMore(log, call, bs[..n], other);
      var more := log + Tagged(call, bs);
      assert more[..|more| - 1] == log + Tagged(call, bs[..n]);
      assert more[|more| - 1] == Event(call, bs[n]);
      assert bs == bs[..n] + [bs[n]];
      hide Tagged;
    }
  }

  /** A call of `read` with a buffer of `want` bytes, and what it has got. */
  datatype ReadCall = ReadCall(want: nat, got: seq<byte>, returned: bool)

  /** A call of `write`, and how much of its data is in the pipe. */
  datatype WriteCall = WriteCall(data: seq<byte>, sent: nat, returned: bool)

  ghost predicate ReadersOk(readers: seq<ReadCall>, taken: seq<Event>, drained: bool) {
    && (forall i :: 0 <= i < |readers| ==>
          && BytesOf(taken, i) == readers[i].got
          && |readers[i].got| <= readers[i].want
          && (readers[i].returned ==> |readers[i].got| == readers[i].want || drained))
    && (forall i :: i >= |readers| ==> BytesOf(taken, i) == [])
  }

  ghost predicate WriterOk(w: WriteCall, passed: seq<byte>, open: bool) {
    && w.sent <= |w.data| && passed == w.data[..w.sent]
    && (w.returned ==> w.sent == |w.data|)
    && (open || w.returned)
  }

  ghost predicate WritersOk(writers: seq<WriteCall>, written: seq<Event>, open: bool) {
    && (forall i :: 0 <= i < |writers| ==> WriterOk(writers[i], BytesOf(written, i), open))
    && (forall i :: i >= |writers| ==> BytesOf(written, i) == [])
  }

  lemma ReadKeeps(readers: seq<ReadCall>, taken: seq<Event>, open: bool, i: nat, bs: seq<byte>, returned: bool,
                  written: seq<byte>, was: seq<byte>, now: seq<byte>)
    requires ReadersOk(readers, taken, !open && was == []) && i < |readers| && !readers[i].returned
    requires written == Bytes(taken) + was && was == bs + now && |readers[i].got| + |bs| <= readers[i].want
    requires returned ==> |readers[i].got| + |bs| == readers[i].want || (!open && now == [])
    ensures ReadersOk(readers[i := ReadCall(readers[i].want, readers[i].got + bs, returned)],
                      taken + Tagged(i, bs), !open && now == [])
    ensures written == Bytes(taken + Tagged(i, bs)) + now
  {
    forall j: nat ensures BytesOf(taken + Tagged(i, bs), j) == if i == j then readers[i].got + bs else BytesOf(taken, j) {
      BytesOfMore(taken, i, bs, j);
    }
    BytesMore(taken, i, bs);
    hide Bytes, BytesOf, Tagged;
  }

  /** `bs` are the next bytes of `w`. */
  ghost predicate NextBytes(w: WriteCall, bs: seq<byte>) {
    w.sent + |bs| <= |w.data| && bs == w.data[w.sent..w.sent + |bs|]
  }

  lemma WriteKeeps(writers: seq<WriteCall>, written: seq<Event>, i: nat, bs: seq<byte>, returned: bool,
                   taken: seq<byte>, was: seq<byte>)
    requires WritersOk(writers, written, true) && i < |writers| && NextBytes(writers[i], bs)
    requires Bytes(written) == taken + was
    requires returned ==> writers[i].sent + |bs| == |writers[i].data|
    ensures WritersOk(writers[i := WriteCall(writers[i].data, writers[i].sent + |bs|, returned)],
                      written + Tagged(i, bs), true)
    ensures Bytes(written + Tagged(i, bs)) == taken + (was + bs)
  {
    WritersMore(writers, written, i, bs, returned);
    BytesMore(written, i, bs);
    hide Bytes, BytesOf, Tagged, WritersOk;
    assert taken + was + bs == taken + (was + bs);
  }

  lemma WritersMore(writers: seq<WriteCall>, written: seq<Event>, i: nat, bs: seq<byte>, returned: bool)
    requires WritersOk(writers, written, true) && i < |writers| && NextBytes(writers[i], bs)
    requires returned ==> writers[i].sent + |bs| == |writers[i].data|
    ensures WritersOk(writers[i := WriteCall(writers[i].data, writers[i].sent + |bs|, returned)],
                      written + Tagged(i, bs), true)
  {
    var after := written + Tagged(i, bs);
    WriterMore(writers[i], BytesOf(written, i), bs, returned);
    hide WriterOk, NextBytes;
    forall j: nat ensures BytesOf(after, j) == if i == j then BytesOf(written, i) + bs else BytesOf(written, j) {
      BytesOfMore(written, i, bs, j);
    }
    hide Bytes, BytesOf, Tagged;
  }

  lemma WriterMore(w: WriteCall, passed: seq<byte>, bs: seq<byte>, returned: bool)
    requires WriterOk(w, passed, true) && NextBytes(w, bs) && (returned ==> w.sent + |bs| == |w.data|)
    ensures WriterOk(WriteCall(w.data, w.sent + |bs|, returned), passed + bs, true)
  {
    assert w.data[..w.sent] + bs == w.data[..w.sent + |bs|];
  }

  lemma ReaderRoom(readers: seq<ReadCall>, taken: seq<Event>, drained: bool, i: nat)
    requires ReadersOk(readers, taken, drained) && i < |readers|
    ensures |readers[i].got| <= readers[i].want
  {
  }

  lemma WriterRoom(writers: seq<WriteCall>, written: seq<Event>, open: bool, i: nat)
    requires WritersOk(writers, written, open) && i < |writers| && !writers[i].returned
    ensures writers[i].sent <= |writers[i].data| && open
  {
  }

  /** A pipe, the calls on it, and the bytes passed so far. */
  datatype State = State(contents: seq<byte>, open: bool, readers: seq<ReadCall>, writers: seq<WriteCall>,
                         written: seq<Event>, taken: seq<Event>)

  /** A call begins, the write end goes, or a call goes on from the top of its loop until
      it suspends or returns. */
  datatype Step = NewRead(want: nat) | NewWrite(data: seq<byte>) | Close | GoRead(call: nat) | GoWrite(call: nat)

  /** A write needs an open write end, and holds a handle on it until it returns. */
  predicate Fits(s: State, step: Step) {
    match step
    case NewRead(_) => true
    case NewWrite(_) => s.open
    case Close => forall i :: 0 <= i < |s.writers| ==> s.writers[i].returned
    case GoRead(i) => i < |s.readers| && !s.readers[i].returned
    case GoWrite(i) => i < |s.writers| && !s.writers[i].returned
  }

  function Min(a: int, b: int): int {
    if a < b then a else b
  }

  /** The bytes that a read, or a write, can pass now. */
  ghost function Readable(s: State, i: nat): (bs: seq<byte>)
    requires i < |s.readers|
  {
    var n := Min(s.readers[i].want - |s.readers[i].got|, |s.contents|);
    if n < 0 then [] else s.contents[..n]
  }

  ghost function Writable(s: State, i: nat): (bs: seq<byte>)
    requires i < |s.writers|
  {
    var w := s.writers[i];
    var k := Min(|w.data| - w.sent, 32 - |s.contents|);
    if k < 0 then [] else w.data[w.sent..w.sent + k]
  }

  lemma WritableSlice(s: State, i: nat, k: nat)
    requires i < |s.writers| && s.writers[i].sent <= |s.writers[i].data|
    requires k == Min(|s.writers[i].data| - s.writers[i].sent, 32 - |s.contents|)
    ensures var w := s.writers[i];
      w.data[w.sent..][..k] == w.data[w.sent..w.sent + k] == Writable(s, i)
  {
  }

  /** A read passes what it can.  It returns exactly when there is more than it has room
      for, or the write end is gone. */
  ghost function ReadGoes(s: State, i: nat): State
    requires i < |s.readers|
  {
    var r, bs := s.readers[i], Readable(s, i);
    s.(contents := if |bs| <= |s.contents| then s.contents[|bs|..] else [],
       readers := s.readers[i := ReadCall(r.want, r.got + bs, r.want - |r.got| < |s.contents| || !s.open)],
       taken := s.taken + Tagged(i, bs))
  }

  /** A write passes what it can.  It returns exactly when the ring has more room than it
      has bytes left. */
  ghost function WriteGoes(s: State, i: nat): State
    requires i < |s.writers|
  {
    var w, bs := s.writers[i], Writable(s, i);
    s.(contents := s.contents + bs,
       writers := s.writers[i := WriteCall(w.data, w.sent + |bs|, |w.data| - w.sent < 32 - |s.contents|)],
       written := s.written + Tagged(i, bs))
  }

  ghost function Next(s: State, step: Step): State {
    match step
    case NewRead(want) => s.(readers := s.readers + [ReadCall(want, [], false)])
    case NewWrite(data) => s.(writers := s.writers + [WriteCall(data, 0, false)])
    case Close => s.(open := false)
    case GoRead(i) => if i < |s.readers| then ReadGoes(s, i) else s
    case GoWrite(i) => if i < |s.writers| then WriteGoes(s, i) else s
  }

  ghost function Run(s: State, steps: seq<Step>): State {
    if steps == [] then s else Next(Run(s, steps[..|steps| - 1]), steps[|steps| - 1])
  }

  ghost predicate AllFit(s: State, steps: seq<Step>) {
    forall k :: 0 <= k < |steps| ==> Fits(Run(s, steps[..k]), steps[k])
  }

  /** The bytes written are the bytes read, then those in the ring; each call has passed a
      prefix of its data, in order; a `write` that has returned has passed all of it; a
      `read` that returned short did so with the write end gone and the ring drained; and
      no write goes on once the write end is gone. */
  ghost predicate Safe(s: State) {
    && |s.contents| <= 32
    && Bytes(s.written) == Bytes(s.taken) + s.contents
    && ReadersOk(s.readers, s.taken, !s.open && s.contents == [])
    && WritersOk(s.writers, s.written, s.open)
  }

  lemma ReadSafe(s: State, i: nat)
    requires Safe(s) && i < |s.readers| && !s.readers[i].returned
    ensures Safe(ReadGoes(s, i))
  {
    var r, bs := s.readers[i], Readable(s, i);
    ReaderRoom(s.readers, s.taken, !s.open && s.contents == [], i);
    hide ReadersOk, WritersOk, Bytes, BytesOf, Tagged;
    assert s.contents == bs + s.contents[|bs|..];
    ReadKeeps(s.readers, s.taken, s.open, i, bs, r.want - |r.got| < |s.contents| || !s.open, Bytes(s.written),
              s.contents, s.contents[|bs|..]);
  }

  lemma WriteSafe(s: State, i: nat)
    requires Safe(s) && i < |s.writers| && !s.writers[i].returned
    ensures Safe(WriteGoes(s, i))
  {
    var w, bs := s.writers[i], Writable(s, i);
    WriterRoom(s.writers, s.written, s.open, i);
    hide ReadersOk, WritersOk, Bytes, BytesOf, Tagged;
    assert NextBytes(w, bs);
    hide NextBytes, Writable;
    WriteKeeps(s.writers, s.written, i, bs, |w.data| - w.sent < 32 - |s.contents|, Bytes(s.taken), s.contents);
  }

  lemma NextSafe(s: State, step: Step)
    requires Safe(s) && Fits(s, step)
    ensures Safe(Next(s, step))
  {
    match step
    case NewRead(_) => hide Bytes, WritersOk;
    case NewWrite(_) => hide Bytes, ReadersOk;
    case Close => hide Bytes;
    case GoRead(i) => hide Safe; ReadSafe(s, i);
    case GoWrite(i) => hide Safe; WriteSafe(s, i);
  }

  /** Over every interleaving of any number of calls. */
  lemma {:induction false} RunSafe(s: State, steps: seq<Step>)
    requires Safe(s) && AllFit(s, steps)
    ensures Safe(Run(s, steps))
  {
    hide Safe, Next, Fits;
    if steps != [] {
      var n := |steps| - 1;
      assert forall k :: 0 <= k < n ==> steps[..n][..k] == steps[..k] && steps[..n][k] == steps[k];
      RunSafe(s, steps[..n]);
      NextSafe(Run(s, steps[..n]), steps[n]);
    }
  }

  /** A read that goes on, by what the ring holds: it takes the first bytes, as many as
      there are and as it has room for.  It returns if and only if there are more than it
      has room for, or the write end is gone. */
  lemma ReadIs(s: State, i: nat)
    requires Safe(s) && Fits(s, GoRead(i))
    ensures var s', r := Next(s, GoRead(i)), s.readers[i];
      exists n :: 0 <= n <= |s.contents| && ReadsOut(s, s', i, n)
  {
    var s', r := Next(s, GoRead(i)), s.readers[i];
    ReaderRoom(s.readers, s.taken, !s.open && s.contents == [], i);
    hide Safe, ReadersOk, WritersOk, Bytes, BytesOf;
    var n := if r.want - |r.got| < |s.contents| then r.want - |r.got| else |s.contents|;
    assert ReadsOut(s, s', i, n);
  }

  ghost predicate ReadsOut(s: State, s': State, i: nat, n: nat)
    requires i < |s.readers| && n <= |s.contents|
  {
    var r := s.readers[i];
    && (n == |s.contents| || |r.got| + n == r.want) && |r.got| + n <= r.want
    && s'.contents == s.contents[n..] && s'.taken == s.taken + Tagged(i, s.contents[..n])
    && |s'.readers| == |s.readers| && s'.readers[i].want == r.want && s'.readers[i].got == r.got + s.contents[..n]
    && (s'.readers[i].returned <==> |r.got| + |s.contents| > r.want || !s.open)
    && (forall j :: 0 <= j < |s.readers| && j != i ==> s'.readers[j] == s.readers[j])
    && s'.open == s.open && s'.writers == s.writers && s'.written == s.written
  }

  /** A write that goes on, by the room in the ring: it puts in its next bytes, as many as
      it has left and as there is room for.  It returns if and only if there is more room
      than it has bytes left. */
  lemma WriteIs(s: State, i: nat)
    requires Safe(s) && Fits(s, GoWrite(i))
    ensures s.writers[i].sent <= |s.writers[i].data|
    ensures var s', w := Next(s, GoWrite(i)), s.writers[i];
      exists n :: 0 <= n <= |w.data| - w.sent && WritesIn(s, s', i, n)
  {
    var s', w := Next(s, GoWrite(i)), s.writers[i];
    WriterRoom(s.writers, s.written, s.open, i);
    var n := if |w.data| - w.sent < 32 - |s.contents| then |w.data| - w.sent else 32 - |s.contents|;
    assert n >= 0;
    hide Safe, ReadersOk, WritersOk, Bytes, BytesOf;
    assert WritesIn(s, s', i, n);
  }

  ghost predicate WritesIn(s: State, s': State, i: nat, n: nat)
    requires i < |s.writers| && s.writers[i].sent + n <= |s.writers[i].data|
  {
    var w := s.writers[i];
    var bs := w.data[w.sent..w.sent + n];
    && (w.sent + n == |w.data| || |s.contents| + n == 32) && |s.contents| + n <= 32
    && s'.contents == s.contents + bs && s'.written == s.written + Tagged(i, bs)
    && |s'.writers| == |s.writers| && s'.writers[i].data == w.data && s'.writers[i].sent == w.sent + n
    && (s'.writers[i].returned <==> |s.contents| + (|w.data| - w.sent) < 32)
    && (forall j :: 0 <= j < |s.writers| && j != i ==> s'.writers[j] == s.writers[j])
    && s'.open == s.open && s'.readers == s.readers && s'.taken == s.taken
  }

  /** A call begins with nothing passed and has not returned; calls under way and the bytes
      in the ring stay as they are. */
  lemma CallBegins(s: State, step: Step)
    requires step.NewRead? || step.NewWrite? || step.Close?
    ensures var s' := Next(s, step);
      && s'.contents == s.contents && s'.written == s.written && s'.taken == s.taken
      && s.readers <= s'.readers && s.writers <= s'.writers
      && (forall i :: |s.readers| <= i < |s'.readers| ==> s'.readers[i].got == [] && !s'.readers[i].returned)
      && (forall i :: |s.writers| <= i < |s'.writers| ==> s'.writers[i].sent == 0 && !s'.writers[i].returned)
  {
  }

  const EMPTY_PIPE := State([], true, [], [], [], [])

  /** The data of the writes that have begun, and the room of the reads, in order. */
  function Writes(steps: seq<Step>): seq<seq<byte>> {
    if steps == [] then []
    else
      var n := |steps| - 1;
      Writes(steps[..n]) + if steps[n].NewWrite? then [steps[n].data] else []
  }

  function Reads(steps: seq<Step>): seq<nat> {
    if steps == [] then []
    else
      var n := |steps| - 1;
      Reads(steps[..n]) + if steps[n].NewRead? then [steps[n].want] else []
  }

  /** The calls on the pipe are those that the steps have begun. */
  ghost predicate CallsAre(s: State, given: seq<seq<byte>>, wanted: seq<nat>, closed: bool) {
    && |s.writers| == |given| && (forall i :: 0 <= i < |given| ==> s.writers[i].data == given[i])
    && |s.readers| == |wanted| && (forall i :: 0 <= i < |wanted| ==> s.readers[i].want == wanted[i])
    && s.open == !closed
  }

  lemma NextCalls(s: State, step: Step, given: seq<seq<byte>>, wanted: seq<nat>, closed: bool)
    requires CallsAre(s, given, wanted, closed)
    ensures CallsAre(Next(s, step), given + (if step.NewWrite? then [step.data] else []),
                     wanted + (if step.NewRead? then [step.want] else []), closed || step == Close)
  {
    hide Readable, Writable;
  }

  lemma {:induction false} RunCalls(steps: seq<Step>)
    ensures CallsAre(Run(EMPTY_PIPE, steps), Writes(steps), Reads(steps), Close in steps)
  {
    hide Next, CallsAre;
    var n := |steps| - 1;
    if steps == [] {
      assert CallsAre(EMPTY_PIPE, [], [], false) by { NoCalls(); }
    } else {
      RunCalls(steps[..n]);
      NextCalls(Run(EMPTY_PIPE, steps[..n]), steps[n], Writes(steps[..n]), Reads(steps[..n]), Close in steps[..n]);
      assert steps == steps[..n] + [steps[n]];
    }
  }

  lemma NoCalls()
    ensures CallsAre(EMPTY_PIPE, [], [], false)
  {
  }

  /** Over every run from the empty pipe, by its steps: what reader `i` has got are the
      bytes it has taken, no more than it asked for; what writer `i` has put in is a prefix
      of the data of write number `i`, all of it once it has returned; and the bytes put in
      are the bytes taken, in order, and then those in the ring. */
  lemma Delivered(steps: seq<Step>)
    requires AllFit(EMPTY_PIPE, steps)
    ensures var s := Run(EMPTY_PIPE, steps);
      && |s.contents| <= 32 && Bytes(s.written) == Bytes(s.taken) + s.contents
      && |s.writers| == |Writes(steps)| && |s.readers| == |Reads(steps)|
      && (forall i {:trigger Writes(steps)[i]} :: 0 <= i < |Writes(steps)| ==>
            && BytesOf(s.written, i) <= Writes(steps)[i]
            && (s.writers[i].returned ==> BytesOf(s.written, i) == Writes(steps)[i]))
      && (forall i {:trigger Reads(steps)[i]} :: 0 <= i < |Reads(steps)| ==>
            && BytesOf(s.taken, i) == s.readers[i].got && |s.readers[i].got| <= Reads(steps)[i]
            && (s.readers[i].returned && |s.readers[i].got| < Reads(steps)[i] ==> Close in steps && s.contents == []))
  {
    EmptySafe();
    RunSafe(EMPTY_PIPE, steps);
    RunCalls(steps);
    hide Run, Writes, Reads, AllFit, Bytes, BytesOf;
  }

  lemma EmptySafe()
    ensures Safe(EMPTY_PIPE)
  {
  }

  class Pipe {
    const ring: PipeRingBuffer
    var open: bool
    var readers: seq<ReadCall>
    var writers: seq<WriteCall>
    ghost var written: seq<Event>
    ghost var taken: seq<Event>

    ghost function Val(): State
      requires ring.Valid()
      reads this, ring, ring.arr
    {
      State(ring.Contents(), open, readers, writers, written, taken)
    }

    ghost predicate Valid()
      reads this, ring, ring.arr
    {
      ring.Valid() && Safe(Val())
    }

    constructor ()
      ensures Valid() && fresh(ring) && fresh(ring.arr) && Val() == EMPTY_PIPE
    {
      ring := new PipeRingBuffer();
      open, readers, writers, written, taken := true, [], [], [], [];
    }

    /** `read` from the top of its loop until it suspends or returns. */
    method ReadStep(i: nat)
      requires Valid() && Fits(Val(), GoRead(i))
      modifies this`readers, this`taken, ring
      ensures Valid() && Val() == ReadGoes(old(Val()), i)
    {
      ReaderRoom(readers, taken, !open && ring.Contents() == [], i);
      ReadSafe(Val(), i);
      hide Safe, Ring, Bytes, Count, Tagged, BytesOf;
      var bs, returned := ring.ReadLoop(readers[i].want - |readers[i].got|, !open);
      assert bs == Readable(old(Val()), i);
      readers := readers[i := ReadCall(readers[i].want, readers[i].got + bs, returned)];
      taken := taken + Tagged(i, bs);
    }

    /** `write` from the top of its loop until it suspends or returns. */
    method WriteStep(i: nat)
      requires Valid() && Fits(Val(), GoWrite(i))
      modifies this`writers, this`written, ring, ring.arr
      ensures Valid() && Val() == WriteGoes(old(Val()), i)
    {
      WriterRoom(writers, written, open, i);
      WriteSafe(Val(), i);
      hide Safe, Ring, Bytes, Count, Tagged, BytesOf;
      var data, start := writers[i].data, writers[i].sent;
      ghost var s := Val();
      var k, returned := ring.WriteLoop(data[start..]);
      ghost var bs := data[start..start + k];
      WritableSlice(s, i, k);
      writers := writers[i := WriteCall(data, start + k, returned)];
      written := written + Tagged(i, bs);
      assert Val() == WriteGoes(s, i);
    }

    method Exec(step: Step)
      requires Valid() && Fits(Val(), step)
      modifies this, ring, ring.arr
      ensures Valid() && Val() == Next(old(Val()), step)
    {
      NextSafe(Val(), step);
      hide Safe, ReadGoes, WriteGoes, Ring, Count;
      match step {
        case NewRead(want) => readers := readers + [ReadCall(want, [], false)];
        case NewWrite(data) => writers := writers + [WriteCall(data, 0, false)];
        case Close => open := false;
        case GoRead(i) => ReadStep(i);
        case GoWrite(i) => WriteStep(i);
      }
    }

    /** Any interleaving of calls of `read` and `write`. */
    method ExecAll(steps: seq<Step>)
      requires Valid() && AllFit(Val(), steps)
      modifies this, ring, ring.arr
      ensures Valid() && Val() == Run(old(Val()), steps)
    {
      hide Safe, Next, Fits, Ring, Count;
      var n := 0;
      while n < |steps|
        invariant 0 <= n <= |steps| && Valid()
        invariant Val() == Run(old(Val()), steps[..n])
      {
        assert steps[..n + 1][..n] == steps[..n];
        Exec(steps[n]);
        n := n + 1;
      }
      assert steps[..n] == steps;
    }
  }
}
