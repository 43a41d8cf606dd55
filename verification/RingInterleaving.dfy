/** One writer and one lock-free reader, interleaved load by load and store by store.

    The writer publishes `feed(0)`, `feed(1)`, ... with the stores of `_process_queue` in their order;
    the reader performs one `read_latest` or one `read_absolute` with the loads of `_populate_data_enty` in
    theirs, which pass over the payload twice. Memory is sequentially consistent. */
module RingInterleaving {
  import opened MachineInts
  import opened RingArithmetic
  import opened RingSpec

  datatype Actor = Writer | Reader

  /** What the reader is called with: `read_latest`, or `read_absolute` of a slot. */
  datatype Request = Latest | Absolute(slot: uint32)

  datatype WriterAt = Idle | Bytes(done: nat) | Sequence | Head | BufferSequence

  /** `loadedAt` counts the publishes complete at the reader's first step, which loads the head for
      `read_latest`. The last state counts the publishes complete and begun at the last load. */
  datatype ReaderAt =
    | Start
    | Summing(loadedAt: nat, slot: uint32, seen: seq<uint8>)
    | Copying(loadedAt: nat, slot: uint32, seen: seq<uint8>)
    | EntrySequence(loadedAt: nat, slot: uint32, seen: seq<uint8>)
    | Timestamp(loadedAt: nat, slot: uint32, seen: seq<uint8>, sequence: uint32)
    | Done(loadedAt: nat, complete: nat, begun: nat, result: Option<DataEntry>)

  datatype World = World(frames: seq<Frame>, head: uint32, published: nat, writer: WriterAt, request: Request,
                         reader: ReaderAt)
  {
    function Begun(): nat {
      published + if writer.Idle? || writer.BufferSequence? then 0 else 1
    }
  }

  /** Every publish fits its slot. */
  ghost predicate FittingFeed(shape: Shape, feed: nat -> DataEntry) {
    shape.Valid() && forall i :: |feed(i).data| <= shape.sizePerFrame
  }

  ghost predicate FullFeed(shape: Shape, feed: nat -> DataEntry) {
    FittingFeed(shape, feed) && forall i :: |feed(i).data| == shape.sizePerFrame
  }

  /** The first `count` publishes of the writer. */
  function History(feed: nat -> DataEntry, count: nat): (h: seq<DataEntry>)
    ensures |h| == count
  {
    seq(count, i requires 0 <= i < count => feed(i))
  }

  ghost predicate Shaped(shape: Shape, w: World) {
    && 0 < shape.numFrames == |w.frames|
    && (forall k :: 0 <= k < |w.frames| ==> |w.frames[k].data| == shape.sizePerFrame)
    && w.head == w.published % shape.numFrames
    && (w.writer.Bytes? ==> w.writer.done <= shape.sizePerFrame)
    && match w.reader
       case Summing(_, slot, seen) => slot < shape.numFrames && |seen| <= shape.sizePerFrame
       case Copying(_, slot, seen) => slot < shape.numFrames && |seen| <= shape.sizePerFrame
       case EntrySequence(_, slot, _) => slot < shape.numFrames
       case Timestamp(_, slot, _, _) => slot < shape.numFrames
       case _ => true
  }

  function InitialWorld(shape: Shape, request: Request): (w: World)
    requires shape.Valid()
    ensures Shaped(shape, w)
  {
    ModSmall(0, shape.numFrames);
    World(seq(shape.numFrames, _ => BlankFrame(shape)), 0, 0, Idle, request, Start)
  }

  /** The writer's next store. */
  function WriterStep(shape: Shape, feed: nat -> DataEntry, w: World): (w': World)
    requires FittingFeed(shape, feed) && Shaped(shape, w)
    ensures Shaped(shape, w') && w'.reader == w.reader && w'.request == w.request
    ensures w.Begun() <= w'.Begun() && w.published <= w'.published
  {
    var n := shape.numFrames;
    var entry := feed(w.published);
    var k := GetHead(w.head, 0, n);
    assert k == w.head by { NextHead(w.published, n); }
    var f := w.frames[k];
    match w.writer
    case Idle =>
      w.(frames := w.frames[k := f.(timestamp := entry.timestamp)], writer := Bytes(0))
    case Bytes(i) =>
      if i < |entry.data| then
        w.(frames := w.frames[k := f.(data := f.data[i := entry.data[i]])], writer := Bytes(i + 1))
      else
        w.(frames := w.frames[k := f.(checksum := shape.crc(entry.data))], writer := Sequence)
    case Sequence =>
      w.(frames := w.frames[k := f.(sequence := entry.sequence)], writer := Head)
    case Head =>
      var newHead := GetHead(w.head, -1, n);
      assert newHead == (w.published + 1) % n by { NextHead(w.published, n); }
      w.(head := newHead, published := w.published + 1, writer := BufferSequence)
    case BufferSequence =>
      w.(writer := Idle)
  }

  /** The reader's next load. */
  function ReaderStep(shape: Shape, w: World): (w': World)
    requires shape.Valid() && Shaped(shape, w)
    ensures Shaped(shape, w') && w' == w.(reader := w'.reader)
  {
    match w.reader
    case Start =>
      var slot := SlotOf(w.request, w.head, shape.numFrames);
      if slot < shape.numFrames then w.(reader := Summing(w.published, slot, []))
      else w.(reader := Done(w.published, w.published, w.Begun(), None))
    case Summing(at, slot, seen) =>
      if |seen| < shape.sizePerFrame then
        w.(reader := Summing(at, slot, seen + [w.frames[slot].data[|seen|]]))
      else if shape.crc(seen) != w.frames[slot].checksum then
        w.(reader := Done(at, w.published, w.Begun(), None))
      else
        w.(reader := Copying(at, slot, []))
    case Copying(at, slot, seen) =>
      if |seen| < shape.sizePerFrame then
        w.(reader := Copying(at, slot, seen + [w.frames[slot].data[|seen|]]))
      else
        w.(reader := EntrySequence(at, slot, seen))
    case EntrySequence(at, slot, seen) =>
      w.(reader := Timestamp(at, slot, seen, w.frames[slot].sequence))
    case Timestamp(at, slot, seen, sequence) =>
      var entry := DataEntry(seen, slot, sequence, w.frames[slot].timestamp);
      w.(reader := Done(at, w.published, w.Begun(), Some(entry)))
    case Done(_, _, _, _) =>
      w
  }

  /** The slot of a request, for the head it loads. */
  function SlotOf(request: Request, head: uint32, n: uint32): uint32 {
    match request
    case Latest => GetHead(head, 1, n)
    case Absolute(slot) => slot
  }

  function Step(shape: Shape, feed: nat -> DataEntry, w: World, actor: Actor): (w': World)
    requires FittingFeed(shape, feed) && Shaped(shape, w)
    ensures Shaped(shape, w')
  {
    if actor == Writer then WriterStep(shape, feed, w) else ReaderStep(shape, w)
  }

  function Run(shape: Shape, feed: nat -> DataEntry, w: World, schedule: seq<Actor>): (w': World)
    requires FittingFeed(shape, feed) && Shaped(shape, w)
    ensures Shaped(shape, w')
  {
    if schedule == [] then
      w
    else
      var last := |schedule| - 1;
      Step(shape, feed, Run(shape, feed, w, schedule[..last]), schedule[last])
  }

  // The writer's side of the invariant

  /** Slot `k` after the first `count` publishes. */
  function Settled(shape: Shape, feed: nat -> DataEntry, count: nat, k: nat): (f: Frame)
    requires FittingFeed(shape, feed)
    ensures |f.data| == shape.sizePerFrame
  {
    SlotAfter(shape, History(feed, count), k)
  }

  lemma SettledStep(shape: Shape, feed: nat -> DataEntry, count: nat, k: nat)
    requires FittingFeed(shape, feed)
    ensures Settled(shape, feed, count + 1, k)
         == if count % shape.numFrames == k then Overwrite(shape, Settled(shape, feed, count, k), feed(count))
            else Settled(shape, feed, count, k)
  {
    assert History(feed, count + 1)[..count] == History(feed, count);
  }

  /** The slot that a publish under way is changing. */
  predicate Busy(w: World, k: nat) {
    k == w.head && !w.writer.Idle? && !w.writer.BufferSequence?
  }

  /** Every slot but that one holds what the complete publishes put there. */
  ghost predicate Refines(shape: Shape, feed: nat -> DataEntry, w: World)
    requires FittingFeed(shape, feed) && Shaped(shape, w)
  {
    forall k :: 0 <= k < |w.frames| && !Busy(w, k) ==> w.frames[k] == Settled(shape, feed, w.published, k)
  }

  /** The part of the next publish that is already in its slot. */
  ghost predicate WriterProgress(shape: Shape, feed: nat -> DataEntry, w: World)
    requires FittingFeed(shape, feed) && Shaped(shape, w)
  {
    var f, entry, before := w.frames[w.head], feed(w.published), Settled(shape, feed, w.published, w.head);
    match w.writer
    case Idle => true
    case Bytes(i) => f.timestamp == entry.timestamp && i <= |entry.data| && f.data == entry.data[..i] + before.data[i..]
    case Sequence => f.(sequence := entry.sequence) == Overwrite(shape, before, entry)
    case Head => f == Overwrite(shape, before, entry)
    case BufferSequence => true
  }

  lemma WriterKeepsSlots(shape: Shape, feed: nat -> DataEntry, w: World)
    requires FittingFeed(shape, feed) && Shaped(shape, w)
    requires Refines(shape, feed, w) && WriterProgress(shape, feed, w)
    ensures Refines(shape, feed, WriterStep(shape, feed, w))
    ensures WriterProgress(shape, feed, WriterStep(shape, feed, w))
  {
    NextHead(w.published, shape.numFrames);
    if w.writer.Head? {
      forall k | 0 <= k < |w.frames|
        ensures w.frames[k] == Settled(shape, feed, w.published + 1, k)
      {
        SettledStep(shape, feed, w.published, k);
      }
    } else if w.writer.Bytes? {
      var i, e, f := w.writer.done, feed(w.published), w.frames[w.head];
      var before := Settled(shape, feed, w.published, w.head);
      if i < |e.data| {
        assert f.data[i := e.data[i]] == e.data[..i + 1] + before.data[i + 1..];
      } else {
        assert e.data[..i] == e.data;
      }
    }
  }

  // The reader's side

  /** The first publish from `at` on that goes to slot `k`. */
  function NextInto(k: nat, at: nat, n: uint32): (j: nat)
    requires k < n
    ensures at <= j < at + n
  {
    at + (k - at) % n
  }

  lemma NextIntoIsFirst(k: nat, at: nat, n: uint32, j: nat)
    requires k < n && at <= j
    ensures NextInto(k, at, n) % n == k
    ensures j % n == k ==> NextInto(k, at, n) <= j
  {
    var first := NextInto(k, at, n);
    ModAddMod(k - at, at, n);
    ModSmall(k, n);
    if j % n == k && j < first {
      SameSlotSameIndex(j, first, n);
    }
  }

  /** The newest publish in a slot and the next one into it are one lap apart. */
  lemma NextIsLapLater(k: nat, at: nat, n: uint32)
    requires k < n && k < at
    ensures NextInto(k, at, n) == NewestIn(k, at, n) + n
  {
    var j := NewestIn(k, at, n);
    ModStep(j, n);
    NextIntoIsFirst(k, at, n, j + n);
    var first := NextInto(k, at, n);
    if first < j + n {
      SameSlotSameIndex(first, j + n, n);
    }
  }

  lemma {:induction false} SettledStays(shape: Shape, feed: nat -> DataEntry, at: nat, count: nat, k: nat)
    requires FittingFeed(shape, feed) && k < shape.numFrames && at <= count <= NextInto(k, at, shape.numFrames)
    ensures Settled(shape, feed, count, k) == Settled(shape, feed, at, k)
    decreases count
  {
    if at < count {
      SettledStays(shape, feed, at, count - 1, k);
      SettledStep(shape, feed, count - 1, k);
      NextIntoIsFirst(k, at, shape.numFrames, count - 1);
    }
  }

  /** While the next publish into the slot has not begun, the slot is as it was at the first load. */
  lemma SlotUndisturbed(shape: Shape, feed: nat -> DataEntry, w: World, at: nat, k: nat)
    requires FittingFeed(shape, feed) && Shaped(shape, w) && Refines(shape, feed, w)
    requires k < shape.numFrames && at <= w.published && w.Begun() <= NextInto(k, at, shape.numFrames)
    ensures w.frames[k] == Settled(shape, feed, at, k)
  {
    SettledStays(shape, feed, at, w.published, k);
    if Busy(w, k) {
      NextIntoIsFirst(k, at, shape.numFrames, w.published);
    }
  }

  /** What the reader has seen of a frame. */
  predicate Sees(r: ReaderAt, f: Frame, shape: Shape) {
    match r
    case Start => true
    case Summing(_, _, seen) => |seen| <= |f.data| && seen == f.data[..|seen|]
    case Copying(_, _, seen) => |seen| <= |f.data| && seen == f.data[..|seen|] && shape.crc(f.data) == f.checksum
    case EntrySequence(_, _, seen) => seen == f.data && shape.crc(f.data) == f.checksum
    case Timestamp(_, _, seen, sequence) =>
      seen == f.data && shape.crc(f.data) == f.checksum && sequence == f.sequence
    case Done(_, _, _, _) => true
  }

  /** Unless the next publish into its slot has begun, all that was read is of the slot at the first load. */
  ghost predicate ReaderProgress(shape: Shape, feed: nat -> DataEntry, w: World)
    requires FittingFeed(shape, feed)
  {
    w.reader.Start? ||
    var r, n := w.reader, shape.numFrames;
    var k := SlotOf(w.request, r.loadedAt % n, n);
    && r.loadedAt <= w.published
    && (!r.Done? ==>
          && r.slot == k < n
          && (w.Begun() <= NextInto(k, r.loadedAt, n) ==> Sees(r, Settled(shape, feed, r.loadedAt, k), shape)))
    && (r.Done? ==>
          && r.loadedAt <= r.complete <= r.begun <= r.complete + 1
          && (k >= n ==> r.result == None)
          && (k < n && r.begun <= NextInto(k, r.loadedAt, n) ==>
                r.result == Populate(shape, Settled(shape, feed, r.loadedAt, k), k)))
  }

  ghost predicate Inv(shape: Shape, feed: nat -> DataEntry, w: World) {
    && FittingFeed(shape, feed)
    && Shaped(shape, w)
    && Refines(shape, feed, w)
    && WriterProgress(shape, feed, w)
    && ReaderProgress(shape, feed, w)
  }

  lemma WriterKeepsInv(shape: Shape, feed: nat -> DataEntry, w: World)
    requires Inv(shape, feed, w)
    ensures Inv(shape, feed, WriterStep(shape, feed, w))
  {
    WriterKeepsSlots(shape, feed, w);
  }

  lemma ReaderKeepsInv(shape: Shape, feed: nat -> DataEntry, w: World)
    requires Inv(shape, feed, w)
    ensures Inv(shape, feed, ReaderStep(shape, w))
  {
    var n, w' := shape.numFrames, ReaderStep(shape, w);
    if !w.reader.Start? && !w.reader.Done? {
      var k, at := w.reader.slot, w.reader.loadedAt;
      if w.Begun() <= NextInto(k, at, n) {
        SlotUndisturbed(shape, feed, w, at, k);
        SeesMore(w.reader, w.frames[k]);
      }
    }
  }

  lemma SeesMore(r: ReaderAt, f: Frame)
    requires r.Summing? || r.Copying? ==> |r.seen| <= |f.data| && r.seen == f.data[..|r.seen|]
    ensures (r.Summing? || r.Copying?) && |r.seen| < |f.data| ==>
      r.seen + [f.data[|r.seen|]] == f.data[..|r.seen| + 1]
    ensures (r.Summing? || r.Copying?) && |r.seen| == |f.data| ==> r.seen == f.data
  {
  }

  lemma {:induction false} RunKeepsInv(shape: Shape, feed: nat -> DataEntry, w: World, schedule: seq<Actor>)
    requires Inv(shape, feed, w)
    ensures Inv(shape, feed, Run(shape, feed, w, schedule))
  {
    if schedule != [] {
      var last := |schedule| - 1;
      RunKeepsInv(shape, feed, w, schedule[..last]);
      var before := Run(shape, feed, w, schedule[..last]);
      WriterKeepsInv(shape, feed, before);
      ReaderKeepsInv(shape, feed, before);
    }
  }

  lemma InitialInv(shape: Shape, feed: nat -> DataEntry, request: Request)
    requires FittingFeed(shape, feed)
    ensures Inv(shape, feed, InitialWorld(shape, request))
  {
    assert History(feed, 0) == [];
  }

  // The theorems

  /** What a read means that runs alone after the publishes of `history`. */
  function Answer(shape: Shape, request: Request, history: seq<DataEntry>): Option<DataEntry>
    requires 0 < shape.numFrames && Fits(shape, history)
  {
    match request
    case Latest => ReadLatestAfter(shape, history)
    case Absolute(slot) => ReadAbsoluteAfter(shape, history, slot)
  }

  lemma HistoryFits(shape: Shape, feed: nat -> DataEntry, count: nat)
    requires FittingFeed(shape, feed)
    ensures Fits(shape, History(feed, count))
  {
  }

  /** In every interleaving, for payloads of any size: a read whose slot has not begun to be reused at its
      last load returns what a read alone would have returned at its first load. */
  lemma ReadUntilReuse(shape: Shape, feed: nat -> DataEntry, request: Request, schedule: seq<Actor>)
    requires FittingFeed(shape, feed)
    ensures var r, n := Run(shape, feed, InitialWorld(shape, request), schedule).reader, shape.numFrames;
      r.Done? ==>
        var k, history := SlotOf(request, r.loadedAt % n, n), History(feed, r.loadedAt);
        && Fits(shape, history)
        && (k >= n || r.begun <= NextInto(k, r.loadedAt, n) ==> r.result == Answer(shape, request, history))
  {
    InitialInv(shape, feed, request);
    RunKeepsInv(shape, feed, InitialWorld(shape, request), schedule);
    RunKeepsRequest(shape, feed, InitialWorld(shape, request), schedule);
    var r := Run(shape, feed, InitialWorld(shape, request), schedule).reader;
    if r.Done? {
      HistoryFits(shape, feed, r.loadedAt);
      GetHeadPromoted(r.loadedAt % shape.numFrames, 1, shape.numFrames);
    }
  }

  lemma {:induction false} RunKeepsRequest(shape: Shape, feed: nat -> DataEntry, w: World, schedule: seq<Actor>)
    requires FittingFeed(shape, feed) && Shaped(shape, w)
    ensures Run(shape, feed, w, schedule).request == w.request
  {
    if schedule != [] {
      RunKeepsRequest(shape, feed, w, schedule[..|schedule| - 1]);
    }
  }

  /** Publish `j` as it should be returned. */
  function Unaltered(feed: nat -> DataEntry, j: nat, n: uint32): DataEntry
    requires 0 < n
  {
    EntryAt(History(feed, j + 1), j, n)
  }

  /** The publish that a read should return: the last one for `read_latest`, the newest in its slot for
      `read_absolute`. There is none if nothing is published there, and for `read_latest` if the head has just
      wrapped to 0 in a ring whose size does not divide 2^32. */
  function Wanted(request: Request, at: nat, n: uint32): (j: Option<nat>)
    requires 0 < n
    ensures j.Some? ==> j.value < at <= j.value + n
  {
    match request
    case Latest => if at > 0 && (at % n != 0 || U32_RANGE % n == 0) then Some(at - 1) else None
    case Absolute(slot) => if slot < n && slot < at then Some(NewestIn(slot, at, n)) else None
  }

  /** The answer of a read alone is the publish it should return. */
  lemma AnswerIsWanted(shape: Shape, feed: nat -> DataEntry, request: Request, at: nat)
    requires FullFeed(shape, feed) && Wanted(request, at, shape.numFrames).Some?
    ensures Fits(shape, History(feed, at))
    ensures var n, j := shape.numFrames, Wanted(request, at, shape.numFrames).value;
      && SlotOf(request, at % n, n) == j % n
      && NextInto(j % n, at, n) == j + n
      && Answer(shape, request, History(feed, at)) == Some(Unaltered(feed, j, n))
  {
    var n, j, history := shape.numFrames, Wanted(request, at, shape.numFrames).value, History(feed, at);
    HistoryFits(shape, feed, at);
    NewestIsAt(j, at, n);
    NextIsLapLater(j % n, at, n);
    match request {
      case Latest =>
        LatestIndexSlot(at, n);
        LatestIndexIsLast(at, n);
        ReadLatestReturns(shape, history);
      case Absolute(slot) =>
        ReadAbsoluteReturns(shape, history, slot);
    }
    ReadBackOfFullSize(shape, history, j);
  }

  /** In every interleaving: a read returns exactly the publish it should, whole, if fewer than `n` publishes
      after that one are complete at its last load. */
  lemma LapBoundedRequest(shape: Shape, feed: nat -> DataEntry, request: Request, schedule: seq<Actor>)
    requires FullFeed(shape, feed)
    ensures var r, n := Run(shape, feed, InitialWorld(shape, request), schedule).reader, shape.numFrames;
      r.Done? && Wanted(request, r.loadedAt, n).Some? ==>
        var j := Wanted(request, r.loadedAt, n).value;
        r.complete < j + n ==> r.result == Some(Unaltered(feed, j, n))
  {
    ReadUntilReuse(shape, feed, request, schedule);
    InitialInv(shape, feed, request);
    RunKeepsInv(shape, feed, InitialWorld(shape, request), schedule);
    var r := Run(shape, feed, InitialWorld(shape, request), schedule).reader;
    if r.Done? && Wanted(request, r.loadedAt, shape.numFrames).Some? {
      AnswerIsWanted(shape, feed, request, r.loadedAt);
    }
  }

  /** For `read_latest`: with at most `n - 2` publishes completed between the head load and the last load,
      the read returns the last frame published before the head load, unless that head was 0 in a ring
      whose size does not divide 2^32. */
  lemma LapBoundedRead(shape: Shape, feed: nat -> DataEntry, schedule: seq<Actor>)
    requires FullFeed(shape, feed)
    ensures var r := Run(shape, feed, InitialWorld(shape, Latest), schedule).reader;
      var n := shape.numFrames;
      r.Done? && r.loadedAt > 0 && (r.loadedAt % n != 0 || U32_RANGE % n == 0)
      && r.complete - r.loadedAt <= n - 2 ==>
        r.result == Some(Unaltered(feed, r.loadedAt - 1, n))
  {
    LapBoundedRequest(shape, feed, Latest, schedule);
  }

  /** For `read_absolute`: while the writer is at most a ring ahead of publish `p`, a read of its slot returns
      publish `p`, if the writer has completed fewer than `n` publishes after it at the last load. */
  lemma LapBoundedSlotRead(shape: Shape, feed: nat -> DataEntry, p: nat, schedule: seq<Actor>)
    requires FullFeed(shape, feed)
    ensures var n := shape.numFrames;
      var r := Run(shape, feed, InitialWorld(shape, Absolute(p % n)), schedule).reader;
      r.Done? && p < r.loadedAt <= p + n && r.complete < p + n ==> r.result == Some(Unaltered(feed, p, n))
  {
    var n := shape.numFrames;
    LapBoundedRequest(shape, feed, Absolute(p % n), schedule);
    var r := Run(shape, feed, InitialWorld(shape, Absolute(p % n)), schedule).reader;
    if r.Done? && p < r.loadedAt <= p + n {
      NewestIsAt(p, r.loadedAt, n);
    }
  }

  lemma {:induction false} RunConcat(shape: Shape, feed: nat -> DataEntry, w: World, s: seq<Actor>, t: seq<Actor>)
    requires FittingFeed(shape, feed) && Shaped(shape, w)
    ensures Run(shape, feed, w, s + t) == Run(shape, feed, Run(shape, feed, w, s), t)
  {
    if t == [] {
      assert s + t == s;
    } else {
      assert (s + t)[..|s + t| - 1] == s + t[..|t| - 1];
      RunConcat(shape, feed, w, s, t[..|t| - 1]);
    }
  }

  /** The writer can store the rest of the payload without the reader moving. */
  lemma {:induction false} FinishBytes(shape: Shape, feed: nat -> DataEntry, w: World) returns (s: seq<Actor>)
    requires Inv(shape, feed, w) && w.writer.Bytes?
    ensures var w' := Run(shape, feed, w, s);
      && w'.writer == Bytes(|feed(w.published).data|) && w'.published == w.published && w'.reader == w.reader
      && w'.frames[w.head].sequence == w.frames[w.head].sequence
    decreases |feed(w.published).data| - w.writer.done
  {
    if w.writer.done == |feed(w.published).data| {
      s := [];
    } else {
      NextHead(w.published, shape.numFrames);
      WriterKeepsInv(shape, feed, w);
      var w1 := WriterStep(shape, feed, w);
      var rest := FinishBytes(shape, feed, w1);
      s := [Writer] + rest;
      RunConcat(shape, feed, w, [Writer], rest);
      assert Run(shape, feed, w, [Writer]) == w1;
    }
  }

  // A read, load by load

  /** The worlds that the reader's steps found. */
  function Found(shape: Shape, feed: nat -> DataEntry, w: World, schedule: seq<Actor>): (v: seq<World>)
    requires FittingFeed(shape, feed) && Shaped(shape, w)
    ensures AllShaped(shape, v)
  {
    if schedule == [] then
      []
    else
      var last := |schedule| - 1;
      var before := Found(shape, feed, w, schedule[..last]);
      if schedule[last] == Reader then before + [Run(shape, feed, w, schedule[..last])] else before
  }

  ghost predicate AllShaped(shape: Shape, v: seq<World>) {
    forall i :: 0 <= i < |v| ==> Shaped(shape, v[i])
  }

  /** Byte `b` of `seen` is the one in the slot at step `from + b`. */
  ghost predicate LoadedFrom(shape: Shape, v: seq<World>, from: nat, slot: uint32, seen: seq<uint8>)
    requires AllShaped(shape, v) && slot < shape.numFrames && |seen| <= shape.sizePerFrame
  {
    && from + |seen| <= |v|
    && forall b :: 0 <= b < |seen| ==> seen[b] == v[from + b].frames[slot].data[b]
  }

  /** The bytes loaded in the first pass have the checksum loaded right after them, or not. */
  ghost predicate FirstPass(shape: Shape, v: seq<World>, slot: uint32, passes: bool)
    requires AllShaped(shape, v) && slot < shape.numFrames && shape.sizePerFrame + 2 <= |v|
  {
    exists sum: seq<uint8> ::
      && |sum| == shape.sizePerFrame && LoadedFrom(shape, v, 1, slot, sum)
      && (passes <==> shape.crc(sum) == v[shape.sizePerFrame + 1].frames[slot].checksum)
  }

  /** The reader has loaded, in this order: the head, the payload, the checksum, the payload again, and - one
      step after its end - the number and the time. */
  ghost predicate LoadedBy(shape: Shape, request: Request, v: seq<World>, r: ReaderAt)
    requires AllShaped(shape, v)
  {
    var size, n := shape.sizePerFrame, shape.numFrames;
    match r
    case Start => v == []
    case Summing(_, slot, seen) =>
      && |v| == 1 + |seen| && |seen| <= size && slot == SlotOf(request, v[0].head, n) < n
      && LoadedFrom(shape, v, 1, slot, seen)
    case Copying(_, slot, seen) =>
      && |v| == 2 + size + |seen| && |seen| <= size && slot == SlotOf(request, v[0].head, n) < n
      && FirstPass(shape, v, slot, true) && LoadedFrom(shape, v, 2 + size, slot, seen)
    case EntrySequence(_, slot, seen) =>
      && |v| == 3 + 2 * size && |seen| == size && slot == SlotOf(request, v[0].head, n) < n
      && FirstPass(shape, v, slot, true) && LoadedFrom(shape, v, 2 + size, slot, seen)
    case Timestamp(_, slot, seen, sequence) =>
      && |v| == 4 + 2 * size && |seen| == size && slot == SlotOf(request, v[0].head, n) < n
      && FirstPass(shape, v, slot, true) && LoadedFrom(shape, v, 2 + size, slot, seen)
      && sequence == v[3 + 2 * size].frames[slot].sequence
    case Done(_, _, _, None) =>
      && v != []
      && var slot := SlotOf(request, v[0].head, n);
         slot < n ==> size + 2 <= |v| && FirstPass(shape, v, slot, false)
    case Done(_, complete, _, Some(entry)) =>
      && 5 + 2 * size <= |v| && |entry.data| == size && entry.head == SlotOf(request, v[0].head, n) < n
      && FirstPass(shape, v, entry.head, true) && LoadedFrom(shape, v, 2 + size, entry.head, entry.data)
      && entry.sequence == v[3 + 2 * size].frames[entry.head].sequence
      && entry.timestamp == v[4 + 2 * size].frames[entry.head].timestamp
      && complete == v[4 + 2 * size].published
  }

  lemma LoadOneMore(shape: Shape, v: seq<World>, w: World, from: nat, slot: uint32, seen: seq<uint8>)
    requires AllShaped(shape, v) && Shaped(shape, w) && slot < shape.numFrames && |seen| <= shape.sizePerFrame
    requires LoadedFrom(shape, v, from, slot, seen)
    ensures LoadedFrom(shape, v + [w], from, slot, seen)
    ensures from + |seen| == |v| && |seen| < shape.sizePerFrame ==>
      LoadedFrom(shape, v + [w], from, slot, seen + [w.frames[slot].data[|seen|]])
  {
  }

  lemma FirstPassStays(shape: Shape, v: seq<World>, w: World, slot: uint32, passes: bool)
    requires AllShaped(shape, v) && Shaped(shape, w) && slot < shape.numFrames && shape.sizePerFrame + 2 <= |v|
    requires FirstPass(shape, v, slot, passes)
    ensures FirstPass(shape, v + [w], slot, passes)
  {
    var sum: seq<uint8> :| |sum| == shape.sizePerFrame && LoadedFrom(shape, v, 1, slot, sum)
      && (passes <==> shape.crc(sum) == v[shape.sizePerFrame + 1].frames[slot].checksum);
    LoadOneMore(shape, v, w, 1, slot, sum);
  }

  lemma LoadStep(shape: Shape, v: seq<World>, w: World)
    requires shape.Valid() && AllShaped(shape, v) && Shaped(shape, w) && LoadedBy(shape, w.request, v, w.reader)
    ensures LoadedBy(shape, w.request, v + [w], ReaderStep(shape, w).reader)
  {
    match w.reader {
      case Start =>
      case Summing(_, slot, seen) =>
        LoadOneMore(shape, v, w, 1, slot, seen);
        if |seen| == shape.sizePerFrame {
          assert FirstPass(shape, v + [w], slot, shape.crc(seen) == w.frames[slot].checksum);
        }
      case Copying(_, slot, seen) =>
        LoadOneMore(shape, v, w, 2 + shape.sizePerFrame, slot, seen);
        FirstPassStays(shape, v, w, slot, true);
      case EntrySequence(_, slot, seen) =>
        LoadOneMore(shape, v, w, 2 + shape.sizePerFrame, slot, seen);
        FirstPassStays(shape, v, w, slot, true);
      case Timestamp(_, slot, seen, _) =>
        LoadOneMore(shape, v, w, 2 + shape.sizePerFrame, slot, seen);
        FirstPassStays(shape, v, w, slot, true);
      case Done(_, _, _, Some(entry)) =>
        LoadOneMore(shape, v, w, 2 + shape.sizePerFrame, entry.head, entry.data);
        FirstPassStays(shape, v, w, entry.head, true);
      case Done(_, _, _, None) =>
        if SlotOf(w.request, v[0].head, shape.numFrames) < shape.numFrames {
          FirstPassStays(shape, v, w, SlotOf(w.request, v[0].head, shape.numFrames), false);
        }
    }
  }

  /** In every interleaving: what a read returns is put together from these loads, whatever the writer did between
      them. */
  lemma {:induction false} ReadsAsLoaded(shape: Shape, feed: nat -> DataEntry, request: Request, schedule: seq<Actor>)
    requires FittingFeed(shape, feed)
    ensures var w0 := InitialWorld(shape, request);
      LoadedBy(shape, request, Found(shape, feed, w0, schedule), Run(shape, feed, w0, schedule).reader)
  {
    if schedule != [] {
      var w0, last := InitialWorld(shape, request), |schedule| - 1;
      ReadsAsLoaded(shape, feed, request, schedule[..last]);
      RunKeepsRequest(shape, feed, w0, schedule[..last]);
      if schedule[last] == Reader {
        LoadStep(shape, Found(shape, feed, w0, schedule[..last]), Run(shape, feed, w0, schedule[..last]));
      }
    }
  }

  // A publish cut short

  function Stores(k: nat): (s: seq<Actor>)
    ensures |s| == k
  {
    seq(k, _ => Writer)
  }

  /** A slot after `k` of a publish's stores: time, payload byte by byte, checksum, number. */
  function StoredSoFar(shape: Shape, before: Frame, entry: DataEntry, k: nat): (f: Frame)
    requires |entry.data| <= |before.data|
    ensures |f.data| == |before.data|
  {
    var size := |entry.data|;
    var bytes := if k == 0 then 0 else if k <= size then k - 1 else size;
    Frame(if k >= 1 then entry.timestamp else before.timestamp,
          if k >= size + 2 then shape.crc(entry.data) else before.checksum,
          if k >= size + 3 then entry.sequence else before.sequence,
          entry.data[..bytes] + before.data[bytes..])
  }

  function StoringAt(size: nat, k: nat): WriterAt
    requires k <= size + 4
  {
    if k == 0 then Idle else if k <= size + 1 then Bytes(k - 1) else if k == size + 2 then Sequence
    else if k == size + 3 then Head else BufferSequence
  }

  /** The world as a writer leaves it that stops after `k` stores: its slot is stored up to there, the others are
      untouched, and the head moves only with the store after the number. */
  ghost predicate StoppedAfter(shape: Shape, feed: nat -> DataEntry, w: World, k: nat, w': World)
    requires FittingFeed(shape, feed) && Shaped(shape, w) && k <= |feed(w.published).data| + 4
  {
    var entry := feed(w.published);
    && w'.frames == w.frames[w.head := StoredSoFar(shape, w.frames[w.head], entry, k)]
    && w'.published == w.published + (if k == |entry.data| + 4 then 1 else 0)
    && w'.writer == StoringAt(|entry.data|, k)
    && w'.reader == w.reader && w'.request == w.request
  }

  lemma {:induction false} PartialPublish(shape: Shape, feed: nat -> DataEntry, w: World, k: nat)
    requires FittingFeed(shape, feed) && Shaped(shape, w) && w.writer.Idle? && k <= |feed(w.published).data| + 4
    ensures StoppedAfter(shape, feed, w, k, Run(shape, feed, w, Stores(k)))
  {
    if k == 0 {
      var before := w.frames[w.head];
      assert feed(w.published).data[..0] + before.data[0..] == before.data;
      assert StoredSoFar(shape, before, feed(w.published), 0) == before;
    } else {
      PartialPublish(shape, feed, w, k - 1);
      assert Stores(k)[..k - 1] == Stores(k - 1);
      NextStore(shape, feed, w, k, Run(shape, feed, w, Stores(k - 1)));
    }
  }

  lemma NextStore(shape: Shape, feed: nat -> DataEntry, w: World, k: nat, w1: World)
    requires FittingFeed(shape, feed) && Shaped(shape, w) && Shaped(shape, w1)
    requires 0 < k <= |feed(w.published).data| + 4 && StoppedAfter(shape, feed, w, k - 1, w1)
    ensures StoppedAfter(shape, feed, w, k, WriterStep(shape, feed, w1))
  {
    NextHead(w.published, shape.numFrames);
    OneStore(shape, w.frames[w.head], feed(w.published), k);
  }

  /** What each store adds to the slot. */
  lemma OneStore(shape: Shape, before: Frame, entry: DataEntry, k: nat)
    requires |entry.data| <= |before.data| && 0 < k <= |entry.data| + 4
    ensures var f, size := StoredSoFar(shape, before, entry, k - 1), |entry.data|;
      StoredSoFar(shape, before, entry, k)
        == if k == 1 then f.(timestamp := entry.timestamp)
           else if k <= size + 1 then f.(data := f.data[k - 2 := entry.data[k - 2]])
           else if k == size + 2 then f.(checksum := shape.crc(entry.data))
           else if k == size + 3 then f.(sequence := entry.sequence)
           else f
  {
    if 2 <= k <= |entry.data| + 1 {
      var i := k - 2;
      assert (entry.data[..i] + before.data[i..])[i := entry.data[i]] == entry.data[..i + 1] + before.data[i + 1..];
    }
  }

  function StoresLeft(writer: WriterAt): nat {
    match writer
    case Idle => 0
    case Bytes(_) => 4
    case Sequence => 3
    case Head => 2
    case BufferSequence => 1
  }

  /** With the payload stored, the remaining stores end the publish. */
  lemma {:induction false} FinishPublish(shape: Shape, feed: nat -> DataEntry, w: World) returns (s: seq<Actor>)
    requires FittingFeed(shape, feed) && Shaped(shape, w)
    requires !w.writer.Idle? && (w.writer.Bytes? ==> w.writer.done == |feed(w.published).data|)
    ensures var w' := Run(shape, feed, w, s);
      w'.writer.Idle? && w'.published == w.Begun() && w'.reader == w.reader
    decreases StoresLeft(w.writer)
  {
    var w1 := WriterStep(shape, feed, w);
    assert Run(shape, feed, w, [Writer]) == w1;
    if w.writer.BufferSequence? {
      s := [Writer];
    } else {
      var rest := FinishPublish(shape, feed, w1);
      RunConcat(shape, feed, w, [Writer], rest);
      s := [Writer] + rest;
    }
  }

  /** The writer can publish one frame without the reader moving. */
  lemma PublishOne(shape: Shape, feed: nat -> DataEntry, w: World) returns (s: seq<Actor>)
    requires Inv(shape, feed, w) && w.writer.Idle?
    ensures var w' := Run(shape, feed, w, s);
      w'.writer.Idle? && w'.published == w.published + 1 && w'.reader == w.reader
  {
    WriterKeepsInv(shape, feed, w);
    var w1 := WriterStep(shape, feed, w);
    assert Run(shape, feed, w, [Writer]) == w1;
    var bytes := FinishBytes(shape, feed, w1);
    RunConcat(shape, feed, w, [Writer], bytes);
    var rest := FinishPublish(shape, feed, Run(shape, feed, w1, bytes));
    RunConcat(shape, feed, w, [Writer] + bytes, rest);
    s := [Writer] + bytes + rest;
  }

  lemma {:induction false} PublishMany(shape: Shape, feed: nat -> DataEntry, w: World, count: nat)
    returns (s: seq<Actor>)
    requires Inv(shape, feed, w) && w.writer.Idle?
    ensures var w' := Run(shape, feed, w, s);
      w'.writer.Idle? && w'.published == w.published + count && w'.reader == w.reader
  {
    if count == 0 {
      s := [];
    } else {
      var front := PublishMany(shape, feed, w, count - 1);
      RunKeepsInv(shape, feed, w, front);
      var one := PublishOne(shape, feed, Run(shape, feed, w, front));
      s := front + one;
      RunConcat(shape, feed, w, front, one);
    }
  }

  function PassDone(r: ReaderAt, data: seq<uint8>): ReaderAt {
    match r
    case Summing(at, slot, _) => Summing(at, slot, data)
    case Copying(at, slot, _) => Copying(at, slot, data)
    case _ => r
  }

  /** The reader can finish a pass over the payload without the writer moving. */
  lemma {:induction false} FinishPass(shape: Shape, feed: nat -> DataEntry, w: World) returns (s: seq<Actor>)
    requires FittingFeed(shape, feed) && Shaped(shape, w) && (w.reader.Summing? || w.reader.Copying?)
    requires |w.reader.seen| <= shape.sizePerFrame
    requires w.reader.seen == w.frames[w.reader.slot].data[..|w.reader.seen|]
    ensures Run(shape, feed, w, s)
         == w.(reader := PassDone(w.reader, w.frames[w.reader.slot].data))
    decreases shape.sizePerFrame - |w.reader.seen|
  {
    if |w.reader.seen| == shape.sizePerFrame {
      s := [];
    } else {
      var data, i := w.frames[w.reader.slot].data, |w.reader.seen|;
      assert data[..i + 1] == data[..i] + [data[i]];
      var w1 := ReaderStep(shape, w);
      var rest := FinishPass(shape, feed, w1);
      s := [Reader] + rest;
      RunConcat(shape, feed, w, [Reader], rest);
      assert Run(shape, feed, w, [Reader]) == w1;
    }
  }

  /** The whole frame of a publish of full size. */
  lemma SettledWhole(shape: Shape, feed: nat -> DataEntry, i: nat)
    requires FullFeed(shape, feed)
    ensures var k, f := i % shape.numFrames, Settled(shape, feed, i + 1, i % shape.numFrames);
      && f == Frame(feed(i).timestamp, shape.crc(feed(i).data), feed(i).sequence, feed(i).data)
      && NextInto(k, i + 1, shape.numFrames) == i + shape.numFrames
  {
    var k := i % shape.numFrames;
    SettledStep(shape, feed, i, k);
    assert feed(i).data + Settled(shape, feed, i, k).data[|feed(i).data|..] == feed(i).data;
    NewestIsAt(i, i + 1, shape.numFrames);
    NextIsLapLater(k, i + 1, shape.numFrames);
  }

  /** A reader can pass the checksum test on publish `i`, right after it, and stop before its second pass. */
  lemma PassTest(shape: Shape, feed: nat -> DataEntry, request: Request, i: nat) returns (schedule: seq<Actor>)
    requires FullFeed(shape, feed)
    requires Wanted(request, i + 1, shape.numFrames) == Some(i)
    ensures var w := Run(shape, feed, InitialWorld(shape, request), schedule);
      && Inv(shape, feed, w)
      && w.reader == Copying(i + 1, i % shape.numFrames, []) && w.writer.Idle? && w.published == i + 1
  {
    var n, w0 := shape.numFrames, InitialWorld(shape, request);
    InitialInv(shape, feed, request);
    var s1 := PublishMany(shape, feed, w0, i + 1);
    RunKeepsInv(shape, feed, w0, s1);
    RunKeepsRequest(shape, feed, w0, s1);
    var w1 := Run(shape, feed, w0, s1);
    AnswerIsWanted(shape, feed, request, i + 1);
    SettledWhole(shape, feed, i);
    var w2 := ReaderStep(shape, w1);
    assert Run(shape, feed, w1, [Reader]) == w2;
    var s2 := FinishPass(shape, feed, w2);
    var w3 := Run(shape, feed, w2, s2);
    assert Run(shape, feed, w3, [Reader]) == ReaderStep(shape, w3);
    RunConcat(shape, feed, w0, s1, [Reader]);
    RunConcat(shape, feed, w0, s1 + [Reader], s2);
    RunConcat(shape, feed, w0, s1 + [Reader] + s2, [Reader]);
    schedule := s1 + [Reader] + s2 + [Reader];
    RunKeepsInv(shape, feed, w0, schedule);
  }

  /** Every other slot has been published to since publish `i`. */
  ghost predicate LapDone(shape: Shape, feed: nat -> DataEntry, w: World, i: nat) {
    && Inv(shape, feed, w) && w.writer.Idle? && w.published == i + shape.numFrames
    && w.head == i % shape.numFrames && w.frames[w.head].sequence == feed(i).sequence
  }

  /** The writer can then publish to every other slot. */
  lemma LapToSlot(shape: Shape, feed: nat -> DataEntry, w: World, i: nat) returns (schedule: seq<Actor>)
    requires FullFeed(shape, feed) && Inv(shape, feed, w) && w.writer.Idle? && w.published == i + 1
    ensures LapDone(shape, feed, Run(shape, feed, w, schedule), i)
    ensures Run(shape, feed, w, schedule).reader == w.reader
  {
    schedule := PublishMany(shape, feed, w, shape.numFrames - 1);
    RunKeepsInv(shape, feed, w, schedule);
    LapIsDone(shape, feed, Run(shape, feed, w, schedule), i);
  }

  lemma LapIsDone(shape: Shape, feed: nat -> DataEntry, w: World, i: nat)
    requires FullFeed(shape, feed) && Inv(shape, feed, w) && w.writer.Idle? && w.published == i + shape.numFrames
    ensures LapDone(shape, feed, w, i)
  {
    var n, k := shape.numFrames, i % shape.numFrames;
    ModStep(i, n);
    SettledWhole(shape, feed, i);
    SettledStays(shape, feed, i + 1, i + n, k);
    assert w.head == k && !Busy(w, k);
    assert w.frames[k] == Settled(shape, feed, i + n, k);
  }

  /** From the first world to the second the writer has stored the whole payload of its next publish, and
      neither its sequence number nor anything of the reader has moved. */
  ghost predicate StoredNext(shape: Shape, feed: nat -> DataEntry, w: World, w': World)
    requires Shaped(shape, w) && Shaped(shape, w')
  {
    var f, e := w'.frames[w.head], feed(w.published);
    && w'.reader == w.reader && w'.published == w.published
    && f.data == e.data && f.timestamp == e.timestamp && f.sequence == w.frames[w.head].sequence
  }

  lemma StoreNext(shape: Shape, feed: nat -> DataEntry, w: World) returns (schedule: seq<Actor>)
    requires FullFeed(shape, feed) && Inv(shape, feed, w) && w.writer.Idle?
    ensures StoredNext(shape, feed, w, Run(shape, feed, w, schedule))
  {
    NextHead(w.published, shape.numFrames);
    WriterKeepsInv(shape, feed, w);
    var w1 := WriterStep(shape, feed, w);
    assert Run(shape, feed, w, [Writer]) == w1;
    var bytes := FinishBytes(shape, feed, w1);
    RunKeepsInv(shape, feed, w1, bytes);
    PayloadStored(shape, feed, Run(shape, feed, w1, bytes));
    RunConcat(shape, feed, w, [Writer], bytes);
    schedule := [Writer] + bytes;
  }

  /** And start over on the slot: all of the payload, the sequence number not yet. */
  lemma StartOver(shape: Shape, feed: nat -> DataEntry, w: World, i: nat) returns (schedule: seq<Actor>)
    requires FullFeed(shape, feed) && LapDone(shape, feed, w, i)
    requires w.reader == Copying(i + 1, i % shape.numFrames, [])
    ensures Overtaken(shape, feed, Run(shape, feed, w, schedule), i)
  {
    schedule := StoreNext(shape, feed, w);
  }

  lemma PayloadStored(shape: Shape, feed: nat -> DataEntry, w: World)
    requires FullFeed(shape, feed) && Inv(shape, feed, w) && w.writer == Bytes(|feed(w.published).data|)
    ensures w.frames[w.head].data == feed(w.published).data
    ensures w.frames[w.head].timestamp == feed(w.published).timestamp
  {
    var before, e := Settled(shape, feed, w.published, w.head), feed(w.published);
    assert e.data[..|e.data|] + before.data[|e.data|..] == e.data;
  }

  /** Past the checksum test the reader takes whatever its slot holds. */
  lemma FinishRead(shape: Shape, feed: nat -> DataEntry, w: World) returns (schedule: seq<Actor>)
    requires FittingFeed(shape, feed) && Shaped(shape, w) && w.reader.Copying? && w.reader.seen == []
    ensures var f, slot := w.frames[w.reader.slot], w.reader.slot;
      Run(shape, feed, w, schedule).reader
        == Done(w.reader.loadedAt, w.published, w.Begun(), Some(DataEntry(f.data, slot, f.sequence, f.timestamp)))
  {
    var s1 := FinishPass(shape, feed, w);
    var w1 := Run(shape, feed, w, s1);
    var w2 := ReaderStep(shape, w1);
    var w3 := ReaderStep(shape, w2);
    assert Run(shape, feed, w1, [Reader]) == w2;
    assert Run(shape, feed, w2, [Reader]) == w3;
    assert Run(shape, feed, w3, [Reader]) == ReaderStep(shape, w3);
    RunConcat(shape, feed, w, s1, [Reader]);
    RunConcat(shape, feed, w, s1 + [Reader], [Reader]);
    RunConcat(shape, feed, w, s1 + [Reader] + [Reader], [Reader]);
    schedule := s1 + [Reader] + [Reader] + [Reader];
  }

  /** What a read overtaken by a lap can return: the payload and timestamp of one publish with the sequence
      number of another. */
  function Torn(feed: nat -> DataEntry, i: nat, n: uint32): DataEntry
    requires 0 < n
  {
    DataEntry(feed(i + n).data, i % n, feed(i).sequence, feed(i + n).timestamp)
  }

  /** The read began right after publish `i`, ended with `n - 1` more complete, and is torn. */
  predicate EndsTorn(feed: nat -> DataEntry, r: ReaderAt, i: nat, n: uint32)
    requires 0 < n
  {
    r.Done? && r.loadedAt == i + 1 && r.complete == i + n && r.result == Some(Torn(feed, i, n))
  }

  /** The reader stands before its second pass over publish `i`, whose slot already holds the payload and the
      time of publish `i + n`. */
  ghost predicate Overtaken(shape: Shape, feed: nat -> DataEntry, w: World, i: nat)
    requires Shaped(shape, w)
  {
    var n, k := shape.numFrames, i % shape.numFrames;
    && w.reader == Copying(i + 1, k, []) && w.published == i + n
    && w.frames[k].data == feed(i + n).data && w.frames[k].timestamp == feed(i + n).timestamp
    && w.frames[k].sequence == feed(i).sequence
  }

  lemma FinishTorn(shape: Shape, feed: nat -> DataEntry, w: World, i: nat) returns (schedule: seq<Actor>)
    requires FittingFeed(shape, feed) && Shaped(shape, w) && Overtaken(shape, feed, w, i)
    ensures EndsTorn(feed, Run(shape, feed, w, schedule).reader, i, shape.numFrames)
  {
    schedule := FinishRead(shape, feed, w);
  }

  /** A whole lap and the start of the next publish, without the reader moving. */
  lemma Overtake(shape: Shape, feed: nat -> DataEntry, w: World, i: nat) returns (schedule: seq<Actor>)
    requires FullFeed(shape, feed) && Inv(shape, feed, w) && w.writer.Idle? && w.published == i + 1
    requires w.reader == Copying(i + 1, i % shape.numFrames, [])
    ensures Overtaken(shape, feed, Run(shape, feed, w, schedule), i)
  {
    var s1 := LapToSlot(shape, feed, w, i);
    var s2 := StartOver(shape, feed, Run(shape, feed, w, s1), i);
    RunConcat(shape, feed, w, s1, s2);
    schedule := s1 + s2;
  }

  /** Past the checksum test on publish `i` a whole lap can go by before the second pass. */
  lemma OvertakeReader(shape: Shape, feed: nat -> DataEntry, w: World, i: nat) returns (schedule: seq<Actor>)
    requires FullFeed(shape, feed) && Inv(shape, feed, w) && w.writer.Idle? && w.published == i + 1
    requires w.reader == Copying(i + 1, i % shape.numFrames, [])
    ensures EndsTorn(feed, Run(shape, feed, w, schedule).reader, i, shape.numFrames)
  {
    var s1 := Overtake(shape, feed, w, i);
    var s2 := FinishTorn(shape, feed, Run(shape, feed, w, s1), i);
    RunConcat(shape, feed, w, s1, s2);
    schedule := s1 + s2;
  }

  /** The bound is the best possible, for every ring, request and feed: with `n - 1` publishes completed after
      the wanted one (for `read_latest`, during the read) there is an interleaving in which the checksum test
      passes and the read is torn. In a ring of one slot this needs no publish during the read. */
  lemma LapBoundIsTight(shape: Shape, feed: nat -> DataEntry, request: Request, i: nat) returns (schedule: seq<Actor>)
    requires FullFeed(shape, feed)
    requires Wanted(request, i + 1, shape.numFrames) == Some(i)
    ensures EndsTorn(feed, Run(shape, feed, InitialWorld(shape, request), schedule).reader, i, shape.numFrames)
  {
    var w0 := InitialWorld(shape, request);
    var s1 := PassTest(shape, feed, request, i);
    var s2 := OvertakeReader(shape, feed, Run(shape, feed, w0, s1), i);
    RunConcat(shape, feed, w0, s1, s2);
    schedule := s1 + s2;
  }

  /** If the read is finished and there is a publish it should return, it returns that one, provided at most
      `bound` publishes after that one are complete at its last load. */
  ghost predicate RightAt(feed: nat -> DataEntry, request: Request, n: uint32, r: ReaderAt, bound: int)
    requires 0 < n
  {
    r.Done? && Wanted(request, r.loadedAt, n).Some? ==>
      var j := Wanted(request, r.loadedAt, n).value;
      r.complete - (j + 1) <= bound ==> r.result == Some(Unaltered(feed, j, n))
  }

  /** This holds of every read. For `read_latest` the publishes after the wanted one are those completed
      during the read. */
  ghost predicate RightWithin(shape: Shape, feed: nat -> DataEntry, request: Request, bound: int)
    requires FittingFeed(shape, feed)
  {
    forall schedule ::
      RightAt(feed, request, shape.numFrames, Run(shape, feed, InitialWorld(shape, request), schedule).reader, bound)
  }

  /** The exact bound, for every ring size from 1 on: reads are right if and only if it is at most `n - 2`
      (for any feed in which some publish differs from the one a lap later in payload or time). */
  lemma ExactLapBound(shape: Shape, feed: nat -> DataEntry, request: Request, i: nat, bound: int)
    requires FullFeed(shape, feed)
    requires Wanted(request, i + 1, shape.numFrames) == Some(i)
    requires Torn(feed, i, shape.numFrames) != Unaltered(feed, i, shape.numFrames)
    ensures RightWithin(shape, feed, request, bound) <==> bound + 2 <= shape.numFrames
  {
    var n := shape.numFrames;
    if bound + 2 <= n {
      forall schedule
        ensures RightAt(feed, request, n, Run(shape, feed, InitialWorld(shape, request), schedule).reader, bound)
      {
        LapBoundedRequest(shape, feed, request, schedule);
      }
    } else {
      var schedule := LapBoundIsTight(shape, feed, request, i);
      assert !RightAt(feed, request, n, Run(shape, feed, InitialWorld(shape, request), schedule).reader, bound);
    }
  }
}
