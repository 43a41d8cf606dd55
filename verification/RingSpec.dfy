/** What one ring buffer holds and what a reader gets from it, as functions of the publish history. */
module RingSpec {
  import opened MachineInts
  import opened RingArithmetic
  import LittleEndian

  datatype DataEntry = DataEntry(data: seq<uint8>, head: uint32, sequence: uint32, timestamp: uint64)

  datatype Frame = Frame(timestamp: uint64, checksum: uint32, sequence: uint32, data: seq<uint8>)

  /** A ring and the checksum function it is used with. Readers checksum whole slots, so the zeroed
      bytes of a slot that was never written must not have the zeroed checksum. */
  datatype Shape = Shape(numFrames: uint32, sizePerFrame: uint32, crc: seq<uint8> -> uint32) {
    ghost predicate Valid() {
      && 0 < numFrames <= 0x8000_0000
      && 0 < sizePerFrame
      && crc(LittleEndian.Zeros(sizePerFrame)) != 0
    }
  }

  function BlankFrame(shape: Shape): Frame {
    Frame(0, 0, 0, LittleEndian.Zeros(shape.sizePerFrame))
  }

  ghost predicate Fits(shape: Shape, history: seq<DataEntry>) {
    forall i :: 0 <= i < |history| ==> |history[i].data| <= shape.sizePerFrame
  }

  ghost predicate FullSize(shape: Shape, history: seq<DataEntry>) {
    forall i :: 0 <= i < |history| ==> |history[i].data| == shape.sizePerFrame
  }

  /** A publish overwrites the front of the slot; a short payload leaves the old tail in place. */
  function Overwrite(shape: Shape, old_: Frame, entry: DataEntry): (f: Frame)
    requires |entry.data| <= |old_.data|
    ensures |f.data| == |old_.data|
  {
    Frame(entry.timestamp, shape.crc(entry.data), entry.sequence, entry.data + old_.data[|entry.data|..])
  }

  /** The content of slot `k` after the publishes of `history`: publish `i` goes to slot `i % n`. */
  function SlotAfter(shape: Shape, history: seq<DataEntry>, k: nat): (f: Frame)
    requires 0 < shape.numFrames && Fits(shape, history)
    ensures |f.data| == shape.sizePerFrame
  {
    if history == [] then
      BlankFrame(shape)
    else
      var last := |history| - 1;
      var before := SlotAfter(shape, history[..last], k);
      if last % shape.numFrames == k then Overwrite(shape, before, history[last]) else before
  }

  /** A reader takes a slot only if its checksum matches; `None` is the entry left empty. */
  function Populate(shape: Shape, frame: Frame, headIndex: uint32): Option<DataEntry> {
    if shape.crc(frame.data) != frame.checksum then
      None
    else
      Some(DataEntry(frame.data, headIndex, frame.sequence, frame.timestamp))
  }

  function ReadLatestAfter(shape: Shape, history: seq<DataEntry>): Option<DataEntry>
    requires 0 < shape.numFrames && Fits(shape, history)
  {
    var k := GetHead(|history| % shape.numFrames, 1, shape.numFrames);
    Populate(shape, SlotAfter(shape, history, k), k)
  }

  function ReadAbsoluteAfter(shape: Shape, history: seq<DataEntry>, k: uint32): Option<DataEntry>
    requires 0 < shape.numFrames && Fits(shape, history)
  {
    if k >= shape.numFrames then None else Populate(shape, SlotAfter(shape, history, k), k)
  }

  /** Publish number `j` as a reader returns it. */
  function EntryAt(history: seq<DataEntry>, j: nat, n: uint32): DataEntry
    requires 0 < n && j < |history|
  {
    DataEntry(history[j].data, j % n, history[j].sequence, history[j].timestamp)
  }

  /** The slot of publish `j` right after it. */
  function SlotWith(shape: Shape, history: seq<DataEntry>, j: nat): (f: Frame)
    requires 0 < shape.numFrames && Fits(shape, history) && j < |history|
    ensures |f.data| == shape.sizePerFrame
  {
    Overwrite(shape, SlotAfter(shape, history[..j], j % shape.numFrames), history[j])
  }

  /** Publish `j` as a reader returns it from its slot. */
  function ReadBack(shape: Shape, history: seq<DataEntry>, j: nat): Option<DataEntry>
    requires 0 < shape.numFrames && Fits(shape, history) && j < |history|
  {
    Populate(shape, SlotWith(shape, history, j), j % shape.numFrames)
  }

  /** A payload of full size always comes back, unaltered. */
  lemma ReadBackOfFullSize(shape: Shape, history: seq<DataEntry>, j: nat)
    requires 0 < shape.numFrames && Fits(shape, history) && j < |history|
    requires |history[j].data| == shape.sizePerFrame
    ensures ReadBack(shape, history, j) == Some(EntryAt(history, j, shape.numFrames))
  {
    var before := SlotAfter(shape, history[..j], j % shape.numFrames);
    assert history[j].data + before.data[|history[j].data|..] == history[j].data;
  }

  /** The last `n` publishes are still in their slots. */
  lemma {:induction false} SlotHolds(shape: Shape, history: seq<DataEntry>, j: nat)
    requires 0 < shape.numFrames && Fits(shape, history)
    requires j < |history| <= j + shape.numFrames
    ensures SlotAfter(shape, history, j % shape.numFrames) == SlotWith(shape, history, j)
  {
    var n := shape.numFrames;
    var last := |history| - 1;
    if j < last {
      if last % n == j % n {
        SameSlotSameIndex(last, j, n);
        assert false;
      }
      SlotHolds(shape, history[..last], j);
      assert history[..last][..j] == history[..j];
    }
  }

  lemma {:induction false} SlotUnwritten(shape: Shape, history: seq<DataEntry>, k: nat)
    requires shape.Valid() && Fits(shape, history)
    requires |history| <= k < shape.numFrames
    ensures SlotAfter(shape, history, k) == BlankFrame(shape)
    ensures Populate(shape, SlotAfter(shape, history, k), k) == None
  {
    if history != [] {
      var last := |history| - 1;
      ModSmall(last, shape.numFrames);
      SlotUnwritten(shape, history[..last], k);
    }
  }

  /** The newest publish in slot `k` once `published` frames are out. */
  function NewestIn(k: nat, published: nat, n: uint32): (j: nat)
    requires k < n && k < published
    ensures j < published <= j + n
    ensures j % n == k
  {
    var back := (published - 1 - k) % n;
    var j := published - 1 - back;
    assert j % n == k && 0 <= j by {
      var laps := (published - 1 - k) / n;
      assert published - 1 - k == laps * n + back;
      assert j == k + laps * n;
      ModAddMultiple(k, laps, n);
      ModSmall(k, n);
      MulBounds(laps, n);
    }
    j
  }

  /** The slot of an earlier publish holds that publish or one a whole number of laps later. */
  lemma NewestAtOrAhead(p: nat, published: nat, n: uint32)
    requires 0 < n && p < published
    ensures p % n < published
    ensures var j := NewestIn(p % n, published, n);
      && p <= j && (j - p) % n == 0
      && (p < j ==> p + n <= j)
  {
    if p < n {
      ModSmall(p, n);
    }
    var j := NewestIn(p % n, published, n);
    if j < p {
      SameSlotGap(j, p, n);
    }
    SameSlotGap(p, j, n);
  }

  /** The publish that `read_latest` reads: the last one, except when the head has just wrapped to 0. */
  function LatestIndex(published: nat, n: uint32): (j: nat)
    requires 0 < published && 0 < n
    ensures j < published <= j + n
  {
    if published % n == 0 then
      var lap := published / n;
      assert published == lap * n + 0;
      MulBounds(lap, n);
      published - n + (U32_RANGE - 1) % n
    else
      published - 1
  }

  lemma LatestIndexSlot(published: nat, n: uint32)
    requires 0 < published && 0 < n <= 0x8000_0000
    ensures LatestIndex(published, n) % n == GetHead(published % n, 1, n)
  {
    GetHeadNeighbours(published % n, n);
    if published % n == 0 {
      var z := (U32_RANGE - 1) % n;
      SlotInFullRing(published, z, n);
    } else {
      ModSucc(published - 1, n);
    }
  }

  lemma SlotInFullRing(published: nat, z: nat, n: uint32)
    requires 0 < n && published % n == 0 && z < n
    ensures (published - n + z) % n == z
  {
    var lap := published / n;
    assert published - n + z == (lap - 1) * n + z by {
      assert published == lap * n;
      assert (lap - 1) * n == lap * n - n;
    }
    DivModUnique(published - n + z, n, lap - 1, z);
  }

  /** The writer advances the head to the slot of the next publish. */
  lemma NextHead(published: nat, n: uint32)
    requires 0 < n <= 0x8000_0000
    ensures GetHead(published % n, 0, n) == published % n
    ensures GetHead(published % n, -1, n) == (published + 1) % n
  {
    GetHeadNeighbours(published % n, n);
    ModSucc(published, n);
  }

  /** `read_latest` means the last publish exactly when the head is not at 0 or `n` divides 2^32. */
  lemma LatestIndexIsLast(published: nat, n: uint32)
    requires 0 < published && 0 < n
    ensures LatestIndex(published, n) == published - 1 <==> published % n != 0 || U32_RANGE % n == 0
  {
    if published % n == 0 {
      var z := (U32_RANGE - 1) % n;
      assert U32_RANGE % n == 0 <==> z == n - 1 by {
        ModAddMultiple(z + 1, (U32_RANGE - 1) / n, n);
        assert U32_RANGE == z + 1 + ((U32_RANGE - 1) / n) * n;
        if z < n - 1 {
          ModSmall(z + 1, n);
        } else {
          ModStep(0, n);
        }
      }
    }
  }

  /** What `read_latest` returns after any history. */
  lemma ReadLatestReturns(shape: Shape, history: seq<DataEntry>)
    requires shape.Valid() && Fits(shape, history)
    ensures ReadLatestAfter(shape, history)
         == if history == [] then None else ReadBack(shape, history, LatestIndex(|history|, shape.numFrames))
  {
    var n := shape.numFrames;
    if history == [] {
      GetHeadPromoted(0, 1, n);
      SlotUnwritten(shape, history, GetHead(0, 1, n));
    } else {
      LatestIndexSlot(|history|, n);
      SlotHolds(shape, history, LatestIndex(|history|, n));
    }
  }

  /** `read_latest` returns the last publish if and only if its index arithmetic does not wrap. */
  lemma ReadLatestIsLast(shape: Shape, history: seq<DataEntry>)
    requires shape.Valid() && Fits(shape, history) && history != []
    requires ReadBack(shape, history, |history| - 1).Some?
    ensures ReadLatestAfter(shape, history) == ReadBack(shape, history, |history| - 1)
       <==> |history| % shape.numFrames != 0 || U32_RANGE % shape.numFrames == 0
  {
    var n, last := shape.numFrames, |history| - 1;
    ReadLatestReturns(shape, history);
    LatestIndexIsLast(|history|, n);
    if LatestIndex(|history|, n) % n == last % n {
      SameSlotSameIndex(LatestIndex(|history|, n), last, n);
    }
  }

  /** What `read_absolute` returns after any history. */
  lemma ReadAbsoluteReturns(shape: Shape, history: seq<DataEntry>, k: uint32)
    requires shape.Valid() && Fits(shape, history)
    ensures ReadAbsoluteAfter(shape, history, k)
         == if k >= shape.numFrames || k >= |history| then None
            else ReadBack(shape, history, NewestIn(k, |history|, shape.numFrames))
  {
    if k < shape.numFrames {
      if k < |history| {
        SlotHolds(shape, history, NewestIn(k, |history|, shape.numFrames));
      } else {
        SlotUnwritten(shape, history, k);
      }
    }
  }

  // Payloads shorter than their slots

  /** The newest publish into slot `k` whose payload reaches byte `b`. */
  function NewestReaching(history: seq<DataEntry>, k: nat, b: nat, n: uint32): (j: Option<nat>)
    requires 0 < n
    ensures j.Some? ==> j.value < |history| && j.value % n == k && b < |history[j.value].data|
    ensures forall i :: (if j.Some? then j.value + 1 else 0) <= i < |history| && i % n == k ==> |history[i].data| <= b
  {
    if history == [] then
      None
    else
      var last := |history| - 1;
      if last % n == k && b < |history[last].data| then Some(last)
      else NewestReaching(history[..last], k, b, n)
  }

  /** Every byte of a slot is of the newest publish there that reaches it, and zero if there is none. */
  lemma {:induction false} SlotBytes(shape: Shape, history: seq<DataEntry>, k: nat, b: nat)
    requires 0 < shape.numFrames && Fits(shape, history) && b < shape.sizePerFrame
    ensures var j := NewestReaching(history, k, b, shape.numFrames);
      SlotAfter(shape, history, k).data[b] == if j.Some? then history[j.value].data[b] else 0
  {
    if history != [] {
      SlotBytes(shape, history[..|history| - 1], k, b);
    }
  }

  /** A read of a slot with payloads of any size: it succeeds exactly if the bytes of the slot, older ones
      behind a short payload included, have the checksum of the newest payload; then it returns all of them,
      with the number and the time of the newest publish. */
  lemma ReadOfAnySize(shape: Shape, history: seq<DataEntry>, k: uint32)
    requires shape.Valid() && Fits(shape, history) && k < shape.numFrames && k < |history|
    ensures var newest := history[NewestIn(k, |history|, shape.numFrames)];
      var bytes := SlotAfter(shape, history, k).data;
      && newest.data <= bytes
      && (forall b :: 0 <= b < |bytes| ==>
            var j := NewestReaching(history, k, b, shape.numFrames);
            bytes[b] == if j.Some? then history[j.value].data[b] else 0)
      && ReadAbsoluteAfter(shape, history, k)
           == if shape.crc(bytes) == shape.crc(newest.data)
              then Some(DataEntry(bytes, k, newest.sequence, newest.timestamp)) else None
  {
    SlotHolds(shape, history, NewestIn(k, |history|, shape.numFrames));
    forall b | 0 <= b < shape.sizePerFrame
      ensures var j := NewestReaching(history, k, b, shape.numFrames);
        SlotAfter(shape, history, k).data[b] == if j.Some? then history[j.value].data[b] else 0
    {
      SlotBytes(shape, history, k, b);
    }
  }

  // `read_oldest`

  /** It reads the slot after the head. */
  function ReadOldestAfter(shape: Shape, history: seq<DataEntry>): Option<DataEntry>
    requires 0 < shape.numFrames && Fits(shape, history)
  {
    ReadAbsoluteAfter(shape, history, GetHead(|history| % shape.numFrames, -1, shape.numFrames))
  }

  /** The oldest publish still in its slot. */
  function OldestHeld(published: nat, n: uint32): (j: nat)
    requires 0 < published && 0 < n
    ensures j < published <= j + n
  {
    if published <= n then 0 else published - n
  }

  /** What it returns: nothing while at least two slots are unwritten, the oldest publish when one is, and
      the second oldest in a full ring (the only one in a ring of one slot). */
  lemma ReadOldestReturns(shape: Shape, history: seq<DataEntry>)
    requires shape.Valid() && Fits(shape, history)
    ensures var n, c := shape.numFrames, |history|;
      ReadOldestAfter(shape, history)
        == if c == 0 || c + 1 < n then None
           else if c + 1 == n || n == 1 then ReadBack(shape, history, OldestHeld(c, n))
           else ReadBack(shape, history, OldestHeld(c, n) + 1)
  {
    var n, c := shape.numFrames, |history|;
    var k := (c + 1) % n;
    NextHead(c, n);
    ReadAbsoluteReturns(shape, history, k);
    if c + 1 < n {
      ModSmall(c + 1, n);
    } else if c > 0 {
      var j := if n == 1 then c - 1 else c + 1 - n;
      if n == 1 {
        ModStep(c, n);
      }
      ModStep(c + 1, n);
      NewestIsAt(j, c, n);
    } else {
      ModStep(0, n);
    }
  }

  /** A publish still in its slot is the newest there. */
  lemma NewestIsAt(j: nat, published: nat, n: uint32)
    requires 0 < n && j < published <= j + n
    ensures j % n < published && NewestIn(j % n, published, n) == j
  {
    NewestAtOrAhead(j, published, n);
  }

  /** `read_oldest` returns the oldest frame held if and only if the ring has one slot or exactly one slot
      is still unwritten. */
  lemma ReadOldestIsOldest(shape: Shape, history: seq<DataEntry>)
    requires shape.Valid() && Fits(shape, history) && history != []
    requires ReadBack(shape, history, OldestHeld(|history|, shape.numFrames)).Some?
    ensures ReadOldestAfter(shape, history) == ReadBack(shape, history, OldestHeld(|history|, shape.numFrames))
       <==> shape.numFrames == 1 || |history| + 1 == shape.numFrames
  {
    var n, c := shape.numFrames, |history|;
    ReadOldestReturns(shape, history);
    var oldest := OldestHeld(c, n);
    if n > 1 && c >= n && oldest % n == (oldest + 1) % n {
      SameSlotSameIndex(oldest, oldest + 1, n);
    }
  }

  /** Two publishes in a ring of two slots: the second one comes out as the oldest. */
  lemma ReadOldestExample(shape: Shape, a: DataEntry, b: DataEntry)
    requires shape.Valid() && shape.numFrames == 2
    requires |a.data| == |b.data| == shape.sizePerFrame
    ensures Fits(shape, [a, b])
    ensures ReadOldestAfter(shape, [a, b]) == Some(DataEntry(b.data, 1, b.sequence, b.timestamp))
    ensures OldestHeld(2, 2) == 0
  {
    ReadOldestReturns(shape, [a, b]);
    ReadBackOfFullSize(shape, [a, b], 1);
  }
}
