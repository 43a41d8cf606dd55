/** Cutting event batches into padded frames of one size, and what the logger cuts out of them again. */
module EventBatches {
  import opened MachineInts
  import LittleEndian

  // The header takes 8 bytes, a record 16.

  /** An event record as it lies in memory: a signed 64-bit time first. */
  type EventRecord = r: seq<uint8> | |r| == 16 witness seq(16, _ => 0)

  /** The record's time, reinterpreted as unsigned. */
  function TimestampNs(record: EventRecord): uint64 {
    LittleEndian.Ranges();
    LittleEndian.FromBytes(record[..8])
  }

  /** Its bytes, least significant first, are the first eight of the record. */
  lemma TimeIsFirst(record: EventRecord)
    ensures LittleEndian.ToBytes(TimestampNs(record), 8) == record[..8]
  {
    LittleEndian.BytesBack(record[..8]);
  }

  function Flatten(events: seq<EventRecord>): (bytes: seq<uint8>)
    ensures |bytes| == 16 * |events|
  {
    if events == [] then [] else events[0] + Flatten(events[1..])
  }

  lemma Concat<T>(a: seq<T>, b: seq<T>, c: seq<T>)
    ensures a + (b + c) == a + b + c
  {
  }

  lemma {:induction false} FlattenConcat(a: seq<EventRecord>, b: seq<EventRecord>)
    ensures Flatten(a + b) == Flatten(a) + Flatten(b)
  {
    if a == [] {
      assert a + b == b;
    } else {
      FlattenConcat(a[1..], b);
      assert (a + b)[1..] == a[1..] + b;
      Concat(a[0], Flatten(a[1..]), Flatten(b));
    }
  }

  lemma {:induction false} FlattenAt(events: seq<EventRecord>, k: nat)
    requires k < |events|
    ensures Flatten(events)[16 * k..16 * k + 16] == events[k]
  {
    if k > 0 {
      var rest := Flatten(events[1..]);
      FlattenAt(events[1..], k - 1);
      assert Flatten(events)[16 * k..16 * k + 16] == rest[16 * (k - 1)..16 * (k - 1) + 16];
    }
  }

  /** The number after a 32-bit one. */
  function Next(sequence: uint32): uint32 {
    if sequence == U32_RANGE - 1 then 0 else sequence + 1
  }

  /** The number `k` increments later. */
  function After(sequence: uint32, k: nat): uint32
    decreases k
  {
    if k == 0 then sequence else After(Next(sequence), k - 1)
  }

  lemma {:induction false} AfterWraps(sequence: uint32, k: nat)
    ensures After(sequence, k) == (sequence + k) % U32_RANGE
    decreases k
  {
    if k == 0 {
      ModSmall(sequence, U32_RANGE);
    } else {
      AfterWraps(Next(sequence), k - 1);
      ModStep(k - 1, U32_RANGE);
    }
  }

  lemma {:induction false} AfterTwice(sequence: uint32, j: nat, k: nat)
    ensures After(After(sequence, j), k) == After(sequence, j + k)
    decreases j
  {
    if j > 0 {
      AfterTwice(Next(sequence), j - 1, k);
    }
  }

  /** One call to the writer's `add`. */
  datatype Publication = Publication(payload: seq<uint8>, sequence: uint32, timestamp: uint64)

  /** The number of events wraps like the header field; the padding fills the frame up. */
  function Payload(chunk: seq<EventRecord>, capacity: nat): (payload: seq<uint8>)
    requires |chunk| <= capacity
    ensures |payload| == 8 + 16 * capacity
  {
    LittleEndian.ToBytes(|chunk| % U32_RANGE, 4) + LittleEndian.Zeros(4)
    + Flatten(chunk) + LittleEndian.Zeros(16 * (capacity - |chunk|))
  }

  /** A frame, byte by byte: the number of events modulo 2^32, four zeros, the records, and zeros to the end. */
  lemma PayloadBytes(chunk: seq<EventRecord>, capacity: nat)
    requires |chunk| <= capacity
    ensures var payload := Payload(chunk, capacity);
      && LittleEndian.FromBytes(payload[..4]) == |chunk| % 0x1_0000_0000
      && payload[4..8] == [0, 0, 0, 0]
      && (forall k :: 0 <= k < |chunk| ==> payload[8 + 16 * k..8 + 16 * k + 16] == chunk[k])
      && (forall b :: 8 + 16 * |chunk| <= b < |payload| ==> payload[b] == 0)
  {
    var count, payload := LittleEndian.ToBytes(|chunk| % U32_RANGE, 4), Payload(chunk, capacity);
    LittleEndian.Ranges();
    LittleEndian.RoundTrip(|chunk| % U32_RANGE, 4);
    assert payload[..4] == count;
    forall k | 0 <= k < |chunk|
      ensures payload[8 + 16 * k..8 + 16 * k + 16] == chunk[k]
    {
      FlattenAt(chunk, k);
      assert payload[8 + 16 * k..8 + 16 * k + 16] == Flatten(chunk)[16 * k..16 * k + 16];
    }
  }

  function ChunkSize(count: nat, capacity: nat): nat {
    if count < capacity then count else capacity
  }

  function Batch(events: seq<EventRecord>, capacity: nat, sequence: uint32): seq<Publication>
    requires 0 < capacity
    decreases |events|
  {
    if events == [] then
      []
    else
      var n := ChunkSize(|events|, capacity);
      [Publication(Payload(events[..n], capacity), sequence, TimestampNs(events[0]))]
      + Batch(events[n..], capacity, Next(sequence))
  }

  /** The first frame of the rest of a batch, and the rest after it. */
  lemma BatchStep(batch: seq<EventRecord>, offset: nat, capacity: nat, sequence: uint32)
    requires 0 < capacity && offset < |batch|
    ensures var rest, n := Batch(batch[offset..], capacity, sequence), ChunkSize(|batch| - offset, capacity);
      && rest != []
      && rest[0] == Publication(Payload(batch[offset..offset + n], capacity), sequence, TimestampNs(batch[offset]))
      && rest[1..] == Batch(batch[offset + n..], capacity, Next(sequence))
  {
    var n := ChunkSize(|batch| - offset, capacity);
    var rest := batch[offset..];
    assert rest[..n] == batch[offset..offset + n] && rest[n..] == batch[offset + n..];
  }

  lemma MoveFirst<T>(done: seq<T>, rest: seq<T>)
    requires rest != []
    ensures done + [rest[0]] + rest[1..] == done + rest
  {
  }

  /** Without a configured maximum the whole batch goes into one frame. */
  function Capacity(maxEventsPerFrame: uint32, count: nat): nat {
    if maxEventsPerFrame > 0 then maxEventsPerFrame else count
  }

  class EventCamera {
    const maxEventsPerFrame: uint32
    var sequence: uint32
    var published: seq<Publication>
    ghost var received: seq<seq<EventRecord>>  // the batches so far

    /** All calls so far have published the frames of their batches, numbered on from 0. */
    ghost predicate Valid()
      reads this
    {
      && published == Published(received, maxEventsPerFrame, 0)
      && sequence == After(0, |published|)
    }

    constructor (maxEventsPerFrame: uint32)
      ensures Valid() && this.maxEventsPerFrame == maxEventsPerFrame && received == []
      ensures sequence == 0 && published == []
    {
      this.maxEventsPerFrame := maxEventsPerFrame;
      sequence, published, received := 0, [], [];
    }

    /** `None` is a null pointer. An array that exists in memory is small enough for its size in bytes
        not to wrap. */
    method ProcessEvents(events: Option<seq<EventRecord>>)
      requires Valid()
      modifies this
      ensures Valid()
      ensures received == old(received) + [if events.None? then [] else events.value]
    {
      ghost var batch := if events.None? then [] else events.value;
      assert (received + [batch])[..|received|] == received;
      received := received + [batch];
      if events.None? || |events.value| == 0 {
        assert published + [] == published;
        return;
      }
      var capacity := Capacity(maxEventsPerFrame, |events.value|);
      ghost var frames := Batch(events.value, capacity, sequence);
      AfterTwice(0, |published|, |frames|);
      assert events.value[0..] == events.value;
      PublishAll(events.value, capacity, frames, published + frames, After(sequence, |frames|));
    }

    /** `rest` is still to be published of the batch, from `offset` on, and then `all` is published. */
    ghost predicate Pending(rest: seq<Publication>, batch: seq<EventRecord>, offset: nat, capacity: nat,
                            all: seq<Publication>, end: uint32)
      requires 0 < capacity && offset <= |batch|
      reads this
    {
      && rest == Batch(batch[offset..], capacity, sequence)
      && published + rest == all && After(sequence, |rest|) == end
    }

    /** The loop over the frames of a batch. */
    method PublishAll(batch: seq<EventRecord>, capacity: nat, ghost frames: seq<Publication>,
                      ghost all: seq<Publication>, ghost end: uint32)
      requires 0 < capacity && Pending(frames, batch, 0, capacity, all, end)
      modifies this`sequence, this`published
      ensures published == all && sequence == end
    {
      ghost var rest := frames;
      var offset := 0;
      while offset < |batch|
        invariant offset <= |batch|
        invariant Pending(rest, batch, offset, capacity, all, end)
        decreases |batch| - offset
      {
        var n := PublishChunk(batch, offset, capacity, rest, all, end);
        offset, rest := offset + n, rest[1..];
      }
      NothingPending(rest, batch, capacity, all, end);
    }

    lemma NothingPending(rest: seq<Publication>, batch: seq<EventRecord>, capacity: nat, all: seq<Publication>,
                         end: uint32)
      requires 0 < capacity && Pending(rest, batch, |batch|, capacity, all, end)
      ensures published == all && sequence == end
    {
      assert published + [] == published;
    }

    /** The body of the loop: publishes the first of the frames still to come. */
    method PublishChunk(batch: seq<EventRecord>, offset: nat, capacity: nat, ghost rest: seq<Publication>,
                        ghost all: seq<Publication>, ghost end: uint32)
      returns (n: nat)
      requires 0 < capacity && offset < |batch|
      requires Pending(rest, batch, offset, capacity, all, end)
      modifies this`sequence, this`published
      ensures rest != [] && n == ChunkSize(|batch| - offset, capacity)
      ensures published == old(published) + [rest[0]] && sequence == Next(old(sequence))
      ensures Pending(rest[1..], batch, offset + n, capacity, all, end)
    {
      BatchStep(batch, offset, capacity, sequence);
      MoveFirst(published, rest);
      n := ChunkSize(|batch| - offset, capacity);
      var payload := FillPayload(batch[offset..offset + n], capacity);
      published := published + [Publication(payload[..], sequence, TimestampNs(batch[offset]))];
      sequence := Next(sequence);
    }

    method FillPayload(chunk: seq<EventRecord>, capacity: nat) returns (payload: array<uint8>)
      requires |chunk| <= capacity
      ensures fresh(payload) && payload[..] == Payload(chunk, capacity)
    {
      var size := 8 + 16 * capacity;
      payload := new uint8[size](_ => 0);
      assert payload[..] == LittleEndian.Zeros(size);
      var header := LittleEndian.ToBytes(|chunk| % U32_RANGE, 4) + LittleEndian.Zeros(4);
      LittleEndian.CopyInto(payload, 0, header);
      assert payload[..] == header + LittleEndian.Zeros(size - 8);
      LittleEndian.CopyInto(payload, 8, Flatten(chunk));
    }
  }

  // What every batch looks like

  /** As many frames as the events need. */
  lemma {:induction false} BatchCount(events: seq<EventRecord>, capacity: nat, sequence: uint32)
    requires 0 < capacity && events != []
    ensures var frames := |Batch(events, capacity, sequence)|;
      (frames - 1) * capacity < |events| <= frames * capacity
    decreases |events|
  {
    var n := ChunkSize(|events|, capacity);
    var rest, next := events[n..], Next(sequence);
    var frames := |Batch(rest, capacity, next)|;
    assert |Batch(events, capacity, sequence)| == frames + 1;
    CapacityStep(frames, capacity);
    if rest != [] {
      BatchCount(rest, capacity, next);
      CapacityStep(frames - 1, capacity);
    }
  }

  /** All frames have one size, consecutive numbers and the times of their first events. */
  lemma {:induction false} BatchShape(events: seq<EventRecord>, capacity: nat, sequence: uint32, i: nat)
    requires 0 < capacity && i < |Batch(events, capacity, sequence)|
    ensures ShapeAt(events, capacity, sequence, i)
    decreases |events|
  {
    if i == 0 {
      TimeIsFirst(events[0]);
    } else {
      BatchTail(events, capacity, sequence, i);
      BatchShape(events[capacity..], capacity, Next(sequence), i - 1);
      ShapeOfTail(Batch(events, capacity, sequence)[i], events, capacity, sequence, i);
    }
  }

  lemma BatchTail(events: seq<EventRecord>, capacity: nat, sequence: uint32, i: nat)
    requires 0 < capacity && 0 < i < |Batch(events, capacity, sequence)|
    ensures capacity <= |events| && i - 1 < |Batch(events[capacity..], capacity, Next(sequence))|
    ensures Batch(events, capacity, sequence)[i] == Batch(events[capacity..], capacity, Next(sequence))[i - 1]
  {
    assert ChunkSize(|events|, capacity) < |events|;
  }

  lemma ShapeOfTail(p: Publication, events: seq<EventRecord>, capacity: nat, sequence: uint32, i: nat)
    requires 0 < capacity <= |events| && 0 < i
    requires ShapeOf(p, events[capacity..], FirstEvent(i - 1, capacity), capacity, After(Next(sequence), i - 1))
    ensures ShapeOf(p, events, FirstEvent(i, capacity), capacity, After(sequence, i))
  {
    ShapeShifts(p, events, capacity, FirstEvent(i - 1, capacity), capacity, After(Next(sequence), i - 1));
  }

  lemma ShapeShifts(p: Publication, events: seq<EventRecord>, n: nat, at: nat, capacity: nat, sequence: uint32)
    requires n <= |events| && ShapeOf(p, events[n..], at, capacity, sequence)
    ensures ShapeOf(p, events, at + n, capacity, sequence)
  {
    var c := ChunkSize(|events| - n - at, capacity);
    assert events[n..][at..at + c] == events[at + n..at + n + c];
  }

  lemma CapacityStep(k: int, capacity: nat)
    ensures (k + 1) * capacity == k * capacity + capacity
  {
  }

  /** A frame of the right size with this number, the events from `at` on and the time of the first of them. */
  predicate ShapeOf(p: Publication, events: seq<EventRecord>, at: nat, capacity: nat, sequence: uint32) {
    && |p.payload| == 8 + 16 * capacity && p.sequence == sequence
    && at < |events| && LittleEndian.ToBytes(p.timestamp, 8) == events[at][..8]
    && p.payload == Payload(events[at..at + ChunkSize(|events| - at, capacity)], capacity)
  }

  /** The first event of frame `i`. */
  function FirstEvent(i: nat, capacity: nat): nat {
    if i == 0 then 0 else FirstEvent(i - 1, capacity) + capacity
  }

  lemma {:induction false} FirstEventIsProduct(i: nat, capacity: nat)
    ensures FirstEvent(i, capacity) == i * capacity
  {
    if i > 0 {
      FirstEventIsProduct(i - 1, capacity);
      CapacityStep(i - 1, capacity);
    }
  }

  /** Frame `i` starts with event `i * capacity` and has the number `i` after the first. */
  ghost predicate ShapeAt(events: seq<EventRecord>, capacity: nat, sequence: uint32, i: nat)
    requires 0 < capacity && i < |Batch(events, capacity, sequence)|
  {
    ShapeOf(Batch(events, capacity, sequence)[i], events, FirstEvent(i, capacity), capacity, After(sequence, i))
  }

  // The way back

  /** The number of events in the header and the records the logger cuts out of a frame. */
  function CutRecords(data: seq<uint8>): (cut: Option<(uint32, seq<uint8>)>)
    ensures cut.Some? ==> |cut.value.1| == 16 * cut.value.0
  {
    if |data| < 8 then
      None
    else
      LittleEndian.Ranges();
      var numEvents: uint32 := LittleEndian.FromBytes(data[..4]);
      var size := numEvents * 16;
      if |data| < 8 + size then None else Some((numEvents, data[8..8 + size]))
  }

  /** A frame is rejected exactly if it is too short for its header or for the number of events in it; otherwise
      that number is the header's and the records are what follows the header. */
  lemma CutExact(data: seq<uint8>)
    ensures CutRecords(data).Some? <==> 8 <= |data| && 8 + 16 * LittleEndian.FromBytes(data[..4]) <= |data|
    ensures CutRecords(data).Some? ==>
      var n := LittleEndian.FromBytes(data[..4]);
      CutRecords(data).value.0 == n && CutRecords(data).value.1 == data[8..8 + 16 * n]
  {
    LittleEndian.Ranges();
  }

  /** What comes back of a chunk: as many of its records as its 32-bit count says. */
  function CutOf(chunk: seq<EventRecord>): (records: seq<uint8>)
    ensures |records| == 16 * (|chunk| % U32_RANGE)
  {
    ModAtMost(|chunk|, U32_RANGE);
    Flatten(chunk)[..16 * (|chunk| % U32_RANGE)]
  }

  lemma FrameParts(count: seq<uint8>, reserved: seq<uint8>, records: seq<uint8>, padding: seq<uint8>, size: nat)
    requires |count| == 4 && |count + reserved| == 8 && size <= |records|
    ensures (count + reserved + records + padding)[..4] == count
    ensures (count + reserved + records + padding)[8..8 + size] == records[..size]
  {
  }

  lemma CutKnown(data: seq<uint8>, n: uint32, records: seq<uint8>)
    requires |data| >= 8 + 16 * n && LittleEndian.FromBytes(data[..4]) == n
    requires data[8..8 + 16 * n] == records
    ensures CutRecords(data) == Some((n, records))
  {
  }

  lemma CutPayload(chunk: seq<EventRecord>, capacity: nat)
    requires |chunk| <= capacity
    ensures CutRecords(Payload(chunk, capacity)) == Some((|chunk| % U32_RANGE, CutOf(chunk)))
  {
    var n: uint32 := |chunk| % U32_RANGE;
    ModAtMost(|chunk|, U32_RANGE);
    CutFrame(n, LittleEndian.Zeros(4), Flatten(chunk), LittleEndian.Zeros(16 * (capacity - |chunk|)));
  }

  lemma CutFrame(n: uint32, reserved: seq<uint8>, records: seq<uint8>, padding: seq<uint8>)
    requires |reserved| == 4 && 16 * n <= |records|
    ensures var data := LittleEndian.ToBytes(n, 4) + reserved + records + padding;
      CutRecords(data) == Some((n, records[..16 * n]))
  {
    var count := LittleEndian.ToBytes(n, 4);
    LittleEndian.Ranges();
    LittleEndian.RoundTrip(n, 4);
    FrameParts(count, reserved, records, padding, 16 * n);
    CutKnown(count + reserved + records + padding, n, records[..16 * n]);
  }

  /** The cuts of all frames, one after the other; `None` if one is rejected. */
  function Joined(batch: seq<Publication>): Option<seq<uint8>> {
    if batch == [] then Some([])
    else
      var first, rest := CutRecords(batch[0].payload), Joined(batch[1..]);
      if first.None? || rest.None? then None else Some(first.value.1 + rest.value)
  }

  lemma JoinedStep(events: seq<EventRecord>, capacity: nat, sequence: uint32)
    requires 0 < capacity && events != []
    ensures var n := ChunkSize(|events|, capacity);
      var tail := Joined(Batch(events[n..], capacity, Next(sequence)));
      Joined(Batch(events, capacity, sequence))
        == if tail.None? then None else Some(CutOf(events[..n]) + tail.value)
  {
    var n := ChunkSize(|events|, capacity);
    CutPayload(events[..n], capacity);
    var batch := Batch(events, capacity, sequence);
    assert batch[1..] == Batch(events[n..], capacity, Next(sequence));
  }

  /** No frame is rejected and nothing is invented; nothing is lost exactly when the fullest frame's number of
      events fits its 32-bit field. */
  lemma {:induction false} JoinedBound(events: seq<EventRecord>, capacity: nat, sequence: uint32)
    requires 0 < capacity
    ensures var joined := Joined(Batch(events, capacity, sequence));
      && joined.Some? && |joined.value| <= 16 * |events|
      && (|joined.value| == 16 * |events| <==> ChunkSize(|events|, capacity) < U32_RANGE)
    decreases |events|
  {
    if events != [] {
      var n := ChunkSize(|events|, capacity);
      JoinedStep(events, capacity, sequence);
      JoinedBound(events[n..], capacity, Next(sequence));
      if n < U32_RANGE {
        ModSmall(n, U32_RANGE);
      }
    }
  }

  /** Putting the logged records together gives back the batch, exactly when the fullest frame's number
      of events fits its 32-bit field. */
  lemma {:induction false} BatchConserved(events: seq<EventRecord>, capacity: nat, sequence: uint32)
    requires 0 < capacity
    ensures Joined(Batch(events, capacity, sequence)) == Some(Flatten(events))
       <==> ChunkSize(|events|, capacity) < U32_RANGE
    decreases |events|
  {
    JoinedBound(events, capacity, sequence);
    if events != [] && ChunkSize(|events|, capacity) < U32_RANGE {
      var n := ChunkSize(|events|, capacity);
      JoinedStep(events, capacity, sequence);
      BatchConserved(events[n..], capacity, Next(sequence));
      ModSmall(n, U32_RANGE);
      FlattenConcat(events[..n], events[n..]);
      assert events[..n] + events[n..] == events;
    }
  }

  // A run of batches

  /** What the writer is handed for the batches of a run, the first frame numbered `sequence`. */
  function Published(batches: seq<seq<EventRecord>>, maxEvents: uint32, sequence: uint32): seq<Publication> {
    if batches == [] then
      []
    else
      var before := Published(batches[..|batches| - 1], maxEvents, sequence);
      before + BatchAfter(batches[|batches| - 1], maxEvents, After(sequence, |before|))
  }

  function BatchAfter(batch: seq<EventRecord>, maxEvents: uint32, sequence: uint32): seq<Publication> {
    if batch == [] then [] else Batch(batch, Capacity(maxEvents, |batch|), sequence)
  }

  /** The frames of a batch have the configured size; without one the whole batch is one frame. */
  lemma ConfiguredFrames(batch: seq<EventRecord>, maxEvents: uint32, sequence: uint32, i: nat)
    requires i < |BatchAfter(batch, maxEvents, sequence)|
    ensures |BatchAfter(batch, maxEvents, sequence)[i].payload|
         == 8 + 16 * if maxEvents > 0 then maxEvents else |batch|
    ensures maxEvents == 0 ==> |BatchAfter(batch, maxEvents, sequence)| == 1
  {
    BatchShape(batch, Capacity(maxEvents, |batch|), sequence, i);
    if maxEvents == 0 {
      assert batch[|batch|..] == [];
    }
  }

  function AllEvents(batches: seq<seq<EventRecord>>): seq<EventRecord> {
    if batches == [] then [] else AllEvents(batches[..|batches| - 1]) + batches[|batches| - 1]
  }

  /** No frame of the run holds more events than its 32-bit field can say. */
  predicate AllCounted(batches: seq<seq<EventRecord>>, maxEvents: uint32) {
    forall k :: 0 <= k < |batches| ==> Counted(batches[k], maxEvents)
  }

  predicate Counted(batch: seq<EventRecord>, maxEvents: uint32) {
    ChunkSize(|batch|, Capacity(maxEvents, |batch|)) < U32_RANGE
  }

  lemma {:induction false} JoinedConcat(a: seq<Publication>, b: seq<Publication>)
    ensures Joined(a + b)
         == if Joined(a).None? || Joined(b).None? then None else Some(Joined(a).value + Joined(b).value)
  {
    if a == [] {
      assert a + b == b;
      assert Joined(b).Some? ==> [] + Joined(b).value == Joined(b).value;
    } else {
      JoinedConcat(a[1..], b);
      assert (a + b)[1..] == a[1..] + b;
      assert (a + b)[0] == a[0];
      if Joined(a[1..]).Some? && Joined(b).Some? && CutRecords(a[0].payload).Some? {
        Concat(CutRecords(a[0].payload).value.1, Joined(a[1..]).value, Joined(b).value);
      }
    }
  }

  /** The cuts of all frames are no more than the events, as many only if everything is counted, and then the
      events themselves. */
  ghost predicate Bounded(joined: Option<seq<uint8>>, events: seq<EventRecord>, counted: bool) {
    && joined.Some? && |joined.value| <= 16 * |events|
    && (|joined.value| == 16 * |events| <==> counted)
    && (counted ==> joined.value == Flatten(events))
  }

  lemma BatchAfterBounded(batch: seq<EventRecord>, maxEvents: uint32, sequence: uint32)
    ensures Bounded(Joined(BatchAfter(batch, maxEvents, sequence)), batch, Counted(batch, maxEvents))
  {
    if batch != [] {
      JoinedBound(batch, Capacity(maxEvents, |batch|), sequence);
      BatchConserved(batch, Capacity(maxEvents, |batch|), sequence);
    }
  }

  lemma BoundedStep(a: seq<Publication>, b: seq<Publication>, x: seq<EventRecord>, y: seq<EventRecord>,
                    c: bool, d: bool)
    requires Bounded(Joined(a), x, c) && Bounded(Joined(b), y, d)
    ensures Bounded(Joined(a + b), x + y, c && d)
  {
    JoinedConcat(a, b);
    FlattenConcat(x, y);
  }

  lemma PublishedStep(batches: seq<seq<EventRecord>>, maxEvents: uint32, sequence: uint32)
    requires batches != []
    ensures var front, last := batches[..|batches| - 1], batches[|batches| - 1];
      var before := Published(front, maxEvents, sequence);
      && Published(batches, maxEvents, sequence) == before + BatchAfter(last, maxEvents, After(sequence, |before|))
      && AllEvents(batches) == AllEvents(front) + last
  {
  }

  lemma AllCountedStep(batches: seq<seq<EventRecord>>, maxEvents: uint32)
    requires batches != []
    ensures AllCounted(batches, maxEvents)
         == (AllCounted(batches[..|batches| - 1], maxEvents) && Counted(batches[|batches| - 1], maxEvents))
  {
    var front := batches[..|batches| - 1];
    assert forall k :: 0 <= k < |front| ==> front[k] == batches[k];
  }

  lemma {:induction false} RunBound(batches: seq<seq<EventRecord>>, maxEvents: uint32, sequence: uint32)
    ensures Bounded(Joined(Published(batches, maxEvents, sequence)), AllEvents(batches), AllCounted(batches, maxEvents))
  {
    if batches != [] {
      var front, last := batches[..|batches| - 1], batches[|batches| - 1];
      var before := Published(front, maxEvents, sequence);
      var next := After(sequence, |before|);
      RunBound(front, maxEvents, sequence);
      BatchAfterBounded(last, maxEvents, next);
      BoundedStep(before, BatchAfter(last, maxEvents, next), AllEvents(front), last,
                  AllCounted(front, maxEvents), Counted(last, maxEvents));
      PublishedStep(batches, maxEvents, sequence);
      AllCountedStep(batches, maxEvents);
    }
  }

  /** Over any run of batches the logged records put together are all the events, if and only if no frame
      holds more of them than its 32-bit field can say. A configured maximum always guarantees that. */
  lemma RunConserved(batches: seq<seq<EventRecord>>, maxEvents: uint32, sequence: uint32)
    ensures Joined(Published(batches, maxEvents, sequence)) == Some(Flatten(AllEvents(batches)))
       <==> AllCounted(batches, maxEvents)
    ensures 0 < maxEvents ==> AllCounted(batches, maxEvents)
  {
    RunBound(batches, maxEvents, sequence);
  }
}
