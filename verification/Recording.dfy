/** The whole way of a frame: published, followed by the logger's cursor, written, read back. */
module Recording {
  import opened MachineInts
  import opened RingSpec
  import opened StreamLogger
  import opened CameraLog
  import opened CameraPayload
  import opened LogReading
  import EventBatches
  import JsonText

  // A camera's recording

  /** How a camera's entries become messages: its name, the image encoder and the clock mapping. */
  datatype Camera = Camera(name: string, encode: seq<uint8> -> seq<uint8>, unixTime: uint64 -> uint64) {
    /** The message that should come back. */
    function MessageOf(entry: DataEntry): CameraMessage {
      CameraMessage(unixTime(entry.timestamp), name, "jpeg", encode(entry.data))
    }

    /** The payload that the logger writes. */
    function PayloadOf(entry: DataEntry): seq<uint8>
      requires IsBytes(name)
    {
      CameraJsonIsBytes(unixTime(entry.timestamp), name, encode(entry.data));
      ToBytes(CameraJson(unixTime(entry.timestamp), name, encode(entry.data)))
    }

    lemma PayloadReadsBack(entry: DataEntry)
      requires IsBytes(name)
      ensures DecodeCamera(ToText(PayloadOf(entry))) == JsonText.Ok(MessageOf(entry))
    {
      CameraJsonIsBytes(unixTime(entry.timestamp), name, encode(entry.data));
      TextRoundTrip(CameraJson(unixTime(entry.timestamp), name, encode(entry.data)));
      CameraRoundTrip(unixTime(entry.timestamp), name, encode(entry.data));
    }
  }

  /** The file's messages of this topic are the logged entries, in order; the other messages decode. */
  ghost predicate Records(messages: seq<Message>, topic: string, camera: Camera, log: seq<DataEntry>)
    requires IsBytes(camera.name)
  {
    && |Payloads(messages, topic)| == |log|
    && (forall i :: 0 <= i < |log| ==> Payloads(messages, topic)[i] == camera.PayloadOf(log[i]))
    && (forall m :: 0 <= m < |messages| && !OfTopic(messages[m], topic) ==> messages[m].Failure().None?)
  }

  predicate OfTopic(message: Message, topic: string) {
    message.Image? && message.topic == topic
  }

  lemma {:induction false} PayloadsHold(messages: seq<Message>, topic: string, m: nat) returns (k: nat)
    requires m < |messages| && OfTopic(messages[m], topic)
    ensures k < |Payloads(messages, topic)| && Payloads(messages, topic)[k] == messages[m].data
  {
    var front := messages[..|messages| - 1];
    if m < |front| {
      k := PayloadsHold(front, topic, m);
    } else {
      k := |Payloads(front, topic)|;
    }
  }

  lemma RecordedMessageDecodes(messages: seq<Message>, topic: string, camera: Camera, log: seq<DataEntry>, m: nat)
    requires IsBytes(camera.name) && Records(messages, topic, camera, log) && m < |messages|
    ensures messages[m].Failure().None?
  {
    if OfTopic(messages[m], topic) {
      var k := PayloadsHold(messages, topic, m);
      camera.PayloadReadsBack(log[k]);
    }
  }

  /** The file can be read, and the topic's series is the log, row by row. */
  lemma RecordingReadsBack(messages: seq<Message>, topic: string, camera: Camera, log: seq<DataEntry>)
    requires IsBytes(camera.name) && Records(messages, topic, camera, log)
    ensures Read(messages).Ok?
    ensures var series := SeriesOf(Read(messages).value, topic);
      && series.Aligned() && |series.timestamps| == |log|
      && forall i :: 0 <= i < |log| ==> series.Row(i) == camera.MessageOf(log[i])
  {
    forall m | 0 <= m < |messages|
      ensures messages[m].Failure().None?
    {
      RecordedMessageDecodes(messages, topic, camera, log, m);
    }
    ReadFailsFirst(messages);
    ReadRows(messages, topic);
    var series := SeriesOf(Read(messages).value, topic);
    forall i | 0 <= i < |log|
      ensures series.Row(i) == camera.MessageOf(log[i])
    {
      camera.PayloadReadsBack(log[i]);
      assert Payloads(messages, topic)[i] == camera.PayloadOf(log[i]);
    }
  }

  /** If the logger keeps up, reading the file back gives the published frames of the camera, row by row: no
      gap, no repetition, no change. */
  lemma CameraRecordingReadsBack(feed: Feed, c: Cursor, messages: seq<Message>, topic: string, camera: Camera)
    requires feed.Valid() && KeptUp(feed, c)
    requires IsBytes(camera.name) && Records(messages, topic, camera, c.log)
    ensures Read(messages).Ok?
    ensures feed.first <= c.first && c.first - feed.first + |c.log| <= |feed.frames|
    ensures var series := SeriesOf(Read(messages).value, topic);
      && series.Aligned() && |series.timestamps| == |c.log|
      && forall i :: 0 <= i < |c.log| ==>
           var frame := feed.frames[c.first - feed.first + i];
           series.Row(i)
             == CameraMessage(camera.unixTime(frame.timestamp), camera.name, "jpeg", camera.encode(frame.data))
  {
    GapFreeLog(feed, c);
    RecordingReadsBack(messages, topic, camera, c.log);
    var series := SeriesOf(Read(messages).value, topic);
    forall i | 0 <= i < |c.log|
      ensures series.Row(i) == camera.MessageOf(feed.frames[c.first - feed.first + i])
    {
      assert c.log[i] == EntryAt(feed.frames, c.first - feed.first + i, feed.shape.numFrames);
    }
  }

  // An event camera's recording

  /** The feed publishes these frames of an event camera. */
  ghost predicate FeedsFrames(feed: Feed, batch: seq<EventBatches.Publication>) {
    && |feed.frames| == |batch|
    && forall i :: 0 <= i < |batch| ==> AsPublication(feed.frames[i]) == batch[i]
  }

  function AsPublication(entry: DataEntry): EventBatches.Publication {
    EventBatches.Publication(entry.data, entry.sequence, entry.timestamp)
  }

  function AsPublications(log: seq<DataEntry>): (p: seq<EventBatches.Publication>)
    ensures |p| == |log|
  {
    seq(|log|, i requires 0 <= i < |log| => AsPublication(log[i]))
  }

  /** A log of all frames, in order. */
  ghost predicate LogsAll(frames: seq<DataEntry>, log: seq<DataEntry>, n: uint32)
    requires 0 < n
  {
    |log| == |frames| && forall i :: 0 <= i < |log| ==> log[i] == EntryAt(frames, i, n)
  }

  lemma LogsAllOfFeed(feed: Feed, c: Cursor)
    requires feed.Valid() && KeptUp(feed, c)
    requires c.first == feed.first && c.sequence == feed.first + |feed.frames|
    ensures LogsAll(feed.frames, c.log, feed.shape.numFrames)
  {
    GapFreeLog(feed, c);
    forall i | 0 <= i < |c.log|
      ensures c.log[i] == EntryAt(feed.frames, i, feed.shape.numFrames)
    {
      assert c.log[i] == EntryAt(feed.frames, c.first - feed.first + i, feed.shape.numFrames);
    }
  }

  lemma LogIsFeed(frames: seq<DataEntry>, log: seq<DataEntry>, n: uint32, batch: seq<EventBatches.Publication>)
    requires 0 < n && LogsAll(frames, log, n) && |frames| == |batch|
    requires forall i :: 0 <= i < |batch| ==> AsPublication(frames[i]) == batch[i]
    ensures AsPublications(log) == batch
  {
    forall i | 0 <= i < |batch|
      ensures AsPublications(log)[i] == batch[i]
    {
      assert log[i] == EntryAt(frames, i, n) && AsPublication(frames[i]) == batch[i];
    }
  }

  /** Frames of one 32-bit size cannot hold more events than their count can say. */
  lemma {:induction false} FramesAreCounted(batches: seq<seq<EventBatches.EventRecord>>, maxEvents: uint32,
                                            sequence: uint32, size: uint32)
    requires forall p :: p in EventBatches.Published(batches, maxEvents, sequence) ==> |p.payload| == size
    ensures EventBatches.AllCounted(batches, maxEvents)
  {
    if batches != [] {
      var front, last := batches[..|batches| - 1], batches[|batches| - 1];
      EventBatches.PublishedStep(batches, maxEvents, sequence);
      FramesAreCounted(front, maxEvents, sequence, size);
      var before := EventBatches.Published(front, maxEvents, sequence);
      if last != [] {
        var frames := EventBatches.BatchAfter(last, maxEvents, EventBatches.After(sequence, |before|));
        assert frames[0] in EventBatches.Published(batches, maxEvents, sequence);
        assert |frames[0].payload| == 8 + 16 * EventBatches.Capacity(maxEvents, |last|);
      }
      EventBatches.AllCountedStep(batches, maxEvents);
    }
  }

  lemma FeedIsCounted(feed: Feed, batches: seq<seq<EventBatches.EventRecord>>, maxEvents: uint32)
    requires feed.Valid() && FeedsFrames(feed, EventBatches.Published(batches, maxEvents, feed.first))
    ensures EventBatches.AllCounted(batches, maxEvents)
  {
    var published := EventBatches.Published(batches, maxEvents, feed.first);
    forall p | p in published
      ensures |p.payload| == feed.shape.sizePerFrame
    {
      var i :| 0 <= i < |published| && published[i] == p;
      assert AsPublication(feed.frames[i]) == p;
    }
    FramesAreCounted(batches, maxEvents, feed.first, feed.shape.sizePerFrame);
  }

  /** If the logger follows an event camera from its first frame to its last, over any number of batches, the
      records it cuts out of the logged frames are the events, one by one. */
  lemma EventRecordingConserved(feed: Feed, c: Cursor, batches: seq<seq<EventBatches.EventRecord>>, maxEvents: uint32)
    requires feed.Valid() && KeptUp(feed, c)
    requires FeedsFrames(feed, EventBatches.Published(batches, maxEvents, feed.first))
    requires c.first == feed.first && c.sequence == feed.first + |feed.frames|
    ensures EventBatches.Joined(AsPublications(c.log)) == Some(EventBatches.Flatten(EventBatches.AllEvents(batches)))
  {
    LogsAllOfFeed(feed, c);
    LogIsFeed(feed.frames, c.log, feed.shape.numFrames, EventBatches.Published(batches, maxEvents, feed.first));
    FeedIsCounted(feed, batches, maxEvents);
    EventBatches.RunConserved(batches, maxEvents, feed.first);
  }
}
