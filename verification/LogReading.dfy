/** Reading a whole log file: the messages of all topics, sorted into one image series per camera topic. */
module LogReading {
  import opened MachineInts
  import opened JsonText
  import opened CameraPayload
  import opened CameraLog

  /** A message of the file. Inertial messages hold floats, which are not modelled: whether and how decoding one
      fails is part of the message. Messages without channel or schema, with another encoding or of another
      schema are not read. */
  datatype Message =
    | Unread
    | Inertial(topic: string, failure: Option<ParseError>)
    | Image(topic: string, data: seq<uint8>)
  {
    /** The exception that decoding the message ends with. */
    function Failure(): Option<ParseError> {
      match this
      case Unread => None
      case Inertial(_, failure) => failure
      case Image(_, data) => if DecodeCamera(ToText(data)).Ok? then None else Some(DecodeCamera(ToText(data)).error)
    }
  }

  const EMPTY: Columns := Columns([], [], [], [])

  /** The series of one topic. */
  function SeriesOf(topics: map<string, Columns>, topic: string): Columns {
    if topic in topics then topics[topic] else EMPTY
  }

  function Added(topics: map<string, Columns>, message: Message): map<string, Columns> {
    match message
    case Image(topic, data) => topics[topic := Collected(SeriesOf(topics, topic), ToText(data))]
    case _ => topics
  }

  /** The camera topics of a file, or the exception that reading it ends with. */
  function Read(messages: seq<Message>): Result<map<string, Columns>> {
    if messages == [] then
      Ok(map[])
    else
      var before, last := Read(messages[..|messages| - 1]), messages[|messages| - 1];
      if before.Error? then before
      else if last.Failure().Some? then Error(last.Failure().value)
      else Ok(Added(before.value, last))
  }

  /** The payloads of one camera topic, in file order. */
  function Payloads(messages: seq<Message>, topic: string): seq<seq<uint8>> {
    if messages == [] then
      []
    else
      var before, last := Payloads(messages[..|messages| - 1], topic), messages[|messages| - 1];
      if last.Image? && last.topic == topic then before + [last.data] else before
  }

  // What the caller gets

  /** Reading succeeds if and only if every message decodes, and otherwise ends with the first failure. */
  lemma {:induction false} ReadFailsFirst(messages: seq<Message>)
    ensures Read(messages).Ok? <==> forall i :: 0 <= i < |messages| ==> messages[i].Failure().None?
    ensures Read(messages).Error? ==>
      exists i :: 0 <= i < |messages| && messages[i].Failure() == Some(Read(messages).error)
        && forall j :: 0 <= j < i ==> messages[j].Failure().None?
  {
    if messages != [] {
      var last := |messages| - 1;
      var front := messages[..last];
      ReadFailsFirst(front);
      if Read(front).Error? {
        var i :| 0 <= i < |front| && front[i].Failure() == Some(Read(front).error)
          && forall j :: 0 <= j < i ==> front[j].Failure().None?;
        assert messages[i].Failure() == Some(Read(messages).error);
        assert forall j :: 0 <= j < i ==> messages[j] == front[j];
      } else {
        assert forall j :: 0 <= j < last ==> messages[j] == front[j];
        if messages[last].Failure().Some? {
          assert messages[last].Failure() == Some(Read(messages).error);
        }
      }
    }
  }

  /** The columns are the decoded payloads, row by row. */
  ghost predicate RowsAre(columns: Columns, payloads: seq<seq<uint8>>) {
    && columns.Aligned() && |columns.timestamps| == |payloads|
    && forall k :: 0 <= k < |payloads| ==> DecodeCamera(ToText(payloads[k])) == Ok(columns.Row(k))
  }

  lemma RowsGrow(columns: Columns, payloads: seq<seq<uint8>>, data: seq<uint8>)
    requires RowsAre(columns, payloads) && DecodeCamera(ToText(data)).Ok?
    ensures RowsAre(Collected(columns, ToText(data)), payloads + [data])
  {
    CollectedRows(columns, ToText(data));
  }

  /** If reading succeeds, the series of every topic is aligned, and its row `k` is the decoded message `k` of
      that topic; the topics are those with a message. */
  lemma {:induction false} ReadRows(messages: seq<Message>, topic: string)
    requires Read(messages).Ok?
    ensures RowsAre(SeriesOf(Read(messages).value, topic), Payloads(messages, topic))
    ensures topic in Read(messages).value <==> Payloads(messages, topic) != []
  {
    if messages != [] {
      var front, last := messages[..|messages| - 1], messages[|messages| - 1];
      ReadRows(front, topic);
      if last.Image? && last.topic == topic {
        RowsGrow(SeriesOf(Read(front).value, topic), Payloads(front, topic), last.data);
      }
    }
  }

  // The loop

  lemma UpdateTwice<K, V>(m: map<K, V>, key: K, v: V, w: V)
    ensures m[key := v][key := w] == m[key := w]
  {
  }

  class LogFile {
    var cameraTopics: map<string, CompressedImageSeries>

    constructor ()
      ensures cameraTopics == map[]
    {
      cameraTopics := map[];
    }

    /** Every topic has its own series. */
    ghost predicate Valid()
      reads this
    {
      forall s, t :: s in cameraTopics && t in cameraTopics && s != t ==> cameraTopics[s] != cameraTopics[t]
    }

    ghost function Contents(): map<string, Columns>
      reads this, cameraTopics.Values
    {
      map topic | topic in cameraTopics :: cameraTopics[topic].All()
    }

    /** Finds or creates the series of a topic. */
    method TryEmplace(topic: string) returns (series: CompressedImageSeries)
      requires Valid()
      modifies this
      ensures Valid() && topic in cameraTopics && cameraTopics[topic] == series
      ensures fresh(cameraTopics.Values - old(cameraTopics.Values))
      ensures series.All() == SeriesOf(old(Contents()), topic)
      ensures Contents() == old(Contents())[topic := series.All()]
    {
      if topic !in cameraTopics {
        series := new CompressedImageSeries();
        cameraTopics := cameraTopics[topic := series];
      } else {
        series := cameraTopics[topic];
      }
    }

    /** The body of the loop. */
    method AddMessage(message: Message) returns (failure: Option<ParseError>)
      requires Valid()
      modifies this, cameraTopics.Values
      ensures Valid() && fresh(cameraTopics.Values - old(cameraTopics.Values))
      ensures failure == message.Failure()
      ensures failure.None? ==> Contents() == Added(old(Contents()), message)
    {
      match message {
        case Unread =>
          failure := None;
        case Inertial(_, outcome) =>
          failure := outcome;
        case Image(topic, data) =>
          failure := AddImage(topic, data);
      }
    }

    method AddImage(topic: string, data: seq<uint8>) returns (failure: Option<ParseError>)
      requires Valid()
      modifies this, cameraTopics.Values
      ensures Valid() && fresh(cameraTopics.Values - old(cameraTopics.Values))
      ensures failure == Image(topic, data).Failure()
      ensures Contents() == old(Contents())[topic := Collected(SeriesOf(old(Contents()), topic), ToText(data))]
    {
      ghost var before := Contents();
      var series := TryEmplace(topic);
      ghost var empty := series.All();
      failure := DecodeInto(topic, series, data);
      UpdateTwice(before, topic, empty, Collected(empty, ToText(data)));
    }

    /** Decoding into one series leaves those of the other topics alone. */
    method DecodeInto(topic: string, series: CompressedImageSeries, data: seq<uint8>)
      returns (failure: Option<ParseError>)
      requires Valid() && topic in cameraTopics && cameraTopics[topic] == series
      modifies series
      ensures failure == Image(topic, data).Failure()
      ensures Contents() == old(Contents())[topic := Collected(old(series.All()), ToText(data))]
    {
      failure := series.Decode(data);
    }
  }

  /** `read_log_file`, after the file is opened. On an exception no log file is returned. */
  method ReadLogFile(messages: seq<Message>) returns (logFile: LogFile?, failure: Option<ParseError>)
    ensures failure == if Read(messages).Error? then Some(Read(messages).error) else None
    ensures logFile == null <==> failure.Some?
    ensures logFile != null ==> fresh(logFile) && logFile.Valid() && Read(messages) == Ok(logFile.Contents())
  {
    var file := new LogFile();
    for i := 0 to |messages|
      invariant fresh(file) && file.Valid() && fresh(file.cameraTopics.Values)
      invariant Read(messages[..i]) == Ok(file.Contents())
    {
      ReadStep(messages, i);
      failure := file.AddMessage(messages[i]);
      if failure.Some? {
        ReadStops(messages, i);
        return null, failure;
      }
    }
    assert messages[..|messages|] == messages;
    return file, None;
  }

  lemma ReadStep(messages: seq<Message>, i: nat)
    requires i < |messages| && Read(messages[..i]).Ok?
    ensures Read(messages[..i + 1])
         == if messages[i].Failure().Some? then Error(messages[i].Failure().value)
            else Ok(Added(Read(messages[..i]).value, messages[i]))
  {
    assert messages[..i + 1][..i] == messages[..i];
  }

  lemma {:induction false} ReadStops(messages: seq<Message>, i: nat)
    requires i < |messages| && Read(messages[..i]).Ok? && messages[i].Failure().Some?
    ensures Read(messages) == Error(messages[i].Failure().value)
  {
    if i == |messages| - 1 {
      ReadStep(messages, i);
      assert messages[..i + 1] == messages;
    } else {
      var front := messages[..|messages| - 1];
      assert front[..i] == messages[..i];
      ReadStops(front, i);
    }
  }
}
