/** The event camera message: checked, cut out of its frame and printed by the logger. */
module EventPayload {
  import opened MachineInts
  import opened JsonText
  import opened JsonFields
  import opened CameraPayload
  import CameraLog
  import EventBatches
  import Base64
  import LittleEndian

  const ENCODING: string := "core.EventRecord.v1"

  /** The numbers and the encoding of one message. */
  datatype Batch = Batch(timestamp: uint64, sequence: uint32, numEvents: uint32, encoding: string) {
    function Sec(): uint64 { timestamp / NANOSECONDS_PER_SECOND }

    function Nsec(): uint64 { timestamp % NANOSECONDS_PER_SECOND }
  }

  function NumberField(field: string, n: nat): string {
    ",\"" + field + "\":" + Decimal(n)
  }

  function EventJson(b: Batch, records: seq<uint8>): string {
    "{" + TimestampJson(b.timestamp) + NumberField("sequence", b.sequence) + NumberField("num_events", b.numEvents)
    + StringField("encoding", b.encoding) + StringField("data", Base64.Encode(records)) + "}"
  }

  // The text in front of each field

  function FrontOfNumEvents(b: Batch): string {
    FrontOfFrameId(b.Sec(), b.Nsec()) + NumberItem("sequence", b.sequence, ",")
  }

  function FrontOfEncoding(b: Batch): string {
    FrontOfNumEvents(b) + NumberItem("num_events", b.numEvents, ",")
  }

  function FrontOfRecords(b: Batch): string {
    FrontOfEncoding(b) + StringItem("encoding", b.encoding, ",")
  }

  lemma CleanFrontOfNumEvents(field: string, b: Batch)
    requires Differ("timestamp", field) && Differ("sec", field) && Differ("nsec", field) && Differ("sequence", field)
    ensures Clean(':', FrontOfNumEvents(b), field)
  {
    CleanFrontOfFrameId(field, b.Sec(), b.Nsec());
    CleanNumberItem(',', "sequence", b.sequence, ",", field);
    CleanConcat(':', FrontOfFrameId(b.Sec(), b.Nsec()), NumberItem("sequence", b.sequence, ","), field);
  }

  lemma CleanFrontOfEncoding(field: string, b: Batch)
    requires Differ("timestamp", field) && Differ("sec", field) && Differ("nsec", field) && Differ("sequence", field)
    requires Differ("num_events", field)
    ensures Clean(':', FrontOfEncoding(b), field)
  {
    CleanFrontOfNumEvents(field, b);
    CleanNumberItem(',', "num_events", b.numEvents, ",", field);
    CleanConcat(':', FrontOfNumEvents(b), NumberItem("num_events", b.numEvents, ","), field);
  }

  lemma CleanFrontOfRecords(b: Batch)
    ensures Clean(':', FrontOfRecords(b), "data")
  {
    CleanFrontOfEncoding("data", b);
    CleanStringItem(',', "encoding", b.encoding, "data");
    CleanConcat(':', FrontOfEncoding(b), StringItem("encoding", b.encoding, ","), "data");
  }

  // The round trip

  lemma NextNumber(x: string, field: string, n: nat, separator: string)
    ensures (x + NumberField(field, n)) + separator == (x + ",") + NumberItem(field, n, separator)
  {
    var f := NumberField(field, n) + separator;
    assert f == "," + NumberItem(field, n, separator);
    Assoc(x, NumberField(field, n), separator);
    Assoc(x, ",", NumberItem(field, n, separator));
  }

  lemma EventJsonIsItems(b: Batch, records: seq<uint8>)
    ensures EventJson(b, records) == FrontOfRecords(b) + StringItem("data", Base64.Encode(records), "}")
  {
    TimestampIsItems(b.timestamp);
    var x := "{" + TimestampJson(b.timestamp);
    NextNumber(x, "sequence", b.sequence, ",");
    var y := x + NumberField("sequence", b.sequence);
    NextNumber(y, "num_events", b.numEvents, ",");
    var z := y + NumberField("num_events", b.numEvents);
    NextField(z, "encoding", b.encoding, ",");
    NextField(z + StringField("encoding", b.encoding), "data", Base64.Encode(records), "}");
  }

  lemma StringsReadBack(text: string, b: Batch, data: string)
    requires text == FrontOfRecords(b) + StringItem("data", data, "}")
    ensures ExtractString(text, "encoding") == Ok(b.encoding)
    ensures ExtractString(text, "data") == Ok(data)
  {
    var last := StringItem("data", data, "}");
    CleanFrontOfRecords(b);
    ReadsPrintedString(text, FrontOfRecords(b), "data", data, "}", "");
    Assoc(FrontOfEncoding(b), StringItem("encoding", b.encoding, ","), last);
    CleanFrontOfEncoding("encoding", b);
    ReadsPrintedString(text, FrontOfEncoding(b), "encoding", b.encoding, ",", last);
  }

  lemma NumbersReadBack(text: string, b: Batch, after: string)
    requires text == FrontOfEncoding(b) + after
    ensures ExtractUint64(text, "num_events") == Ok(b.numEvents)
    ensures ExtractUint64(text, "sequence") == Ok(b.sequence)
    ensures ExtractTimestamp(text) == Ok(b.timestamp)
  {
    Assoc(FrontOfNumEvents(b), NumberItem("num_events", b.numEvents, ","), after);
    CleanFrontOfNumEvents("num_events", b);
    ReadsPrintedNumber(text, FrontOfNumEvents(b), "num_events", b.numEvents, ",", after);

    var fromNumEvents := NumberItem("num_events", b.numEvents, ",") + after;
    var front := FrontOfFrameId(b.Sec(), b.Nsec());
    Assoc(front, NumberItem("sequence", b.sequence, ","), fromNumEvents);
    CleanFrontOfFrameId("sequence", b.Sec(), b.Nsec());
    ReadsPrintedNumber(text, front, "sequence", b.sequence, ",", fromNumEvents);

    TimestampInFront(text, b.timestamp, NumberItem("sequence", b.sequence, ",") + fromNumEvents);
  }

  /** What a consumer of the message extracts is what was printed. */
  ghost predicate ReadsBack(text: string, b: Batch, records: seq<uint8>) {
    && ExtractTimestamp(text) == Ok(b.timestamp)
    && ExtractUint64(text, "sequence") == Ok(b.sequence)
    && ExtractUint64(text, "num_events") == Ok(b.numEvents)
    && ExtractString(text, "encoding") == Ok(b.encoding)
    && DecodeImage(text) == Ok(records)
  }

  lemma FieldsReadBack(text: string, b: Batch, data: string, records: seq<uint8>)
    requires text == FrontOfRecords(b) + StringItem("data", data, "}") && Base64.Decode(data) == Some(records)
    ensures ReadsBack(text, b, records)
  {
    StringsReadBack(text, b, data);
    Assoc(FrontOfEncoding(b), StringItem("encoding", b.encoding, ","), StringItem("data", data, "}"));
    NumbersReadBack(text, b, StringItem("encoding", b.encoding, ",") + StringItem("data", data, "}"));
  }

  lemma EventRoundTrip(b: Batch, records: seq<uint8>)
    ensures ReadsBack(EventJson(b, records), b, records)
  {
    EventJsonIsItems(b, records);
    Base64.DecodeEncode(records);
    FieldsReadBack(EventJson(b, records), b, Base64.Encode(records), records);
  }

  /** Rejects frames that are too short for the number of events they claim. */
  method GetEventCameraPayload(data: seq<uint8>, sequence: uint32, timestamp: uint64) returns (json: Option<string>)
    ensures json.Some? <==> 8 <= |data| && 8 + 16 * LittleEndian.FromBytes(data[..4]) <= |data|
    ensures json.Some? ==>
      var numEvents: nat := LittleEndian.FromBytes(data[..4]);
      && ExtractTimestamp(json.value) == Ok(timestamp)
      && ExtractUint64(json.value, "sequence") == Ok(sequence)
      && ExtractUint64(json.value, "num_events") == Ok(numEvents)
      && ExtractString(json.value, "encoding") == Ok("core.EventRecord.v1")
      && DecodeImage(json.value) == Ok(data[8..8 + 16 * numEvents])
  {
    EventBatches.CutExact(data);
    var cut := EventBatches.CutRecords(data);
    if cut.None? {
      return None;
    }
    var (numEvents, records) := cut.value;
    var batch := Batch(timestamp, sequence, numEvents, ENCODING);
    var text := PrintEvents(batch, records);
    EventRoundTrip(batch, records);
    json := Some(text);
  }

  method AppendNumberField(out: string, key: string, n: nat) returns (extended: string)
    ensures extended == out + NumberField(key, n)
  {
    extended := out + ",\"" + key + "\":" + Decimal(n);
  }

  method PrintEvents(b: Batch, records: seq<uint8>) returns (json: string)
    ensures json == EventJson(b, records)
  {
    json := CameraLog.AppendTimestamp("{", b.timestamp);
    json := AppendNumberField(json, "sequence", b.sequence);
    json := AppendNumberField(json, "num_events", b.numEvents);
    json := CameraLog.AppendStringField(json, "encoding", b.encoding);
    var data := Base64.EncodeBytes(records);
    json := CameraLog.AppendStringField(json, "data", data);
    json := json + "}";
  }
}
