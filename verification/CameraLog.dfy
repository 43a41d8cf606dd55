/** Camera messages on their way through the log: the logger builds the payload bytes, the log reader
    collects what it decodes from them in four series. */
module CameraLog {
  import opened MachineInts
  import opened JsonText
  import opened JsonFields
  import opened CameraPayload
  import Base64

  // Writing

  lemma {:induction false} EscapeIsBytes(value: string)
    requires IsBytes(value)
    ensures IsBytes(Escape(value))
  {
    if value != "" {
      assert value[0] < 256 as char;
      EscapeIsBytes(value[1..]);
    }
  }

  lemma {:induction false} EncodedIsBytes(bytes: seq<uint8>)
    ensures IsBytes(Base64.Encode(bytes))
  {
    if |bytes| > 3 {
      GroupIsBytes(bytes[..3]);
      EncodedIsBytes(bytes[3..]);
    } else if bytes != [] {
      GroupIsBytes(bytes);
    }
  }

  lemma GroupIsBytes(group: seq<uint8>)
    requires 0 < |group| <= 3
    ensures IsBytes(Base64.EncodeGroup(group))
  {
  }

  lemma DecimalIsBytes(n: nat)
    ensures IsBytes(Decimal(n))
  {
    DecimalValue(n);
    forall i | 0 <= i < |Decimal(n)|
      ensures Decimal(n)[i] < 256 as char
    {
      assert IsDigit(Decimal(n)[i]);
    }
  }

  lemma TimestampIsBytes(timestamp: uint64)
    ensures IsBytes("{" + TimestampJson(timestamp))
  {
    var sec, nsec := Decimal(timestamp / NANOSECONDS_PER_SECOND), Decimal(timestamp % NANOSECONDS_PER_SECOND);
    DecimalIsBytes(timestamp / NANOSECONDS_PER_SECOND);
    DecimalIsBytes(timestamp % NANOSECONDS_PER_SECOND);
    assert IsBytes("\"timestamp\":{\"sec\":" + sec);
    assert IsBytes(",\"nsec\":" + nsec + "}");
    assert TimestampJson(timestamp) == ("\"timestamp\":{\"sec\":" + sec) + (",\"nsec\":" + nsec + "}");
  }

  lemma FieldIsBytes(text: string, field: string, value: string)
    requires IsBytes(text) && IsBytes(field) && IsBytes(value)
    ensures IsBytes(text + StringField(field, value))
  {
    EscapeIsBytes(value);
  }

  lemma CameraJsonIsBytes(timestamp: uint64, name: string, image: seq<uint8>)
    requires IsBytes(name)
    ensures IsBytes(CameraJson(timestamp, name, image))
  {
    TimestampIsBytes(timestamp);
    var front := "{" + TimestampJson(timestamp);
    FieldIsBytes(front, "frame_id", name);
    EncodedIsBytes(image);
    FieldIsBytes(front + StringField("frame_id", name), "data", Base64.Encode(image));
    FieldIsBytes(front + StringField("frame_id", name) + StringField("data", Base64.Encode(image)), "format", "jpeg");
  }

  method AppendTimestamp(out: string, timestamp: uint64) returns (extended: string)
    ensures extended == out + TimestampJson(timestamp)
  {
    extended := out + "\"timestamp\":{\"sec\":" + Decimal(timestamp / NANOSECONDS_PER_SECOND);
    extended := extended + ",\"nsec\":" + Decimal(timestamp % NANOSECONDS_PER_SECOND) + "}";
  }

  method AppendStringField(out: string, key: string, value: string) returns (extended: string)
    ensures extended == out + StringField(key, value)
  {
    var escaped := JsonEscape(value);
    extended := out + ",\"" + key + "\":\"" + escaped + "\"";
  }

  /** The payload's characters as bytes, appended one by one. */
  method AssignPayload(json: string) returns (payload: seq<uint8>)
    requires IsBytes(json)
    ensures payload == ToBytes(json)
  {
    payload := [];
    for i := 0 to |json|
      invariant payload == ToBytes(json)[..i]
    {
      payload := payload + [json[i] as int];
    }
  }

  /** Bytes of a full image, as a 64-bit product. */
  function ExpectedSize(width: uint64, height: uint64): uint64 {
    (width * height * 3) % U64_RANGE
  }

  /** The JPEG encoder is foreign code and a parameter here: it returns an image or fails. */
  method GetCameraPayload(data: seq<uint8>, width: uint64, height: uint64, name: string, timestamp: uint64,
                          encode: (uint64, uint64, seq<uint8>) -> Option<seq<uint8>>)
    returns (payload: Option<seq<uint8>>)
    requires IsBytes(name)
    // Three bytes a pixel, in 64 bits.
    ensures payload.Some? <==>
      width * height * 3 % 0x1_0000_0000_0000_0000 <= |data| && encode(width, height, data).Some?
    ensures width * height * 3 < 0x1_0000_0000_0000_0000 ==>
      (payload.Some? <==> width * height * 3 <= |data| && encode(width, height, data).Some?)
    ensures payload.Some? ==>
      var text := ToText(payload.value);
      && DecodeCamera(text) == Ok(CameraMessage(timestamp, name, "jpeg", encode(width, height, data).value))
      && ExtractUint64(text, "sec") == Ok(timestamp / 1_000_000_000)
      && ExtractUint64(text, "nsec") == Ok(timestamp % 1_000_000_000)
  {
    if width * height * 3 < U64_RANGE {
      ModSmall(width * height * 3, U64_RANGE);
    }
    if |data| < ExpectedSize(width, height) {
      return None;
    }
    var encoded := encode(width, height, data);
    if encoded.None? {
      return None;
    }
    var json := PrintCamera(timestamp, name, encoded.value);
    CameraJsonIsBytes(timestamp, name, encoded.value);
    var bytes := AssignPayload(json);
    TextRoundTrip(json);
    CameraRoundTrip(timestamp, name, encoded.value);
    CameraSeconds(timestamp, name, encoded.value);
    payload := Some(bytes);
  }

  method PrintCamera(timestamp: uint64, name: string, image: seq<uint8>) returns (json: string)
    ensures json == CameraJson(timestamp, name, image)
  {
    json := AppendTimestamp("{", timestamp);
    json := AppendStringField(json, "frame_id", name);
    var data := Base64.EncodeBytes(image);
    json := AppendStringField(json, "data", data);
    json := AppendStringField(json, "format", "jpeg");
    json := json + "}";
  }

  // Reading

  method ExtractJsonUint64(text: string, field: string) returns (result: Result<uint64>)
    ensures result == ExtractUint64(text, field)
  {
    var number := ExtractJsonNumberText(text, field);
    if number.Error? || StoULL(number.value).None? {
      return Error(MalformedInteger);
    }
    result := Ok(StoULL(number.value).value);
  }

  method ExtractTimestampNs(text: string) returns (result: Result<uint64>)
    ensures result == ExtractTimestamp(text)
  {
    var sec := ExtractJsonUint64(text, "sec");
    if sec.Error? {
      return sec;
    }
    var nsec := ExtractJsonUint64(text, "nsec");
    if nsec.Error? {
      return nsec;
    }
    if nsec.value >= NANOSECONDS_PER_SECOND {
      return Error(MalformedTimestamp);
    }
    result := Ok((sec.value * NANOSECONDS_PER_SECOND + nsec.value) % U64_RANGE);
  }

  lemma {:induction false} UnescapedIsBytes(rest: string)
    requires IsBytes(rest)
    ensures Unescape(rest).Ok? ==> IsBytes(Unescape(rest).value)
    decreases |rest|
  {
    if rest != "" && rest[0] != QUOTE {
      if rest[0] != BACKSLASH {
        UnescapedIsBytes(rest[1..]);
      } else if |rest| > 1 {
        UnescapedIsBytes(rest[2..]);
      }
    }
  }

  lemma ExtractedIsBytes(text: string, field: string)
    requires IsBytes(text)
    ensures ExtractString(text, field).Ok? ==> IsBytes(ExtractString(text, field).value)
  {
    if ExtractString(text, field).Ok? {
      var value := From(text, SkipSpace(text, FindJsonField(text, field, 0).value));
      UnescapedIsBytes(value[1..]);
    }
  }

  method DecodeData(text: string) returns (result: Result<seq<uint8>>)
    requires IsBytes(text)
    ensures result == DecodeImage(text)
  {
    var encoded := ExtractJsonString(text, "data");
    if encoded.Error? {
      return Error(encoded.error);
    }
    ExtractedIsBytes(text, "data");
    var image := Base64.DecodeText(encoded.value);
    if image.None? {
      return Error(MalformedBase64);
    }
    result := Ok(image.value);
  }

  /** The four columns of the decoded messages of one topic. */
  datatype Columns = Columns(timestamps: seq<uint64>, frameIds: seq<string>, formats: seq<string>,
                             images: seq<seq<uint8>>)
  {
    predicate Aligned() {
      |timestamps| == |frameIds| == |formats| == |images|
    }

    function Row(i: nat): CameraMessage
      requires Aligned() && i < |timestamps|
    {
      CameraMessage(timestamps[i], frameIds[i], formats[i], images[i])
    }
  }

  function Appended<T>(column: seq<T>, value: Result<T>): seq<T> {
    if value.Ok? then column + [value.value] else column
  }

  /** The value is appended only if the ones before it were. */
  function Unless<T, U>(earlier: Result<T>, value: Result<U>): Result<U> {
    if earlier.Error? then Error(earlier.error) else value
  }

  /** What one message appends; an error stops the appending where it is. */
  function Collected(columns: Columns, text: string): Columns {
    var timestamp := ExtractTimestamp(text);
    var frameId := Unless(timestamp, ExtractString(text, "frame_id"));
    var format := Unless(frameId, ExtractString(text, "format"));
    var image := Unless(format, DecodeImage(text));
    Columns(Appended(columns.timestamps, timestamp), Appended(columns.frameIds, frameId),
            Appended(columns.formats, format), Appended(columns.images, image))
  }

  /** A message that decodes adds one row and keeps the others; one that does not leaves the columns
      aligned exactly when already its timestamp is at fault. */
  lemma CollectedRows(columns: Columns, text: string)
    requires columns.Aligned()
    ensures var after := Collected(columns, text);
      && (DecodeCamera(text).Ok? ==>
            && after.Aligned() && |after.timestamps| == |columns.timestamps| + 1
            && after.Row(|columns.timestamps|) == DecodeCamera(text).value
            && forall i :: 0 <= i < |columns.timestamps| ==> after.Row(i) == columns.Row(i))
      && (DecodeCamera(text).Error? ==> (after.Aligned() <==> ExtractTimestamp(text).Error?))
      && (ExtractTimestamp(text).Error? ==> after == columns)
  {
    if DecodeCamera(text).Error? && ExtractTimestamp(text).Ok? {
      assert |Collected(columns, text).images| == |columns.images|;
    }
  }

  /** Time, name, format and image are decoded in this order: the first failure is the exception, and exactly the
      columns in front of it have grown. */
  lemma FailsInOrder(columns: Columns, text: string)
    ensures var time, name := ExtractTimestamp(text), ExtractString(text, "frame_id");
      var format, image, after := ExtractString(text, "format"), DecodeImage(text), Collected(columns, text);
      && (DecodeCamera(text).Error? ==>
            DecodeCamera(text).error == if time.Error? then time.error else if name.Error? then name.error
                                        else if format.Error? then format.error else image.error)
      && |after.timestamps| == |columns.timestamps| + (if time.Ok? then 1 else 0)
      && |after.frameIds| == |columns.frameIds| + (if time.Ok? && name.Ok? then 1 else 0)
      && |after.formats| == |columns.formats| + (if time.Ok? && name.Ok? && format.Ok? then 1 else 0)
      && |after.images| == |columns.images| + (if DecodeCamera(text).Ok? then 1 else 0)
  {
  }

  class CompressedImageSeries {
    var timestamps: seq<uint64>
    var frameIds: seq<string>
    var formats: seq<string>
    var images: seq<seq<uint8>>

    constructor ()
      ensures All() == Columns([], [], [], [])
    {
      timestamps, frameIds, formats, images := [], [], [], [];
    }

    function All(): Columns
      reads this
    {
      Columns(timestamps, frameIds, formats, images)
    }

    /** Decodes one message into the series; `Some` is the exception it ends with. */
    method Decode(message: seq<uint8>) returns (error: Option<ParseError>)
      modifies this
      ensures All() == Collected(old(All()), ToText(message))
      ensures error == if DecodeCamera(ToText(message)).Ok? then None
                       else Some(DecodeCamera(ToText(message)).error)
    {
      var text := ToText(message);
      var timestamp := ExtractTimestampNs(text);
      if timestamp.Error? {
        return Some(timestamp.error);
      }
      timestamps := timestamps + [timestamp.value];
      var frameId := ExtractJsonString(text, "frame_id");
      if frameId.Error? {
        return Some(frameId.error);
      }
      frameIds := frameIds + [frameId.value];
      var format := ExtractJsonString(text, "format");
      if format.Error? {
        return Some(format.error);
      }
      formats := formats + [format.value];
      var image := DecodeData(text);
      if image.Error? {
        return Some(image.error);
      }
      images := images + [image.value];
      error := None;
    }
  }
}
