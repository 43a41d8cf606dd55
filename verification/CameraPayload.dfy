/** The camera message: printed by the logger, read back by the log reader. */
module CameraPayload {
  import opened MachineInts
  import opened JsonText
  import opened JsonFields
  import Base64

  /** A C++ string: its characters are bytes. */
  predicate IsBytes(text: string) {
    forall i :: 0 <= i < |text| ==> text[i] < 256 as char
  }

  function ToBytes(text: string): (bytes: seq<uint8>)
    requires IsBytes(text)
    ensures |bytes| == |text|
  {
    seq(|text|, i requires 0 <= i < |text| => text[i] as int)
  }

  function ToText(bytes: seq<uint8>): (text: string)
    ensures |text| == |bytes|
  {
    seq(|bytes|, i requires 0 <= i < |bytes| => bytes[i] as char)
  }

  lemma TextRoundTrip(text: string)
    requires IsBytes(text)
    ensures ToText(ToBytes(text)) == text
  {
  }

  // Printing

  function TimestampJson(timestamp: uint64): string {
    "\"timestamp\":{\"sec\":" + Decimal(timestamp / NANOSECONDS_PER_SECOND)
    + ",\"nsec\":" + Decimal(timestamp % NANOSECONDS_PER_SECOND) + "}"
  }

  function StringField(field: string, value: string): string {
    ",\"" + field + "\":\"" + Escape(value) + "\""
  }

  function CameraJson(timestamp: uint64, name: string, image: seq<uint8>): string {
    "{" + TimestampJson(timestamp) + StringField("frame_id", name)
    + StringField("data", Base64.Encode(image)) + StringField("format", "jpeg") + "}"
  }

  lemma {:induction false} EscapeOfPlain(value: string)
    requires forall i :: 0 <= i < |value| ==> EscapeChar(value[i]) == [value[i]]
    ensures Escape(value) == value
  {
    if value != "" {
      EscapeOfPlain(value[1..]);
      assert [value[0]] + value[1..] == value;
    }
  }

  lemma EncodedIsPlain(image: seq<uint8>)
    ensures Escape(Base64.Encode(image)) == Base64.Encode(image)
  {
    var encoded := Base64.Encode(image);
    Base64.EncodeShape(image);
    forall i | 0 <= i < |encoded|
      ensures EscapeChar(encoded[i]) == [encoded[i]]
    {
      SymbolIsPlain(encoded[i]);
    }
    EscapeOfPlain(encoded);
  }

  lemma SymbolIsPlain(c: char)
    requires Base64.DecodeValue(c) < 64 || c == '='
    ensures EscapeChar(c) == [c]
  {
  }

  /** The whole text. */
  lemma CameraText(timestamp: uint64, name: string, image: seq<uint8>)
    ensures CameraJson(timestamp, name, image)
         == "{" + ("\"timestamp\":{\"sec\":" + Decimal(timestamp / 1_000_000_000)
                  + ",\"nsec\":" + Decimal(timestamp % 1_000_000_000) + "}")
            + (",\"frame_id\":\"" + Escape(name) + "\"")
            + (",\"data\":\"" + Base64.Encode(image) + "\"")
            + (",\"format\":\"" + "jpeg" + "\"") + "}"
  {
    EncodedIsPlain(image);
    assert ",\"" + "frame_id" + "\":\"" == ",\"frame_id\":\"";
    assert ",\"" + "data" + "\":\"" == ",\"data\":\"";
    assert ",\"" + "format" + "\":\"" == ",\"format\":\"";
    FormatIsPlain();
  }

  lemma FormatIsPlain()
    ensures Escape("jpeg") == "jpeg"
  {
    EscapeOfPlain("jpeg");
  }

  // Reading

  datatype CameraMessage = CameraMessage(timestamp: uint64, frameId: string, format: string, image: seq<uint8>)

  function DecodeImage(text: string): Result<seq<uint8>> {
    var encoded :- ExtractString(text, "data");
    var image := Base64.Decode(encoded);
    if image.None? then Error(MalformedBase64) else Ok(image.value)
  }

  function DecodeCamera(text: string): Result<CameraMessage> {
    var timestamp :- ExtractTimestamp(text);
    var frameId :- ExtractString(text, "frame_id");
    var format :- ExtractString(text, "format");
    var image :- DecodeImage(text);
    Ok(CameraMessage(timestamp, frameId, format, image))
  }

  // The text of the message in front of each of the five fields

  /** A printed key with its number, and what follows it. */
  function NumberItem(field: string, n: nat, separator: string): string {
    Quoted(field) + ":" + (Decimal(n) + separator)
  }

  /** A printed key with its string, and what follows the closing quote. */
  function StringItem(field: string, value: string, separator: string): string {
    Quoted(field) + ":\"" + (Escape(value) + ("\"" + separator))
  }

  function FrontOfSec(): string {
    "{\"timestamp\":{"
  }

  function FrontOfNsec(sec: nat): string {
    FrontOfSec() + NumberItem("sec", sec, ",")
  }

  function FrontOfFrameId(sec: nat, nsec: nat): string {
    FrontOfNsec(sec) + NumberItem("nsec", nsec, "},")
  }

  function FrontOfData(sec: nat, nsec: nat, name: string): string {
    FrontOfFrameId(sec, nsec) + StringItem("frame_id", name, ",")
  }

  function FrontOfFormat(sec: nat, nsec: nat, name: string, data: string): string {
    FrontOfData(sec, nsec, name) + StringItem("data", data, ",")
  }

  lemma CleanDigits(before: char, n: nat, field: string)
    requires 3 <= |field|
    ensures Clean(before, Decimal(n), field)
  {
    DecimalValue(n);
    forall i | 0 <= i < |Decimal(n)|
      ensures Decimal(n)[i] != QUOTE
    {
      assert IsDigit(Decimal(n)[i]);
    }
  }

  /** A printed key, its value and the separator after it hold no accepted key with other first letters. */
  lemma CleanItem(before: char, key: string, value: string, separator: string, field: string)
    requires 3 <= |field|
    requires key != "" && Clean(before, key, field)
    requires Clean(key[|key| - 1], value, field)
    requires Clean('{', separator, field)
    ensures Clean(before, key + (value + separator), field)
  {
    var last := LastOf(key[|key| - 1], value);
    forall i | 0 <= i < |separator| && separator[i] == QUOTE
      ensures HarmlessAt(last, separator, field, i)
    {
      assert HarmlessAt('{', separator, field, i);
    }
    CleanConcat(key[|key| - 1], value, separator, field);
    CleanConcat(before, key, value + separator, field);
  }

  /** The two fields differ in their first three letters. */
  predicate Differ(key: string, field: string) {
    3 <= |key| && 3 <= |field| && (key[0] != field[0] || key[1] != field[1] || key[2] != field[2])
  }

  lemma CleanKey(before: char, key: string, colon: string, field: string)
    requires Differ(key, field) && QUOTE !in key && Blocks(key[|key| - 1])
    requires colon == ":" || colon == ":\""
    ensures Clean(before, Quoted(key) + colon, field)
  {
    var s := Quoted(key) + colon;
    forall i | 0 <= i < |s| && s[i] == QUOTE
      ensures HarmlessAt(before, s, field, i)
    {
      KeyInterior(key, i);
    }
  }

  lemma CleanNumberItem(before: char, key: string, n: nat, separator: string, field: string)
    requires Differ(key, field) && QUOTE !in key && Blocks(key[|key| - 1]) && QUOTE !in separator
    ensures Clean(before, NumberItem(key, n, separator), field)
  {
    CleanKey(before, key, ":", field);
    CleanDigits(':', n, field);
    CleanItem(before, Quoted(key) + ":", Decimal(n), separator, field);
  }

  lemma CleanStringItem(before: char, key: string, value: string, field: string)
    requires Differ(key, field) && QUOTE !in key && Blocks(key[|key| - 1]) && field[0] != ','
    ensures Clean(before, StringItem(key, value, ","), field)
  {
    CleanKey(before, key, ":\"", field);
    CleanEscape(QUOTE, value, field);
    CleanItem(before, Quoted(key) + ":\"", Escape(value), "\",", field);
    assert "\"" + "," == "\",";
  }

  lemma CleanFrontOfSec(field: string)
    requires Differ("timestamp", field)
    ensures Clean(':', FrontOfSec(), field)
  {
  }

  lemma CleanFrontOfNsec(field: string, sec: nat)
    requires Differ("timestamp", field) && Differ("sec", field)
    ensures Clean(':', FrontOfNsec(sec), field)
  {
    CleanFrontOfSec(field);
    CleanNumberItem('{', "sec", sec, ",", field);
    CleanConcat(':', FrontOfSec(), NumberItem("sec", sec, ","), field);
  }

  lemma CleanFrontOfFrameId(field: string, sec: nat, nsec: nat)
    requires Differ("timestamp", field) && Differ("sec", field) && Differ("nsec", field)
    ensures Clean(':', FrontOfFrameId(sec, nsec), field)
  {
    CleanFrontOfNsec(field, sec);
    CleanNumberItem(',', "nsec", nsec, "},", field);
    CleanConcat(':', FrontOfNsec(sec), NumberItem("nsec", nsec, "},"), field);
  }

  lemma CleanFrontOfData(field: string, sec: nat, nsec: nat, name: string)
    requires Differ("timestamp", field) && Differ("sec", field) && Differ("nsec", field)
    requires Differ("frame_id", field) && field[0] != ','
    ensures Clean(':', FrontOfData(sec, nsec, name), field)
  {
    CleanFrontOfFrameId(field, sec, nsec);
    CleanStringItem(',', "frame_id", name, field);
    CleanConcat(':', FrontOfFrameId(sec, nsec), StringItem("frame_id", name, ","), field);
  }

  lemma CleanFrontOfFormat(sec: nat, nsec: nat, name: string, data: string)
    ensures Clean(':', FrontOfFormat(sec, nsec, name, data), "format")
  {
    CleanFrontOfData("format", sec, nsec, name);
    CleanStringItem(',', "data", data, "format");
    CleanConcat(':', FrontOfData(sec, nsec, name), StringItem("data", data, ","), "format");
  }

  // The round trip

  lemma Assoc(a: string, b: string, c: string)
    ensures (a + b) + c == a + (b + c)
  {
  }

  /** A printed item in the middle of a text, regrouped around its key. */
  lemma RegroupItem(front: string, key: string, value: string, separator: string, after: string)
    ensures (front + (key + (value + separator))) + after == front + key + (value + (separator + after))
  {
    Assoc(front, key + (value + separator), after);
    Assoc(key, value + separator, after);
    Assoc(value, separator, after);
    Assoc(front, key, value + (separator + after));
  }

  lemma ReadsPrintedNumber(text: string, front: string, field: string, n: uint64, separator: string, after: string)
    requires Ready(front, field) && text == (front + NumberItem(field, n, separator)) + after
    requires separator != "" && !IsNumberChar(separator[0])
    ensures ExtractUint64(text, field) == Ok(n)
  {
    RegroupItem(front, Quoted(field) + ":", Decimal(n), separator, after);
    Assoc(front, Quoted(field), ":");
    DecimalValue(n);
    assert IsDigit(Decimal(n)[0]);
    Uint64OfPrinted(text, front, field, n, separator + after);
  }

  lemma ReadsPrintedString(text: string, front: string, field: string, value: string, separator: string, after: string)
    requires Ready(front, field) && text == (front + StringItem(field, value, separator)) + after
    ensures ExtractString(text, field) == Ok(value)
  {
    RegroupItem(front, Quoted(field) + ":\"", Escape(value), "\"" + separator, after);
    var printed := [QUOTE] + Escape(value) + [QUOTE] + (separator + after);
    assert text == front + Quoted(field) + [':'] + printed by {
      assert Quoted(field) + ":\"" == Quoted(field) + [':'] + [QUOTE];
      assert printed == [QUOTE] + (Escape(value) + (("\"" + separator) + after));
    }
    StringOfPrinted(text, front, field, value, separator + after);
  }

  /** One more field of the printer, seen from the comma in front of it. */
  lemma NextField(x: string, field: string, value: string, separator: string)
    ensures (x + StringField(field, value)) + separator == (x + ",") + StringItem(field, value, separator)
  {
    var f := StringField(field, value) + separator;
    assert f == "," + StringItem(field, value, separator);
    Assoc(x, StringField(field, value), separator);
    Assoc(x, ",", StringItem(field, value, separator));
  }

  lemma SecItem(sec: nat)
    ensures NumberItem("sec", sec, ",") == "\"sec\":" + Decimal(sec) + ","
  {
    Assoc("\"sec\":", Decimal(sec), ",");
  }

  lemma NsecItem(nsec: nat)
    ensures NumberItem("nsec", nsec, "},") == "\"nsec\":" + Decimal(nsec) + "},"
  {
    Assoc("\"nsec\":", Decimal(nsec), "},");
  }

  lemma TimestampIsItems(timestamp: uint64)
    ensures ("{" + TimestampJson(timestamp)) + ","
         == FrontOfFrameId(timestamp / NANOSECONDS_PER_SECOND, timestamp % NANOSECONDS_PER_SECOND)
  {
    var sec, nsec := timestamp / NANOSECONDS_PER_SECOND, timestamp % NANOSECONDS_PER_SECOND;
    SecItem(sec);
    NsecItem(nsec);
    TimestampParts(Decimal(sec), Decimal(nsec));
  }

  lemma TimestampParts(sec: string, nsec: string)
    ensures "{" + ("\"timestamp\":{\"sec\":" + sec + ",\"nsec\":" + nsec + "}") + ","
         == (FrontOfSec() + ("\"sec\":" + sec + ",")) + ("\"nsec\":" + nsec + "},")
  {
    var s := "{" + ("\"timestamp\":{\"sec\":" + sec + ",\"nsec\":" + nsec + "}") + ",";
    assert s == ((("{\"timestamp\":{\"sec\":" + sec) + ",\"nsec\":") + nsec) + "},";
  }

  /** The printed message as the front of its last field and that field. */
  lemma CameraJsonIsItems(timestamp: uint64, name: string, image: seq<uint8>)
    ensures var sec, nsec := timestamp / NANOSECONDS_PER_SECOND, timestamp % NANOSECONDS_PER_SECOND;
      CameraJson(timestamp, name, image)
        == FrontOfFormat(sec, nsec, name, Base64.Encode(image)) + StringItem("format", "jpeg", "}")
  {
    TimestampIsItems(timestamp);
    var x := "{" + TimestampJson(timestamp);
    NextField(x, "frame_id", name, ",");
    var y := x + StringField("frame_id", name);
    NextField(y, "data", Base64.Encode(image), ",");
    NextField(y + StringField("data", Base64.Encode(image)), "format", "jpeg", "}");
  }

  lemma TimestampReadsBack(text: string, timestamp: uint64)
    requires ExtractUint64(text, "sec") == Ok(timestamp / NANOSECONDS_PER_SECOND)
    requires ExtractUint64(text, "nsec") == Ok(timestamp % NANOSECONDS_PER_SECOND)
    ensures ExtractTimestamp(text) == Ok(timestamp)
  {
    var sec, nsec := timestamp / NANOSECONDS_PER_SECOND, timestamp % NANOSECONDS_PER_SECOND;
    assert sec * NANOSECONDS_PER_SECOND + nsec == timestamp;
    ModSmall(timestamp, U64_RANGE);
  }

  /** The two numbers of the timestamp. */
  lemma SecondsInFront(text: string, timestamp: uint64, after: string)
    requires text == FrontOfFrameId(timestamp / 1_000_000_000, timestamp % 1_000_000_000) + after
    ensures ExtractUint64(text, "sec") == Ok(timestamp / 1_000_000_000)
    ensures ExtractUint64(text, "nsec") == Ok(timestamp % 1_000_000_000)
  {
    var sec, nsec := timestamp / 1_000_000_000, timestamp % 1_000_000_000;
    var nsecItem := NumberItem("nsec", nsec, "},");
    Assoc(FrontOfNsec(sec), nsecItem, after);
    CleanFrontOfNsec("nsec", sec);
    ReadsPrintedNumber(text, FrontOfNsec(sec), "nsec", nsec, "},", after);
    Assoc(FrontOfSec(), NumberItem("sec", sec, ","), nsecItem + after);
    CleanFrontOfSec("sec");
    ReadsPrintedNumber(text, FrontOfSec(), "sec", sec, ",", nsecItem + after);
  }

  lemma TimestampInFront(text: string, timestamp: uint64, after: string)
    requires text == FrontOfFrameId(timestamp / NANOSECONDS_PER_SECOND, timestamp % NANOSECONDS_PER_SECOND) + after
    ensures ExtractTimestamp(text) == Ok(timestamp)
  {
    SecondsInFront(text, timestamp, after);
    TimestampReadsBack(text, timestamp);
  }

  /** Every field reads back as printed. */
  lemma FieldsReadBack(text: string, timestamp: uint64, name: string, data: string)
    requires var sec, nsec := timestamp / NANOSECONDS_PER_SECOND, timestamp % NANOSECONDS_PER_SECOND;
      text == FrontOfFormat(sec, nsec, name, data) + StringItem("format", "jpeg", "}")
    ensures ExtractTimestamp(text) == Ok(timestamp)
    ensures ExtractString(text, "frame_id") == Ok(name)
    ensures ExtractString(text, "data") == Ok(data)
    ensures ExtractString(text, "format") == Ok("jpeg")
  {
    var sec, nsec := timestamp / NANOSECONDS_PER_SECOND, timestamp % NANOSECONDS_PER_SECOND;
    var format := StringItem("format", "jpeg", "}");
    CleanFrontOfFormat(sec, nsec, name, data);
    ReadsPrintedString(text, FrontOfFormat(sec, nsec, name, data), "format", "jpeg", "}", "");

    Assoc(FrontOfData(sec, nsec, name), StringItem("data", data, ","), format);
    CleanFrontOfData("data", sec, nsec, name);
    ReadsPrintedString(text, FrontOfData(sec, nsec, name), "data", data, ",", format);

    var fromData := StringItem("data", data, ",") + format;
    Assoc(FrontOfFrameId(sec, nsec), StringItem("frame_id", name, ","), fromData);
    CleanFrontOfFrameId("frame_id", sec, nsec);
    ReadsPrintedString(text, FrontOfFrameId(sec, nsec), "frame_id", name, ",", fromData);

    TimestampInFront(text, timestamp, StringItem("frame_id", name, ",") + fromData);
  }

  lemma MessageOfFields(text: string, timestamp: uint64, name: string, data: string, image: seq<uint8>)
    requires ExtractTimestamp(text) == Ok(timestamp)
    requires ExtractString(text, "frame_id") == Ok(name)
    requires ExtractString(text, "format") == Ok("jpeg")
    requires ExtractString(text, "data") == Ok(data) && Base64.Decode(data) == Some(image)
    ensures DecodeCamera(text) == Ok(CameraMessage(timestamp, name, "jpeg", image))
  {
    assert DecodeImage(text) == Ok(image);
  }

  lemma CameraSeconds(timestamp: uint64, name: string, image: seq<uint8>)
    ensures var text := CameraJson(timestamp, name, image);
      && ExtractUint64(text, "sec") == Ok(timestamp / 1_000_000_000)
      && ExtractUint64(text, "nsec") == Ok(timestamp % 1_000_000_000)
  {
    var sec, nsec := timestamp / 1_000_000_000, timestamp % 1_000_000_000;
    var nameItem, dataItem := StringItem("frame_id", name, ","), StringItem("data", Base64.Encode(image), ",");
    var format := StringItem("format", "jpeg", "}");
    CameraJsonIsItems(timestamp, name, image);
    Assoc(FrontOfData(sec, nsec, name), dataItem, format);
    Assoc(FrontOfFrameId(sec, nsec), nameItem, dataItem + format);
    SecondsInFront(CameraJson(timestamp, name, image), timestamp, nameItem + (dataItem + format));
  }

  /** The log reader gets back exactly what the logger printed: for every timestamp, every name - field
      names, quotes, backslashes, braces and commas included - and every image. */
  lemma CameraRoundTrip(timestamp: uint64, name: string, image: seq<uint8>)
    ensures DecodeCamera(CameraJson(timestamp, name, image)) == Ok(CameraMessage(timestamp, name, "jpeg", image))
  {
    CameraJsonIsItems(timestamp, name, image);
    FieldsReadBack(CameraJson(timestamp, name, image), timestamp, name, Base64.Encode(image));
    Base64.DecodeEncode(image);
    MessageOfFields(CameraJson(timestamp, name, image), timestamp, name, Base64.Encode(image), image);
  }
}
