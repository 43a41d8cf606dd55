/** Field extraction on top of the scanners, and the decimal numbers it reads back. */
module JsonFields {
  import opened MachineInts
  import opened JsonText

  // Decimal numbers

  function Digit(d: nat): char
    requires d < 10
  {
    '0' + d as char
  }

  /** A number as an output stream prints it. */
  function Decimal(n: nat): string {
    if n < 10 then [Digit(n)] else Decimal(n / 10) + [Digit(n % 10)]
  }

  predicate AllDigits(s: string) {
    forall i :: 0 <= i < |s| ==> IsDigit(s[i])
  }

  function DigitsValue(s: string): nat
    requires AllDigits(s)
  {
    if s == "" then 0 else DigitsValue(s[..|s| - 1]) * 10 + (s[|s| - 1] - '0') as nat
  }

  lemma {:induction false} DecimalValue(n: nat)
    ensures Decimal(n) != "" && AllDigits(Decimal(n)) && DigitsValue(Decimal(n)) == n
    ensures Decimal(n)[0] == '0' <==> Decimal(n) == "0"
    ensures Decimal(n) == "0" <==> n == 0
  {
    if n >= 10 {
      DecimalValue(n / 10);
      assert Decimal(n)[0] == Decimal(n / 10)[0];
      assert Decimal(n)[..|Decimal(n)| - 1] == Decimal(n / 10);
    } else {
      assert Decimal(n)[..0] == "";
    }
  }

  function LeadingDigits(s: string): (d: string)
    ensures AllDigits(d)
  {
    if s == "" || !IsDigit(s[0]) then "" else [s[0]] + LeadingDigits(s[1..])
  }

  /** `std::stoull` on a text without leading white space: an optional sign, then digits up to the
      first other character. `None` is an exception. */
  function StoULL(s: string): Option<uint64> {
    if s != "" && (s[0] == '-' || s[0] == '+') then Digits(s[1..], s[0] == '-') else Digits(s, false)
  }

  function Digits(s: string, negative: bool): Option<uint64> {
    var digits := LeadingDigits(s);
    if digits == "" || DigitsValue(digits) >= U64_RANGE then None
    else if negative then Some((U64_RANGE - DigitsValue(digits)) % U64_RANGE)
    else Some(DigitsValue(digits))
  }

  lemma {:induction false} LeadingDigitsOfDigits(s: string)
    requires AllDigits(s)
    ensures LeadingDigits(s) == s
  {
    if s != "" {
      LeadingDigitsOfDigits(s[1..]);
      assert [s[0]] + s[1..] == s;
    }
  }

  lemma StoULLDecimal(n: uint64)
    ensures StoULL(Decimal(n)) == Some(n)
  {
    DecimalValue(n);
    LeadingDigitsOfDigits(Decimal(n));
    assert IsDigit(Decimal(n)[0]);
  }

  lemma {:induction false} LeadingDigitsStop(digits: string, after: string)
    requires AllDigits(digits) && (after == "" || !IsDigit(after[0]))
    ensures LeadingDigits(digits + after) == digits
  {
    if digits == "" {
      assert digits + after == after;
    } else {
      LeadingDigitsStop(digits[1..], after);
      assert (digits + after)[1..] == digits[1..] + after;
      assert [digits[0]] + digits[1..] == digits;
    }
  }

  /** A number behind an optional sign, whatever follows its digits: negative numbers come out modulo 2^64, and
      those of 2^64 or more raise an exception whatever their sign. */
  lemma StoULLExact(sign: string, n: nat, after: string)
    requires sign == "" || sign == "+" || sign == "-"
    requires after == "" || !IsDigit(after[0])
    ensures StoULL(sign + Decimal(n) + after)
         == if n >= 0x1_0000_0000_0000_0000 then None
            else if sign == "-" && n > 0 then Some(0x1_0000_0000_0000_0000 - n)
            else Some(n)
  {
    DecimalValue(n);
    LeadingDigitsStop(Decimal(n), after);
    assert IsDigit(Decimal(n)[0]);
    SignedDigits(sign, Decimal(n) + after);
    Grouped(sign, Decimal(n), after);
  }

  lemma Grouped(a: string, b: string, c: string)
    ensures a + b + c == a + (b + c)
  {
  }

  lemma SignedDigits(sign: string, digits: string)
    requires sign == "" || sign == "+" || sign == "-"
    requires sign == "" ==> digits == "" || (digits[0] != '-' && digits[0] != '+')
    ensures StoULL(sign + digits) == Digits(digits, sign == "-")
  {
    if sign == "" {
      assert sign + digits == digits;
    } else {
      assert (sign + digits)[1..] == digits;
    }
  }

  /** Without a digit behind the optional sign there is an exception. */
  lemma StoULLNeedsDigits(sign: string, after: string)
    requires sign == "" || sign == "+" || sign == "-"
    requires after != "" ==> !IsDigit(after[0]) && (sign == "" ==> after[0] != '-' && after[0] != '+')
    ensures StoULL(sign + after) == None
  {
    SignedDigits(sign, after);
  }

  /** The end of the run of number characters at `offset`. */
  function NumberEnd(text: string, offset: nat): (e: nat)
    ensures offset <= e && (offset <= |text| ==> e <= |text|)
    decreases |text| - offset
  {
    if offset < |text| && IsNumberChar(text[offset]) then NumberEnd(text, offset + 1) else offset
  }

  /** The run is as long as it can be. */
  lemma {:induction false} NumberEndMeans(text: string, offset: nat)
    requires offset <= |text|
    ensures var end := NumberEnd(text, offset);
      && (forall i :: offset <= i < end ==> text[i] in "0123456789-+.eE")
      && (end < |text| ==> text[end] !in "0123456789-+.eE")
    decreases |text| - offset
  {
    if offset < |text| {
      NumberCharTable(text[offset]);
      if IsNumberChar(text[offset]) {
        NumberEndMeans(text, offset + 1);
      }
    }
  }

  lemma NumberCharTable(c: char)
    ensures IsNumberChar(c) <==> c in "0123456789-+.eE"
  {
    var listed := "0123456789-+.eE";
    if IsDigit(c) {
      assert listed[(c - '0') as int] == c;
    } else if IsNumberChar(c) {
      assert listed[10] == '-' && listed[11] == '+' && listed[12] == '.' && listed[13] == 'e' && listed[14] == 'E';
    }
  }

  lemma {:induction false} NumberEndOfDigits(text: string, offset: nat, end: nat)
    requires offset <= end <= |text| && AllDigits(text[offset..end])
    requires end == |text| || !IsNumberChar(text[end])
    ensures NumberEnd(text, offset) == end
    decreases end - offset
  {
    if offset < end {
      assert IsDigit(text[offset..end][0]);
      assert text[offset + 1..end] == text[offset..end][1..];
      NumberEndOfDigits(text, offset + 1, end);
    }
  }

  // Extraction

  function From(text: string, offset: nat): string {
    if offset <= |text| then text[offset..] else ""
  }

  function ExtractString(text: string, field: string): Result<string> {
    var position :- FindJsonField(text, field, 0);
    var value := From(text, SkipSpace(text, position));
    if value == "" || value[0] != QUOTE then Error(MalformedString) else Unescape(value[1..])
  }

  function ExtractNumberText(text: string, field: string): Result<string> {
    var position :- FindJsonField(text, field, 0);
    var begin := SkipSpace(text, position);
    var end := NumberEnd(text, begin);
    if begin == end || end > |text| then Error(MalformedNumber) else Ok(text[begin..end])
  }

  /** Every failure on the way is reported as a malformed integer. */
  function ExtractUint64(text: string, field: string): Result<uint64> {
    var number := ExtractNumberText(text, field);
    if number.Error? || StoULL(number.value).None? then Error(MalformedInteger)
    else Ok(StoULL(number.value).value)
  }

  const NANOSECONDS_PER_SECOND: nat := 1_000_000_000

  function ExtractTimestamp(text: string): Result<uint64> {
    var sec :- ExtractUint64(text, "sec");
    var nsec :- ExtractUint64(text, "nsec");
    if nsec >= NANOSECONDS_PER_SECOND then Error(MalformedTimestamp)
    else Ok((sec * NANOSECONDS_PER_SECOND + nsec) % U64_RANGE)
  }

  method ExtractJsonString(text: string, field: string) returns (result: Result<string>)
    ensures result == ExtractString(text, field)
  {
    var position := FindField(text, field);
    if position.Error? {
      return Error(position.error);
    }
    var offset := SkipWhitespace(text, position.value);
    if offset >= |text| || text[offset] != QUOTE {
      return Error(MalformedString);
    }
    offset := offset + 1;
    assert text[offset - 1..][1..] == text[offset..];
    result := ScanString(text, offset);
  }

  /** The character loop of `extract_json_string`. */
  method ScanString(text: string, start: nat) returns (result: Result<string>)
    requires start <= |text|
    ensures result == Unescape(text[start..])
  {
    var offset := start;
    var value := "";
    while offset < |text|
      invariant start <= offset <= |text|
      invariant Unescape(text[start..]) == PrependAll(value, Unescape(text[offset..]))
      decreases |text| - offset
    {
      ghost var rest := text[offset..];
      var character := text[offset];
      offset := offset + 1;
      assert rest[1..] == text[offset..];
      if character == QUOTE {
        assert value + "" == value;
        return Ok(value);
      }
      if character != BACKSLASH {
        PrependSnoc(value, character, Unescape(text[offset..]));
        value := value + [character];
        continue;
      }
      if offset >= |text| {
        return Error(UnterminatedString);
      }
      var escaped := text[offset];
      offset := offset + 1;
      assert rest[2..] == text[offset..] && rest[1] == escaped;
      var plain := UnescapeChar(escaped);
      if plain.None? {
        return Error(UnsupportedEscape);
      }
      PrependSnoc(value, plain.value, Unescape(text[offset..]));
      value := value + [plain.value];
    }
    result := Error(UnterminatedString);
  }

  function PrependAll(front: string, value: Result<string>): Result<string> {
    if value.Error? || front == "" then value else Ok(front + value.value)
  }

  lemma PrependSnoc(front: string, c: char, value: Result<string>)
    ensures PrependAll(front, Prepend(c, value)) == PrependAll(front + [c], value)
  {
    if value.Ok? {
      assert front + ([c] + value.value) == front + [c] + value.value;
      assert front == "" ==> front + [c] == [c];
    }
  }

  method ExtractJsonNumberText(text: string, field: string) returns (result: Result<string>)
    ensures result == ExtractNumberText(text, field)
  {
    var position := FindField(text, field);
    if position.Error? {
      return Error(position.error);
    }
    var offset := SkipWhitespace(text, position.value);
    var begin := offset;
    while offset < |text| && IsNumberChar(text[offset])
      invariant NumberEnd(text, offset) == NumberEnd(text, begin)
      invariant begin <= offset && (begin <= |text| ==> offset <= |text|)
    {
      offset := offset + 1;
    }
    if begin == offset {
      return Error(MalformedNumber);
    }
    result := Ok(text[begin..offset]);
  }

  // What an extracted value means, in any text

  /** The value of the first place at which the field stands as a key begins at `begin`. */
  ghost predicate ValueAt(text: string, field: string, begin: nat) {
    exists at: nat, colon: nat ::
      && KeyAt(text, field, at, colon) && colon < begin <= |text| && Blank(text, colon + 1, begin)
      && forall earlier: nat, c: nat :: earlier < at ==> !KeyAt(text, field, earlier, c)
  }

  lemma ValueBegins(text: string, field: string)
    requires Plain(field) && FindJsonField(text, field, 0).Ok?
    ensures ValueAt(text, field, SkipSpace(text, FindJsonField(text, field, 0).value))
  {
    FindsFirstKey(text, field, 0);
    SkipMeans(text, FindJsonField(text, field, 0).value);
  }

  /** A string is extracted only from such a place, and it is what follows the quote there. */
  lemma StringMeans(text: string, field: string)
    requires Plain(field) && ExtractString(text, field).Ok?
    ensures exists begin: nat ::
      && begin < |text| && ValueAt(text, field, begin) && text[begin] == '"'
      && Unescape(text[begin + 1..]) == ExtractString(text, field)
  {
    ValueBegins(text, field);
    var begin := SkipSpace(text, FindJsonField(text, field, 0).value);
    assert text[begin..][1..] == text[begin + 1..];
  }

  /** A number is extracted only from such a place, and it is the value of the number text there. */
  lemma Uint64Means(text: string, field: string)
    requires Plain(field) && ExtractUint64(text, field).Ok?
    ensures exists begin: nat, end: nat ::
      && begin < end <= |text| && ValueAt(text, field, begin) && end == NumberEnd(text, begin)
      && StoULL(text[begin..end]) == Some(ExtractUint64(text, field).value)
  {
    ValueBegins(text, field);
  }

  /** A timestamp has less than a second of nanoseconds and comes out modulo 2^64. */
  lemma TimestampMeans(text: string)
    requires ExtractTimestamp(text).Ok?
    ensures ExtractUint64(text, "sec").Ok? && ExtractUint64(text, "nsec").Ok?
    ensures var sec, nsec := ExtractUint64(text, "sec").value, ExtractUint64(text, "nsec").value;
      nsec < 1_000_000_000 && ExtractTimestamp(text).value == (sec * 1_000_000_000 + nsec) % 0x1_0000_0000_0000_0000
  {
  }

  // Extraction from a printed object

  ghost predicate Printed(text: string, front: string, field: string, value: string) {
    && text == front + Quoted(field) + [':'] + value
    && Ready(front, field)
    && value != "" && !IsSpace(value[0])
  }

  lemma ValueOfPrinted(text: string, front: string, field: string, value: string)
    requires Printed(text, front, field, value)
    ensures FindJsonField(text, field, 0) == Ok(|front| + |field| + 3)
    ensures SkipSpace(text, |front| + |field| + 3) == |front| + |field| + 3
    ensures |front| + |field| + 3 < |text| && text[|front| + |field| + 3..] == value
  {
    FindsPrintedField(text, front, field, value);
    var p := |front| + |field| + 3;
    assert text[p..] == value && text[p] == value[0];
  }

  lemma SuffixParts(text: string, p: nat, part: string, after: string)
    requires p <= |text| && text[p..] == part + after
    ensures p + |part| <= |text| && text[p..p + |part|] == part
    ensures if after == "" then p + |part| == |text| else p + |part| < |text| && text[p + |part|] == after[0]
  {
    assert |text[p..]| == |part| + |after|;
    assert text[p..][..|part|] == part && text[p..][|part|..] == after;
  }

  lemma StringAt(text: string, field: string, p: nat, value: string, after: string)
    requires FindJsonField(text, field, 0) == Ok(p) && SkipSpace(text, p) == p && p < |text|
    requires text[p..] == [QUOTE] + Escape(value) + [QUOTE] + after
    ensures ExtractString(text, field) == Ok(value)
  {
    assert text[p..][1..] == Escape(value) + [QUOTE] + after;
    UnescapeEscape(value, after);
  }

  lemma Uint64At(text: string, field: string, p: nat, n: uint64, after: string)
    requires FindJsonField(text, field, 0) == Ok(p) && SkipSpace(text, p) == p && p < |text|
    requires text[p..] == Decimal(n) + after && (after == "" || !IsNumberChar(after[0]))
    ensures ExtractUint64(text, field) == Ok(n)
  {
    DecimalValue(n);
    StoULLDecimal(n);
    SuffixParts(text, p, Decimal(n), after);
    NumberEndOfDigits(text, p, p + |Decimal(n)|);
    assert ExtractNumberText(text, field) == Ok(Decimal(n));
  }

  lemma StringOfPrinted(text: string, front: string, field: string, value: string, after: string)
    requires Printed(text, front, field, [QUOTE] + Escape(value) + [QUOTE] + after)
    ensures ExtractString(text, field) == Ok(value)
  {
    ValueOfPrinted(text, front, field, [QUOTE] + Escape(value) + [QUOTE] + after);
    StringAt(text, field, |front| + |field| + 3, value, after);
  }

  lemma Uint64OfPrinted(text: string, front: string, field: string, n: uint64, after: string)
    requires Printed(text, front, field, Decimal(n) + after)
    requires after == "" || !IsNumberChar(after[0])
    ensures ExtractUint64(text, field) == Ok(n)
  {
    ValueOfPrinted(text, front, field, Decimal(n) + after);
    Uint64At(text, field, |front| + |field| + 3, n, after);
  }
}
