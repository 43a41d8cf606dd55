/** The log reader's text scanners: field search with look-behind, string and number extraction. */
module JsonText {
  import opened MachineInts

  datatype ParseError =
    | MissingField | MalformedString | UnsupportedEscape | UnterminatedString
    | MalformedNumber | MalformedInteger | MalformedTimestamp | MalformedBase64

  datatype Result<+T> = Ok(value: T) | Error(error: ParseError) {
    predicate IsFailure() {
      Error?
    }

    function PropagateFailure<U>(): Result<U>
      requires Error?
    {
      Error(error)
    }

    function Extract(): T
      requires Ok?
    {
      value
    }
  }

  const QUOTE: char := '"'
  const BACKSLASH: char := '\\'
  const BACKSPACE: char := 8 as char
  const FORM_FEED: char := 12 as char

  /** `std::isspace` in the C locale. */
  predicate IsSpace(c: char) {
    c == ' ' || 9 as char <= c <= 13 as char
  }

  predicate IsDigit(c: char) {
    '0' <= c <= '9'
  }

  predicate IsNumberChar(c: char) {
    IsDigit(c) || c == '-' || c == '+' || c == '.' || c == 'e' || c == 'E'
  }

  // Escaping

  function EscapeChar(c: char): (e: string)
    ensures 0 < |e| <= 2
    ensures |e| == 1 ==> e[0] == c != QUOTE && c != BACKSLASH
    ensures |e| == 2 ==> e[0] == BACKSLASH && UnescapeChar(e[1]) == Some(c)
  {
    if c == QUOTE then [BACKSLASH, QUOTE]
    else if c == BACKSLASH then [BACKSLASH, BACKSLASH]
    else if c == BACKSPACE then [BACKSLASH, 'b']
    else if c == FORM_FEED then [BACKSLASH, 'f']
    else if c == '\n' then [BACKSLASH, 'n']
    else if c == '\r' then [BACKSLASH, 'r']
    else if c == '\t' then [BACKSLASH, 't']
    else [c]
  }

  function UnescapeChar(escaped: char): Option<char> {
    if escaped == QUOTE || escaped == BACKSLASH || escaped == '/' then Some(escaped)
    else if escaped == 'b' then Some(BACKSPACE)
    else if escaped == 'f' then Some(FORM_FEED)
    else if escaped == 'n' then Some('\n')
    else if escaped == 'r' then Some('\r')
    else if escaped == 't' then Some('\t')
    else None
  }

  /** The seven characters that are escaped, and their escapes. */
  lemma EscapeTable(c: char)
    ensures EscapeChar('"') == "\\\"" && EscapeChar('\\') == "\\\\"
    ensures EscapeChar(8 as char) == "\\b" && EscapeChar(12 as char) == "\\f"
    ensures EscapeChar('\n') == "\\n" && EscapeChar('\r') == "\\r" && EscapeChar('\t') == "\\t"
    ensures c !in "\"\\\n\r\t" && c != 8 as char && c != 12 as char ==> EscapeChar(c) == [c]
  {
  }

  /** The eight escapes that are understood; a slash may be escaped too. */
  lemma UnescapeTable(c: char)
    ensures UnescapeChar(c).Some? <==> c in "\"\\/bfnrt"
    ensures c in "\"\\/" ==> UnescapeChar(c) == Some(c)
    ensures UnescapeChar('b') == Some(8 as char) && UnescapeChar('f') == Some(12 as char)
    ensures UnescapeChar('n') == Some('\n') && UnescapeChar('r') == Some('\r') && UnescapeChar('t') == Some('\t')
  {
  }

  lemma SpaceTable(c: char)
    ensures IsSpace(c) <==> c in " \t\n\r" || c == 11 as char || c == 12 as char
  {
  }

  function Escape(value: string): string {
    if value == "" then "" else EscapeChar(value[0]) + Escape(value[1..])
  }

  lemma EscapeStep(out: string, value: string, i: nat)
    requires i < |value|
    ensures out + Escape(value[i..]) == (out + EscapeChar(value[i])) + Escape(value[i + 1..])
  {
    assert value[i..][1..] == value[i + 1..];
    Regroup(out, EscapeChar(value[i]), Escape(value[i + 1..]));
  }

  lemma Regroup(a: string, b: string, c: string)
    ensures a + (b + c) == (a + b) + c
  {
  }

  method JsonEscape(value: string) returns (out: string)
    ensures out == Escape(value)
  {
    out := "";
    ghost var all := Escape(value);
    assert value[0..] == value;
    for i := 0 to |value|
      invariant out + Escape(value[i..]) == all
    {
      EscapeStep(out, value, i);
      out := out + EscapeChar(value[i]);
    }
  }

  /** Reads a string value up to its closing quote, which is not part of `rest` before it. */
  function Unescape(rest: string): Result<string>
    decreases |rest|
  {
    if rest == "" then
      Error(UnterminatedString)
    else if rest[0] == QUOTE then
      Ok("")
    else if rest[0] != BACKSLASH then
      Prepend(rest[0], Unescape(rest[1..]))
    else if |rest| == 1 then
      Error(UnterminatedString)
    else if UnescapeChar(rest[1]).None? then
      Error(UnsupportedEscape)
    else
      Prepend(UnescapeChar(rest[1]).value, Unescape(rest[2..]))
  }

  function Prepend(c: char, value: Result<string>): Result<string> {
    if value.Ok? then Ok([c] + value.value) else value
  }

  /** Unescaping up to the first bare quote undoes escaping, for every text. */
  lemma {:induction false} UnescapeEscape(value: string, after: string)
    ensures Unescape(Escape(value) + [QUOTE] + after) == Ok(value)
  {
    var text := Escape(value) + [QUOTE] + after;
    if value == "" {
      assert text[0] == QUOTE;
    } else {
      var e := EscapeChar(value[0]);
      var rest := Escape(value[1..]) + [QUOTE] + after;
      UnescapeEscape(value[1..], after);
      assert text == e + rest;
      assert text[0] == e[0] && text[|e|..] == rest;
      if |e| == 2 {
        assert text[1] == e[1];
      }
      assert [value[0]] + value[1..] == value;
    }
  }

  /** A text that ends before its closing quote, and one with an escape that is not understood, are errors. */
  lemma {:induction false} UnescapeFails(value: string, c: char, after: string)
    ensures Unescape(Escape(value)) == Error(UnterminatedString)
    ensures Unescape(Escape(value) + [BACKSLASH]) == Error(UnterminatedString)
    ensures c !in "\"\\/bfnrt" ==> Unescape(Escape(value) + ([BACKSLASH, c] + after)) == Error(UnsupportedEscape)
  {
    if value == "" {
      UnescapeTable(c);
      assert "" + [BACKSLASH] == [BACKSLASH];
      assert "" + ([BACKSLASH, c] + after) == [BACKSLASH, c] + after;
    } else {
      UnescapeFails(value[1..], c, after);
      UnescapeOne(value[0], Escape(value[1..]));
      UnescapeOne(value[0], Escape(value[1..]) + [BACKSLASH]);
      UnescapeOne(value[0], Escape(value[1..]) + ([BACKSLASH, c] + after));
      Regroup(EscapeChar(value[0]), Escape(value[1..]), [BACKSLASH]);
      Regroup(EscapeChar(value[0]), Escape(value[1..]), [BACKSLASH, c] + after);
    }
  }

  lemma UnescapeOne(c: char, rest: string)
    ensures Unescape(EscapeChar(c) + rest) == Prepend(c, Unescape(rest))
  {
    var e := EscapeChar(c);
    assert (e + rest)[|e|..] == rest && (e + rest)[0] == e[0];
    if |e| == 2 {
      assert (e + rest)[1] == e[1];
    }
  }

  /** A quote inside an escaped text always follows a backslash. */
  lemma {:induction false} EscapedQuotes(value: string)
    ensures forall i :: 0 <= i < |Escape(value)| && Escape(value)[i] == QUOTE ==>
      0 < i && Escape(value)[i - 1] == BACKSLASH
  {
    if value != "" {
      EscapedQuotes(value[1..]);
      var e, rest := EscapeChar(value[0]), Escape(value[1..]);
      forall i | 0 <= i < |e + rest| && (e + rest)[i] == QUOTE
        ensures 0 < i && (e + rest)[i - 1] == BACKSLASH
      {
        if |e| <= i {
          assert rest[i - |e|] == QUOTE;
        }
      }
    }
  }

  // Field search

  function Quoted(field: string): string {
    [QUOTE] + field + [QUOTE]
  }

  predicate StartsAt(text: string, key: string, at: nat) {
    at + |key| <= |text| && forall i :: 0 <= i < |key| ==> text[at + i] == key[i]
  }

  /** `std::string::find`: the first occurrence of `key` at `from` or later. */
  function Find(text: string, key: string, from: nat): (at: Option<nat>)
    ensures at.Some? ==> from <= at.value && at.value + |key| <= |text|
    decreases |text| - from
  {
    if from + |key| > |text| then None
    else if StartsAt(text, key, from) then Some(from)
    else Find(text, key, from + 1)
  }

  lemma {:induction false} FindFirst(text: string, key: string, from: nat, q: nat)
    requires StartsAt(text, key, q) && from <= q
    ensures Find(text, key, from).Some? && Find(text, key, from).value <= q
    ensures StartsAt(text, key, Find(text, key, from).value)
    decreases q - from
  {
    if !StartsAt(text, key, from) {
      FindFirst(text, key, from + 1, q);
    }
  }

  /** The position of the last character before `at` that is not white space. */
  function PreviousNonSpace(text: string, at: nat): (p: Option<nat>)
    requires at <= |text|
    ensures p.Some? ==> p.value < at && !IsSpace(text[p.value])
  {
    if at == 0 then None
    else if IsSpace(text[at - 1]) then PreviousNonSpace(text, at - 1)
    else Some(at - 1)
  }

  function SkipSpace(text: string, offset: nat): (o: nat)
    ensures offset <= o
    decreases |text| - offset
  {
    if offset < |text| && IsSpace(text[offset]) then SkipSpace(text, offset + 1) else offset
  }

  /** A key occurrence counts if it follows `{` or `,` and a colon follows it, white space aside. */
  predicate Accepted(text: string, at: nat, key: string)
    requires at <= |text|
  {
    var previous := PreviousNonSpace(text, at);
    var colon := SkipSpace(text, at + |key|);
    && previous.Some? && (text[previous.value] == '{' || text[previous.value] == ',')
    && colon < |text| && text[colon] == ':'
  }

  /** Where the value of `field` begins, searching from `from`; a rejected occurrence is skipped whole. */
  function FindJsonField(text: string, field: string, from: nat): Result<nat>
    decreases |text| - from
  {
    var key := Quoted(field);
    var at := Find(text, key, from);
    if at.None? then Error(MissingField)
    else if Accepted(text, at.value, key) then Ok(SkipSpace(text, at.value + |key|) + 1)
    else FindJsonField(text, field, at.value + |key|)
  }

  // What the search finds

  /** All characters from `from` on, up to `to`, are white space. */
  ghost predicate Blank(text: string, from: nat, to: nat)
    requires to <= |text|
  {
    forall i :: from <= i < to ==> IsSpace(text[i])
  }

  lemma {:induction false} PreviousMeans(text: string, at: nat)
    requires at <= |text|
    ensures var p := PreviousNonSpace(text, at);
      Blank(text, if p.Some? then p.value + 1 else 0, at)
  {
    if at > 0 && IsSpace(text[at - 1]) {
      PreviousMeans(text, at - 1);
    }
  }

  lemma {:induction false} SkipMeans(text: string, offset: nat)
    requires offset <= |text|
    ensures var o := SkipSpace(text, offset);
      o <= |text| && Blank(text, offset, o) && (o < |text| ==> !IsSpace(text[o]))
    decreases |text| - offset
  {
    if offset < |text| && IsSpace(text[offset]) {
      SkipMeans(text, offset + 1);
    }
  }

  predicate Opens(c: char) {
    c == '{' || c == ','
  }

  /** The key at `at` has a brace or a comma in front of it and the colon at `colon` behind it, with nothing but
      white space in between. */
  ghost predicate Placed(text: string, at: nat, key: string, colon: nat) {
    && at + |key| <= colon < |text| && text[colon] == ':' && Blank(text, at + |key|, colon)
    && exists p :: 0 <= p < at && Opens(text[p]) && Blank(text, p + 1, at)
  }

  lemma AcceptedMeans(text: string, at: nat, key: string)
    requires at + |key| <= |text|
    ensures Accepted(text, at, key) <==> exists colon: nat :: Placed(text, at, key, colon)
    ensures Accepted(text, at, key) ==> Placed(text, at, key, SkipSpace(text, at + |key|))
  {
    if colon: nat :| Placed(text, at, key, colon) {
      PlacedIsAccepted(text, at, key, colon);
    }
    if Accepted(text, at, key) {
      PreviousMeans(text, at);
      SkipMeans(text, at + |key|);
      assert Opens(text[PreviousNonSpace(text, at).value]);
      assert Placed(text, at, key, SkipSpace(text, at + |key|));
    }
  }

  lemma PlacedIsAccepted(text: string, at: nat, key: string, colon: nat)
    requires Placed(text, at, key, colon)
    ensures Accepted(text, at, key)
  {
    PreviousMeans(text, at);
    SkipMeans(text, at + |key|);
    var p :| 0 <= p < at && Opens(text[p]) && Blank(text, p + 1, at);
    assert PreviousNonSpace(text, at) == Some(p);
    assert SkipSpace(text, at + |key|) == colon;
  }

  /** The field stands at `at` as a key, and its value begins behind `colon`. */
  ghost predicate KeyAt(text: string, field: string, at: nat, colon: nat) {
    StartsAt(text, Quoted(field), at) && Placed(text, at, Quoted(field), colon)
  }

  /** A name that no occurrence of the quoted name can overlap and still count. */
  predicate Plain(field: string) {
    field != "" && QUOTE !in field && !IsSpace(field[|field| - 1]) && !Opens(field[|field| - 1])
  }

  lemma {:induction false} FindSkipsNone(text: string, key: string, from: nat, at: nat)
    requires from <= at && (Find(text, key, from).Some? ==> at < Find(text, key, from).value)
    ensures !StartsAt(text, key, at)
    decreases |text| - from
  {
    if from < at && from + |key| <= |text| {
      FindSkipsNone(text, key, from + 1, at);
    }
  }

  /** A key cannot begin inside a rejected occurrence. */
  lemma NoKeyInside(text: string, field: string, at: nat, inside: nat, colon: nat)
    requires Plain(field) && StartsAt(text, Quoted(field), at) && at < inside < at + |field| + 2
    ensures !KeyAt(text, field, inside, colon)
  {
    if text[inside] == QUOTE {
      QuoteInside(text, field, at, inside);
    } else {
      assert Quoted(field)[0] == QUOTE;
    }
  }

  lemma QuoteInside(text: string, field: string, at: nat, inside: nat)
    requires Plain(field) && StartsAt(text, Quoted(field), at) && at < inside < at + |field| + 2
    requires text[inside] == QUOTE
    ensures inside == at + |field| + 1 && text[inside - 1] == field[|field| - 1]
  {
    KeyInterior(field, inside - at);
    KeyInterior(field, |field|);
  }

  /** The search finds the first place at which the field stands as a key, and fails if there is none. */
  lemma {:induction false} FindsFirstKey(text: string, field: string, from: nat)
    requires Plain(field)
    ensures FindJsonField(text, field, from).Error? ==>
      && FindJsonField(text, field, from).error == MissingField
      && forall at: nat, colon: nat :: from <= at ==> !KeyAt(text, field, at, colon)
    ensures FindJsonField(text, field, from).Ok? ==>
      exists at: nat, colon: nat :: from <= at && KeyAt(text, field, at, colon)
        && FindJsonField(text, field, from).value == colon + 1
        && forall earlier: nat, c: nat :: from <= earlier < at ==> !KeyAt(text, field, earlier, c)
    decreases |text| - from
  {
    var key := Quoted(field);
    NoKeyBeforeFind(text, field, from);
    if Find(text, key, from).Some? {
      var at := Find(text, key, from).value;
      FindFirstIs(text, key, from);
      AcceptedMeans(text, at, key);
      if Accepted(text, at, key) {
        assert KeyAt(text, field, at, SkipSpace(text, at + |key|));
      } else {
        FindsFirstKey(text, field, at + |key|);
        NoKeyInRejected(text, field, at);
      }
    }
  }

  lemma NoKeyBeforeFind(text: string, field: string, from: nat)
    ensures var found := Find(text, Quoted(field), from);
      forall at: nat, colon: nat :: from <= at && (found.Some? ==> at < found.value) ==> !KeyAt(text, field, at, colon)
  {
    var found := Find(text, Quoted(field), from);
    forall at: nat, colon: nat | from <= at && (found.Some? ==> at < found.value)
      ensures !KeyAt(text, field, at, colon)
    {
      FindSkipsNone(text, Quoted(field), from, at);
    }
  }

  lemma NoKeyInRejected(text: string, field: string, at: nat)
    requires Plain(field) && StartsAt(text, Quoted(field), at) && !Accepted(text, at, Quoted(field))
    ensures forall inside: nat, colon: nat ::
      at <= inside < at + |Quoted(field)| ==> !KeyAt(text, field, inside, colon)
  {
    AcceptedMeans(text, at, Quoted(field));
    forall inside: nat, colon: nat | at <= inside < at + |Quoted(field)|
      ensures !KeyAt(text, field, inside, colon)
    {
      if at < inside {
        NoKeyInside(text, field, at, inside, colon);
      }
    }
  }

  lemma {:induction false} FindFirstIs(text: string, key: string, from: nat)
    requires Find(text, key, from).Some?
    ensures StartsAt(text, key, Find(text, key, from).value)
    decreases |text| - from
  {
    if !StartsAt(text, key, from) {
      FindFirstIs(text, key, from + 1);
    }
  }

  method SkipWhitespace(text: string, offset: nat) returns (o: nat)
    ensures o == SkipSpace(text, offset)
  {
    o := offset;
    while o < |text| && IsSpace(text[o])
      invariant SkipSpace(text, o) == SkipSpace(text, offset)
    {
      o := o + 1;
    }
  }

  method LookBehind(text: string, at: nat) returns (previous: Option<nat>)
    requires at <= |text|
    ensures previous == PreviousNonSpace(text, at)
  {
    var position: nat := at;
    while position > 0
      invariant position <= at && PreviousNonSpace(text, at) == PreviousNonSpace(text, position)
    {
      position := position - 1;
      if !IsSpace(text[position]) {
        return Some(position);
      }
    }
    previous := None;
  }

  /** The two checks on an occurrence of a key; the result is where its value begins. */
  method CheckKey(text: string, keyPosition: nat, key: string) returns (value: Option<nat>)
    requires keyPosition <= |text|
    ensures value == if Accepted(text, keyPosition, key) then Some(SkipSpace(text, keyPosition + |key|) + 1) else None
  {
    var previous := LookBehind(text, keyPosition);
    if previous.None? || (text[previous.value] != '{' && text[previous.value] != ',') {
      return None;
    }
    var colonPosition := SkipWhitespace(text, keyPosition + |key|);
    if colonPosition >= |text| || text[colonPosition] != ':' {
      return None;
    }
    value := Some(colonPosition + 1);
  }

  method FindField(text: string, field: string) returns (position: Result<nat>)
    ensures position == FindJsonField(text, field, 0)
  {
    var key := Quoted(field);
    var searchPosition := 0;
    ghost var found := FindJsonField(text, field, 0);
    while true
      invariant FindJsonField(text, field, searchPosition) == found
      decreases |text| - searchPosition
    {
      var at := Find(text, key, searchPosition);
      if at.None? {
        return Error(MissingField);
      }
      SearchStep(text, field, searchPosition);
      var value := CheckKey(text, at.value, key);
      if value.Some? {
        return Ok(value.value);
      }
      searchPosition := at.value + |key|;
    }
  }

  // Why a field is found where it was printed

  /** A key cannot be accepted right after this character. */
  predicate Blocks(c: char) {
    !IsSpace(c) && c != '{' && c != ','
  }

  /** The quote at `i` does not open an accepted occurrence of `field`: the character in front of it
      blocks, or one of the next three is not the field's. */
  predicate HarmlessAt(before: char, s: string, field: string, i: nat)
    requires 3 <= |field| && i < |s|
  {
    || Blocks(if i == 0 then before else s[i - 1])
    || (i + 1 < |s| && s[i + 1] != field[0])
    || (i + 2 < |s| && s[i + 2] != field[1])
    || (i + 3 < |s| && s[i + 3] != field[2])
  }

  /** No quote in `s`, which follows the character `before`, opens an accepted occurrence of `field`. */
  predicate Clean(before: char, s: string, field: string)
    requires 3 <= |field|
  {
    forall i :: 0 <= i < |s| && s[i] == QUOTE ==> HarmlessAt(before, s, field, i)
  }

  function LastOf(before: char, s: string): char {
    if s == "" then before else s[|s| - 1]
  }

  lemma CleanConcat(before: char, s: string, t: string, field: string)
    requires 3 <= |field| && Clean(before, s, field) && Clean(LastOf(before, s), t, field)
    ensures Clean(before, s + t, field)
  {
    forall i | 0 <= i < |s + t| && (s + t)[i] == QUOTE
      ensures HarmlessAt(before, s + t, field, i)
    {
      if i < |s| {
        assert s[i] == QUOTE && HarmlessAt(before, s, field, i);
      } else {
        var j := i - |s|;
        assert t[j] == QUOTE && HarmlessAt(LastOf(before, s), t, field, j);
      }
    }
  }

  lemma CleanEscape(before: char, value: string, field: string)
    requires 3 <= |field|
    ensures Clean(before, Escape(value), field)
  {
    EscapedQuotes(value);
  }

  /** The field can be searched for: a key printed after `front` is accepted, and nothing in `front` is. */
  ghost predicate Ready(front: string, field: string) {
    && 3 <= |field| && QUOTE !in field && field[|field| - 1] != '{' && field[|field| - 1] != ','
    && front != "" && (front[|front| - 1] == '{' || front[|front| - 1] == ',')
    && Clean(':', front, field)
  }

  /** In front of a printed key a clean text holds only occurrences that are rejected and that end
      before the key begins. */
  lemma RejectsInFront(front: string, field: string, after: string, at: nat)
    requires Ready(front, field)
    requires var text := front + Quoted(field) + [':'] + after;
      at < |front| && StartsAt(text, Quoted(field), at)
    ensures var text := front + Quoted(field) + [':'] + after;
      at + |field| + 2 <= |front| && !Accepted(text, at, Quoted(field))
  {
    var key, text, q := Quoted(field), front + Quoted(field) + [':'] + after, |front|;
    assert text[at] == key[0] && text[at + 1] == key[1] && text[at + 2] == key[2] && text[at + 3] == key[3];
    assert front[at] == QUOTE && (at > 0 ==> text[at - 1] == front[at - 1]);
    assert at + 1 < q ==> front[at + 1] == field[0];
    assert at + 2 < q ==> front[at + 2] == field[1];
    assert at + 3 < q ==> front[at + 3] == field[2];
    assert text[q] == QUOTE && text[q - 1] == front[q - 1];
    NoOverlap(text, field, at, q);
  }

  /** An occurrence of a key cannot run into a quote that follows a brace or a comma. */
  lemma NoOverlap(text: string, field: string, at: nat, q: nat)
    requires StartsAt(text, Quoted(field), at) && at < q < |text|
    requires QUOTE !in field && field != ""
    requires text[q] == QUOTE && text[q - 1] != field[|field| - 1]
    ensures at + |field| + 2 <= q
  {
    KeyInterior(field, q - at);
    KeyInterior(field, |field|);
  }

  lemma KeyInterior(field: string, k: int)
    requires QUOTE !in field
    ensures 0 < k <= |field| ==> Quoted(field)[k] == field[k - 1] != QUOTE
  {
  }

  lemma SearchStep(text: string, field: string, from: nat)
    requires Find(text, Quoted(field), from).Some?
    ensures var at, key := Find(text, Quoted(field), from).value, Quoted(field);
      FindJsonField(text, field, from)
        == if Accepted(text, at, key) then Ok(SkipSpace(text, at + |key|) + 1)
           else FindJsonField(text, field, at + |key|)
  {
  }

  lemma PrintedKeyAccepted(text: string, front: string, field: string, after: string)
    requires text == front + Quoted(field) + [':'] + after
    requires front != "" && (front[|front| - 1] == '{' || front[|front| - 1] == ',')
    ensures StartsAt(text, Quoted(field), |front|) && Accepted(text, |front|, Quoted(field))
    ensures SkipSpace(text, |front| + |Quoted(field)|) == |front| + |field| + 2
  {
    var q := |front|;
    assert text[q - 1] == front[q - 1] && text[q + |Quoted(field)|] == ':';
  }

  /** The search stops at the first accepted occurrence, if no rejected one overlaps it. */
  lemma {:induction false} FindsAccepted(text: string, field: string, q: nat, from: nat)
    requires from <= q && StartsAt(text, Quoted(field), q) && Accepted(text, q, Quoted(field))
    requires forall m :: 0 <= m < q && StartsAt(text, Quoted(field), m) ==> RejectedAt(text, field, m, q)
    ensures FindJsonField(text, field, from) == Ok(SkipSpace(text, q + |Quoted(field)|) + 1)
    decreases q - from
  {
    var key := Quoted(field);
    FindFirst(text, key, from, q);
    var at := Find(text, key, from).value;
    if at < q {
      assert RejectedAt(text, field, at, q);
      FindsAccepted(text, field, q, at + |key|);
    }
    SearchStep(text, field, from);
  }

  predicate RejectedAt(text: string, field: string, m: nat, q: nat)
    requires m <= |text|
  {
    m + |field| + 2 <= q && !Accepted(text, m, Quoted(field))
  }

  lemma AllRejected(text: string, front: string, field: string, after: string)
    requires text == front + Quoted(field) + [':'] + after && Ready(front, field)
    ensures forall m :: 0 <= m < |front| && StartsAt(text, Quoted(field), m) ==> RejectedAt(text, field, m, |front|)
  {
    forall m | 0 <= m < |front| && StartsAt(text, Quoted(field), m)
      ensures RejectedAt(text, field, m, |front|)
    {
      RejectsInFront(front, field, after, m);
    }
  }

  /** If the text in front of a printed key is clean, the search finds that key and no other. */
  lemma FindsPrintedField(text: string, front: string, field: string, after: string)
    requires text == front + Quoted(field) + [':'] + after
    requires Ready(front, field)
    ensures FindJsonField(text, field, 0) == Ok(|front| + |field| + 3)
  {
    assert FindJsonField(text, field, 0) == Ok(SkipSpace(text, |front| + |Quoted(field)|) + 1) by {
      PrintedKeyAccepted(text, front, field, after);
      AllRejected(text, front, field, after);
      FindsAccepted(text, field, |front|, 0);
    }
    PrintedKeyAccepted(text, front, field, after);
  }
}
