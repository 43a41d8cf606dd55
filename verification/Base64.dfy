/** The base64 codec of the logger and the log reader. */
module Base64 {
  import opened MachineInts

  const PADDING_VALUE: uint8 := 254
  const INVALID_VALUE: uint8 := 255

  /** The alphabet A-Z a-z 0-9 + / by index, and the padding character for `PADDING_VALUE`. */
  function Symbol(v: uint8): char
    requires v < 64 || v == PADDING_VALUE
  {
    if v < 26 then 'A' + v as char
    else if v < 52 then 'a' + (v - 26) as char
    else if v < 62 then '0' + (v - 52) as char
    else if v == 62 then '+'
    else if v == 63 then '/'
    else '='
  }

  /** The alphabet of RFC 4648, table 1, in ASCII codes. */
  lemma Alphabet(v: uint8)
    requires v < 64
    ensures Symbol(v) as int == if v < 26 then 65 + v else if v < 52 then 71 + v else if v < 62 then v - 4
                                else if v == 62 then 43 else 47
    ensures Symbol(PADDING_VALUE) as int == 61
  {
  }

  /** The decode table as a function: the value of a character, padding or invalid. */
  function DecodeValue(c: char): uint8 {
    if 'A' <= c <= 'Z' then (c - 'A') as int
    else if 'a' <= c <= 'z' then 26 + (c - 'a') as int
    else if '0' <= c <= '9' then 52 + (c - '0') as int
    else if c == '+' then 62
    else if c == '/' then 63
    else if c == '=' then PADDING_VALUE
    else INVALID_VALUE
  }

  lemma DecodeValueOfSymbol(v: uint8)
    requires v < 64 || v == PADDING_VALUE
    ensures DecodeValue(Symbol(v)) == v
  {
  }

  lemma SymbolOfDecodeValue(c: char)
    ensures DecodeValue(c) < 64 || DecodeValue(c) == PADDING_VALUE || DecodeValue(c) == INVALID_VALUE
    ensures DecodeValue(c) != INVALID_VALUE ==> Symbol(DecodeValue(c)) == c
  {
  }

  method MakeDecodeTable() returns (table: array<uint8>)
    ensures fresh(table) && table.Length == 256
    ensures forall c :: 0 <= c < 256 ==> table[c] == DecodeValue(c as char)
  {
    table := new uint8[256](_ => INVALID_VALUE);
    for index := 0 to 26
      invariant forall c :: 0 <= c < 256 ==>
        table[c] == if 'A' as int <= c < 'A' as int + index || 'a' as int <= c < 'a' as int + index
                    then DecodeValue(c as char) else INVALID_VALUE
    {
      table['A' as int + index] := index;
      table['a' as int + index] := 26 + index;
    }
    for index := 0 to 10
      invariant forall c :: 0 <= c < 256 ==>
        table[c] == if 'A' as int <= c <= 'Z' as int || 'a' as int <= c <= 'z' as int
                       || '0' as int <= c < '0' as int + index
                    then DecodeValue(c as char) else INVALID_VALUE
    {
      table['0' as int + index] := 52 + index;
    }
    table['+' as int] := 62;
    table['/' as int] := 63;
    table['=' as int] := PADDING_VALUE;
  }

  /** The four values for up to three bytes: the bits regrouped by six, then padding. */
  function EncodeValues(group: seq<uint8>): (values: seq<uint8>)
    requires 0 < |group| <= 3
    ensures |values| == 4
    ensures forall i :: 0 <= i < 4 ==> if i <= |group| then values[i] < 64 else values[i] == PADDING_VALUE
  {
    var a := group[0];
    var b := if |group| > 1 then group[1] else 0;
    var c := if |group| > 2 then group[2] else 0;
    [a / 4, a % 4 * 16 + b / 16,
     if |group| > 1 then b % 16 * 4 + c / 64 else PADDING_VALUE,
     if |group| > 2 then c % 64 else PADDING_VALUE]
  }

  /** Seen as one number, most significant part first, a group's values are its bytes, filled up with zeros. */
  lemma SameNumber(group: seq<uint8>)
    requires 0 < |group| <= 3
    ensures var v := EncodeValues(group);
      var sextets: int := Digits64(v[0], v[1], if |group| > 1 then v[2] else 0, if |group| > 2 then v[3] else 0);
      sextets == Digits256(group[0], if |group| > 1 then group[1] else 0, if |group| > 2 then group[2] else 0)
  {
  }

  function Digits64(a: int, b: int, c: int, d: int): int {
    ((a * 64 + b) * 64 + c) * 64 + d
  }

  function Digits256(a: int, b: int, c: int): int {
    (a * 256 + b) * 256 + c
  }

  /** The bytes that four values stand for, or `None` if they are malformed. */
  function DecodeValues(a: uint8, b: uint8, c: uint8, d: uint8): (group: Option<seq<uint8>>)
    requires (c < 64 || c >= PADDING_VALUE) && (d < 64 || d >= PADDING_VALUE)
    ensures group.Some? ==> 0 < |group.value| <= 3
  {
    if a >= 64 || b >= 64 || c == INVALID_VALUE || d == INVALID_VALUE then
      None
    else if c == PADDING_VALUE && d != PADDING_VALUE then
      None
    else
      var c6 := if c == PADDING_VALUE then 0 else c;
      var d6 := if d == PADDING_VALUE then 0 else d;
      Some([a * 4 + b / 16]
         + (if c != PADDING_VALUE then [b % 16 * 16 + c6 / 4] else [])
         + (if d != PADDING_VALUE then [c6 % 4 * 64 + d6] else []))
  }

  function EncodeGroup(group: seq<uint8>): (text: string)
    requires 0 < |group| <= 3
    ensures |text| == 4
  {
    var v := EncodeValues(group);
    [Symbol(v[0]), Symbol(v[1]), Symbol(v[2]), Symbol(v[3])]
  }

  function DecodeGroup(text: string): (group: Option<seq<uint8>>)
    requires |text| == 4
    ensures group.Some? ==> 0 < |group.value| <= 3
  {
    SymbolOfDecodeValue(text[2]);
    SymbolOfDecodeValue(text[3]);
    DecodeValues(DecodeValue(text[0]), DecodeValue(text[1]), DecodeValue(text[2]), DecodeValue(text[3]))
  }

  function Encode(bytes: seq<uint8>): string {
    if |bytes| == 0 then ""
    else if |bytes| <= 3 then EncodeGroup(bytes)
    else EncodeGroup(bytes[..3]) + Encode(bytes[3..])
  }

  function Prepend(front: seq<uint8>, rest: Option<seq<uint8>>): Option<seq<uint8>> {
    if rest.None? then None else Some(front + rest.value)
  }

  function Decode(encoded: string): Option<seq<uint8>>
    decreases |encoded|
  {
    if |encoded| == 0 then Some([])
    else if |encoded| < 4 then None
    else
      var first := DecodeGroup(encoded[..4]);
      var rest := Decode(encoded[4..]);
      if first.None? then None else Prepend(first.value, rest)
  }

  lemma GroupRoundTrip(group: seq<uint8>)
    requires 0 < |group| <= 3
    ensures DecodeGroup(EncodeGroup(group)) == Some(group)
  {
    var v := EncodeValues(group);
    DecodeValueOfSymbol(v[0]);
    DecodeValueOfSymbol(v[1]);
    DecodeValueOfSymbol(v[2]);
    DecodeValueOfSymbol(v[3]);
    ValuesRoundTrip(group);
  }

  lemma ValuesRoundTrip(group: seq<uint8>)
    requires 0 < |group| <= 3
    ensures var v := EncodeValues(group); DecodeValues(v[0], v[1], v[2], v[3]) == Some(group)
  {
    var v := EncodeValues(group);
    var a := group[0];
    var b := if |group| > 1 then group[1] else 0;
    var c := if |group| > 2 then group[2] else 0;
    assert v[1] / 16 == a % 4 && v[1] % 16 == b / 16;
    assert |group| > 1 ==> v[2] / 4 == b % 16 && v[2] % 4 == c / 64;
    var g := DecodeValues(v[0], v[1], v[2], v[3]).value;
    assert |g| == |group|;
    assert g == group;
  }

  /** Decoding the encoding of any byte sequence succeeds and returns it. */
  lemma {:induction false} DecodeEncode(bytes: seq<uint8>)
    ensures Decode(Encode(bytes)) == Some(bytes)
  {
    if |bytes| > 3 {
      var t := EncodeGroup(bytes[..3]);
      assert (t + Encode(bytes[3..]))[4..] == Encode(bytes[3..]);
      assert (t + Encode(bytes[3..]))[..4] == t;
      GroupRoundTrip(bytes[..3]);
      DecodeEncode(bytes[3..]);
      assert bytes[..3] + bytes[3..] == bytes;
    } else if |bytes| > 0 {
      GroupRoundTrip(bytes);
      assert Encode(bytes)[4..] == "";
      assert Encode(bytes)[..4] == Encode(bytes);
      assert bytes + [] == bytes;
    }
  }

  lemma EncodeInjective(b1: seq<uint8>, b2: seq<uint8>)
    requires Encode(b1) == Encode(b2)
    ensures b1 == b2
  {
    DecodeEncode(b1);
    DecodeEncode(b2);
  }

  function PaddingLength(n: nat): nat {
    (3 - n % 3) % 3
  }

  lemma {:induction false} EncodeLength(bytes: seq<uint8>)
    ensures |Encode(bytes)| == 4 * ((|bytes| + 2) / 3)
  {
    if |bytes| > 3 {
      EncodeLength(bytes[3..]);
      Thirds(|bytes|);
    }
  }

  lemma Thirds(n: nat)
    requires 3 <= n
    ensures (n + 2) / 3 == (n - 3 + 2) / 3 + 1
  {
  }

  lemma PaddingOfRest(n: nat)
    requires 3 <= n
    ensures PaddingLength(n) == PaddingLength(n - 3) < 3
  {
  }

  /** The shape that section 4 of RFC 4648 asks for: alphabet characters, and one or two padding
      characters at the very end where the input does not fill its last group. */
  lemma {:induction false} EncodeShape(bytes: seq<uint8>)
    ensures forall i :: 0 <= i < |Encode(bytes)| ==>
      if i < |Encode(bytes)| - PaddingLength(|bytes|) then DecodeValue(Encode(bytes)[i]) < 64
      else Encode(bytes)[i] == '='
  {
    if |bytes| > 3 {
      var first, rest := EncodeGroup(bytes[..3]), Encode(bytes[3..]);
      EncodeShape(bytes[3..]);
      GroupShape(bytes[..3]);
      PaddingOfRest(|bytes|);
      EncodeLength(bytes[3..]);
      assert Encode(bytes) == first + rest;
    } else if |bytes| > 0 {
      GroupShape(bytes);
    }
  }

  lemma GroupShape(group: seq<uint8>)
    requires 0 < |group| <= 3
    ensures forall i :: 0 <= i < 4 ==>
      if i < 4 - PaddingLength(|group|) then DecodeValue(EncodeGroup(group)[i]) < 64
      else EncodeGroup(group)[i] == '='
  {
    var v := EncodeValues(group);
    DecodeValueOfSymbol(v[0]);
    DecodeValueOfSymbol(v[1]);
    DecodeValueOfSymbol(v[2]);
    DecodeValueOfSymbol(v[3]);
  }

  /** No padding before the last group, and no stray bits in front of the padding. */
  predicate Canonical(encoded: string)
    decreases |encoded|
  {
    if |encoded| < 4 then encoded == ""
    else if |encoded| == 4 then
      CleanTail(DecodeValue(encoded[1]), DecodeValue(encoded[2]), DecodeValue(encoded[3]))
    else encoded[3] != '=' && Canonical(encoded[4..])
  }

  predicate CleanTail(b: uint8, c: uint8, d: uint8) {
    && (c == PADDING_VALUE ==> b % 16 == 0)
    && (c != PADDING_VALUE && d == PADDING_VALUE ==> c % 4 == 0)
  }

  lemma ValuesReencode(a: uint8, b: uint8, c: uint8, d: uint8)
    requires (c < 64 || c >= PADDING_VALUE) && (d < 64 || d >= PADDING_VALUE)
    requires DecodeValues(a, b, c, d).Some?
    ensures var g := DecodeValues(a, b, c, d).value;
      && (|g| == 3 <==> d != PADDING_VALUE)
      && (EncodeValues(g) == [a, b, c, d] <==> CleanTail(b, c, d))
  {
    var c6 := if c == PADDING_VALUE then 0 else c;
    var d6 := if d == PADDING_VALUE then 0 else d;
    var o0, o1, o2 := a * 4 + b / 16, b % 16 * 16 + c6 / 4, c6 % 4 * 64 + d6;
    assert o0 / 4 == a && o0 % 4 == b / 16;
    assert o1 / 16 == b % 16 && o1 % 16 == c6 / 4;
    assert o2 / 64 == c6 % 4 && o2 % 64 == d6;
    var v := EncodeValues(DecodeValues(a, b, c, d).value);
    assert v == [a, b, c, d] <==> v[0] == a && v[1] == b && v[2] == c && v[3] == d;
  }

  lemma GroupReencodes(text: string)
    requires |text| == 4 && DecodeGroup(text).Some?
    ensures var g := DecodeGroup(text).value;
      && (|g| == 3 <==> text[3] != '=')
      && (EncodeGroup(g) == text <==> Canonical(text))
  {
    var a, b, c, d := DecodeValue(text[0]), DecodeValue(text[1]), DecodeValue(text[2]), DecodeValue(text[3]);
    SymbolOfDecodeValue(text[0]);
    SymbolOfDecodeValue(text[1]);
    SymbolOfDecodeValue(text[2]);
    SymbolOfDecodeValue(text[3]);
    ValuesReencode(a, b, c, d);
    var v := EncodeValues(DecodeGroup(text).value);
    DecodeValueOfSymbol(v[0]);
    DecodeValueOfSymbol(v[1]);
    DecodeValueOfSymbol(v[2]);
    DecodeValueOfSymbol(v[3]);
    assert v == [a, b, c, d] <==> v[0] == a && v[1] == b && v[2] == c && v[3] == d;
    DecodeValueOfSymbol(PADDING_VALUE);
  }

  /** The decoder also accepts text that no encoder produces; re-encoding gives the text back exactly
      when it is canonical. */
  lemma {:induction false} EncodeDecode(encoded: string)
    requires Decode(encoded).Some?
    ensures Encode(Decode(encoded).value) == encoded <==> Canonical(encoded)
    decreases |encoded|
  {
    if encoded != "" {
      var head, tail := encoded[..4], encoded[4..];
      var g, rest := DecodeGroup(head).value, Decode(tail).value;
      assert encoded == head + tail;
      GroupReencodes(head);
      if |encoded| == 4 {
        assert g + rest == g && head == encoded;
      } else {
        EncodeDecode(tail);
        assert rest != [];
        if head[3] != '=' {
          assert (g + rest)[..3] == g && (g + rest)[3..] == rest;
          assert Encode(g + rest) == EncodeGroup(g) + Encode(rest);
          FullGroupIsClean(head);
        } else {
          EncodeShape(g + rest);
          DecodeValueOfSymbol(PADDING_VALUE);
        }
      }
    }
  }

  lemma FullGroupIsClean(text: string)
    requires |text| == 4 && DecodeGroup(text).Some? && text[3] != '='
    ensures Canonical(text)
  {
    SymbolOfDecodeValue(text[3]);
  }

  /** Padding inside the text is accepted and skipped. */
  lemma DecodeAcceptsInnerPadding()
    ensures Decode("QQ==QQ==") == Some([0x41, 0x41]) && !Canonical("QQ==QQ==")
  {
    assert "QQ==QQ=="[4..] == "QQ==" && "QQ=="[4..] == "";
    assert "QQ==QQ=="[..4] == "QQ==" && "QQ=="[..4] == "QQ==";
    assert DecodeValue('Q') == 16 && DecodeValue('=') == PADDING_VALUE;
    assert DecodeValues(16, 16, PADDING_VALUE, PADDING_VALUE).value == [0x41];
    assert [0x41] + [0x41] + [] == [0x41, 0x41];
    assert Decode("QQ==").value == [0x41];
    assert Decode("QQ==QQ==").value == [0x41, 0x41];
  }

  // The loops of the two codecs, with their 24-bit arithmetic.

  /** Three octets in one 24-bit number. */
  function Triple(a: uint8, b: uint8, c: uint8): nat {
    a * 0x1_0000 + b * 0x100 + c
  }

  /** Four sextets in one 24-bit number. */
  function Quadruple(a: nat, b: nat, c: nat, d: nat): nat {
    a * 0x4_0000 + b * 0x1000 + c * 64 + d
  }

  /** The field between weight `d` and weight `d * m` of a number written in parts. */
  lemma Field(x: nat, d: nat, m: nat, high: nat, field: nat, low: nat)
    requires 0 < d && 0 < m && low < d && field < m
    requires x == (high * m + field) * d + low
    ensures x / d % m == field
  {
    DivModUnique(x, d, high * m + field, low);
    DivModUnique(high * m + field, m, high, field);
  }

  lemma SextetsOfTriple(a: uint8, b: uint8, c: uint8)
    ensures var t := Triple(a, b, c);
      && t / 0x4_0000 % 64 == a / 4
      && t / 0x1000 % 64 == a % 4 * 16 + b / 16
      && t / 64 % 64 == b % 16 * 4 + c / 64
      && t % 64 == c % 64
  {
    var t := Triple(a, b, c);
    Field(t, 0x4_0000, 64, 0, a / 4, a % 4 * 0x1_0000 + b * 0x100 + c);
    Field(t, 0x1000, 64, a / 4, a % 4 * 16 + b / 16, b % 16 * 0x100 + c);
    Field(t, 64, 64, a * 16 + b / 16, b % 16 * 4 + c / 64, c % 64);
    Field(t, 1, 64, a * 1024 + b * 4 + c / 64, c % 64, 0);
  }

  lemma OctetsOfQuadruple(a: nat, b: nat, c: nat, d: nat)
    requires a < 64 && b < 64 && c < 64 && d < 64
    ensures var t := Quadruple(a, b, c, d);
      && t / 0x1_0000 % 256 == a * 4 + b / 16
      && t / 0x100 % 256 == b % 16 * 16 + c / 4
      && t % 256 == c % 4 * 64 + d
  {
    var t := Quadruple(a, b, c, d);
    Field(t, 0x1_0000, 256, 0, a * 4 + b / 16, b % 16 * 0x1000 + c * 64 + d);
    Field(t, 0x100, 256, a * 4 + b / 16, b % 16 * 16 + c / 4, c % 4 * 64 + d);
    Field(t, 1, 256, a * 1024 + b * 16 + c / 4, c % 4 * 64 + d, 0);
  }

  predicate IsSymbol(c: char) {
    'A' <= c <= 'Z' || 'a' <= c <= 'z' || '0' <= c <= '9' || c == '+' || c == '/'
  }

  /** Exactly which groups are accepted, stray bits and inner padding included, and how many bytes they give. */
  lemma GroupAccepted(text: string)
    requires |text| == 4
    ensures DecodeGroup(text).Some? <==> GroupFits(text)
    ensures DecodeGroup(text).Some? ==>
      |DecodeGroup(text).value| == if text[2] == '=' then 1 else if text[3] == '=' then 2 else 3
  {
  }

  predicate GroupFits(text: string)
    requires |text| == 4
  {
    && IsSymbol(text[0]) && IsSymbol(text[1])
    && (IsSymbol(text[2]) || (text[2] == '=' && text[3] == '='))
    && (IsSymbol(text[3]) || text[3] == '=')
  }

  /** Group `k` of the text is acceptable. */
  predicate FitsAt(encoded: string, k: nat) {
    4 * k + 4 <= |encoded| && GroupFits(encoded[4 * k..4 * k + 4])
  }

  ghost predicate AllFit(encoded: string) {
    forall k :: 0 <= k < |encoded| / 4 ==> FitsAt(encoded, k)
  }

  lemma AllFitStep(encoded: string)
    requires 4 <= |encoded|
    ensures AllFit(encoded) <==> GroupFits(encoded[..4]) && AllFit(encoded[4..])
  {
    var tail := encoded[4..];
    assert encoded[0..4] == encoded[..4] && |tail| / 4 == |encoded| / 4 - 1;
    assert FitsAt(encoded, 0) == GroupFits(encoded[..4]);
    forall k | 0 <= k < |tail| / 4
      ensures FitsAt(tail, k) == FitsAt(encoded, k + 1)
    {
      assert tail[4 * k..4 * k + 4] == encoded[4 * (k + 1)..4 * (k + 1) + 4];
    }
    if GroupFits(encoded[..4]) && AllFit(tail) {
      forall k | 0 <= k < |encoded| / 4
        ensures FitsAt(encoded, k)
      {
        assert k > 0 ==> FitsAt(tail, k - 1);
      }
    }
  }

  /** A text is decoded if and only if it consists of acceptable groups of four. */
  lemma {:induction false} DecodesGroups(encoded: string)
    ensures Decode(encoded).Some? <==> |encoded| % 4 == 0 && AllFit(encoded)
    decreases |encoded|
  {
    if |encoded| >= 4 {
      GroupAccepted(encoded[..4]);
      DecodesGroups(encoded[4..]);
      AllFitStep(encoded);
    }
  }

  /** The bytes of an accepted group are the leading ones of the 24 bits, padding read as zeros. */
  lemma GroupBits(a: uint8, b: uint8, c: uint8, d: uint8)
    requires (c < 64 || c >= PADDING_VALUE) && (d < 64 || d >= PADDING_VALUE)
    requires DecodeValues(a, b, c, d).Some?
    ensures var g := DecodeValues(a, b, c, d).value;
      var bits := Digits64(a, b, if c < 64 then c else 0, if d < 64 then d else 0);
      && g[0] == bits / 0x1_0000 % 256
      && (|g| > 1 ==> g[1] == bits / 0x100 % 256)
      && (|g| > 2 ==> g[2] == bits % 256)
  {
    var c6, d6 := if c < 64 then c else 0, if d < 64 then d else 0;
    OctetsOfQuadruple(a, b, c6, d6);
    assert Digits64(a, b, c6, d6) == Quadruple(a, b, c6, d6);
  }

  /** The bytes from `index` on, none past the end. */
  function Rest(bytes: seq<uint8>, index: nat): seq<uint8> {
    if index <= |bytes| then bytes[index..] else []
  }

  /** The group of up to three bytes at `index`. */
  function GroupAt(bytes: seq<uint8>, index: nat): (group: seq<uint8>)
    requires index < |bytes|
    ensures 0 < |group| <= 3
  {
    bytes[index..if index + 3 <= |bytes| then index + 3 else |bytes|]
  }

  lemma EncodeStep(bytes: seq<uint8>, index: nat)
    requires index < |bytes|
    ensures Encode(bytes[index..]) == EncodeGroup(GroupAt(bytes, index)) + Encode(Rest(bytes, index + 3))
  {
    var rest := bytes[index..];
    if |rest| <= 3 {
      assert GroupAt(bytes, index) == rest;
      assert Rest(bytes, index + 3) == [];
      assert EncodeGroup(rest) + "" == EncodeGroup(rest);
    } else {
      assert rest[3..] == bytes[index + 3..];
      assert rest[..3] == GroupAt(bytes, index);
    }
  }

  lemma ValuesOfTriple(bytes: seq<uint8>, index: nat, a: uint8, b: uint8, c: uint8)
    requires index < |bytes| && a == bytes[index]
    requires b == if index + 1 < |bytes| then bytes[index + 1] else 0
    requires c == if index + 2 < |bytes| then bytes[index + 2] else 0
    ensures var t := Triple(a, b, c);
      EncodeValues(GroupAt(bytes, index)) == [t / 0x4_0000 % 64, t / 0x1000 % 64,
        if index + 1 < |bytes| then t / 64 % 64 else PADDING_VALUE,
        if index + 2 < |bytes| then t % 64 else PADDING_VALUE]
  {
    SextetsOfTriple(a, b, c);
  }

  /** The body of the encoder's loop. */
  method EncodeTriple(bytes: seq<uint8>, index: nat) returns (text: string)
    requires index < |bytes|
    ensures text == EncodeGroup(GroupAt(bytes, index))
  {
    var a := bytes[index];
    var b := if index + 1 < |bytes| then bytes[index + 1] else 0;
    var c := if index + 2 < |bytes| then bytes[index + 2] else 0;
    var triple := Triple(a, b, c);
    ValuesOfTriple(bytes, index, a, b, c);
    var v0, v1, v2, v3 := triple / 0x4_0000 % 64, triple / 0x1000 % 64, triple / 64 % 64, triple % 64;
    text := [Symbol(v0), Symbol(v1)];
    text := text + [if index + 1 < |bytes| then Symbol(v2) else '='];
    text := text + [if index + 2 < |bytes| then Symbol(v3) else '='];
  }

  method EncodeBytes(bytes: seq<uint8>) returns (encoded: string)
    ensures encoded == Encode(bytes)
  {
    encoded := "";
    var index := 0;
    assert bytes[0..] == bytes;
    while index < |bytes|
      invariant encoded + Encode(Rest(bytes, index)) == Encode(bytes)
    {
      EncodeStep(bytes, index);
      var text := EncodeTriple(bytes, index);
      encoded := encoded + text;
      index := index + 3;
    }
  }

  /** The body of the decoder's loop. */
  method DecodeQuadruple(text: string, table: array<uint8>) returns (group: Option<seq<uint8>>)
    requires |text| == 4 && (forall i :: 0 <= i < 4 ==> text[i] < 256 as char)
    requires table.Length == 256 && (forall c :: 0 <= c < 256 ==> table[c] == DecodeValue(c as char))
    ensures group == DecodeGroup(text)
  {
    var a, b := table[text[0] as int], table[text[1] as int];
    var c, d := table[text[2] as int], table[text[3] as int];
    SymbolOfDecodeValue(text[0]);
    SymbolOfDecodeValue(text[1]);
    SymbolOfDecodeValue(text[2]);
    SymbolOfDecodeValue(text[3]);
    if a >= PADDING_VALUE || b >= PADDING_VALUE || c == INVALID_VALUE || d == INVALID_VALUE {
      return None;
    }
    if c == PADDING_VALUE && d != PADDING_VALUE {
      return None;
    }
    var c6 := if c == PADDING_VALUE then 0 else c;
    var d6 := if d == PADDING_VALUE then 0 else d;
    var triple := Quadruple(a, b, c6, d6);
    OctetsOfQuadruple(a, b, c6, d6);
    var bytes: seq<uint8> := [triple / 0x1_0000 % 256];
    if c != PADDING_VALUE {
      bytes := bytes + [triple / 0x100 % 256];
    }
    if d != PADDING_VALUE {
      bytes := bytes + [triple % 256];
    }
    assert DecodeGroup(text).Some? && bytes == DecodeGroup(text).value;
    group := Some(bytes);
  }

  lemma {:induction false} DecodeNeedsGroups(encoded: string)
    ensures Decode(encoded).Some? ==> |encoded| % 4 == 0
    decreases |encoded|
  {
    if |encoded| >= 4 {
      DecodeNeedsGroups(encoded[4..]);
    }
  }

  lemma DecodeStep(encoded: string, index: nat)
    requires index + 4 <= |encoded|
    ensures var first, rest := DecodeGroup(encoded[index..index + 4]), Decode(encoded[index + 4..]);
      Decode(encoded[index..]) == if first.None? then None else Prepend(first.value, rest)
  {
    var tail := encoded[index..];
    assert tail[4..] == encoded[index + 4..] && tail[..4] == encoded[index..index + 4];
  }

  lemma PrependTwice(front: seq<uint8>, first: Option<seq<uint8>>, rest: Option<seq<uint8>>)
    ensures first.Some? ==> Prepend(front, Prepend(first.value, rest)) == Prepend(front + first.value, rest)
  {
    if first.Some? && rest.Some? {
      assert front + (first.value + rest.value) == front + first.value + rest.value;
    }
  }

  lemma PrependNothing(rest: Option<seq<uint8>>)
    ensures Prepend([], rest) == rest
  {
    assert rest.Some? ==> [] + rest.value == rest.value;
  }

  method DecodeText(encoded: string) returns (decoded: Option<seq<uint8>>)
    requires forall i :: 0 <= i < |encoded| ==> encoded[i] < 256 as char
    ensures decoded == Decode(encoded)
  {
    var table := MakeDecodeTable();
    if |encoded| % 4 != 0 {
      DecodeNeedsGroups(encoded);
      return None;
    }
    var bytes: seq<uint8> := [];
    var index := 0;
    ghost var done, groups := 0, |encoded| / 4;
    ghost var all := Decode(encoded);
    assert encoded[0..] == encoded;
    PrependNothing(all);
    while index < |encoded|
      invariant index == 4 * done && done <= groups && |encoded| == 4 * groups
      invariant all == Prepend(bytes, Decode(encoded[index..]))
      invariant forall c :: 0 <= c < 256 ==> table[c] == DecodeValue(c as char)
    {
      DecodeStep(encoded, index);
      PrependTwice(bytes, DecodeGroup(encoded[index..index + 4]), Decode(encoded[index + 4..]));
      var group := DecodeQuadruple(encoded[index..index + 4], table);
      if group.None? {
        return None;
      }
      bytes := bytes + group.value;
      index, done := index + 4, done + 1;
    }
    assert bytes + [] == bytes;
    decoded := Some(bytes);
  }
}
