/** What the master lays out is what every client finds. */
module ShmSoundness {
  import opened MachineInts
  import opened ShmLayout
  import opened ShmClient
  import LittleEndian

  /** The unchanging bytes of a header are in place; heads, sequence numbers and frames may be anything. */
  ghost predicate HeaderAt(memory: seq<uint8>, at: nat, config: RingBufferConfig) {
    at + 56 <= |memory| && memory[at + 8..at + 56] == Metadata(config, at)
  }

  ghost predicate Formatted(memory: seq<uint8>, configs: seq<RingBufferConfig>) {
    && |memory| == Total(configs) < U32_RANGE && 0 < |memory|
    && memory[0] == |configs| % U8_RANGE
    && forall i :: 0 <= i < |configs| ==> BufferAt(memory, configs, i)
  }

  ghost predicate BufferAt(memory: seq<uint8>, configs: seq<RingBufferConfig>, i: nat)
    requires i < |configs|
  {
    HeaderAt(memory, Offset(configs, i), configs[i])
  }

  lemma {:induction false} HeadersInPrefix(configs: seq<RingBufferConfig>, k: nat, i: nat)
    requires i < k <= |configs|
    ensures HeaderAt(Prefix(configs, k), Offset(configs, i), configs[i])
    decreases k
  {
    var before, config := Prefix(configs, k - 1), configs[k - 1];
    if i < k - 1 {
      HeadersInPrefix(configs, k - 1, i);
      HeaderExtends(before, Block(config, |before|), Offset(configs, i), configs[i]);
    } else {
      BlockMetadata(before, config);
    }
  }

  lemma HeaderExtends(before: seq<uint8>, more: seq<uint8>, at: nat, config: RingBufferConfig)
    requires HeaderAt(before, at, config)
    ensures HeaderAt(before + more, at, config)
  {
    assert (before + more)[at + 8..at + 56] == before[at + 8..at + 56];
  }

  lemma BlockMetadata(before: seq<uint8>, config: RingBufferConfig)
    ensures HeaderAt(before + Block(config, |before|), |before|, config)
  {
  }

  lemma {:induction false} PrefixCount(configs: seq<RingBufferConfig>, k: nat)
    requires k <= |configs|
    ensures 0 < |Prefix(configs, k)| && Prefix(configs, k)[0] == |configs| % U8_RANGE
  {
    OffsetMonotone(configs, 0, k);
    if k > 0 {
      PrefixCount(configs, k - 1);
      OffsetMonotone(configs, 0, k - 1);
    }
  }

  /** The segment as the master leaves it is formatted. */
  lemma ImageIsFormatted(configs: seq<RingBufferConfig>)
    requires Total(configs) < U32_RANGE
    ensures Formatted(Image(configs), configs)
  {
    PrefixCount(configs, |configs|);
    forall i | 0 <= i < |configs|
      ensures BufferAt(Image(configs), configs, i)
    {
      HeadersInPrefix(configs, |configs|, i);
    }
  }

  /** Head, sequence number and all frames of the buffer are zero. */
  predicate EmptyRing(memory: seq<uint8>, at: nat, size: nat) {
    && at + size <= |memory|
    && forall b :: at <= b < at + size && (b < at + 8 || at + 56 <= b) ==> memory[b] == 0
  }

  lemma {:induction false} EmptyInPrefix(configs: seq<RingBufferConfig>, k: nat, i: nat)
    requires i < k <= |configs|
    ensures EmptyRing(Prefix(configs, k), Offset(configs, i), Storage(configs[i]))
    decreases k
  {
    var before, config := Prefix(configs, k - 1), configs[k - 1];
    if i < k - 1 {
      EmptyInPrefix(configs, k - 1, i);
    } else {
      BlockIsEmpty(before, config);
    }
  }

  lemma BlockIsEmpty(before: seq<uint8>, config: RingBufferConfig)
    ensures EmptyRing(before + Block(config, |before|), |before|, Storage(config))
  {
  }

  /** Every ring starts with head 0, number 0 and zeroed frames. */
  lemma RingsStartEmpty(configs: seq<RingBufferConfig>, i: nat)
    requires i < |configs|
    ensures EmptyRing(Image(configs), Offset(configs, i), Storage(configs[i]))
  {
    EmptyInPrefix(configs, |configs|, i);
  }

  // Reading a header back

  function UntilZero(bytes: seq<uint8>): seq<uint8> {
    if bytes == [] || bytes[0] == 0 then [] else [bytes[0]] + UntilZero(bytes[1..])
  }

  /** The name under which a client can find the buffer. */
  function StoredName(name: seq<uint8>): seq<uint8> {
    UntilZero(name[..if |name| < 31 then |name| else 31])
  }

  lemma {:induction false} UntilZeroOfPlain(bytes: seq<uint8>)
    ensures |UntilZero(bytes)| <= |bytes| && 0 !in UntilZero(bytes)
    ensures 0 !in bytes ==> UntilZero(bytes) == bytes
  {
    if bytes != [] && bytes[0] != 0 {
      UntilZeroOfPlain(bytes[1..]);
      assert bytes == [bytes[0]] + bytes[1..];
    }
  }

  /** Names survive exactly if they are short enough and without zeros. */
  lemma StoredNameIsName(name: seq<uint8>)
    ensures StoredName(name) == name <==> |name| <= 31 && 0 !in name
  {
    UntilZeroOfPlain(name[..if |name| < 31 then |name| else 31]);
    if |name| <= 31 {
      assert name[..|name|] == name;
    }
  }

  lemma {:induction false} CStringReads(memory: seq<uint8>, at: nat, text: seq<uint8>)
    requires at + |text| < |memory| && memory[at..at + |text|] == text && memory[at + |text|] == 0
    ensures CString(memory, at) == UntilZero(text)
    decreases |text|
  {
    if text != [] {
      assert memory[at] == memory[at..at + |text|][0] == text[0];
      assert memory[at + 1..at + |text|] == text[1..];
      CStringReads(memory, at + 1, text[1..]);
    }
  }

  lemma Subslice(memory: seq<uint8>, at: nat, n: nat, from: nat, k: nat)
    requires at + n <= |memory| && from + k <= n
    ensures memory[at..at + n][from..from + k] == memory[at + from..at + from + k]
  {
    var a, b := memory[at..at + n][from..from + k], memory[at + from..at + from + k];
    forall i | 0 <= i < k
      ensures a[i] == b[i]
    {
      assert a[i] == memory[at..at + n][from + i];
    }
  }

  lemma Fields(memory: seq<uint8>, at: nat, name: seq<uint8>, count: seq<uint8>, size: seq<uint8>, offset: seq<uint8>)
    requires |name| == 32 && |count| == 4 && |size| == 4 && |offset| == 8
    requires at + 56 <= |memory| && memory[at + 8..at + 56] == name + count + size + offset
    ensures memory[at + 8..at + 40] == name && memory[at + 40..at + 44] == count
    ensures memory[at + 44..at + 48] == size && memory[at + 48..at + 56] == offset
  {
    Subslice(memory, at + 8, 48, 0, 32);
    Subslice(memory, at + 8, 48, 32, 4);
    Subslice(memory, at + 8, 48, 36, 4);
    Subslice(memory, at + 8, 48, 40, 8);
    var metadata := name + count + size + offset;
    assert metadata[0..32] == name && metadata[32..36] == count;
    assert metadata[36..40] == size && metadata[40..48] == offset;
  }

  lemma ReadsSizes(memory: seq<uint8>, at: nat, config: RingBufferConfig)
    requires HeaderAt(memory, at, config) && at < U64_RANGE
    ensures Uint32At(memory, at + 40) == config.numFrames % U32_RANGE
    ensures Uint32At(memory, at + 44) == config.sizePerFrame % U32_RANGE
    ensures Uint64At(memory, at + 48) == at
  {
    Fields(memory, at, NameField(config.name), LittleEndian.ToBytes(config.numFrames % U32_RANGE, 4),
           LittleEndian.ToBytes(config.sizePerFrame % U32_RANGE, 4), LittleEndian.ToBytes(at, 8));
    LittleEndian.Ranges();
    LittleEndian.RoundTrip(config.numFrames % U32_RANGE, 4);
    LittleEndian.RoundTrip(config.sizePerFrame % U32_RANGE, 4);
    LittleEndian.RoundTrip(at, 8);
  }

  lemma ReadsHeaderName(memory: seq<uint8>, at: nat, config: RingBufferConfig)
    requires HeaderAt(memory, at, config) && at < U64_RANGE
    ensures CString(memory, at + 8) == StoredName(config.name)
  {
    Fields(memory, at, NameField(config.name), LittleEndian.ToBytes(config.numFrames % U32_RANGE, 4),
           LittleEndian.ToBytes(config.sizePerFrame % U32_RANGE, 4), LittleEndian.ToBytes(at, 8));
    ReadsName(memory, at + 8, config.name);
  }

  lemma ReadsName(memory: seq<uint8>, at: nat, name: seq<uint8>)
    requires at + 32 <= |memory| && memory[at..at + 32] == NameField(name)
    ensures CString(memory, at) == StoredName(name)
  {
    var kept := name[..if |name| < 31 then |name| else 31];
    assert memory[at..at + 32][..|kept|] == kept && memory[at..at + 32][|kept|] == 0;
    assert memory[at..at + |kept|] == kept;
    CStringReads(memory, at, kept);
  }

  // The walk

  lemma FormattedHeader(memory: seq<uint8>, configs: seq<RingBufferConfig>, i: nat)
    requires Formatted(memory, configs) && i < |configs|
    ensures HeaderAt(memory, Offset(configs, i), configs[i])
    ensures Offset(configs, i + 1) == Offset(configs, i) + Storage(configs[i]) <= |memory| < U32_RANGE
  {
    assert BufferAt(memory, configs, i);
    OffsetMonotone(configs, i + 1, |configs|);
  }

  lemma NextOfFields(memory: seq<uint8>, at: nat, numFrames: uint32, sizePerFrame: uint32)
    requires at + 56 <= |memory| && at + 56 + FrameBytes(numFrames, sizePerFrame) < U64_RANGE
    requires Uint32At(memory, at + 40) == numFrames && Uint32At(memory, at + 44) == sizePerFrame
    ensures NextOffset(memory, at) == Some(at + 56 + FrameBytes(numFrames, sizePerFrame))
  {
    FrameBytesProduct(numFrames, sizePerFrame);
  }

  lemma NextIsNext(memory: seq<uint8>, at: nat, config: RingBufferConfig)
    requires HeaderAt(memory, at, config) && at + Storage(config) < U32_RANGE
    ensures NextOffset(memory, at) == Some(at + Storage(config))
  {
    ReadsSizes(memory, at, config);
    NothingWraps(config);
    ModSmall(config.numFrames, U32_RANGE);
    NextOfFields(memory, at, config.numFrames, config.sizePerFrame % U32_RANGE);
  }

  /** The first of `remaining` buffers from `i` on that a client of this name accepts. */
  function FirstNamed(configs: seq<RingBufferConfig>, name: seq<uint8>, i: nat, remaining: nat): (found: Option<nat>)
    requires i + remaining <= |configs|
    ensures found.Some? ==> i <= found.value < i + remaining && StoredName(configs[found.value].name) == name
    ensures forall j :: i <= j < (if found.Some? then found.value else i + remaining) ==>
      StoredName(configs[j].name) != name
    decreases remaining
  {
    if remaining == 0 then None
    else if StoredName(configs[i].name) == name then Some(i)
    else FirstNamed(configs, name, i + 1, remaining - 1)
  }

  /** One step of the walk, all checks passed. */
  lemma WalkStep(memory: seq<uint8>, name: seq<uint8>, at: nat, remaining: nat, config: RingBufferConfig)
    requires HeaderAt(memory, at, config) && at + Storage(config) <= |memory| < U32_RANGE && 0 < remaining
    ensures Walk(memory, name, at, remaining)
         == if StoredName(config.name) == name then Some(at)
            else Walk(memory, name, at + Storage(config), remaining - 1)
  {
    ReadsHeaderName(memory, at, config);
    NextIsNext(memory, at, config);
  }

  /** At buffer `j` the walk passes all checks: it stops there if the name fits, and goes on behind it if not. */
  ghost predicate StepAt(memory: seq<uint8>, configs: seq<RingBufferConfig>, name: seq<uint8>, j: nat)
    requires j < |configs| && |memory| < U64_RANGE
  {
    && Offset(configs, j) <= Offset(configs, j + 1) < U64_RANGE
    && forall remaining: nat {:trigger Walk(memory, name, Offset(configs, j), remaining)} :: 0 < remaining ==>
         Walk(memory, name, Offset(configs, j), remaining)
           == if StoredName(configs[j].name) == name then Some(Offset(configs, j))
              else Walk(memory, name, Offset(configs, j + 1), remaining - 1)
  }

  lemma EveryStep(memory: seq<uint8>, configs: seq<RingBufferConfig>, name: seq<uint8>, j: nat)
    requires Formatted(memory, configs) && j < |configs|
    ensures StepAt(memory, configs, name, j)
  {
    FormattedHeader(memory, configs, j);
    forall remaining: nat | 0 < remaining
      ensures Walk(memory, name, Offset(configs, j), remaining)
           == if StoredName(configs[j].name) == name then Some(Offset(configs, j))
              else Walk(memory, name, Offset(configs, j + 1), remaining - 1)
    {
      WalkStep(memory, name, Offset(configs, j), remaining, configs[j]);
    }
  }

  lemma {:induction false} WalkBySteps(memory: seq<uint8>, configs: seq<RingBufferConfig>, name: seq<uint8>, i: nat,
                                       remaining: nat)
    requires |memory| < U64_RANGE && i + remaining <= |configs| && Offset(configs, i) < U64_RANGE
    requires forall j :: i <= j < i + remaining ==> StepAt(memory, configs, name, j)
    ensures Walk(memory, name, Offset(configs, i), remaining)
         == OffsetOf(configs, FirstNamed(configs, name, i, remaining))
    decreases remaining
  {
    if remaining > 0 {
      assert StepAt(memory, configs, name, i);
      if StoredName(configs[i].name) != name {
        WalkBySteps(memory, configs, name, i + 1, remaining - 1);
        FirstNamedStep(configs, name, i, remaining);
      }
    }
  }

  /** No check fires: the walk passes every header and stops at the first of the given name. */
  lemma WalkFindsFirst(memory: seq<uint8>, configs: seq<RingBufferConfig>, name: seq<uint8>, i: nat, remaining: nat)
    requires Formatted(memory, configs) && i + remaining <= |configs|
    ensures Offset(configs, i) < U64_RANGE
    ensures Walk(memory, name, Offset(configs, i), remaining)
         == OffsetOf(configs, FirstNamed(configs, name, i, remaining))
  {
    OffsetMonotone(configs, i, |configs|);
    forall j | i <= j < i + remaining
      ensures StepAt(memory, configs, name, j)
    {
      EveryStep(memory, configs, name, j);
    }
    WalkBySteps(memory, configs, name, i, remaining);
  }

  lemma FirstNamedStep(configs: seq<RingBufferConfig>, name: seq<uint8>, i: nat, remaining: nat)
    requires 0 < remaining && i + remaining <= |configs| && StoredName(configs[i].name) != name
    ensures FirstNamed(configs, name, i, remaining) == FirstNamed(configs, name, i + 1, remaining - 1)
  {
  }

  function OffsetOf(configs: seq<RingBufferConfig>, buffer: Option<nat>): Option<nat>
    requires buffer.Some? ==> buffer.value < |configs|
  {
    if buffer.None? then None else Some(Offset(configs, buffer.value))
  }

  /** A buffer is found by its own name exactly if that name fits the field, has no zero in it, is not
      also an earlier buffer's, and the number of buffers, cut to eight bits, reaches it. */
  lemma FoundByName(memory: seq<uint8>, configs: seq<RingBufferConfig>, i: nat)
    requires Formatted(memory, configs) && i < |configs|
    ensures Walk(memory, configs[i].name, 8, memory[0]) == Some(Offset(configs, i))
       <==> && |configs[i].name| <= 31 && 0 !in configs[i].name
            && i < |configs| % U8_RANGE
            && forall j :: 0 <= j < i ==> StoredName(configs[j].name) != configs[i].name
  {
    var name, count := configs[i].name, |configs| % U8_RANGE;
    ModAtMost(|configs|, U8_RANGE);
    WalkFindsFirst(memory, configs, name, 0, count);
    StoredNameIsName(name);
    var found := FirstNamed(configs, name, 0, count);
    if found.Some? {
      OffsetsDiffer(configs, found.value, i);
    }
  }

  lemma OffsetsDiffer(configs: seq<RingBufferConfig>, i: nat, j: nat)
    requires i < |configs| && j < |configs|
    ensures Offset(configs, i) == Offset(configs, j) ==> i == j
  {
    if i < j {
      OffsetMonotone(configs, i, j);
    } else if j < i {
      OffsetMonotone(configs, j, i);
    }
  }

  // The frames

  /** Where the frame should lie. */
  function FrameStart(configs: seq<RingBufferConfig>, i: nat, k: nat): nat
    requires i < |configs|
  {
    Offset(configs, i) + 56 + FrameBytes(k, configs[i].sizePerFrame)
  }

  lemma {:induction false} FrameBytesMonotone(k: nat, l: nat, size: nat)
    requires k <= l
    ensures FrameBytes(k, size) <= FrameBytes(l, size)
    ensures k < l ==> FrameBytes(k, size) + 16 + size <= FrameBytes(l, size)
    decreases l
  {
    if k < l {
      FrameBytesMonotone(k, l - 1, size);
    }
  }

  lemma FrameOfFields(memory: seq<uint8>, at: nat, k: uint32, sizePerFrame: uint32)
    requires at + 56 <= |memory| < U32_RANGE && at + 56 + FrameBytes(k, sizePerFrame) + 16 + sizePerFrame <= |memory|
    requires Uint32At(memory, at + 44) == sizePerFrame && Uint64At(memory, at + 48) == at
    ensures FrameOffset(memory, at, k) == Some(at + 56 + FrameBytes(k, sizePerFrame))
  {
    FrameBytesProduct(k, sizePerFrame);
  }

  /** The lookup of a frame passes all its checks and lands on the frame. */
  lemma FrameFound(memory: seq<uint8>, configs: seq<RingBufferConfig>, i: nat, k: uint32)
    requires Formatted(memory, configs) && i < |configs| && k < configs[i].numFrames
    ensures Offset(configs, i) + 56 <= |memory|
    ensures FrameOffset(memory, Offset(configs, i), k) == Some(FrameStart(configs, i, k))
    ensures FrameStart(configs, i, k) + 16 + configs[i].sizePerFrame <= Offset(configs, i + 1) <= |memory|
  {
    var config, at := configs[i], Offset(configs, i);
    FormattedHeader(memory, configs, i);
    ReadsSizes(memory, at, config);
    NothingWraps(config);
    ModSmall(config.sizePerFrame, U32_RANGE);
    FrameBytesMonotone(k, config.numFrames, config.sizePerFrame);
    FrameOfFields(memory, at, k, config.sizePerFrame);
  }

  /** The bytes `a .. a + n - 1` and `b .. b + m - 1` have none in common. */
  predicate Apart(a: nat, n: nat, b: nat, m: nat) {
    a + n <= b || b + m <= a
  }

  /** Two frames of the segment do not overlap, and no frame overlaps a header or the front. */
  lemma FramesApart(configs: seq<RingBufferConfig>, i: nat, k: nat, j: nat, l: nat)
    requires i < |configs| && k < configs[i].numFrames && j < |configs| && l < configs[j].numFrames
    ensures (i, k) != (j, l) ==>
      Apart(FrameStart(configs, i, k), 16 + configs[i].sizePerFrame,
            FrameStart(configs, j, l), 16 + configs[j].sizePerFrame)
    ensures Apart(FrameStart(configs, i, k), 16 + configs[i].sizePerFrame, Offset(configs, j), 56)
    ensures Apart(FrameStart(configs, i, k), 16 + configs[i].sizePerFrame, 0, 8)
  {
    FrameInBlock(configs, i, k);
    FrameInBlock(configs, j, l);
    OffsetMonotone(configs, 0, i);
    if i < j {
      OffsetMonotone(configs, i, j);
    } else if j < i {
      OffsetMonotone(configs, j, i);
    } else if k < l {
      FrameBytesMonotone(k, l, configs[i].sizePerFrame);
    } else if l < k {
      FrameBytesMonotone(l, k, configs[i].sizePerFrame);
    }
  }

  lemma FrameInBlock(configs: seq<RingBufferConfig>, i: nat, k: nat)
    requires i < |configs| && k < configs[i].numFrames
    ensures FrameStart(configs, i, k) + 16 + configs[i].sizePerFrame <= Offset(configs, i) + Storage(configs[i])
  {
    FrameBytesMonotone(k, configs[i].numFrames, configs[i].sizePerFrame);
  }

  /** The last frame of the last buffer ends where the segment ends. */
  lemma LastFrameEnds(configs: seq<RingBufferConfig>)
    requires configs != [] && 0 < configs[|configs| - 1].numFrames
    ensures var last := |configs| - 1;
      FrameStart(configs, last, configs[last].numFrames - 1) + 16 + configs[last].sizePerFrame == Total(configs)
  {
  }

  /** Writing into a frame, or over the head and sequence number of a header, leaves the format alone. */
  lemma StaysFormatted(memory: seq<uint8>, configs: seq<RingBufferConfig>, i: nat, at: nat, bytes: seq<uint8>)
    requires Formatted(memory, configs) && i < |configs|
    requires (at == Offset(configs, i) && |bytes| <= 8)
      || (Offset(configs, i) + 56 <= at && at + |bytes| <= Offset(configs, i + 1))
    ensures at + |bytes| <= |memory|
    ensures Formatted(LittleEndian.Splice(memory, at, bytes), configs)
  {
    OffsetMonotone(configs, i + 1, |configs|);
    OffsetMonotone(configs, 0, i);
    var after := LittleEndian.Splice(memory, at, bytes);
    forall j | 0 <= j < |configs|
      ensures BufferAt(after, configs, j)
    {
      assert BufferAt(memory, configs, j);
      OffsetMonotone(configs, if i < j then i else j, if i < j then j else i);
      HeaderStays(memory, at, bytes, Offset(configs, j), configs[j]);
    }
  }

  lemma HeaderStays(memory: seq<uint8>, at: nat, bytes: seq<uint8>, header: nat, config: RingBufferConfig)
    requires HeaderAt(memory, header, config) && at + |bytes| <= |memory|
    requires Apart(at, |bytes|, header + 8, 48)
    ensures HeaderAt(LittleEndian.Splice(memory, at, bytes), header, config)
  {
    SpliceApart(memory, at, bytes, header + 8, 48);
  }

  lemma SpliceApart(memory: seq<uint8>, at: nat, bytes: seq<uint8>, from: nat, n: nat)
    requires at + |bytes| <= |memory| && from + n <= |memory| && Apart(at, |bytes|, from, n)
    ensures LittleEndian.Splice(memory, at, bytes)[from..from + n] == memory[from..from + n]
  {
    var after := LittleEndian.Splice(memory, at, bytes);
    forall i | from <= i < from + n
      ensures after[i] == memory[i]
    {
    }
  }
}
