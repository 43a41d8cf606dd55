/** The byte layout of the shared segment: the master writes it, every client derives it again. */
module ShmLayout {
  import opened MachineInts
  import LittleEndian

  // The segment starts with the number of buffers, padded to 8 bytes. A buffer is a header of 56 bytes
  // (head 4, sequence 4, name 32, number of frames 4, size of a frame 4, own offset 8) and its frames;
  // a frame is a header of 16 bytes and its payload.

  datatype RingBufferConfig = RingBufferConfig(numFrames: uint64, sizePerFrame: uint64, name: seq<uint8>)

  // Sizes without wrap-around

  /** The bytes of `count` frames. */
  function FrameBytes(count: nat, size: nat): nat {
    if count == 0 then 0 else FrameBytes(count - 1, size) + 16 + size
  }

  lemma {:induction false} FrameBytesProduct(count: nat, size: nat)
    ensures FrameBytes(count, size) == count * (16 + size)
  {
    if count > 0 {
      FrameBytesProduct(count - 1, size);
      assert count * (16 + size) == (count - 1) * (16 + size) + (16 + size);
    }
  }

  function Storage(config: RingBufferConfig): nat {
    56 + FrameBytes(config.numFrames, config.sizePerFrame)
  }

  /** Where buffer `i` starts, and for `i == |configs|` where the last one ends. */
  function Offset(configs: seq<RingBufferConfig>, i: nat): nat
    requires i <= |configs|
  {
    if i == 0 then 8 else Offset(configs, i - 1) + Storage(configs[i - 1])
  }

  function Total(configs: seq<RingBufferConfig>): nat {
    Offset(configs, |configs|)
  }

  lemma {:induction false} OffsetMonotone(configs: seq<RingBufferConfig>, i: nat, j: nat)
    requires i <= j <= |configs|
    ensures Offset(configs, i) <= Offset(configs, j)
    ensures i < j ==> Offset(configs, i) + Storage(configs[i]) <= Offset(configs, j)
    decreases j
  {
    if i < j {
      OffsetMonotone(configs, i, j - 1);
    }
  }

  // The total, as the master computes it

  /** A buffer's size in 64-bit arithmetic. */
  function StorageSize(numFrames: uint64, sizePerFrame: uint64): uint64 {
    (56 + numFrames * ((16 + sizePerFrame) % U64_RANGE)) % U64_RANGE
  }

  lemma ProductWraps(a: nat, b: nat, c: nat, n: nat)
    requires 0 < n
    ensures (c + a * (b % n)) % n == (c + a * b) % n
  {
    var q, r := b / n, b % n;
    assert a * b == a * r + (a * q) * n by {
      assert b == q * n + r;
    }
    ModAddMultiple(c + a * r, a * q, n);
  }

  lemma TotalStep(offset: nat, config: RingBufferConfig)
    ensures (offset % U64_RANGE + StorageSize(config.numFrames, config.sizePerFrame)) % U64_RANGE
         == (offset + Storage(config)) % U64_RANGE
  {
    FrameBytesProduct(config.numFrames, config.sizePerFrame);
    ProductWraps(config.numFrames, 16 + config.sizePerFrame, 56, U64_RANGE);
    ModAddMod(offset, Storage(config) % U64_RANGE, U64_RANGE);
    ModAddMod(Storage(config), offset, U64_RANGE);
  }

  method ComputeTotalSize(configs: seq<RingBufferConfig>) returns (size: Option<uint32>)
    ensures size == if Total(configs) % U64_RANGE < U32_RANGE then Some(Total(configs) % U64_RANGE) else None
  {
    var totalSize: uint64 := 8;
    for i := 0 to |configs|
      invariant totalSize == Offset(configs, i) % U64_RANGE
    {
      TotalStep(Offset(configs, i), configs[i]);
      totalSize := (totalSize + StorageSize(configs[i].numFrames, configs[i].sizePerFrame)) % U64_RANGE;
    }
    if totalSize > U32_RANGE - 1 {
      return None;
    }
    size := Some(totalSize);
  }

  /** The size check sees the wrapped sum: it decides as the exact total would if and only if that total does
      not wrap, or wraps to something that is refused as well. */
  lemma SizeCheckExact(configs: seq<RingBufferConfig>)
    ensures (Total(configs) % U64_RANGE < U32_RANGE <==> Total(configs) < U32_RANGE)
       <==> Total(configs) < U64_RANGE || Total(configs) % U64_RANGE >= U32_RANGE
  {
    if Total(configs) < U64_RANGE {
      ModSmall(Total(configs), U64_RANGE);
    }
  }

  /** It lets this configuration of 2^56 frames of 240 bytes pass. */
  lemma SizeCheckExample()
    ensures var configs := [RingBufferConfig(0x100_0000_0000_0000, 240, [65])];
      Total(configs) % U64_RANGE == 64 && Total(configs) >= U64_RANGE
  {
    var configs := [RingBufferConfig(0x100_0000_0000_0000, 240, [65])];
    FrameBytesProduct(0x100_0000_0000_0000, 240);
    assert Offset(configs, 1) == Offset(configs, 0) + Storage(configs[0]);
  }

  // The segment, byte by byte

  function NameField(name: seq<uint8>): (field: seq<uint8>)
    ensures |field| == 32
  {
    var copied := if |name| < 31 then |name| else 31;
    name[..copied] + LittleEndian.Zeros(32 - copied)
  }

  function Header(config: RingBufferConfig, at: nat): (header: seq<uint8>)
    ensures |header| == 56
  {
    LittleEndian.Zeros(8) + Metadata(config, at)
  }

  /** The part of the header that never changes. */
  function Metadata(config: RingBufferConfig, at: nat): (metadata: seq<uint8>)
    ensures |metadata| == 48
  {
    NameField(config.name) + LittleEndian.ToBytes(config.numFrames % U32_RANGE, 4)
    + LittleEndian.ToBytes(config.sizePerFrame % U32_RANGE, 4) + LittleEndian.ToBytes(at, 8)
  }

  function Block(config: RingBufferConfig, at: nat): (block: seq<uint8>)
    ensures |block| == Storage(config)
  {
    Header(config, at) + LittleEndian.Zeros(Storage(config) - 56)
  }

  /** The segment up to buffer `i`. */
  function Prefix(configs: seq<RingBufferConfig>, i: nat): (bytes: seq<uint8>)
    requires i <= |configs|
    ensures |bytes| == Offset(configs, i)
  {
    if i == 0 then [|configs| % U8_RANGE] + LittleEndian.Zeros(7)
    else Prefix(configs, i - 1) + Block(configs[i - 1], Offset(configs, i - 1))
  }

  function Image(configs: seq<RingBufferConfig>): (bytes: seq<uint8>)
    ensures |bytes| == Total(configs)
  {
    Prefix(configs, |configs|)
  }

  /** Below 2^32 bytes in all nothing wraps and nothing is cut off, unless there are no frames at all. */
  lemma NothingWraps(config: RingBufferConfig)
    requires Storage(config) < U32_RANGE
    ensures config.numFrames < U32_RANGE
    ensures 0 < config.numFrames ==> config.sizePerFrame < U32_RANGE
    ensures FrameBytes(config.numFrames, config.sizePerFrame % U32_RANGE) == Storage(config) - 56
  {
    FrameBytesGrow(config.numFrames, config.sizePerFrame);
    if 0 < config.numFrames {
      ModSmall(config.sizePerFrame, U32_RANGE);
    }
  }

  lemma {:induction false} FrameBytesGrow(count: nat, size: nat)
    ensures count <= FrameBytes(count, size)
    ensures 0 < count ==> size < FrameBytes(count, size)
  {
    if 0 < count {
      FrameBytesGrow(count - 1, size);
    }
  }

  /** In 64 bits the size comes out right if the exact one fits. */
  lemma StorageSizeExact(numFrames: uint32, sizePerFrame: uint32)
    requires 56 + FrameBytes(numFrames, sizePerFrame) < U64_RANGE
    ensures StorageSize(numFrames, sizePerFrame) == 56 + FrameBytes(numFrames, sizePerFrame)
  {
    FrameBytesProduct(numFrames, sizePerFrame);
    ModSmall(16 + sizePerFrame, U64_RANGE);
    ModSmall(56 + numFrames * (16 + sizePerFrame), U64_RANGE);
  }

  method WriteHeader(memory: array<uint8>, current: nat, config: RingBufferConfig)
    requires current + 56 <= memory.Length
    modifies memory
    ensures memory[..] == LittleEndian.Splice(old(memory[..]), current, Header(config, current))
  {
    ghost var before := memory[..];
    LittleEndian.CopyInto(memory, current, LittleEndian.Zeros(8));
    WriteName(memory, current + 8, config.name);
    var numFrames := LittleEndian.ToBytes(config.numFrames % U32_RANGE, 4);
    var sizePerFrame := LittleEndian.ToBytes(config.sizePerFrame % U32_RANGE, 4);
    var offset := LittleEndian.ToBytes(current, 8);
    LittleEndian.CopyInto(memory, current + 40, numFrames);
    LittleEndian.CopyInto(memory, current + 44, sizePerFrame);
    LittleEndian.CopyInto(memory, current + 48, offset);
    FiveSplices(before, current, LittleEndian.Zeros(8), NameField(config.name), numFrames, sizePerFrame, offset);
  }

  lemma FiveSplices(before: seq<uint8>, at: nat, a: seq<uint8>, b: seq<uint8>, c: seq<uint8>, d: seq<uint8>,
                    e: seq<uint8>)
    requires |a| == 8 && |b| == 32 && |c| == 4 && |d| == 4 && |e| == 8 && at + 56 <= |before|
    ensures var s1 := LittleEndian.Splice(LittleEndian.Splice(before, at, a), at + 8, b);
      var s2 := LittleEndian.Splice(LittleEndian.Splice(s1, at + 40, c), at + 44, d);
      LittleEndian.Splice(s2, at + 48, e) == LittleEndian.Splice(before, at, a + (b + c + d + e))
  {
    LittleEndian.SpliceNext(before, at, a, b);
    LittleEndian.SpliceNext(before, at, a + b, c);
    LittleEndian.SpliceNext(before, at, a + b + c, d);
    LittleEndian.SpliceNext(before, at, a + b + c + d, e);
    assert a + b + c + d + e == a + (b + c + d + e);
  }

  lemma NameOverZeros(before: seq<uint8>, at: nat, copied: seq<uint8>)
    requires at + 32 <= |before| && |copied| <= 32
    ensures LittleEndian.Splice(LittleEndian.Splice(before, at, LittleEndian.Zeros(32)), at, copied)
         == LittleEndian.Splice(before, at, copied + LittleEndian.Zeros(32 - |copied|))
  {
  }

  /** Clears the field and copies at most 31 bytes, so that a zero follows. */
  method WriteName(memory: array<uint8>, at: nat, name: seq<uint8>)
    requires at + 32 <= memory.Length
    modifies memory
    ensures memory[..] == LittleEndian.Splice(old(memory[..]), at, NameField(name))
  {
    var copied := if |name| < 31 then |name| else 31;
    ghost var before := memory[..];
    LittleEndian.CopyInto(memory, at, LittleEndian.Zeros(32));
    LittleEndian.CopyInto(memory, at, name[..copied]);
    NameOverZeros(before, at, name[..copied]);
  }

  /** The constructor's second half, on a fresh segment of the right size. */
  method InitializeMetadata(memory: array<uint8>, configs: seq<RingBufferConfig>)
    requires Total(configs) == memory.Length < U32_RANGE
    requires memory[..] == LittleEndian.Zeros(memory.Length)
    modifies memory
    ensures memory[..] == Image(configs)
  {
    memory[0] := |configs| % U8_RANGE;
    var current := 8;
    OffsetMonotone(configs, 0, |configs|);
    for i := 0 to |configs|
      invariant current == Offset(configs, i) <= memory.Length
      invariant memory[..] == Prefix(configs, i) + LittleEndian.Zeros(memory.Length - current)
    {
      OffsetMonotone(configs, i, |configs|);
      current := AddBuffer(memory, current, configs[i], Prefix(configs, i));
    }
    assert LittleEndian.Zeros(0) == [];
  }

  /** The body of the loop: `done` is written, the rest is zero. */
  method AddBuffer(memory: array<uint8>, current: nat, config: RingBufferConfig, ghost done: seq<uint8>)
    returns (next: nat)
    requires current == |done| && current + Storage(config) <= memory.Length < U32_RANGE
    requires memory[..] == done + LittleEndian.Zeros(memory.Length - current)
    modifies memory
    ensures next == current + Storage(config)
    ensures memory[..] == done + Block(config, current) + LittleEndian.Zeros(memory.Length - next)
  {
    WriteHeader(memory, current, config);
    var storage := WrittenStorage(config);
    next := current + storage;
    BlockWritten(done, Header(config, current), memory.Length - current, Storage(config));
  }

  /** The size that the numbers in the header stand for. */
  method WrittenStorage(config: RingBufferConfig) returns (storage: uint64)
    requires Storage(config) < U32_RANGE
    ensures storage == Storage(config)
  {
    NothingWraps(config);
    ModSmall(config.numFrames, U32_RANGE);
    StorageSizeExact(config.numFrames, config.sizePerFrame % U32_RANGE);
    storage := StorageSize(config.numFrames % U32_RANGE, config.sizePerFrame % U32_RANGE);
  }

  lemma BlockWritten(done: seq<uint8>, header: seq<uint8>, free: nat, storage: nat)
    requires |header| <= storage <= free
    ensures LittleEndian.Splice(done + LittleEndian.Zeros(free), |done|, header)
         == done + (header + LittleEndian.Zeros(storage - |header|)) + LittleEndian.Zeros(free - storage)
  {
  }
}
