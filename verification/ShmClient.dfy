/** How a client finds its buffer and its frames in the shared segment. */
module ShmClient {
  import opened MachineInts
  import opened ShmLayout
  import LittleEndian

  // Reading and checked arithmetic

  function Uint32At(memory: seq<uint8>, at: nat): uint32
    requires at + 4 <= |memory|
  {
    LittleEndian.Ranges();
    LittleEndian.FromBytes(memory[at..at + 4])
  }

  function Uint64At(memory: seq<uint8>, at: nat): uint64
    requires at + 8 <= |memory|
  {
    LittleEndian.Ranges();
    LittleEndian.FromBytes(memory[at..at + 8])
  }

  /** The text at `at` up to a zero. */
  function CString(memory: seq<uint8>, at: nat): seq<uint8>
    decreases |memory| - at
  {
    if at >= |memory| || memory[at] == 0 then [] else [memory[at]] + CString(memory, at + 1)
  }

  function AddChecked(a: uint64, b: uint64): Option<uint64> {
    if a + b < U64_RANGE then Some(a + b) else None
  }

  function MulChecked(a: uint64, b: uint64): Option<uint64> {
    if a * b < U64_RANGE then Some(a * b) else None
  }

  // The walk over the headers

  /** Where the buffer behind the one at `at` starts; `None` if one of the checks fails. */
  function NextOffset(memory: seq<uint8>, at: uint64): Option<uint64>
    requires at + 56 <= |memory|
  {
    var stride := AddChecked(16, Uint32At(memory, at + 44));
    if stride.None? then None else
    var frames := MulChecked(Uint32At(memory, at + 40), stride.value);
    if frames.None? then None else
    var content := AddChecked(56, frames.value);
    if content.None? then None else AddChecked(at, content.value)
  }

  function Walk(memory: seq<uint8>, name: seq<uint8>, at: uint64, remaining: nat): (buffer: Option<nat>)
    requires |memory| < U64_RANGE
    ensures buffer.Some? ==> buffer.value + 56 <= |memory| && CString(memory, buffer.value + 8) == name
    decreases remaining
  {
    if remaining == 0 || at > |memory| then None
    else if AddChecked(at, 56).None? || at + 56 > |memory| then None
    else if CString(memory, at + 8) == name then Some(at)
    else if NextOffset(memory, at).None? then None
    else Walk(memory, name, NextOffset(memory, at).value, remaining - 1)
  }

  /** The walk in exact arithmetic, without a check but that the header lies in the segment. */
  function Chain(memory: seq<uint8>, name: seq<uint8>, at: nat, remaining: nat): Option<nat>
    decreases remaining
  {
    if remaining == 0 || at + 56 > |memory| then None
    else if CString(memory, at + 8) == name then Some(at)
    else
      var count, size := Uint32At(memory, at + 40), Uint32At(memory, at + 44);
      Chain(memory, name, at + 56 + FrameBytes(count, size), remaining - 1)
  }

  lemma NextOffsetExact(memory: seq<uint8>, at: uint64)
    requires at + 56 <= |memory|
    ensures var next := at + 56 + Uint32At(memory, at + 40) * (16 + Uint32At(memory, at + 44));
      NextOffset(memory, at) == if next < U64_RANGE then Some(next) else None
  {
    assert Uint32At(memory, at + 40) * (16 + Uint32At(memory, at + 44)) >= 0;
  }

  lemma NextOffsetSum(memory: seq<uint8>, at: uint64)
    requires at + 56 <= |memory|
    ensures var next := at + 56 + FrameBytes(Uint32At(memory, at + 40), Uint32At(memory, at + 44));
      NextOffset(memory, at) == if next < U64_RANGE then Some(next) else None
  {
    NextOffsetExact(memory, at);
    FrameBytesProduct(Uint32At(memory, at + 40), Uint32At(memory, at + 44));
  }

  /** On a segment with any contents the checks of the walk change nothing else: it finds the first header of the
      name in the exact chain. */
  lemma {:induction false} WalkExact(memory: seq<uint8>, name: seq<uint8>, at: uint64, remaining: nat)
    requires |memory| < U64_RANGE
    ensures Walk(memory, name, at, remaining) == Chain(memory, name, at, remaining)
    decreases remaining
  {
    if remaining > 0 && at + 56 <= |memory| {
      NextOffsetSum(memory, at);
      if CString(memory, at + 8) != name && NextOffset(memory, at).Some? {
        WalkExact(memory, name, NextOffset(memory, at).value, remaining - 1);
      }
    }
  }

  /** Where frame `index` of the buffer at `buffer` lies, if every check passes. */
  function FrameOffset(memory: seq<uint8>, buffer: nat, index: uint32): (offset: Option<nat>)
    requires buffer + 56 <= |memory| < U64_RANGE
  {
    var stride := AddChecked(16, Uint32At(memory, buffer + 44));
    if stride.None? then None else
    var base := AddChecked(Uint64At(memory, buffer + 48), 56);
    if base.None? || base.value > |memory| then None else
    var fromBase := MulChecked(index, stride.value);
    if fromBase.None? || fromBase.value > |memory| - base.value then None else
    var offset := AddChecked(base.value, fromBase.value);
    if offset.None? || stride.value > |memory| - offset.value then None else Some(offset.value)
  }

  /** On a segment with any contents the checks reject exactly the frames that do not fit, as if there
      were no wrap-around. */
  lemma FrameOffsetExact(memory: seq<uint8>, buffer: nat, index: uint32)
    requires buffer + 56 <= |memory| < U64_RANGE
    ensures var stride, base := 16 + Uint32At(memory, buffer + 44), Uint64At(memory, buffer + 48) + 56;
      FrameOffset(memory, buffer, index)
        == if base + index * stride + stride <= |memory| then Some(base + index * stride) else None
  {
    assert index * (16 + Uint32At(memory, buffer + 44)) >= 0;
  }

  class SharedDictClient {
    const memory: array<uint8>
    const name: seq<uint8>
    var buffer: Option<nat>

    ghost predicate Valid()
      reads this
    {
      && 0 < memory.Length < U64_RANGE
      && (buffer.Some? ==> buffer.value + 56 <= memory.Length)
    }

    constructor (memory: array<uint8>, name: seq<uint8>)
      requires 0 < memory.Length < U64_RANGE
      ensures Valid() && this.memory == memory && this.name == name
      ensures buffer == if name == [] then None else Walk(memory[..], name, 8, memory[0])
    {
      this.memory, this.name, buffer := memory, name, None;
      new;
      if name != [] {
        GetShmStructure();
      }
    }

    method GetShmStructure()
      requires Valid() && buffer == None
      modifies this
      ensures Valid() && buffer == Walk(memory[..], name, 8, memory[0])
    {
      var numBuffers: nat := memory[0];
      var current: uint64 := 8;
      for i := 0 to numBuffers
        invariant Valid() && buffer == None
        invariant Walk(memory[..], name, 8, numBuffers) == Walk(memory[..], name, current, numBuffers - i)
      {
        if current > memory.Length {
          break;
        }
        var headerNeed := AddChecked(current, 56);
        if headerNeed.None? || headerNeed.value > memory.Length {
          break;
        }
        if CString(memory[..], current + 8) == name {
          buffer := Some(current);
          break;
        }
        var next := NextOffset(memory[..], current);
        if next.None? {
          break;
        }
        current := next.value;
      }
    }
  }
}
