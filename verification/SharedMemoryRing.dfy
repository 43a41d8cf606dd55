/** One ring buffer in shared memory, with the publish of `writer.cpp` and the reads of `reader.cpp`
    performed one at a time. Interleaved reads are the subject of `RingInterleaving`. */
module SharedMemoryRing {
  import opened MachineInts
  import opened RingArithmetic
  import opened RingSpec
  import LittleEndian

  class SharedRing {
    const shape: Shape
    const frames: array<Frame>
    var head: uint32
    var sequence: uint32
    ghost var history: seq<DataEntry>  // every publish so far, oldest first

    ghost predicate Valid()
      reads this, frames
    {
      && shape.Valid()
      && Fits(shape, history)
      && frames.Length == shape.numFrames
      && head == |history| % shape.numFrames
      && sequence == (if history == [] then 0 else history[|history| - 1].sequence)
      && forall k :: 0 <= k < frames.Length ==> frames[k] == SlotAfter(shape, history, k)
    }

    constructor (shape: Shape)
      requires shape.Valid()
      ensures Valid() && fresh(frames) && this.shape == shape && history == [] && head == 0 && sequence == 0
      ensures forall k :: 0 <= k < frames.Length ==> frames[k] == Frame(0, 0, 0, LittleEndian.Zeros(shape.sizePerFrame))
    {
      this.shape := shape;
      frames := new Frame[shape.numFrames](_ => BlankFrame(shape));
      head, sequence, history := 0, 0, [];
    }

    /** The shared-memory half of the worker loop: fill the next slot field by field, then advance
        the head and the sequence. */
    method Publish(entry: DataEntry)
      requires Valid() && |entry.data| <= shape.sizePerFrame
      modifies this, frames
      ensures Valid() && history == old(history) + [entry]
      ensures head == (old(head) + 1) % shape.numFrames && sequence == entry.sequence
    {
      var nextHead := GetHead(head, 0, shape.numFrames);
      NextHead(|history|, shape.numFrames);
      frames[nextHead] := frames[nextHead].(timestamp := entry.timestamp);
      frames[nextHead] := frames[nextHead].(data := entry.data + frames[nextHead].data[|entry.data|..]);
      frames[nextHead] := frames[nextHead].(checksum := shape.crc(entry.data));
      frames[nextHead] := frames[nextHead].(sequence := entry.sequence);

      var newHead := GetHead(head, -1, shape.numFrames);
      head := newHead;
      sequence := entry.sequence;
      ModAddMod(|history|, 1, shape.numFrames);
      history := history + [entry];
      assert history[..|history| - 1] == old(history);
    }

    method ReadLatest() returns (entry: Option<DataEntry>)
      requires Valid()
      ensures entry == ReadLatestAfter(shape, history)
    {
      var index := GetHead(head, 1, shape.numFrames);
      GetHeadPromoted(head, 1, shape.numFrames);
      entry := Populate(shape, frames[index], index);
    }

    method ReadAbsolute(absoluteIndex: uint32) returns (entry: Option<DataEntry>)
      requires Valid()
      ensures entry == ReadAbsoluteAfter(shape, history, absoluteIndex)
    {
      if absoluteIndex >= shape.numFrames {
        return None;
      }
      entry := Populate(shape, frames[absoluteIndex], absoluteIndex);
    }

    /** Reads the slot after the head. */
    method ReadOldest() returns (entry: Option<DataEntry>)
      requires Valid()
      ensures entry == ReadOldestAfter(shape, history)
    {
      var index := GetHead(head, -1, shape.numFrames);
      GetHeadPromoted(head, -1, shape.numFrames);
      entry := Populate(shape, frames[index], index);
    }
  }
}
