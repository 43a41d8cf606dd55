/** The two granularities agree: the small steps of writer and reader, when neither interrupts the other,
    are the atomic publish and reads that the logger's theorems speak about. */
module RingRefinement {
  import opened MachineInts
  import opened RingArithmetic
  import opened RingSpec
  import opened RingInterleaving

  /** In every reachable state each slot that is not being written holds what the atomic publishes put there. */
  lemma RunRefines(shape: Shape, feed: nat -> DataEntry, request: Request, schedule: seq<Actor>)
    requires FittingFeed(shape, feed)
    ensures var w := Run(shape, feed, InitialWorld(shape, request), schedule);
      forall k :: 0 <= k < |w.frames| && !Busy(w, k) ==> w.frames[k] == Settled(shape, feed, w.published, k)
  {
    InitialInv(shape, feed, request);
    RunKeepsInv(shape, feed, InitialWorld(shape, request), schedule);
  }

  /** The first pass of a read without the writer in between. */
  lemma SumAlone(shape: Shape, feed: nat -> DataEntry, w: World) returns (schedule: seq<Actor>)
    requires FittingFeed(shape, feed) && Shaped(shape, w) && w.reader.Start?
    requires SlotOf(w.request, w.head, shape.numFrames) < shape.numFrames
    ensures var slot := SlotOf(w.request, w.head, shape.numFrames);
      Run(shape, feed, w, schedule) == w.(reader := Summing(w.published, slot, w.frames[slot].data))
  {
    var w1 := ReaderStep(shape, w);
    assert Run(shape, feed, w, [Reader]) == w1;
    var pass := FinishPass(shape, feed, w1);
    RunConcat(shape, feed, w, [Reader], pass);
    schedule := [Reader] + pass;
  }

  /** And the checksum test. */
  lemma TestAlone(shape: Shape, feed: nat -> DataEntry, w: World) returns (schedule: seq<Actor>)
    requires FittingFeed(shape, feed) && Shaped(shape, w) && w.reader.Start?
    requires SlotOf(w.request, w.head, shape.numFrames) < shape.numFrames
    ensures var slot := SlotOf(w.request, w.head, shape.numFrames);
      Run(shape, feed, w, schedule) == w.(reader :=
        if shape.crc(w.frames[slot].data) == w.frames[slot].checksum then Copying(w.published, slot, [])
        else Done(w.published, w.published, w.Begun(), None))
  {
    var pass := SumAlone(shape, feed, w);
    var summed := Run(shape, feed, w, pass);
    assert Run(shape, feed, summed, [Reader]) == ReaderStep(shape, summed);
    RunConcat(shape, feed, w, pass, [Reader]);
    schedule := pass + [Reader];
  }

  /** A whole read without the writer in between: from the first load to the entry. */
  lemma ReadAlone(shape: Shape, feed: nat -> DataEntry, w: World) returns (schedule: seq<Actor>)
    requires FittingFeed(shape, feed) && Shaped(shape, w) && w.reader.Start?
    ensures var slot := SlotOf(w.request, w.head, shape.numFrames);
      Run(shape, feed, w, schedule).reader == Done(w.published, w.published, w.Begun(),
        if slot < shape.numFrames then Populate(shape, w.frames[slot], slot) else None)
  {
    if SlotOf(w.request, w.head, shape.numFrames) < shape.numFrames {
      schedule := TestAlone(shape, feed, w);
      var tested := Run(shape, feed, w, schedule);
      if tested.reader.Copying? {
        var rest := FinishRead(shape, feed, tested);
        RunConcat(shape, feed, w, schedule, rest);
        schedule := schedule + rest;
      }
    } else {
      schedule := [Reader];
      assert Run(shape, feed, w, [Reader]) == ReaderStep(shape, w);
    }
  }

  /** In any reachable state with the writer between two publishes, a read that runs alone returns what the
      atomic model says of the publishes so far. */
  lemma AtomicReadIsAnswer(shape: Shape, feed: nat -> DataEntry, request: Request, schedule: seq<Actor>)
    returns (read: seq<Actor>)
    requires FittingFeed(shape, feed)
    requires var w := Run(shape, feed, InitialWorld(shape, request), schedule); w.reader.Start? && w.writer.Idle?
    ensures var w := Run(shape, feed, InitialWorld(shape, request), schedule);
      var r := Run(shape, feed, InitialWorld(shape, request), schedule + read).reader;
      && Fits(shape, History(feed, w.published))
      && r == Done(w.published, w.published, w.published, Answer(shape, request, History(feed, w.published)))
  {
    var w := Run(shape, feed, InitialWorld(shape, request), schedule);
    RunRefines(shape, feed, request, schedule);
    RunKeepsRequest(shape, feed, InitialWorld(shape, request), schedule);
    HistoryFits(shape, feed, w.published);
    GetHeadPromoted(w.head, 1, shape.numFrames);
    read := ReadAlone(shape, feed, w);
    RunConcat(shape, feed, InitialWorld(shape, request), schedule, read);
  }
}
