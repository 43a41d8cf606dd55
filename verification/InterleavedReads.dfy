/** The logger on top of the small steps: its reads may be interleaved with publishes, load by load. */
module InterleavedReads {
  import opened MachineInts
  import opened RingArithmetic
  import opened RingSpec
  import opened RingInterleaving
  import opened RingRefinement
  import opened StreamLogger

  /** A finished read whose slot had not begun to be reused at its last load. */
  predicate Undisturbed(request: Request, r: ReaderAt, n: uint32)
    requires 0 < n
  {
    && r.Done?
    && var k := SlotOf(request, r.loadedAt % n, n);
       k >= n || r.begun <= NextInto(k, r.loadedAt, n)
  }

  /** Some interleaving of the writer's stores with this read, begun after `count` publishes and undisturbed,
      gives the answer. */
  ghost predicate ReadAs(shape: Shape, source: nat -> DataEntry, request: Request, count: nat,
                         answer: Option<DataEntry>)
    requires FittingFeed(shape, source)
  {
    exists schedule ::
      var r := Run(shape, source, InitialWorld(shape, request), schedule).reader;
      Undisturbed(request, r, shape.numFrames) && r.loadedAt == count && r.result == answer
  }

  /** A read is undisturbed if fewer than `n` publishes after the newest in its slot are complete by then. */
  lemma FewPublishesDoNotDisturb(shape: Shape, source: nat -> DataEntry, request: Request, schedule: seq<Actor>)
    requires FittingFeed(shape, source)
    ensures var r, n := Run(shape, source, InitialWorld(shape, request), schedule).reader, shape.numFrames;
      r.Done? ==>
        var k := SlotOf(request, r.loadedAt % n, n);
        k < n && k < r.loadedAt && r.complete < NewestIn(k, r.loadedAt, n) + n ==> Undisturbed(request, r, n)
  {
    InitialInv(shape, source, request);
    RunKeepsInv(shape, source, InitialWorld(shape, request), schedule);
    var r, n := Run(shape, source, InitialWorld(shape, request), schedule).reader, shape.numFrames;
    if r.Done? {
      var k := SlotOf(request, r.loadedAt % n, n);
      if k < n && k < r.loadedAt {
        NextIsLapLater(k, r.loadedAt, n);
      }
    }
  }

  /** The writer of the feed, store by store. */
  ghost predicate Writes(source: nat -> DataEntry, feed: Feed) {
    && FullFeed(feed.shape, source)
    && forall i :: 0 <= i < |feed.frames| ==> source(i) == feed.frames[i]
  }

  /** Every answer of `env` is that of an interleaved read, begun after `Count(t)` publishes. */
  ghost predicate Interleaves(feed: Feed, source: nat -> DataEntry, env: Environment)
    requires Writes(source, feed)
  {
    && (forall t :: ReadAs(feed.shape, source, Latest, feed.Count(t), env.Latest(t)))
    && (forall t, k :: ReadAs(feed.shape, source, Absolute(k), feed.Count(t), env.Absolute(t, k)))
  }

  lemma InterleavedAnswer(shape: Shape, source: nat -> DataEntry, request: Request, count: nat,
                          answer: Option<DataEntry>)
    requires FittingFeed(shape, source) && ReadAs(shape, source, request, count, answer)
    ensures Fits(shape, History(source, count)) && answer == Answer(shape, request, History(source, count))
  {
    var schedule :|
      var r := Run(shape, source, InitialWorld(shape, request), schedule).reader;
      Undisturbed(request, r, shape.numFrames) && r.loadedAt == count && r.result == answer;
    ReadUntilReuse(shape, source, request, schedule);
  }

  /** Such an environment is one of a ring with atomic reads, made at the first loads. */
  lemma InterleavedDrives(feed: Feed, source: nat -> DataEntry, env: Environment)
    requires feed.Valid() && Writes(source, feed) && Interleaves(feed, source, env)
    ensures feed.Drives(env)
  {
    forall t
      ensures FullSize(feed.shape, feed.frames[..feed.Count(t)])
      ensures env.Latest(t) == ReadLatestAfter(feed.shape, feed.frames[..feed.Count(t)])
    {
      HistoryOfFeed(feed, source, feed.Count(t));
      InterleavedAnswer(feed.shape, source, Latest, feed.Count(t), env.Latest(t));
    }
    forall t, k
      ensures FullSize(feed.shape, feed.frames[..feed.Count(t)])
      ensures env.Absolute(t, k) == ReadAbsoluteAfter(feed.shape, feed.frames[..feed.Count(t)], k)
    {
      HistoryOfFeed(feed, source, feed.Count(t));
      InterleavedAnswer(feed.shape, source, Absolute(k), feed.Count(t), env.Absolute(t, k));
    }
  }

  lemma HistoryOfFeed(feed: Feed, source: nat -> DataEntry, count: nat)
    requires feed.Valid() && Writes(source, feed) && count <= |feed.frames|
    ensures History(source, count) == feed.frames[..count] && FullSize(feed.shape, feed.frames[..count])
  {
  }

  /** Every read can happen that way, whatever has been published: alone, between two publishes. */
  lemma EveryReadOccurs(shape: Shape, source: nat -> DataEntry, request: Request, count: nat)
    requires FittingFeed(shape, source)
    ensures Fits(shape, History(source, count))
    ensures ReadAs(shape, source, request, count, Answer(shape, request, History(source, count)))
  {
    var w0 := InitialWorld(shape, request);
    InitialInv(shape, source, request);
    var publishes := PublishMany(shape, source, w0, count);
    var read := AtomicReadIsAnswer(shape, source, request, publishes);
    var r := Run(shape, source, w0, publishes + read).reader;
    assert Undisturbed(request, r, shape.numFrames);
  }

  /** The logger with interleaved reads: its cursor stays on the published frames, and if the writer is never
      more than a ring ahead at a first load, the log is a contiguous run of them, each once, unaltered and
      in order. */
  method LogInterleaved(stream: SensorStream, env: Environment, ghost feed: Feed, ghost source: nat -> DataEntry,
                        calls: nat)
    requires stream.Valid() && BelowWrap(env) && feed.Valid() && stream.numFrames == feed.shape.numFrames
    requires Writes(source, feed) && Interleaves(feed, source, env) && stream.View().Synced(feed)
    modifies stream
    ensures stream.Valid() && stream.View().Synced(feed)
    ensures KeptUp(feed, stream.View()) ==> GapFree(feed, stream.View())
  {
    InterleavedDrives(feed, source, env);
    stream.Work(env, feed, calls);
    ghost var c: Cursor := stream.View();
    if KeptUp(feed, c) {
      GapFreeLog(feed, c);
    }
  }
}
