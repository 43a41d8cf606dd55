/** The logger's cursor over one ring: `_process_stream` with its init, catch-up, lost-synchronization
    and resync branches. */
module StreamLogger {
  import opened MachineInts
  import opened RingArithmetic
  import opened RingSpec

  /** What the rest of the system answers: the result of a read or of a write to the log file as the
      stream's `t`-th operation. `None` is an entry left empty. */
  datatype Environment = Environment(
    ready: bool,
    latestAt: nat -> Option<DataEntry>,
    absoluteAt: (nat, uint32) -> Option<DataEntry>,
    writableAt: nat -> bool)
  {
    function Latest(t: nat): Option<DataEntry> { latestAt(t) }

    function Absolute(t: nat, k: uint32): Option<DataEntry> { absoluteAt(t, k) }

    predicate Writable(t: nat) { writableAt(t) }
  }

  /** No sequence number at the very end of the 32-bit range, so the cursor never wraps. */
  ghost predicate BelowWrap(env: Environment) {
    && (forall t :: env.Latest(t).Some? ==> env.Latest(t).value.sequence < U32_RANGE - 1)
    && (forall t, k :: env.Absolute(t, k).Some? ==> env.Absolute(t, k).value.sequence < U32_RANGE - 1)
  }

  /** A cursor move over `from .. to - 1` without logging, made at operation `at`. */
  datatype Jump = Jump(from: nat, to: nat, at: nat, resync: bool)

  /** Each sequence number from `first` to `next - 1` is logged exactly once or lies in exactly one
      jump, and the log is in increasing order. */
  ghost predicate Ledger(log: seq<DataEntry>, jumps: seq<Jump>, first: nat, next: nat) {
    && first <= next
    && (forall i :: 0 <= i < |log| ==> first <= log[i].sequence < next)
    && (forall i, j :: 0 <= i < j < |log| ==> log[i].sequence < log[j].sequence)
    && (forall i :: 0 <= i < |jumps| ==> first <= jumps[i].from < jumps[i].to <= next)
    && (forall i, j :: 0 <= i < j < |jumps| ==> jumps[i].to <= jumps[j].from)
    && (forall s :: first <= s < next ==> Logged(log, s) != Jumped(jumps, s))
  }

  ghost predicate Logged(log: seq<DataEntry>, s: nat) {
    exists i :: 0 <= i < |log| && log[i].sequence == s
  }

  ghost predicate Jumped(jumps: seq<Jump>, s: nat) {
    exists i :: 0 <= i < |jumps| && jumps[i].from <= s < jumps[i].to
  }

  lemma LedgerLogs(log: seq<DataEntry>, jumps: seq<Jump>, first: nat, next: nat, entry: DataEntry)
    requires Ledger(log, jumps, first, next) && entry.sequence == next
    ensures Ledger(log + [entry], jumps, first, next + 1)
  {
    var log' := log + [entry];
    forall s | first <= s < next + 1
      ensures Logged(log', s) != Jumped(jumps, s)
    {
      if s == next {
        assert log'[|log|].sequence == s;
      } else {
        if Logged(log, s) {
          var i :| 0 <= i < |log| && log[i].sequence == s;
          assert log'[i].sequence == s;
        }
      }
    }
  }

  lemma LedgerJumps(log: seq<DataEntry>, jumps: seq<Jump>, first: nat, next: nat, jump: Jump)
    requires Ledger(log, jumps, first, next) && jump.from == next < jump.to
    ensures Ledger(log, jumps + [jump], first, jump.to)
  {
    var jumps' := jumps + [jump];
    forall s | first <= s < jump.to
      ensures Logged(log, s) != Jumped(jumps', s)
    {
      if s >= next {
        assert jumps'[|jumps|].from <= s < jumps'[|jumps|].to;
      } else {
        if Jumped(jumps, s) {
          var i :| 0 <= i < |jumps| && jumps[i].from <= s < jumps[i].to;
          assert jumps'[i].from <= s < jumps'[i].to;
        }
      }
    }
  }

  /** Without jumps the log is the whole range, in order. */
  lemma {:induction false} LedgerWithoutJumps(log: seq<DataEntry>, first: nat, next: nat)
    requires Ledger(log, [], first, next)
    ensures |log| == next - first
    ensures forall i :: 0 <= i < |log| ==> log[i].sequence == first + i
    decreases next
  {
    if log == [] {
      assert first < next ==> !Logged(log, first) && !Jumped([], first);
    } else {
      var last := |log| - 1;
      var front, s := log[..last], log[last].sequence;
      assert s + 1 < next ==> !Logged(log, s + 1) && !Jumped([], s + 1);
      assert Ledger(front, [], first, s) by {
        forall r | first <= r < s
          ensures Logged(front, r) != Jumped([], r)
        {
          assert Logged(log, r) != Jumped([], r);
          var i :| 0 <= i < |log| && log[i].sequence == r;
          assert front[i].sequence == r;
        }
      }
      LedgerWithoutJumps(front, first, s);
    }
  }

  /** A writer that publishes consecutively numbered, full-size frames. `Count(t)` is the number of
      publishes complete at the stream's `t`-th operation: reads are atomic with respect to publishes
      and the publishes fall anywhere between them. */
  datatype Feed = Feed(shape: Shape, first: uint32, frames: seq<DataEntry>, countAt: nat -> nat) {
    function Count(t: nat): nat { countAt(t) }

    ghost predicate Valid() {
      && shape.Valid()
      && FullSize(shape, frames)
      && (forall i :: 0 <= i < |frames| ==> frames[i].sequence == first + i)
      && (forall t :: Count(t) <= |frames|)
      && (forall t, u :: t <= u ==> Count(t) <= Count(u))
    }

    /** The answers of `env` are those of a ring after the first `Count(t)` publishes. */
    ghost predicate Drives(env: Environment)
      requires Valid()
    {
      && (forall t {:trigger env.Latest(t)} :: FullSize(shape, frames[..Count(t)]) &&
            env.Latest(t) == ReadLatestAfter(shape, frames[..Count(t)]))
      && (forall t, k {:trigger env.Absolute(t, k)} :: FullSize(shape, frames[..Count(t)]) &&
            env.Absolute(t, k) == ReadAbsoluteAfter(shape, frames[..Count(t)], k))
    }

    /** The answers of a driven environment, as positions in the feed. */
    lemma LatestAnswer(env: Environment, t: nat)
      requires Valid() && Drives(env)
      ensures env.Latest(t) == if Count(t) == 0 then None
        else Some(EntryAt(frames, LatestIndex(Count(t), shape.numFrames), shape.numFrames))
    {
      ReadLatestReturns(shape, frames[..Count(t)]);
      if Count(t) > 0 {
        ReadBackOfFullSize(shape, frames[..Count(t)], LatestIndex(Count(t), shape.numFrames));
      }
    }

    lemma AbsoluteAnswer(env: Environment, t: nat, k: uint32)
      requires Valid() && Drives(env)
      ensures env.Absolute(t, k) == if k >= shape.numFrames || k >= Count(t) then None
        else Some(EntryAt(frames, NewestIn(k, Count(t), shape.numFrames), shape.numFrames))
    {
      ReadAbsoluteReturns(shape, frames[..Count(t)], k);
      if k < shape.numFrames && k < Count(t) {
        ReadBackOfFullSize(shape, frames[..Count(t)], NewestIn(k, Count(t), shape.numFrames));
      }
    }
  }

  /** A stream's cursor with its log and the record of how it got there: the sequence number it was
      initialized at, its jumps, and its position at each read since then. */
  datatype Cursor = Cursor(
    initialized: bool,
    head: uint32,
    sequence: uint32,
    log: seq<DataEntry>,
    clock: nat,
    first: nat,
    jumps: seq<Jump>,
    readAt: map<nat, nat>,
    polls: set<nat>)
  {
    /** The step of one read. */
    function Tick(): Cursor {
      this.(clock := clock + 1, readAt := if initialized then readAt[clock := sequence] else readAt)
    }

    /** The step of the read of the latest frame that begins a turn. */
    function Poll(): Cursor {
      Tick().(polls := polls + {clock})
    }

    /** The step of initialization at `entry`. */
    function Start(entry: DataEntry): Cursor {
      this.(initialized := true, head := entry.head, sequence := entry.sequence, first := entry.sequence)
    }

    /** Step 0: read the latest frame and start there. */
    function Initialize(env: Environment, n: uint32): Cursor {
      var latest := env.Latest(clock);
      if latest.None? || latest.value.head >= n then Tick() else Tick().Start(latest.value)
    }

    /** The step of a resync or lost synchronization, at the last read. */
    function JumpTo(entry: DataEntry, resync: bool): Cursor
      requires 0 < clock
    {
      var jump := Jump(sequence, entry.sequence, clock - 1, resync);
      this.(head := entry.head, sequence := entry.sequence, jumps := jumps + [jump])
    }

    /** The step of a write attempt. */
    function Write(entry: DataEntry, written: bool, n: uint32): Cursor
      requires 0 < n
    {
      if written then
        this.(clock := clock + 1, log := log + [entry],
              head := ((head + 1) % U32_RANGE) % n, sequence := (entry.sequence + 1) % U32_RANGE)
      else
        this.(clock := clock + 1)
    }

    /** The resync branch: skip to the latest frame and write it. */
    function Resync(env: Environment, latest: DataEntry, n: uint32): Cursor
      requires 0 < clock && 0 < n
    {
      JumpTo(latest, true).Write(latest, env.Writable(clock), n)
    }

    /** One turn of the catch-up loop: read the cursor's slot, skip ahead if it was overtaken, write. */
    function CatchUp(env: Environment, n: uint32): Cursor
      requires 0 < n
    {
      var read := env.Absolute(clock, head);
      if read.None? || read.value.sequence < sequence then
        Tick()
      else
        var entry := read.value;
        var at := if entry.sequence > sequence then Tick().JumpTo(entry, false) else Tick();
        at.Write(entry, env.Writable(at.clock), n)
    }

    /** The cursor's slot holds its frame or a later one. */
    predicate Finds(env: Environment) {
      env.Absolute(clock, head).Some? && env.Absolute(clock, head).value.sequence >= sequence
    }

    predicate CatchesUp(env: Environment) {
      Finds(env) && env.Writable(clock + 1)
    }

    /** Holds in every environment. */
    ghost predicate Sound() {
      && (!initialized ==> log == [] && jumps == [])
      && (initialized ==> Ledger(log, jumps, first, sequence))
      && (forall i :: 0 <= i < |jumps| ==> jumps[i].at in readAt && readAt[jumps[i].at] == jumps[i].from)
      && (forall t :: t in readAt ==> t < clock)
      && polls <= readAt.Keys
    }

    /** The resync policy, for the polls in `asked`: the stream skips to the latest frame exactly if the frames
        from the cursor on are more than the ring holds. */
    ghost predicate Orderly(env: Environment, n: uint32, asked: set<nat>) {
      && asked <= polls
      && (forall i :: 0 <= i < |jumps| ==> Justified(env, n, jumps[i]))
      && (forall t :: t in asked && Lags(env, n, t) ==> Resynced(t))
    }

    /** At poll `t` the backlog did not fit into the ring. */
    predicate Lags(env: Environment, n: uint32, t: nat) {
      t in readAt && env.Latest(t).Some? && readAt[t] + n <= env.Latest(t).value.sequence
    }

    ghost predicate Resynced(t: nat) {
      exists i :: 0 <= i < |jumps| && jumps[i].resync && jumps[i].at == t
    }

    /** A resync goes to the frame a poll found a ring or more ahead, and logs it unless the write fails; any
        other jump goes to a frame found in a slot. */
    ghost predicate Justified(env: Environment, n: uint32, jump: Jump) {
      if jump.resync then
        && jump.at in polls && env.Latest(jump.at).Some?
        && jump.from + n <= jump.to == env.Latest(jump.at).value.sequence
        && (env.Writable(jump.at + 1) ==> env.Latest(jump.at).value in log)
      else
        && jump.at !in polls
        && exists k :: env.Absolute(jump.at, k).Some? && env.Absolute(jump.at, k).value.sequence == jump.to
    }

    /** Holds when the environment is a ring driven by `feed`. */
    ghost predicate Synced(feed: Feed)
      requires feed.Valid()
    {
      && (initialized ==> AtFrame(feed) && feed.first <= first)
      && (forall i :: 0 <= i < |log| ==> FromFeed(feed, log[i]))
      && (forall i :: 0 <= i < |jumps| ==> ByLapping(feed, jumps[i]))
    }

    /** The cursor is past the frame that `read_latest` returns. */
    ghost predicate PastLatest(feed: Feed)
      requires feed.Valid()
    {
      && initialized && 0 < feed.Count(clock)
      && LatestIndex(feed.Count(clock), feed.shape.numFrames) < Position(feed)
    }

    /** The cursor as a position in the feed. */
    function Position(feed: Feed): int {
      sequence - feed.first
    }

    /** The cursor's slot is the slot of the frame it expects, no further than the next publish; and
        if it has caught up, the last frame is the last log entry. */
    ghost predicate AtFrame(feed: Feed)
      requires feed.Valid()
    {
      && 0 <= Position(feed) <= feed.Count(clock)
      && head == Position(feed) % feed.shape.numFrames
      && (Position(feed) < feed.Count(clock) || (log != [] && log[|log| - 1].sequence == sequence - 1))
    }
  }

  /** The entry is a published frame, unaltered. */
  ghost predicate FromFeed(feed: Feed, entry: DataEntry)
    requires feed.Valid()
  {
    && feed.first <= entry.sequence < feed.first + |feed.frames|
    && entry == EntryAt(feed.frames, entry.sequence - feed.first, feed.shape.numFrames)
  }

  /** The jump was made when the writer was more than a lap ahead of the cursor; a lost-synchronization
      jump spans whole laps. */
  ghost predicate ByLapping(feed: Feed, jump: Jump)
    requires feed.Valid()
  {
    && feed.first <= jump.from
    && jump.from - feed.first + feed.shape.numFrames < feed.Count(jump.at)
    && (!jump.resync ==> (jump.to - jump.from) % feed.shape.numFrames == 0)
  }

  lemma NextSlotOf(j: nat, n: uint32)
    requires 0 < n <= 0x8000_0000
    ensures j % n < n && ((j % n + 1) % U32_RANGE) % n == (j + 1) % n
  {
    ModSucc(j, n);
    ModSmall(j % n + 1, U32_RANGE);
    if j % n + 1 == n {
      DivModUnique(n, n, 1, 0);
    } else {
      ModSmall(j % n + 1, n);
    }
  }

  lemma StartIsSynced(feed: Feed, c: Cursor, j: nat)
    requires feed.Valid() && c.Sound() && !c.initialized && c.Synced(feed)
    requires j < feed.Count(c.clock)
    ensures var c' := c.Start(EntryAt(feed.frames, j, feed.shape.numFrames));
      c'.Sound() && c'.Synced(feed) && c'.Position(feed) == j
  {
  }

  lemma TickKeeps(feed: Feed, c: Cursor)
    requires feed.Valid() && c.Sound() && c.Synced(feed)
    ensures c.Tick().Synced(feed)
  {
    assert feed.Count(c.clock) <= feed.Count(c.clock + 1);
  }

  lemma InitializeKeeps(feed: Feed, env: Environment, c: Cursor, n: uint32)
    requires c.Sound() && !c.initialized
    ensures c.Initialize(env, n).Sound()
    ensures feed.Valid() && n == feed.shape.numFrames && feed.Drives(env) && c.Synced(feed) ==>
      var c' := c.Initialize(env, n);
      c'.Synced(feed) && (c'.initialized <==> env.Latest(c.clock).Some?)
  {
    if feed.Valid() && n == feed.shape.numFrames && feed.Drives(env) && c.Synced(feed) {
      TickKeeps(feed, c);
      feed.LatestAnswer(env, c.clock);
      if env.Latest(c.clock).Some? {
        assert feed.Count(c.clock) <= feed.Count(c.clock + 1);
        StartIsSynced(feed, c.Tick(), LatestIndex(feed.Count(c.clock), n));
      }
    }
  }

  /** A synced stream that is initialized finds a latest frame, and a stream that has caught up with the
      latest frame is past its position. */
  lemma LatestIsReadable(feed: Feed, env: Environment, c: Cursor)
    requires feed.Valid() && feed.Drives(env) && c.Sound() && c.Synced(feed) && c.initialized
    ensures 0 < feed.Count(c.clock)
    ensures var n := feed.shape.numFrames;
      env.Latest(c.clock) == Some(EntryAt(feed.frames, LatestIndex(feed.Count(c.clock), n), n))
  {
    if c.Position(feed) == feed.Count(c.clock) {
      assert FromFeed(feed, c.log[|c.log| - 1]);
    }
    feed.LatestAnswer(env, c.clock);
  }

  lemma JumpKeepsSound(c: Cursor, entry: DataEntry, resync: bool)
    requires c.Sound() && c.initialized && 0 < c.clock
    requires c.clock - 1 in c.readAt && c.readAt[c.clock - 1] == c.sequence < entry.sequence
    ensures c.JumpTo(entry, resync).Sound()
  {
    LedgerJumps(c.log, c.jumps, c.first, c.sequence, Jump(c.sequence, entry.sequence, c.clock - 1, resync));
  }

  /** Jumping to a frame that the last read found at least a lap ahead keeps the cursor on the feed. */
  lemma JumpKeepsSynced(feed: Feed, c: Cursor, j: nat, resync: bool)
    requires feed.Valid() && c.Synced(feed) && c.initialized && 0 < c.clock
    requires c.Position(feed) + feed.shape.numFrames <= j < feed.Count(c.clock - 1)
    requires !resync ==> (j - c.Position(feed)) % feed.shape.numFrames == 0
    ensures var c' := c.JumpTo(EntryAt(feed.frames, j, feed.shape.numFrames), resync);
      c'.Synced(feed) && c'.Position(feed) == j
  {
    assert feed.Count(c.clock - 1) <= feed.Count(c.clock);
  }

  lemma WriteKeepsSound(c: Cursor, entry: DataEntry, written: bool, n: uint32)
    requires c.Sound() && c.initialized && entry.sequence == c.sequence < U32_RANGE - 1 && 0 < n
    ensures c.Write(entry, written, n).Sound()
    ensures written ==> c.Write(entry, written, n).sequence == c.sequence + 1
  {
    if written {
      ModSmall(entry.sequence + 1, U32_RANGE);
      LedgerLogs(c.log, c.jumps, c.first, c.sequence, entry);
    }
  }

  /** Writing the frame at the cursor keeps the cursor on the feed. */
  lemma WriteKeepsSynced(feed: Feed, c: Cursor, j: nat, written: bool)
    requires feed.Valid() && c.Synced(feed) && c.initialized
    requires c.Position(feed) == j < feed.Count(c.clock) && c.sequence < U32_RANGE - 1
    ensures c.Write(EntryAt(feed.frames, j, feed.shape.numFrames), written, feed.shape.numFrames).Synced(feed)
  {
    assert feed.Count(c.clock) <= feed.Count(c.clock + 1);
    var n := feed.shape.numFrames;
    var entry := EntryAt(feed.frames, j, n);
    assert FromFeed(feed, entry);
    if written {
      NextSlotOf(j, n);
      ModSmall(c.sequence + 1, U32_RANGE);
      var c' := c.Write(entry, true, n);
      assert c'.head == (j + 1) % n && c'.Position(feed) == j + 1;
      assert c'.AtFrame(feed);
    }
  }

  /** The cursor's own slot can be read, and holds the frame at the cursor or one a number of laps
      later. So the catch-up loop cannot fail to read and cannot find a frame older than the cursor. */
  lemma CursorSlot(feed: Feed, env: Environment, c: Cursor, t: nat) returns (j: nat)
    requires feed.Valid() && feed.Drives(env) && c.Synced(feed) && c.initialized
    requires c.Position(feed) < feed.Count(t)
    ensures j < feed.Count(t)
    ensures env.Absolute(t, c.head) == Some(EntryAt(feed.frames, j, feed.shape.numFrames))
    ensures c.Position(feed) <= j && (j - c.Position(feed)) % feed.shape.numFrames == 0
    ensures c.Position(feed) < j ==> c.Position(feed) + feed.shape.numFrames <= j
  {
    NewestAtOrAhead(c.Position(feed), feed.Count(t), feed.shape.numFrames);
    feed.AbsoluteAnswer(env, t, c.head);
    j := NewestIn(c.head, feed.Count(t), feed.shape.numFrames);
  }

  lemma ResyncKeepsSound(env: Environment, c: Cursor, latest: DataEntry, n: uint32)
    requires c.Sound() && c.initialized && 0 < c.clock && 0 < n
    requires c.clock - 1 in c.readAt && c.readAt[c.clock - 1] == c.sequence < latest.sequence < U32_RANGE - 1
    ensures c.Resync(env, latest, n).Sound()
    ensures c.Resync(env, latest, n).sequence == latest.sequence + if env.Writable(c.clock) then 1 else 0
  {
    JumpKeepsSound(c, latest, true);
    WriteKeepsSound(c.JumpTo(latest, true), latest, env.Writable(c.clock), n);
  }

  lemma ResyncKeepsSynced(feed: Feed, env: Environment, c: Cursor, latest: DataEntry)
    requires feed.Valid() && feed.Drives(env) && c.Synced(feed) && c.initialized && 0 < c.clock
    requires env.Latest(c.clock - 1) == Some(latest) && latest.sequence < U32_RANGE - 1
    requires c.sequence + feed.shape.numFrames <= latest.sequence
    ensures c.Resync(env, latest, feed.shape.numFrames).Synced(feed)
  {
    feed.LatestAnswer(env, c.clock - 1);
    var j := LatestIndex(feed.Count(c.clock - 1), feed.shape.numFrames);
    assert feed.Count(c.clock - 1) <= feed.Count(c.clock);
    JumpKeepsSynced(feed, c, j, true);
    WriteKeepsSynced(feed, c.JumpTo(latest, true), j, env.Writable(c.clock));
  }

  lemma CatchUpKeepsSound(env: Environment, c: Cursor, n: uint32)
    requires c.Sound() && c.initialized && BelowWrap(env) && 0 < n
    ensures c.CatchUp(env, n).Sound()
    ensures c.CatchesUp(env) ==> c.sequence < c.CatchUp(env, n).sequence
  {
    var read, t := env.Absolute(c.clock, c.head), c.Tick();
    assert t.Sound();
    if read.Some? && read.value.sequence >= c.sequence {
      var entry := read.value;
      var at := if entry.sequence > c.sequence then t.JumpTo(entry, false) else t;
      assert at.Sound() by {
        if entry.sequence > c.sequence {
          JumpKeepsSound(t, entry, false);
        }
      }
      WriteKeepsSound(at, entry, env.Writable(at.clock), n);
    }
  }

  /** The jump to a frame ahead, if the slot's frame is ahead. */
  lemma JumpIfAhead(feed: Feed, c: Cursor, j: nat)
    requires feed.Valid() && c.Synced(feed) && c.initialized && 0 < c.clock
    requires c.Position(feed) <= j < feed.Count(c.clock - 1)
    requires (j - c.Position(feed)) % feed.shape.numFrames == 0
    requires c.Position(feed) < j ==> c.Position(feed) + feed.shape.numFrames <= j
    ensures var entry := EntryAt(feed.frames, j, feed.shape.numFrames);
      var at := if entry.sequence > c.sequence then c.JumpTo(entry, false) else c;
      at.Synced(feed) && at.Position(feed) == j && at.clock == c.clock && at.initialized
  {
    if c.Position(feed) < j {
      JumpKeepsSynced(feed, c, j, false);
    }
  }

  lemma CatchUpKeepsSynced(feed: Feed, env: Environment, c: Cursor)
    requires feed.Valid() && feed.Drives(env) && BelowWrap(env) && c.Sound() && c.Synced(feed) && c.initialized
    requires c.Position(feed) < feed.Count(c.clock)
    ensures c.CatchUp(env, feed.shape.numFrames).Synced(feed)
  {
    var j := CursorSlot(feed, env, c, c.clock);
    TickKeeps(feed, c);
    JumpIfAhead(feed, c.Tick(), j);
    assert feed.Count(c.clock) <= feed.Count(c.clock + 1);
    var entry := EntryAt(feed.frames, j, feed.shape.numFrames);
    var at := if entry.sequence > c.sequence then c.Tick().JumpTo(entry, false) else c.Tick();
    WriteKeepsSynced(feed, at, j, env.Writable(c.clock + 1));
  }

  /** On a ring the catch-up loop never finds its slot unreadable or older than the cursor: a failing
      write is all that can stop it. */
  lemma CatchUpStopsOnlyOnWrite(feed: Feed, env: Environment, c: Cursor)
    requires feed.Valid() && feed.Drives(env) && c.Synced(feed) && c.initialized
    requires c.Position(feed) < feed.Count(c.clock)
    ensures env.Absolute(c.clock, c.head).Some? && env.Absolute(c.clock, c.head).value.sequence >= c.sequence
    ensures c.CatchesUp(env) <==> env.Writable(c.clock + 1)
  {
    var j := CursorSlot(feed, env, c, c.clock);
  }

  // The resync policy

  lemma PollIsSound(env: Environment, c: Cursor, n: uint32)
    requires c.Sound() && c.initialized
    ensures var c' := c.Poll();
      && c'.Sound() && c'.readAt[c.clock] == c.sequence
      && (c.Orderly(env, n, c.polls) ==> c'.Orderly(env, n, c'.polls - {c.clock}))
  {
    if c.Orderly(env, n, c.polls) {
      PollKeepsOrderly(env, c, n);
    }
  }

  /** On a ring the latest frame can be read and the cursor stays where it is. */
  lemma PollKeepsSynced(feed: Feed, env: Environment, c: Cursor)
    requires feed.Valid() && feed.Drives(env) && c.Sound() && c.Synced(feed) && c.initialized
    ensures c.Poll().Synced(feed) && env.Latest(c.clock).Some?
    ensures env.Latest(c.clock).value.sequence - feed.first < feed.Count(c.clock + 1)
  {
    LatestIsReadable(feed, env, c);
    TickKeeps(feed, c);
    assert feed.Count(c.clock) <= feed.Count(c.clock + 1);
  }

  lemma PollKeepsOrderly(env: Environment, c: Cursor, n: uint32)
    requires c.Sound() && c.initialized && c.Orderly(env, n, c.polls)
    ensures c.Poll().Orderly(env, n, c.Poll().polls - {c.clock})
  {
    assert forall t :: t in c.polls ==> t in c.readAt && t < c.clock;
    assert c.Poll().polls - {c.clock} == c.polls;
    OrderlyStays(env, c, c.Poll(), n, c.polls);
  }

  /** What the policy says stays true with a longer log and no further jump. */
  lemma OrderlyStays(env: Environment, c: Cursor, c': Cursor, n: uint32, asked: set<nat>)
    requires c.Orderly(env, n, asked) && c.Sound()
    requires c'.jumps == c.jumps && c.log <= c'.log && c.polls <= c'.polls
    requires forall t :: t in c'.polls && t < c.clock ==> t in c.polls
    requires forall t :: t in asked ==> t in c.readAt && t in c'.readAt && c'.readAt[t] == c.readAt[t]
    ensures c'.Orderly(env, n, asked)
  {
    forall i | 0 <= i < |c.jumps|
      ensures c'.Justified(env, n, c.jumps[i])
    {
      assert c.Justified(env, n, c.jumps[i]);
      assert c.jumps[i].at < c.clock;
    }
    forall t | t in asked && c'.Lags(env, n, t)
      ensures c'.Resynced(t)
    {
      assert c.Lags(env, n, t) && c.Resynced(t);
    }
  }

  /** One more jump, if it is one of those the policy allows. */
  lemma JumpKeepsOrderly(env: Environment, c: Cursor, c': Cursor, n: uint32, asked: set<nat>, jump: Jump)
    requires c.Orderly(env, n, asked) && c'.Justified(env, n, jump)
    requires c'.jumps == c.jumps + [jump] && c.log <= c'.log && c.polls == c'.polls && c.readAt == c'.readAt
    ensures c'.Orderly(env, n, asked)
  {
    forall i | 0 <= i < |c'.jumps|
      ensures c'.Justified(env, n, c'.jumps[i])
    {
      assert i < |c.jumps| ==> c.Justified(env, n, c.jumps[i]);
    }
    forall t | t in asked && c'.Lags(env, n, t)
      ensures c'.Resynced(t)
    {
      assert c.Lags(env, n, t) && c.Resynced(t);
      var i :| 0 <= i < |c.jumps| && c.jumps[i].resync && c.jumps[i].at == t;
      assert c'.jumps[i] == c.jumps[i];
    }
  }

  /** The last poll is decided too, if it found no lag or has led to a resync. */
  lemma PollDecided(env: Environment, c: Cursor, n: uint32, asked: set<nat>)
    requires c.Orderly(env, n, asked) && 0 < c.clock && c.polls <= asked + {c.clock - 1}
    requires !c.Lags(env, n, c.clock - 1) || c.Resynced(c.clock - 1)
    ensures c.Orderly(env, n, c.polls)
  {
  }

  lemma ResyncKeepsOrderly(env: Environment, c: Cursor, latest: DataEntry, n: uint32, asked: set<nat>)
    requires 0 < n && 0 < c.clock && c.Orderly(env, n, asked)
    requires c.clock - 1 in c.polls && c.polls <= asked + {c.clock - 1}
    requires env.Latest(c.clock - 1) == Some(latest) && c.sequence + n <= latest.sequence
    ensures c.Resync(env, latest, n).Orderly(env, n, c.polls)
  {
    var jump, c' := Jump(c.sequence, latest.sequence, c.clock - 1, true), c.Resync(env, latest, n);
    if env.Writable(c.clock) {
      assert c'.log[|c.log|] == latest;
    }
    JumpKeepsOrderly(env, c, c', n, asked, jump);
    assert c'.jumps[|c.jumps|] == jump;
    forall t | t in c.polls && c'.Lags(env, n, t)
      ensures c'.Resynced(t)
    {
      if t == c.clock - 1 {
        assert c'.jumps[|c.jumps|].resync;
      } else {
        assert t in asked;
      }
    }
  }

  lemma CatchUpKeepsOrderly(env: Environment, c: Cursor, n: uint32, asked: set<nat>)
    requires c.Sound() && c.initialized && 0 < n && c.Orderly(env, n, asked)
    ensures c.CatchUp(env, n).Orderly(env, n, asked)
  {
    assert forall t :: t in c.polls ==> t in c.readAt && t < c.clock;
    var read, ticked, c' := env.Absolute(c.clock, c.head), c.Tick(), c.CatchUp(env, n);
    OrderlyStays(env, c, ticked, n, asked);
    if read.Some? && read.value.sequence > c.sequence {
      var jump := Jump(c.sequence, read.value.sequence, c.clock, false);
      assert c'.Justified(env, n, jump);
      JumpKeepsOrderly(env, ticked, c', n, asked, jump);
    } else {
      OrderlyStays(env, c, c', n, asked);
    }
  }

  /** No skip to the latest frame was added. */
  predicate NoResyncs(before: seq<Jump>, after: seq<Jump>) {
    before <= after && forall i :: |before| <= i < |after| ==> !after[i].resync
  }

  lemma CatchUpKeepsPolicy(env: Environment, c: Cursor, n: uint32)
    requires c.Sound() && c.initialized && 0 < n
    ensures var c' := c.CatchUp(env, n);
      && NoResyncs(c.jumps, c'.jumps)
      && (c.Orderly(env, n, c.polls) ==> c'.Orderly(env, n, c'.polls))
  {
    if c.Orderly(env, n, c.polls) {
      CatchUpKeepsOrderly(env, c, n, c.polls);
    }
  }

  /** At every read of the stream the writer was at most one ring ahead of the cursor. */
  ghost predicate KeptUp(feed: Feed, c: Cursor)
    requires feed.Valid()
  {
    && c.Sound() && c.Synced(feed) && c.initialized
    && forall t :: t in c.readAt ==> feed.Count(t) <= c.readAt[t] - feed.first + feed.shape.numFrames
  }

  /** There is no jump, and the log is a contiguous run of the published frames: each once, unaltered and in
      order. */
  ghost predicate GapFree(feed: Feed, c: Cursor)
    requires feed.Valid()
  {
    && c.jumps == [] && |c.log| == c.sequence - c.first
    && feed.first <= c.first && c.sequence - feed.first <= |feed.frames|
    && forall i :: 0 <= i < |c.log| ==>
         c.log[i] == EntryAt(feed.frames, c.first - feed.first + i, feed.shape.numFrames)
  }

  /** So it is if the writer is never more than a ring ahead of the cursor at a read. */
  lemma GapFreeLog(feed: Feed, c: Cursor)
    requires feed.Valid() && KeptUp(feed, c)
    ensures GapFree(feed, c)
  {
    assert c.jumps != [] ==> ByLapping(feed, c.jumps[0]);
    LedgerWithoutJumps(c.log, c.first, c.sequence);
  }

  /** Why `_process_stream` returned. */
  datatype Exit = NotReady | NoInitialFrame | HeadOutOfBounds | LatestUnreadable | CaughtUp
                | SlotUnreadable | SlotStale | WriteFailed

  /** The last operation on the environment gave the reason to return. */
  ghost predicate Explains(env: Environment, n: uint32, c: Cursor, exit: Exit) {
    if exit == NotReady then !env.ready else
      && 0 < c.clock
      && var t := c.clock - 1;
         match exit
         case NoInitialFrame => !c.initialized && env.Latest(t).None?
         case HeadOutOfBounds => !c.initialized && env.Latest(t).Some? && n <= env.Latest(t).value.head
         case LatestUnreadable => c.initialized && env.Latest(t).None?
         case CaughtUp => c.initialized && env.Latest(t).Some? && env.Latest(t).value.sequence < c.sequence
         case SlotUnreadable => c.initialized && env.Absolute(t, c.head).None?
         case SlotStale => c.initialized && env.Absolute(t, c.head).Some?
                        && env.Absolute(t, c.head).value.sequence < c.sequence
         case WriteFailed => c.initialized && !env.Writable(t)
  }

  /** From operation `from` on nothing is published and every write succeeds. */
  ghost predicate AtRest(feed: Feed, env: Environment, from: nat) {
    && env.ready && 0 < feed.Count(from)
    && (forall t {:trigger feed.Count(t)} :: from <= t ==> feed.Count(t) == feed.Count(from))
    && (forall t {:trigger env.Writable(t)} :: from <= t ==> env.Writable(t))
  }

  /** A synced stream is done for now exactly when it is past the frame that `read_latest` returns. */
  lemma CaughtUpExactly(feed: Feed, env: Environment, c: Cursor)
    requires feed.Valid() && feed.Drives(env) && c.Sound() && c.Synced(feed) && c.initialized
    ensures 0 < feed.Count(c.clock)
    ensures Explains(env, feed.shape.numFrames, c.Tick(), CaughtUp)
       <==> LatestIndex(feed.Count(c.clock), feed.shape.numFrames) < c.Position(feed)
  {
    LatestIsReadable(feed, env, c);
  }

  lemma EndsCaughtUp(feed: Feed, env: Environment, c: Cursor, start: nat, exit: Exit)
    requires feed.Valid() && feed.Drives(env) && c.Sound() && c.Synced(feed)
    requires AtRest(feed, env, start) && start < c.clock
    requires Explains(env, feed.shape.numFrames, c, exit) && exit in {NoInitialFrame, CaughtUp, WriteFailed}
    ensures c.PastLatest(feed)
  {
    feed.LatestAnswer(env, c.clock - 1);
    assert feed.Count(c.clock - 1) == feed.Count(start) == feed.Count(c.clock);
    assert env.Writable(c.clock - 1);
  }

  /** The log ends at the last published frame, if `read_latest` returns that frame at all. */
  ghost predicate EndsAtLastFrame(feed: Feed, c: Cursor)
    requires feed.Valid()
  {
    var n, count := feed.shape.numFrames, feed.Count(c.clock);
    0 < count && (count % n != 0 || U32_RANGE % n == 0) ==>
      c.log != [] && c.log[|c.log| - 1] == EntryAt(feed.frames, count - 1, n)
  }

  lemma LastFrameLogged(feed: Feed, c: Cursor)
    requires feed.Valid() && c.Sound() && c.Synced(feed) && c.PastLatest(feed)
    ensures EndsAtLastFrame(feed, c)
  {
    LatestIndexIsLast(feed.Count(c.clock), feed.shape.numFrames);
    if LatestIndex(feed.Count(c.clock), feed.shape.numFrames) == feed.Count(c.clock) - 1 {
      assert FromFeed(feed, c.log[|c.log| - 1]);
    }
  }

  /** A fresh stream in front of a writer at rest: it starts at the frame that `read_latest` returns, logs
      it and is done. So the last published frame ends the log exactly when `read_latest` returns it. */
  lemma FreshStreamAtRest(feed: Feed, env: Environment, c: Cursor)
    requires feed.Valid() && feed.Drives(env) && BelowWrap(env) && c.Sound() && c.Synced(feed) && !c.initialized
    requires AtRest(feed, env, c.clock)
    ensures env.Latest(c.clock).Some?
    ensures var n, count := feed.shape.numFrames, feed.Count(c.clock);
      var end := c.Tick().Start(env.Latest(c.clock).value).Tick().CatchUp(env, n);
      && end.log == [EntryAt(feed.frames, LatestIndex(count, n), n)]
      && Explains(env, n, end.Tick(), CaughtUp)
      && (end.log[0] == EntryAt(feed.frames, count - 1, n) <==> count % n != 0 || U32_RANGE % n == 0)
  {
    var n, count := feed.shape.numFrames, feed.Count(c.clock);
    var j := LatestIndex(count, n);
    feed.LatestAnswer(env, c.clock);
    var started := c.Tick().Start(env.Latest(c.clock).value);
    RestContinues(feed, env, c.clock, c.clock + 1);
    StartIsSynced(feed, c.Tick(), j);
    FirstCatchUp(feed, env, started.Tick(), j);
    RestContinues(feed, env, c.clock, c.clock + 4);
    feed.LatestAnswer(env, c.clock + 4);
    LatestIndexIsLast(count, n);
  }

  lemma RestContinues(feed: Feed, env: Environment, from: nat, t: nat)
    requires AtRest(feed, env, from) && from <= t
    ensures feed.Count(t) == feed.Count(from) && env.Writable(t)
  {
  }

  lemma FirstCatchUp(feed: Feed, env: Environment, c: Cursor, j: nat)
    requires feed.Valid() && feed.Drives(env) && c.initialized && c.log == []
    requires j < feed.Count(c.clock) <= j + feed.shape.numFrames && c.sequence == feed.first + j < U32_RANGE - 1
    requires c.head == j % feed.shape.numFrames && env.Writable(c.clock + 1)
    ensures var c' := c.CatchUp(env, feed.shape.numFrames);
      && c'.log == [EntryAt(feed.frames, j, feed.shape.numFrames)]
      && c'.sequence == c.sequence + 1 && c'.clock == c.clock + 2 && c'.initialized
  {
    NewestAtOrAhead(j, feed.Count(c.clock), feed.shape.numFrames);
    feed.AbsoluteAnswer(env, c.clock, c.head);
    ModSmall(c.sequence + 1, U32_RANGE);
  }

  /** Beyond the range of `BelowWrap`: on a full ring whose last frame has the last 32-bit number, the turn
      that logs it takes the cursor to 0, which the loop condition lets pass, and the next turn logs the
      oldest frame of the ring behind the newest. */
  lemma LastNumberRepeats(feed: Feed, env: Environment, c: Cursor)
    requires feed.Valid() && feed.Drives(env) && c.Synced(feed) && c.initialized
    requires AtRest(feed, env, c.clock) && 2 <= feed.shape.numFrames <= feed.Count(c.clock)
    requires c.sequence == U32_RANGE - 1 && c.Position(feed) == feed.Count(c.clock) - 1
    ensures var n, count := feed.shape.numFrames, feed.Count(c.clock);
      var once := c.CatchUp(env, n);
      && once.log == c.log + [EntryAt(feed.frames, count - 1, n)] && once.sequence == 0
      && once.CatchUp(env, n).log == once.log + [EntryAt(feed.frames, count - n, n)]
  {
    var once := c.CatchUp(env, feed.shape.numFrames);
    LastNumberTurn(feed, env, c, once);
    SecondTurn(feed, env, c, once);
  }

  lemma LastNumberTurn(feed: Feed, env: Environment, c: Cursor, once: Cursor)
    requires feed.Valid() && feed.Drives(env) && c.Synced(feed) && c.initialized
    requires AtRest(feed, env, c.clock) && c.sequence == U32_RANGE - 1
    requires c.Position(feed) == feed.Count(c.clock) - 1 && once == c.CatchUp(env, feed.shape.numFrames)
    ensures var n, count := feed.shape.numFrames, feed.Count(c.clock);
      && once.log == c.log + [EntryAt(feed.frames, count - 1, n)]
      && once.sequence == 0 && once.head == count % n && once.clock == c.clock + 2
  {
    var n, count := feed.shape.numFrames, feed.Count(c.clock);
    RestContinues(feed, env, c.clock, c.clock + 1);
    NewestIsAt(count - 1, count, n);
    feed.AbsoluteAnswer(env, c.clock, c.head);
    LastNumberWraps();
    NextSlotOf(count - 1, n);
  }

  /** In every environment: a turn of the catch-up loop that logs a frame moves the cursor forward if and only
      if that frame does not have the last 32-bit number. */
  lemma CatchUpAdvances(env: Environment, c: Cursor, n: uint32)
    requires 0 < n && c.CatchesUp(env)
    ensures c.sequence < c.CatchUp(env, n).sequence <==> env.Absolute(c.clock, c.head).value.sequence < U32_RANGE - 1
  {
    var entry := env.Absolute(c.clock, c.head).value;
    if entry.sequence < U32_RANGE - 1 {
      ModSmall(entry.sequence + 1, U32_RANGE);
    } else {
      LastNumberWraps();
    }
  }

  lemma LastNumberWraps()
    ensures (U32_RANGE - 1 + 1) % U32_RANGE == 0
  {
  }

  lemma SecondTurn(feed: Feed, env: Environment, c: Cursor, once: Cursor)
    requires feed.Valid() && feed.Drives(env) && AtRest(feed, env, c.clock)
    requires 2 <= feed.shape.numFrames <= feed.Count(c.clock) && feed.first + feed.Count(c.clock) == U32_RANGE
    requires once.clock == c.clock + 2 && once.sequence == 0
    requires once.head == feed.Count(c.clock) % feed.shape.numFrames
    ensures var n, count := feed.shape.numFrames, feed.Count(c.clock);
      once.CatchUp(env, n).log == once.log + [EntryAt(feed.frames, count - n, n)]
  {
    var n, count := feed.shape.numFrames, feed.Count(c.clock);
    RestContinues(feed, env, c.clock, c.clock + 2);
    RestContinues(feed, env, c.clock, c.clock + 3);
    ModStep(count, n);
    NewestIsAt(count - n, count, n);
    feed.AbsoluteAnswer(env, once.clock, once.head);
  }

  class SensorStream {
    const numFrames: uint32
    var initialized: bool
    var currentHead: uint32
    var currentSequence: uint32
    var log: seq<DataEntry>     // the entries written to the log file
    var clock: nat              // operations performed on the environment
    ghost var first: nat
    ghost var jumps: seq<Jump>
    ghost var readAt: map<nat, nat>
    ghost var polls: set<nat>

    ghost function View(): Cursor
      reads this
    {
      Cursor(initialized, currentHead, currentSequence, log, clock, first, jumps, readAt, polls)
    }

    ghost predicate Valid()
      reads this
    {
      0 < numFrames && View().Sound()
    }

    /** The stream follows a ring driven by `feed`. */
    ghost predicate Follows(feed: Feed, env: Environment)
      reads this
    {
      feed.Valid() && numFrames == feed.shape.numFrames && feed.Drives(env) && View().Synced(feed)
    }

    /** All polls so far were followed by a resync exactly if they had to be. */
    ghost predicate InOrder(env: Environment)
      reads this
    {
      View().Orderly(env, numFrames, polls)
    }

    /** So were all but the one just made. */
    ghost predicate InOrderUpToNow(env: Environment)
      reads this
    {
      0 < clock && View().Orderly(env, numFrames, polls - {clock - 1})
    }

    constructor (numFrames: uint32)
      ensures Valid() && !initialized && log == [] && clock == 0
      ensures forall env: Environment :: InOrder(env)
      ensures this.numFrames == if numFrames == 0 then 1 else numFrames
      ensures forall feed: Feed :: feed.Valid() ==> View().Synced(feed)
    {
      this.numFrames := if numFrames == 0 then 1 else numFrames;
      initialized, currentHead, currentSequence, log, clock := false, 0, 0, [], 0;
      first, jumps, readAt, polls := 0, [], map[], {};
    }

    method Tick()
      modifies `clock, `readAt
      ensures View() == old(View()).Tick()
    {
      if initialized {
        readAt := readAt[clock := currentSequence];
      }
      clock := clock + 1;
    }

    method Poll()
      modifies `clock, `readAt, `polls
      ensures View() == old(View()).Poll()
    {
      polls := polls + {clock};
      Tick();
    }

    method JumpTo(entry: DataEntry, ghost resync: bool)
      requires 0 < clock
      modifies `currentHead, `currentSequence, `jumps
      ensures View() == old(View()).JumpTo(entry, resync)
    {
      jumps := jumps + [Jump(currentSequence, entry.sequence, clock - 1, resync)];
      currentHead := entry.head;
      currentSequence := entry.sequence;
    }

    /** `_write_entry`, and the cursor advance that follows a successful write. */
    method WriteEntry(env: Environment, entry: DataEntry) returns (written: bool)
      requires 0 < numFrames
      modifies `currentHead, `currentSequence, `log, `clock
      ensures written <==> env.Writable(old(clock))
      ensures View() == old(View()).Write(entry, written, numFrames)
    {
      written := env.Writable(clock);
      clock := clock + 1;
      if !written {
        return;
      }
      log := log + [entry];
      currentHead := ((currentHead + 1) % U32_RANGE) % numFrames;
      currentSequence := (entry.sequence + 1) % U32_RANGE;
    }

    /** Step 0 of `_process_stream`: start at the latest frame. */
    method StartAtLatest(env: Environment) returns (ghost exit: Exit)
      requires !initialized
      modifies this
      ensures View() == old(View()).Initialize(env, numFrames)
      ensures exit == if env.Latest(old(clock)).None? then NoInitialFrame else HeadOutOfBounds
    {
      Tick();
      var latest := env.Latest(clock - 1);
      if latest.None? {
        return NoInitialFrame;
      }
      exit := HeadOutOfBounds;
      var entry := latest.value;
      if entry.head >= numFrames {
        return;
      }
      currentHead := entry.head;
      currentSequence := entry.sequence;
      initialized := true;
      first := entry.sequence;
    }

    /** That step, with what it keeps; `exit` is the reason if it does not start. */
    method Initialize(env: Environment, ghost feed: Feed) returns (ghost exit: Exit)
      requires Valid() && !initialized
      modifies this
      ensures Valid() && log == old(log) && clock == old(clock) + 1
      ensures var latest := env.Latest(old(clock));
        initialized <==> latest.Some? && latest.value.head < numFrames
      ensures initialized ==>
        env.Latest(old(clock)).Some? && View() == old(View()).Tick().Start(env.Latest(old(clock)).value)
      ensures !initialized ==> exit != NotReady && Explains(env, numFrames, View(), exit)
      ensures old(Follows(feed, env)) ==> Follows(feed, env) && (initialized || exit == NoInitialFrame)
      ensures old(InOrder(env)) ==> InOrder(env)
    {
      InitializeKeeps(feed, env, View(), numFrames);
      exit := StartAtLatest(env);
    }

    /** The body of the catch-up loop. */
    method CatchUp(env: Environment) returns (written: bool, ghost exit: Exit)
      requires 0 < numFrames && initialized
      modifies this
      ensures View() == old(View()).CatchUp(env, numFrames)
      ensures written == old(View()).CatchesUp(env) && clock > old(clock)
      ensures !written ==> log == old(log) && Explains(env, numFrames, View(), exit)
      ensures written ==>
        && env.Absolute(old(clock), old(currentHead)).Some?
        && log == old(log) + [env.Absolute(old(clock), old(currentHead)).value]
      ensures !written ==>
        var read := env.Absolute(old(clock), old(currentHead));
        exit == if read.None? then SlotUnreadable
                else if read.value.sequence < old(currentSequence) then SlotStale
                else WriteFailed
    {
      Tick();
      var read := env.Absolute(clock - 1, currentHead);
      if read.None? {
        return false, SlotUnreadable;
      }
      var entry := read.value;
      if entry.sequence < currentSequence {
        return false, SlotStale;
      }
      if entry.sequence > currentSequence {
        JumpTo(entry, false);
      }
      written := WriteEntry(env, entry);
      exit := WriteFailed;
    }

    /** One turn of the loop, with what it keeps in every environment. */
    method CatchUpKept(env: Environment) returns (written: bool, ghost exit: Exit)
      requires Valid() && BelowWrap(env) && initialized
      modifies this
      ensures View() == old(View()).CatchUp(env, numFrames) && written == old(View()).CatchesUp(env)
      ensures !written ==> exit == WriteFailed || !old(View()).Finds(env)
      ensures Valid() && initialized && first == old(first) && clock > old(clock)
      ensures written ==> old(log) < log && currentSequence > old(currentSequence)
      ensures !written ==> log == old(log) && exit != NotReady && Explains(env, numFrames, View(), exit)
    {
      CatchUpKeepsSound(env, View(), numFrames);
      written, exit := CatchUp(env);
    }

    /** The same, with what it keeps of the policy and on a ring. */
    method CatchUpTurn(env: Environment, ghost feed: Feed) returns (written: bool, ghost exit: Exit)
      requires Valid() && BelowWrap(env) && initialized
      modifies this
      ensures Valid() && initialized && first == old(first) && clock > old(clock)
      ensures written ==> old(log) < log && currentSequence > old(currentSequence)
      ensures !written ==> log == old(log) && exit != NotReady && Explains(env, numFrames, View(), exit)
      ensures old(Follows(feed, env)) && old(View()).Position(feed) < feed.Count(old(clock)) ==>
        Follows(feed, env) && (written || exit == WriteFailed)
      ensures old(InOrder(env)) ==> InOrder(env)
      ensures NoResyncs(old(jumps), jumps)
    {
      ghost var c: Cursor := View();
      CatchUpKeepsPolicy(env, c, numFrames);
      if Follows(feed, env) && c.Position(feed) < feed.Count(clock) {
        CatchUpKeepsSynced(feed, env, c);
        CatchUpStopsOnlyOnWrite(feed, env, c);
      }
      written, exit := CatchUpKept(env);
    }

    /** The catch-up loop: from the cursor to `latest`, slot by slot. */
    method CatchUpTo(env: Environment, latest: DataEntry, ghost feed: Feed)
      returns (done: bool, wrote: bool, ghost exit: Exit)
      requires Valid() && BelowWrap(env) && initialized && currentSequence <= latest.sequence < U32_RANGE - 1
      modifies this
      ensures Valid() && initialized && first == old(first) && clock > old(clock)
      ensures old(log) <= log && (wrote <==> log != old(log))
      ensures done ==> wrote && currentSequence > latest.sequence
      ensures !done ==> exit != NotReady && Explains(env, numFrames, View(), exit)
      ensures old(Follows(feed, env)) && latest.sequence - feed.first < feed.Count(old(clock)) ==>
        Follows(feed, env) && (done || exit == WriteFailed)
      ensures old(InOrder(env)) ==> InOrder(env)
      ensures NoResyncs(old(jumps), jumps)
    {
      ghost var follows := Follows(feed, env) && latest.sequence - feed.first < feed.Count(clock);
      wrote := false;
      while currentSequence <= latest.sequence
        invariant Valid() && initialized && first == old(first)
        invariant old(log) <= log && (wrote <==> log != old(log)) && old(clock) <= clock
        invariant currentSequence == old(currentSequence) || (wrote && clock > old(clock))
        invariant follows ==> Follows(feed, env)
        invariant (old(InOrder(env)) ==> InOrder(env)) && NoResyncs(old(jumps), jumps)
        decreases U32_RANGE - currentSequence
      {
        assert follows ==> feed.Count(old(clock)) <= feed.Count(clock);
        done, exit := CatchUpTurn(env, feed);
        if !done {
          return;
        }
        wrote := true;
      }
      done := true;
      exit := CaughtUp;
    }

    /** One turn of the outer loop of an initialized stream. */
    method FollowLatest(env: Environment, ghost feed: Feed) returns (again: bool, wrote: bool, ghost exit: Exit)
      requires Valid() && BelowWrap(env) && initialized
      modifies this
      ensures Valid() && old(log) <= log && (wrote <==> log != old(log))
      ensures initialized && first == old(first) && clock > old(clock)
      ensures again ==> wrote && currentSequence > old(currentSequence)
      ensures !again ==> exit != NotReady && Explains(env, numFrames, View(), exit)
      ensures old(Follows(feed, env)) ==> Follows(feed, env) && (again || exit in {CaughtUp, WriteFailed})
      ensures old(InOrder(env)) ==> InOrder(env)
      // A backlog larger than the ring is skipped, and only such a backlog.
      ensures var latest := env.Latest(old(clock));
        latest.Some? ==>
          if old(currentSequence) + numFrames <= latest.value.sequence then
            && jumps == old(jumps) + [Jump(old(currentSequence), latest.value.sequence, old(clock), true)]
            && clock == old(clock) + 2
            && log == if env.Writable(old(clock) + 1) then old(log) + [latest.value] else old(log)
          else
            NoResyncs(old(jumps), jumps)
    {
      var latest;
      latest, exit := ReadLatest(env, feed);
      if latest.None? {
        return false, false, exit;
      }
      again, wrote, exit := FollowTo(env, latest.value, feed);
    }

    /** The rest of the turn, from the latest entry on. */
    method FollowTo(env: Environment, latest: DataEntry, ghost feed: Feed)
      returns (again: bool, wrote: bool, ghost exit: Exit)
      requires Valid() && BelowWrap(env) && initialized && 0 < clock
      requires env.Latest(clock - 1) == Some(latest)
      requires clock - 1 in readAt && readAt[clock - 1] == currentSequence && clock - 1 in polls
      modifies this
      ensures Valid() && old(log) <= log && (wrote <==> log != old(log))
      ensures initialized && first == old(first) && clock >= old(clock)
      ensures again ==> wrote && currentSequence > old(currentSequence)
      ensures !again ==> exit != NotReady && Explains(env, numFrames, View(), exit)
      ensures old(Follows(feed, env)) && latest.sequence - feed.first < feed.Count(old(clock)) ==>
        Follows(feed, env) && (again || exit in {CaughtUp, WriteFailed})
      ensures old(InOrderUpToNow(env)) ==> InOrder(env)
      ensures
        if old(currentSequence) + numFrames <= latest.sequence then
          && jumps == old(jumps) + [Jump(old(currentSequence), latest.sequence, old(clock) - 1, true)]
          && clock == old(clock) + 1
          && log == if env.Writable(old(clock)) then old(log) + [latest] else old(log)
        else
          NoResyncs(old(jumps), jumps)
    {
      var progress := AnalyzeStreamProgress(currentSequence, latest.sequence, numFrames);
      ProgressCountsBacklog(currentSequence, latest.sequence, numFrames);
      if InOrderUpToNow(env) && currentSequence + numFrames > latest.sequence {
        PollDecided(env, View(), numFrames, polls - {clock - 1});
      }
      if progress.availableFrames == 0 {
        return false, false, CaughtUp;
      }

      if progress.needsResync {
        wrote := Resync(env, latest, feed);
        again, exit := wrote, WriteFailed;
      } else {
        again, wrote, exit := CatchUpTo(env, latest, feed);
      }
    }

    /** One turn of the outer loop. */
    method Turn(env: Environment, ghost feed: Feed) returns (again: bool, wrote: bool, ghost exit: Exit)
      requires Valid() && BelowWrap(env)
      modifies this
      ensures Valid() && old(log) <= log && (wrote <==> log != old(log))
      ensures old(initialized) ==> initialized && first == old(first)
      ensures clock > old(clock)
      ensures again ==> wrote && initialized && (old(initialized) ==> currentSequence > old(currentSequence))
      ensures !again ==> exit != NotReady && Explains(env, numFrames, View(), exit)
      ensures old(Follows(feed, env)) ==>
        Follows(feed, env) && (again || exit in {NoInitialFrame, CaughtUp, WriteFailed})
      ensures old(InOrder(env)) ==> InOrder(env)
    {
      if !initialized {
        exit := Initialize(env, feed);
        if !initialized {
          return false, false, exit;
        }
      }
      again, wrote, exit := FollowLatest(env, feed);
    }

    /** One call of `_process_stream`. */
    method ProcessStream(env: Environment, ghost feed: Feed) returns (wroteAny: bool, ghost exit: Exit)
      requires Valid() && BelowWrap(env)
      modifies this
      ensures Valid() && Explains(env, numFrames, View(), exit) && old(clock) <= clock
      ensures exit == NotReady <==> !env.ready
      ensures env.ready ==> old(clock) < clock
      ensures old(log) <= log && (wroteAny <==> log != old(log))
      ensures old(initialized) ==> initialized && first == old(first)
      ensures old(Follows(feed, env)) ==>
        Follows(feed, env) && exit in {NotReady, NoInitialFrame, CaughtUp, WriteFailed}
      ensures old(InOrder(env)) ==> InOrder(env)
    {
      wroteAny, exit := false, NotReady;
      if !env.ready {
        return;
      }
      ghost var follows := Follows(feed, env);
      var again := true;
      while again
        invariant Valid() && old(log) <= log && (wroteAny <==> log != old(log))
        invariant old(initialized) ==> initialized && first == old(first)
        invariant (follows ==> Follows(feed, env)) && (old(InOrder(env)) ==> InOrder(env))
        invariant !again ==> exit != NotReady && Explains(env, numFrames, View(), exit) && old(clock) < clock
        invariant old(clock) <= clock
        invariant follows && !again ==> exit in {NoInitialFrame, CaughtUp, WriteFailed}
        decreases again, !initialized, U32_RANGE - currentSequence
      {
        var wrote;
        again, wrote, exit := Turn(env, feed);
        wroteAny := wroteAny || wrote;
      }
    }

    /** The worker thread of `run`: call after call. In every environment the ledger holds over the whole
        run; on a ring driven by `feed` the cursor never leaves the feed, and one call against a writer at
        rest, with the log writable, ends the log at the last published frame. */
    method Work(env: Environment, ghost feed: Feed, calls: nat)
      requires Valid() && BelowWrap(env)
      modifies this
      ensures Valid() && old(log) <= log
      ensures (old(Follows(feed, env)) ==> Follows(feed, env)) && (old(InOrder(env)) ==> InOrder(env))
      ensures old(Follows(feed, env)) && 0 < calls && AtRest(feed, env, old(clock)) ==>
        View().PastLatest(feed) && EndsAtLastFrame(feed, View())
    {
      ghost var follows := Follows(feed, env);
      ghost var rests := follows && AtRest(feed, env, clock);
      for i := 0 to calls
        invariant Valid() && old(log) <= log && old(clock) <= clock
        invariant (follows ==> Follows(feed, env)) && (old(InOrder(env)) ==> InOrder(env))
        invariant rests && 0 < i ==> View().PastLatest(feed)
      {
        ghost var start := clock;
        var wroteAny;
        ghost var exit;
        wroteAny, exit := ProcessStream(env, feed);
        if rests {
          EndsCaughtUp(feed, env, View(), start, exit);
        }
      }
      if rests && 0 < calls {
        LastFrameLogged(feed, View());
      }
    }

    /** `read_latest` at the top of a turn. */
    method ReadLatest(env: Environment, ghost feed: Feed) returns (latest: Option<DataEntry>, ghost exit: Exit)
      requires Valid() && initialized
      modifies `clock, `readAt, `polls
      ensures Valid() && clock == old(clock) + 1 && polls == old(polls) + {old(clock)}
      ensures old(InOrder(env)) ==> InOrderUpToNow(env)
      ensures clock - 1 in readAt && readAt[clock - 1] == currentSequence
      ensures latest == env.Latest(clock - 1)
      ensures exit == LatestUnreadable
      ensures old(Follows(feed, env)) ==>
        Follows(feed, env) && latest.Some? && latest.value.sequence - feed.first < feed.Count(clock)
    {
      PollIsSound(env, View(), numFrames);
      if Follows(feed, env) {
        PollKeepsSynced(feed, env, View());
      }
      Poll();
      latest := env.Latest(clock - 1);
      exit := LatestUnreadable;
    }

    /** The resync branch. */
    method Resync(env: Environment, latest: DataEntry, ghost feed: Feed) returns (written: bool)
      requires Valid() && initialized && 0 < clock
      requires env.Latest(clock - 1) == Some(latest)
      requires clock - 1 in readAt && readAt[clock - 1] == currentSequence && clock - 1 in polls
      requires currentSequence + numFrames <= latest.sequence < U32_RANGE - 1
      modifies `currentHead, `currentSequence, `log, `jumps, `clock
      ensures Valid() && clock == old(clock) + 1 && written == env.Writable(old(clock))
      ensures written ==> log == old(log) + [latest] && currentSequence > old(currentSequence)
      ensures !written ==> log == old(log)
      ensures jumps == old(jumps) + [Jump(old(currentSequence), latest.sequence, old(clock) - 1, true)]
      ensures old(Follows(feed, env)) ==> Follows(feed, env)
      ensures old(InOrderUpToNow(env)) ==> InOrder(env)
    {
      if InOrderUpToNow(env) {
        ResyncKeepsOrderly(env, View(), latest, numFrames, polls - {clock - 1});
      }
      ResyncKeepsSound(env, View(), latest, numFrames);
      if Follows(feed, env) {
        ResyncKeepsSynced(feed, env, View(), latest);
      }
      JumpTo(latest, true);
      written := WriteEntry(env, latest);
    }
  }
}
