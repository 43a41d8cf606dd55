/** The `uint32` arithmetic of the ring: relative head lookup and the logger's backlog computation. */
module RingArithmetic {
  import opened MachineInts

  /** The slot `indexFromHead` behind `head`. The signed difference is converted to `uint32`
      before the remainder is taken, and the sum of remainder and `numFrames` is a `uint32` sum. */
  function GetHead(head: uint32, indexFromHead: int32, numFrames: uint32): (index: uint32)
    ensures numFrames == 0 ==> index == 0
  {
    if numFrames == 0 then
      0
    else
      var difference := ToInt32(ToInt32(head) - indexFromHead);
      var promoted := difference % U32_RANGE;
      ((promoted % numFrames + numFrames) % U32_RANGE) % numFrames
  }

  /** The converted difference is congruent to the exact one modulo 2^32. */
  lemma PromotedDifference(head: uint32, k: int32)
    ensures ToInt32(ToInt32(head) - k) % U32_RANGE == (head - k) % U32_RANGE
  {
    assert ToInt32(head) == head || ToInt32(head) == head - U32_RANGE;
  }

  /** The final sum is undone by the final remainder, unless it overflows. */
  lemma FinalSum(r: int, n: uint32)
    requires 0 <= r < n
    ensures ((r + n) % U32_RANGE) % n == if r + n < U32_RANGE then r else r + n - U32_RANGE
  {
    if r + n < U32_RANGE {
      ModSmall(r + n, U32_RANGE);
      DivModUnique(r + n, n, 1, r);
    } else {
      DivModUnique(r + n, U32_RANGE, 1, r + n - U32_RANGE);
      ModSmall(r + n - U32_RANGE, n);
    }
  }

  /** What `GetHead` computes once the conversions are accounted for. */
  lemma GetHeadPromoted(head: uint32, k: int32, n: uint32)
    requires 0 < n
    ensures 0 <= GetHead(head, k, n) < n
    ensures var r := ((head - k) % U32_RANGE) % n;
      GetHead(head, k, n) == if r + n < U32_RANGE then r else r + n - U32_RANGE
  {
    PromotedDifference(head, k);
    FinalSum(((head - k) % U32_RANGE) % n, n);
  }

  /** Looking back no further than slot 0 is exact, and so is looking ahead. */
  lemma GetHeadWithinLap(head: uint32, k: int32, n: uint32)
    requires 0 < n <= 0x8000_0000 && k <= head && head - k < U32_RANGE
    ensures GetHead(head, k, n) == (head - k) % n
  {
    GetHeadPromoted(head, k, n);
    ModSmall(head - k, U32_RANGE);
  }

  /** The three lookups the code makes, for a head in range. */
  lemma GetHeadNeighbours(head: uint32, n: uint32)
    requires head < n <= 0x8000_0000
    ensures GetHead(head, 0, n) == head
    ensures GetHead(head, -1, n) == if head + 1 == n then 0 else head + 1
    ensures GetHead(head, 1, n) == if head == 0 then (U32_RANGE - 1) % n else head - 1
  {
    GetHeadWithinLap(head, 0, n);
    ModSmall(head, n);
    GetHeadWithinLap(head, -1, n);
    if head + 1 == n {
      DivModUnique(head + 1, n, 1, 0);
    } else {
      ModSmall(head + 1, n);
    }
    if head == 0 {
      GetHeadPromoted(head, 1, n);
      DivModUnique(-1, U32_RANGE, -1, U32_RANGE - 1);
    } else {
      GetHeadWithinLap(head, 1, n);
      ModSmall(head - 1, n);
    }
  }

  /** Looking back past slot 0 gives the Euclidean remainder exactly when `n` divides 2^32. */
  lemma GetHeadAcrossWrap(head: uint32, k: int32, n: uint32)
    requires 0 < n <= 0x8000_0000 && head < k
    ensures GetHead(head, k, n) == (head - k) % n <==> U32_RANGE % n == 0
  {
    GetHeadPromoted(head, k, n);
    DivModUnique(head - k, U32_RANGE, -1, head - k + U32_RANGE);
    ModAddCancels(head - k, U32_RANGE, n);
  }

  /** With a ring of 300 slots, "one behind head 0" is slot 195 and not slot 299. */
  lemma GetHeadAcrossWrapExample()
    ensures GetHead(0, 1, 300) == 195 && (0 - 1) % 300 == 299
  {
    GetHeadPromoted(0, 1, 300);
  }

  /** A ring of more than 2^31 slots can also overflow the final sum: exactly then is the result off. */
  lemma GetHeadHugeRing(head: uint32, k: int32, n: uint32)
    requires 0x8000_0000 < n && k <= head && head - k < U32_RANGE
    ensures GetHead(head, k, n) == (head - k) % n <==> (head - k) % n + n < U32_RANGE
  {
    GetHeadPromoted(head, k, n);
    ModSmall(head - k, U32_RANGE);
  }

  datatype StreamProgress = StreamProgress(availableFrames: uint32, needsResync: bool, skippedFrames: uint32)

  function AnalyzeStreamProgress(currentSequence: uint32, latestSequence: uint32, bufferSize: uint32): StreamProgress
  {
    if bufferSize == 0 || latestSequence < currentSequence then
      StreamProgress(0, false, 0)
    else
      var available := (latestSequence - currentSequence + 1) % U32_RANGE;
      var needsResync := available > bufferSize;
      StreamProgress(available, needsResync, if needsResync then available - bufferSize else 0)
  }

  /** The progress record counts the backlog, the numbers from `current` to `latest`, asks for a resync exactly when
      it does not fit in the ring, and reports the overflow. This holds for every input but the full range
      0 .. 2^32 - 1, whose size is reported as 0. */
  lemma ProgressCountsBacklog(current: uint32, latest: uint32, bufferSize: uint32)
    ensures var p := AnalyzeStreamProgress(current, latest, bufferSize);
      var size := if current <= latest then latest - current + 1 else 0;
      if bufferSize == 0 then
        p == StreamProgress(0, false, 0)
      else
        && (p.availableFrames == size <==> !(current == 0 && latest == U32_RANGE - 1))
        && (p.availableFrames == size ==>
              && (p.needsResync <==> size > bufferSize)
              && p.skippedFrames == if size > bufferSize then size - bufferSize else 0)
  {
    if current <= latest && !(current == 0 && latest == U32_RANGE - 1) {
      ModSmall(latest - current + 1, U32_RANGE);
    }
  }
}
