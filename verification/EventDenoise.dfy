/** The activity filter for event cameras: one last-seen time per pixel stands in for all past events. */
module EventDenoise {

  datatype Event = Event(x: nat, y: nat, t: real)

  datatype Filter = Filter(threshold: real, radius: nat, minNeighbors: int)

  type Pixel = (nat, nat)

  /** The last-seen times, one row per y. */
  type Grid = seq<seq<real>>

  predicate Rectangular(grid: Grid, width: nat) {
    forall y :: 0 <= y < |grid| ==> |grid[y]| == width
  }

  predicate InBounds(events: seq<Event>, width: nat, height: nat) {
    forall i :: 0 <= i < |events| ==> events[i].x < width && events[i].y < height
  }

  // The filter on values

  function Max(a: int, b: int): int {
    if a < b then b else a
  }

  function Min(a: int, b: int): int {
    if a < b then a else b
  }

  /** The pixel is in the square around the event, clipped to the grid. */
  predicate InSquare(p: Pixel, e: Event, radius: nat, width: nat, height: nat) {
    && Max(0, e.x - radius) <= p.0 < Min(width, e.x + radius + 1)
    && Max(0, e.y - radius) <= p.1 < Min(height, e.y + radius + 1)
  }

  ghost function Square(e: Event, radius: nat, width: nat, height: nat): set<Pixel> {
    set x: nat, y: nat | x < width && y < height && InSquare((x, y), e, radius, width, height) :: (x, y)
  }

  /** The pixels around the event that were seen recently enough, according to the grid. */
  ghost function Active(grid: Grid, width: nat, e: Event, f: Filter): set<Pixel>
    requires Rectangular(grid, width)
  {
    set p | p in Square(e, f.radius, width, |grid|) && grid[p.1][p.0] >= e.t - f.threshold
  }

  function Seen(grid: Grid, width: nat, e: Event): (after: Grid)
    requires Rectangular(grid, width) && e.x < width && e.y < |grid|
    ensures Rectangular(after, width) && |after| == |grid|
  {
    grid[e.y := grid[e.y][e.x := e.t]]
  }

  function GridAfter(grid: Grid, width: nat, events: seq<Event>): (after: Grid)
    requires Rectangular(grid, width) && InBounds(events, width, |grid|)
    ensures Rectangular(after, width) && |after| == |grid|
  {
    if events == [] then grid
    else Seen(GridAfter(grid, width, events[..|events| - 1]), width, events[|events| - 1])
  }

  /** Whether event `i` is kept. */
  ghost predicate Kept(grid: Grid, width: nat, events: seq<Event>, f: Filter, i: nat)
    requires Rectangular(grid, width) && InBounds(events, width, |grid|) && i < |events|
  {
    |Active(GridAfter(grid, width, events[..i]), width, events[i], f)| >= f.minNeighbors
  }

  // The loop over the array

  function Row(a: array2<real>, y: nat): (row: seq<real>)
    requires y < a.Length0
    reads a
    ensures |row| == a.Length1
  {
    seq(a.Length1, x requires 0 <= x < a.Length1 reads a => a[y, x])
  }

  function Rows(a: array2<real>): (grid: Grid)
    reads a
    ensures |grid| == a.Length0 && Rectangular(grid, a.Length1)
  {
    seq(a.Length0, y requires 0 <= y < a.Length0 reads a => Row(a, y))
  }

  predicate OnGrid(e: Event, width: nat, height: nat) {
    e.x < width && e.y < height
  }

  /** The number of events in front of the first one off the grid. */
  function LeadingOnGrid(events: seq<Event>, width: nat, height: nat): (m: nat)
    ensures m <= |events| && InBounds(events[..m], width, height)
    ensures m < |events| ==> events[m].x >= width || events[m].y >= height
  {
    if events == [] || !OnGrid(events[0], width, height) then 0
    else
      var m := 1 + LeadingOnGrid(events[1..], width, height);
      assert forall i :: 0 < i < m ==> events[..m][i] == events[1..][..m - 1][i - 1];
      m
  }

  /** Keeps or drops each event and notes its time in the grid in either case. An event off the grid raises an
      exception, with the events before it noted. */
  method DenoiseKeepMask(events: seq<Event>, lastActive: array2<real>, f: Filter)
    returns (keep: array<bool>, raised: bool)
    modifies lastActive
    ensures var m := LeadingOnGrid(events, lastActive.Length1, lastActive.Length0);
      && raised == (m < |events|)
      && Rows(lastActive) == GridAfter(old(Rows(lastActive)), lastActive.Length1, events[..m])
    ensures fresh(keep) && keep.Length == |events|
    ensures !raised ==>
      && InBounds(events, lastActive.Length1, lastActive.Length0)
      && forall i :: 0 <= i < |events| ==>
        (keep[i] <==> Kept(old(Rows(lastActive)), lastActive.Length1, events, f, i))
  {
    ghost var grid, width := Rows(lastActive), lastActive.Length1;
    ghost var m := LeadingOnGrid(events, lastActive.Length1, lastActive.Length0);
    ghost var noted := events[..m];
    keep := new bool[|events|](_ => false);
    assert noted[..0] == [];
    for i := 0 to |events|
      invariant i <= m && Rows(lastActive) == GridAfter(grid, width, noted[..i])
      invariant forall j :: 0 <= j < i ==> (keep[j] <==> Kept(grid, width, noted, f, j))
    {
      var e := events[i];
      if !OnGrid(e, lastActive.Length1, lastActive.Length0) {
        assert noted[..i] == noted;
        return keep, true;
      }
      GridStep(grid, width, noted, i);
      keep[i] := KeepEvent(lastActive, e, f);
    }
    assert noted == events && noted[..m] == noted;
    raised := false;
  }

  /** The body of the loop. */
  method KeepEvent(lastActive: array2<real>, e: Event, f: Filter) returns (kept: bool)
    requires OnGrid(e, lastActive.Length1, lastActive.Length0)
    modifies lastActive
    ensures kept <==> |Active(old(Rows(lastActive)), lastActive.Length1, e, f)| >= f.minNeighbors
    ensures Rows(lastActive) == Seen(old(Rows(lastActive)), lastActive.Length1, e)
  {
    var activeCount := CountActive(lastActive, e, f);
    kept := activeCount >= f.minNeighbors;
    Note(lastActive, e);
  }

  lemma GridStep(grid: Grid, width: nat, events: seq<Event>, i: nat)
    requires Rectangular(grid, width) && InBounds(events, width, |grid|) && i < |events|
    ensures GridAfter(grid, width, events[..i + 1]) == Seen(GridAfter(grid, width, events[..i]), width, events[i])
  {
    assert events[..i + 1][..i] == events[..i];
  }

  method Note(lastActive: array2<real>, e: Event)
    requires e.x < lastActive.Length1 && e.y < lastActive.Length0
    modifies lastActive
    ensures Rows(lastActive) == Seen(old(Rows(lastActive)), lastActive.Length1, e)
  {
    ghost var before := Rows(lastActive);
    lastActive[e.y, e.x] := e.t;
    forall y | 0 <= y < lastActive.Length0
      ensures Rows(lastActive)[y] == Seen(before, lastActive.Length1, e)[y]
    {
    }
  }

  /** The active pixels that a scan by rows has passed on reaching (x, y). */
  ghost function Scanned(grid: Grid, width: nat, e: Event, f: Filter, x: int, y: int): set<Pixel>
    requires Rectangular(grid, width)
  {
    set p | p in Active(grid, width, e, f) && (p.1 < y || (p.1 == y && p.0 < x))
  }

  method CountActive(lastActive: array2<real>, e: Event, f: Filter) returns (count: nat)
    requires e.x < lastActive.Length1 && e.y < lastActive.Length0
    ensures count == |Active(Rows(lastActive), lastActive.Length1, e, f)|
  {
    ghost var grid, width := Rows(lastActive), lastActive.Length1;
    var y0, y1 := Max(0, e.y - f.radius), Min(lastActive.Length0, e.y + f.radius + 1);
    var x0, x1 := Max(0, e.x - f.radius), Min(lastActive.Length1, e.x + f.radius + 1);
    count := 0;
    ScanBegins(grid, width, e, f);
    for y := y0 to y1
      invariant count == |Scanned(grid, width, e, f, x0, y)|
    {
      for x := x0 to x1
        invariant count == |Scanned(grid, width, e, f, x, y)|
      {
        ScanStep(grid, width, e, f, x, y);
        if lastActive[y, x] >= e.t - f.threshold {
          count := count + 1;
        }
      }
      ScanRow(grid, width, e, f, y);
    }
    ScanEnds(grid, width, e, f);
  }

  lemma ScanBegins(grid: Grid, width: nat, e: Event, f: Filter)
    requires Rectangular(grid, width)
    ensures Scanned(grid, width, e, f, Max(0, e.x - f.radius), Max(0, e.y - f.radius)) == {}
  {
  }

  lemma ScanEnds(grid: Grid, width: nat, e: Event, f: Filter)
    requires Rectangular(grid, width)
    ensures Scanned(grid, width, e, f, Max(0, e.x - f.radius), Min(|grid|, e.y + f.radius + 1))
         == Active(grid, width, e, f)
  {
  }

  lemma ScanRow(grid: Grid, width: nat, e: Event, f: Filter, y: int)
    requires Rectangular(grid, width)
    ensures Scanned(grid, width, e, f, Min(width, e.x + f.radius + 1), y)
         == Scanned(grid, width, e, f, Max(0, e.x - f.radius), y + 1)
  {
  }

  lemma ScanStep(grid: Grid, width: nat, e: Event, f: Filter, x: nat, y: nat)
    requires Rectangular(grid, width) && x < width && y < |grid| && InSquare((x, y), e, f.radius, width, |grid|)
    ensures |Scanned(grid, width, e, f, x + 1, y)|
         == |Scanned(grid, width, e, f, x, y)| + if grid[y][x] >= e.t - f.threshold then 1 else 0
  {
    var before, after := Scanned(grid, width, e, f, x, y), Scanned(grid, width, e, f, x + 1, y);
    var active := Active(grid, width, e, f);
    assert (x, y) in active <==> grid[y][x] >= e.t - f.threshold;
    PassPixel(active, x, y);
    if (x, y) in active {
      assert after == before + {(x, y)};
    } else {
      assert after == before;
    }
  }

  /** A scan that passes one more pixel gains that pixel, if it belongs to the set. */
  lemma PassPixel(active: set<Pixel>, x: nat, y: nat)
    ensures forall p :: p in active ==>
      ((p.1 < y || (p.1 == y && p.0 < x + 1)) <==> (p.1 < y || (p.1 == y && p.0 < x)) || p == (x, y))
  {
  }

  // Chunks

  /** Splitting the events anywhere and carrying the grid over changes neither the grid nor the mask. */
  lemma {:induction false} GridOfChunks(grid: Grid, width: nat, a: seq<Event>, b: seq<Event>)
    requires Rectangular(grid, width) && InBounds(a, width, |grid|) && InBounds(b, width, |grid|)
    ensures GridAfter(grid, width, a + b) == GridAfter(GridAfter(grid, width, a), width, b)
    decreases |b|
  {
    if b == [] {
      assert a + b == a;
    } else {
      GridOfChunks(grid, width, a, b[..|b| - 1]);
      assert (a + b)[..|a + b| - 1] == a + b[..|b| - 1];
    }
  }

  lemma MaskOfFirst(grid: Grid, width: nat, a: seq<Event>, b: seq<Event>, f: Filter, i: nat)
    requires Rectangular(grid, width) && InBounds(a + b, width, |grid|) && InBounds(a, width, |grid|) && i < |a|
    ensures Kept(grid, width, a + b, f, i) <==> Kept(grid, width, a, f, i)
  {
    assert (a + b)[..i] == a[..i];
  }

  lemma MaskOfSecond(grid: Grid, width: nat, a: seq<Event>, b: seq<Event>, f: Filter, k: nat)
    requires Rectangular(grid, width) && InBounds(a, width, |grid|) && InBounds(b, width, |grid|)
    requires |a| <= k < |a + b|
    ensures Kept(grid, width, a + b, f, k) <==> Kept(GridAfter(grid, width, a), width, b, f, k - |a|)
  {
    assert (a + b)[..k] == a + b[..k - |a|];
    GridOfChunks(grid, width, a, b[..k - |a|]);
  }

  // Monotonicity

  /** A longer time window, a larger square or fewer neighbours asked for never drop a kept event. */
  lemma KeptMonotone(grid: Grid, width: nat, events: seq<Event>, f: Filter, g: Filter, i: nat)
    requires Rectangular(grid, width) && InBounds(events, width, |grid|) && i < |events|
    requires f.threshold <= g.threshold && f.radius <= g.radius && g.minNeighbors <= f.minNeighbors
    requires Kept(grid, width, events, f, i)
    ensures Kept(grid, width, events, g, i)
  {
    var now, e := GridAfter(grid, width, events[..i]), events[i];
    ActiveMonotone(now, width, e, f, g);
    SubsetSize(Active(now, width, e, f), Active(now, width, e, g));
  }

  lemma ActiveMonotone(grid: Grid, width: nat, e: Event, f: Filter, g: Filter)
    requires Rectangular(grid, width) && f.threshold <= g.threshold && f.radius <= g.radius
    ensures Active(grid, width, e, f) <= Active(grid, width, e, g)
  {
  }

  lemma SubsetSize<T>(a: set<T>, b: set<T>)
    requires a <= b
    ensures |a| <= |b|
  {
    assert b == a + (b - a);
  }

  // The grid stands in for the history

  predicate TimeOrdered(events: seq<Event>) {
    forall i, j :: 0 <= i < j < |events| ==> events[i].t <= events[j].t
  }

  /** Some of these events is at the pixel and not before `cutoff`. */
  ghost predicate SeenSince(events: seq<Event>, p: Pixel, cutoff: real) {
    exists j :: 0 <= j < |events| && At(events[j], p) && events[j].t >= cutoff
  }

  predicate At(e: Event, p: Pixel) {
    e.x == p.0 && e.y == p.1
  }

  lemma SeenSinceStep(before: seq<Event>, last: Event, p: Pixel, cutoff: real)
    ensures SeenSince(before + [last], p, cutoff)
       <==> SeenSince(before, p, cutoff) || (At(last, p) && last.t >= cutoff)
  {
    var events := before + [last];
    if SeenSince(before, p, cutoff) {
      var j :| 0 <= j < |before| && At(before[j], p) && before[j].t >= cutoff;
      assert At(events[j], p);
    }
    if At(last, p) && last.t >= cutoff {
      assert At(events[|before|], p);
    }
  }

  /** For events in time order the last-seen time answers whether a pixel was seen since any time. */
  lemma {:induction false} GridAnswers(grid: Grid, width: nat, events: seq<Event>, p: Pixel, cutoff: real)
    requires Rectangular(grid, width) && InBounds(events, width, |grid|) && TimeOrdered(events)
    requires p.0 < width && p.1 < |grid| && grid[p.1][p.0] < cutoff
    ensures GridAfter(grid, width, events)[p.1][p.0] >= cutoff <==> SeenSince(events, p, cutoff)
    decreases |events|
  {
    if events != [] {
      var before, last := events[..|events| - 1], events[|events| - 1];
      assert events == before + [last];
      GridAnswers(grid, width, before, p, cutoff);
      SeenSinceStep(before, last, p, cutoff);
      if At(last, p) && SeenSince(before, p, cutoff) {
        var j :| 0 <= j < |before| && At(before[j], p) && before[j].t >= cutoff;
        assert events[j].t <= last.t;
      }
    }
  }

  /** The distinct pixels of the grid, no further than the radius from event `i` in either direction, at which an
      earlier event lies within the time window. */
  ghost function Supporters(events: seq<Event>, i: nat, f: Filter, width: nat, height: nat): set<Pixel>
    requires i < |events|
  {
    set x: nat, y: nat | x < width && y < height && Near((x, y), events[i], f.radius)
                      && SeenSince(events[..i], (x, y), events[i].t - f.threshold) :: (x, y)
  }

  predicate Near(p: Pixel, e: Event, radius: nat) {
    && e.x <= p.0 + radius && p.0 <= e.x + radius
    && e.y <= p.1 + radius && p.1 <= e.y + radius
  }

  /** Before the first event every pixel counts as not seen, whatever event is looked at. */
  predicate NeverSeen(grid: Grid, width: nat, events: seq<Event>, f: Filter)
    requires Rectangular(grid, width)
  {
    forall i, x, y :: 0 <= i < |events| && 0 <= x < width && 0 <= y < |grid| ==>
      grid[y][x] < events[i].t - f.threshold
  }

  /** An event is kept exactly if enough distinct pixels around it have support in the whole history. */
  lemma KeptBySupport(grid: Grid, width: nat, events: seq<Event>, f: Filter, i: nat)
    requires Rectangular(grid, width) && InBounds(events, width, |grid|) && i < |events|
    requires TimeOrdered(events) && NeverSeen(grid, width, events, f)
    ensures Kept(grid, width, events, f, i) <==> |Supporters(events, i, f, width, |grid|)| >= f.minNeighbors
  {
    var now, e := GridAfter(grid, width, events[..i]), events[i];
    forall p: Pixel
      ensures p in Active(now, width, e, f) <==> p in Supporters(events, i, f, width, |grid|)
    {
      if p.0 < width && p.1 < |grid| {
        GridAnswers(grid, width, events[..i], p, e.t - f.threshold);
        assert InSquare(p, e, f.radius, width, |grid|) <==> Near(p, e, f.radius);
        assert p in Active(now, width, e, f) <==> p in Supporters(events, i, f, width, |grid|) by {
          assert p == (p.0, p.1);
        }
      }
    }
    assert Active(now, width, e, f) == Supporters(events, i, f, width, |grid|);
  }

  // Any number of chunks

  function Joined(chunks: seq<seq<Event>>): seq<Event> {
    if chunks == [] then [] else Joined(chunks[..|chunks| - 1]) + chunks[|chunks| - 1]
  }

  predicate AllInBounds(chunks: seq<seq<Event>>, width: nat, height: nat) {
    forall k :: 0 <= k < |chunks| ==> InBounds(chunks[k], width, height)
  }

  /** The grid that the calls for these chunks hand on. */
  function Carried(grid: Grid, width: nat, chunks: seq<seq<Event>>): (after: Grid)
    requires Rectangular(grid, width) && AllInBounds(chunks, width, |grid|)
    ensures Rectangular(after, width) && |after| == |grid|
  {
    if chunks == [] then grid
    else GridAfter(Carried(grid, width, chunks[..|chunks| - 1]), width, chunks[|chunks| - 1])
  }

  lemma {:induction false} CarriedIsAfterAll(grid: Grid, width: nat, chunks: seq<seq<Event>>)
    requires Rectangular(grid, width) && AllInBounds(chunks, width, |grid|)
    ensures InBounds(Joined(chunks), width, |grid|)
    ensures Carried(grid, width, chunks) == GridAfter(grid, width, Joined(chunks))
  {
    if chunks != [] {
      var before, last := chunks[..|chunks| - 1], chunks[|chunks| - 1];
      CarriedIsAfterAll(grid, width, before);
      GridOfChunks(grid, width, Joined(before), last);
    }
  }

  /** However a recording is cut into calls, an event is kept exactly if enough distinct pixels around it
      have support in the whole recording up to it. */
  lemma KeptInAnyCall(grid: Grid, width: nat, chunks: seq<seq<Event>>, chunk: seq<Event>, f: Filter, k: nat)
    requires Rectangular(grid, width) && AllInBounds(chunks, width, |grid|) && InBounds(chunk, width, |grid|)
    requires var all := Joined(chunks) + chunk;
      TimeOrdered(all) && NeverSeen(grid, width, all, f) && |Joined(chunks)| <= k < |all|
    ensures Kept(Carried(grid, width, chunks), width, chunk, f, k - |Joined(chunks)|)
       <==> |Supporters(Joined(chunks) + chunk, k, f, width, |grid|)| >= f.minNeighbors
  {
    CarriedIsAfterAll(grid, width, chunks);
    MaskOfSecond(grid, width, Joined(chunks), chunk, f, k);
    KeptBySupport(grid, width, Joined(chunks) + chunk, f, k);
  }
}
