/**
 The supervisor's bootstrap geometry: the grid of chunks, and the sub-chunks
 handed to the normalizer.
 */
module Bootstrap {
  import opened Wrappers
  import opened Arithmetic
  import opened Times
  import WS = WindowScheduler

  const WINDOW_MS := 1_000

  datatype Chunk = Chunk(start: int, end: int)

  datatype Args = Args(enabled: bool, lookbackDays: int, chunkHours: int, interval: int)

  /** What argument parsing accepts. */
  predicate Validated(args: Args)
  {
    && args.lookbackDays > 0 && args.interval > 0
    && args.chunkHours > 0 && 24 % args.chunkHours == 0
  }

  // ---------------------------------------------------------- chunk geometry

  function ChunkMs(args: Args): int { args.chunkHours * HOUR_MS }

  function LookbackMs(args: Args): int { args.lookbackDays * 24 * HOUR_MS }

  function AlignDown(value: int, chunkMs: int): int
    requires chunkMs > 0
  {
    value / chunkMs * chunkMs
  }

  function EndBound(args: Args, now: int): int
    requires args.chunkHours > 0
  {
    AlignDown(now - HOUR_MS, ChunkMs(args))
  }

  /** The clock and the lookback keep every intermediate sum inside i64, so nothing saturates. */
  predicate FitsI64(args: Args, now: int)
    requires args.chunkHours > 0
  {
    && I64_MIN + HOUR_MS <= now <= I64_MAX
    && LookbackMs(args) <= I64_MAX
    && I64_MIN <= EndBound(args, now) - LookbackMs(args)
  }

  /** n chunks of one width, end to end. */
  function Grid(start: int, width: int, n: nat): seq<Chunk>
  {
    if n == 0 then []
    else Grid(start, width, n - 1) + [Chunk(Boundary(start, width, n - 1), Boundary(start, width, n))]
  }

  function ChunkCount(args: Args): nat
    requires Validated(args)
  {
    LookbackMs(args) / ChunkMs(args)
  }

  lemma ChunkDividesLookback(args: Args)
    requires Validated(args)
    ensures ChunkMs(args) > 0 && LookbackMs(args) % ChunkMs(args) == 0
    ensures LookbackMs(args) == ChunkCount(args) * ChunkMs(args)
  {
    var q := 24 / args.chunkHours;
    assert 24 == q * args.chunkHours;
    assert LookbackMs(args)
        == args.lookbackDays * (q * args.chunkHours) * HOUR_MS
        == (args.lookbackDays * q) * ChunkMs(args);
    MultipleMod(args.lookbackDays * q, ChunkMs(args));
  }

  /** The chunk list for a clock reading: whole chunks, newest one ending at the aligned bound. */
  function BootstrapGrid(args: Args, now: int): seq<Chunk>
    requires Validated(args)
  {
    Grid(EndBound(args, now) - LookbackMs(args), ChunkMs(args), ChunkCount(args))
  }

  lemma {:induction false} GridAt(start: int, width: int, n: nat, k: nat)
    requires k < n
    ensures |Grid(start, width, n)| == n
    ensures Grid(start, width, n)[k] == Chunk(Boundary(start, width, k), Boundary(start, width, k + 1))
  {
    GridLength(start, width, n - 1);
    if k < n - 1 {
      GridAt(start, width, n - 1, k);
    }
  }

  lemma {:induction false} GridLength(start: int, width: int, n: nat)
    ensures |Grid(start, width, n)| == n
  {
    if n > 0 {
      GridLength(start, width, n - 1);
    }
  }

  lemma AlignDownMultiple(value: int, d: int)
    requires d > 0
    ensures AlignDown(value, d) % d == 0 && AlignDown(value, d) <= value < AlignDown(value, d) + d
  {
    MultipleMod(value / d, d);
  }

  /** The cursor loop between two aligned bounds: whole chunks, none cut short by the bound. */
  method ChunksBetween(startBound: int, endBound: int, chunkMs: int) returns (chunks: seq<Chunk>)
    requires chunkMs > 0 && startBound % chunkMs == 0 && endBound % chunkMs == 0 && startBound <= endBound
    requires IsTime(startBound) && IsTime(endBound)
    ensures chunks == Grid(startBound, chunkMs, |chunks|) && Boundary(startBound, chunkMs, |chunks|) == endBound
  {
    chunks := [];
    var cursor := startBound;
    while cursor < endBound
      invariant I64_MIN <= cursor == Boundary(startBound, chunkMs, |chunks|) <= endBound
      invariant chunks == Grid(startBound, chunkMs, |chunks|)
      decreases endBound - cursor
    {
      BoundaryMod(startBound, chunkMs, |chunks|);
      MultiplesApart(cursor, endBound, chunkMs);
      var end := Min(Saturate(cursor + chunkMs), endBound);
      if end > cursor {
        chunks := chunks + [Chunk(cursor, end)];
      }
      cursor := end;
    }
  }

  lemma CountIsUnique(start: int, d: int, n: nat, m: nat)
    requires d > 0 && Boundary(start, d, n) == start + m * d
    ensures n == m
  {
    BoundaryIsLinear(start, d, n);
    MultipleMod(n, d);
    MultipleMod(m, d);
  }

  lemma BoundaryWithin(start: int, d: int, n: nat, k: nat)
    requires d > 0 && k <= n
    ensures start <= Boundary(start, d, k) <= start + n * d
  {
    BoundaryIsLinear(start, d, n);
    if 0 < k {
      BoundaryGrows(start, d, 0, k);
    }
    if k < n {
      BoundaryGrows(start, d, k, n);
    }
  }

  /** The chunk list is exactly the grid: contiguous, equally wide, aligned, lookback over chunk in number. */
  method BootstrapChunks(args: Args, now: int) returns (chunks: seq<Chunk>)
    requires Validated(args) && FitsI64(args, now)
    ensures chunks == BootstrapGrid(args, now) && chunks != []
    ensures forall k :: 0 <= k < |chunks| ==> chunks[k].end == chunks[k].start + args.chunkHours * HOUR_MS
    ensures forall k :: 0 <= k < |chunks| - 1 ==> chunks[k].end == chunks[k + 1].start
    ensures chunks[0].start == chunks[|chunks| - 1].end - args.lookbackDays * DAY_MS
    ensures var newest := chunks[|chunks| - 1].end; newest <= now - HOUR_MS < newest + args.chunkHours * HOUR_MS
  {
    hide BootstrapGrid, FitsI64, Validated;
    GridLiesInTime(args, now);
    chunks := CollectChunks(args, now);
  }

  method CollectChunks(args: Args, now: int) returns (chunks: seq<Chunk>)
    requires Validated(args) && FitsI64(args, now)
    ensures chunks == BootstrapGrid(args, now)
  {
    var lookbackMs := Saturate(Saturate(args.lookbackDays * 24) * HOUR_MS);
    var chunkMs := Saturate(args.chunkHours * HOUR_MS);
    if chunkMs <= 0 {
      return [];
    }
    var endBound := AlignDown(Saturate(now - HOUR_MS), chunkMs);
    var startBound := AlignDown(Saturate(endBound - lookbackMs), chunkMs);
    StartBoundAligned(args, now);
    chunks := ChunksBetween(startBound, endBound, chunkMs);
    ChunkDividesLookback(args);
    CountIsUnique(startBound, chunkMs, |chunks|, ChunkCount(args));
  }

  lemma StartBoundAligned(args: Args, now: int)
    requires Validated(args)
    ensures var start := EndBound(args, now) - LookbackMs(args);
            start % ChunkMs(args) == 0 && AlignDown(start, ChunkMs(args)) == start
            && EndBound(args, now) % ChunkMs(args) == 0
  {
    ChunkDividesLookback(args);
    var d, q, n := ChunkMs(args), (now - HOUR_MS) / ChunkMs(args), ChunkCount(args);
    assert EndBound(args, now) - LookbackMs(args) == q * d - n * d == (q - n) * d;
    MultipleMod(q - n, d);
    MultipleMod(q, d);
  }

  /**
   Where the grid lies: whole chunks end to end, from the lookback before its
   end, which is the last chunk boundary at least an hour ago.
   */
  lemma GridLiesInTime(args: Args, now: int)
    requires Validated(args)
    ensures var grid := BootstrapGrid(args, now);
            && grid != []
            && (forall k :: 0 <= k < |grid| ==> grid[k].end == grid[k].start + args.chunkHours * HOUR_MS)
            && (forall k :: 0 <= k < |grid| - 1 ==> grid[k].end == grid[k + 1].start)
            && grid[0].start == grid[|grid| - 1].end - args.lookbackDays * DAY_MS
            && grid[|grid| - 1].end <= now - HOUR_MS < grid[|grid| - 1].end + args.chunkHours * HOUR_MS
            && grid[|grid| - 1].end % (args.chunkHours * HOUR_MS) == 0
  {
    var start, d, n := EndBound(args, now) - LookbackMs(args), ChunkMs(args), ChunkCount(args);
    ChunkDividesLookback(args);
    StartBoundAligned(args, now);
    AlignDownMultiple(now - HOUR_MS, d);
    GridLength(start, d, n);
    SomeChunks(args);
    forall k: nat | k < n
      ensures Grid(start, d, n)[k] == Chunk(Boundary(start, d, k), Boundary(start, d, k) + d)
    {
      GridAt(start, d, n, k);
    }
    assert Grid(start, d, n)[0] == Chunk(Boundary(start, d, 0), Boundary(start, d, 0) + d);
    assert Grid(start, d, n)[n - 1] == Chunk(Boundary(start, d, n - 1), Boundary(start, d, n));
    BoundaryIsLinear(start, d, n);
    forall k: nat | k < n - 1
      ensures Grid(start, d, n)[k].end == Grid(start, d, n)[k + 1].start
    {
      assert Boundary(start, d, k + 1) == Boundary(start, d, k) + d;
    }
  }

  lemma SomeChunks(args: Args)
    requires Validated(args)
    ensures ChunkCount(args) > 0
  {
    ChunkDividesLookback(args);
    MulBounds(ChunkMs(args), ChunkCount(args));
    assert LookbackMs(args) > 0;
  }

  /** Two clock readings in the same cell name the same chunks. */
  lemma GridIsStable(args: Args, now1: int, now2: int)
    requires Validated(args)
    requires (now1 - HOUR_MS) / ChunkMs(args) == (now2 - HOUR_MS) / ChunkMs(args)
    ensures BootstrapGrid(args, now1) == BootstrapGrid(args, now2)
  {
  }

  lemma {:induction false} GridShifts(start: int, width: int, n: nat, k: nat, j: nat)
    requires j + k < n
    ensures |Grid(start, width, n)| == n == |Grid(Boundary(start, width, k), width, n)|
    ensures Grid(start, width, n)[j + k] == Grid(Boundary(start, width, k), width, n)[j]
  {
    GridAt(start, width, n, j + k);
    GridAt(Boundary(start, width, k), width, n, j);
    BoundaryAdds(start, width, k, j);
    BoundaryAdds(start, width, k, j + 1);
  }

  lemma {:induction false} BoundaryAdds(start: int, step: int, k: nat, j: nat)
    ensures Boundary(Boundary(start, step, k), step, j) == Boundary(start, step, k + j)
  {
    if j > 0 {
      BoundaryAdds(start, step, k, j - 1);
    }
  }

  /**
   When the clock moves on by k cells, the k oldest chunks drop out and every
   other chunk keeps its place in time, so markers keep naming the same chunks.
   */
  lemma GridMovesByCells(args: Args, now1: int, now2: int, k: nat)
    requires Validated(args)
    requires (now2 - HOUR_MS) / ChunkMs(args) == (now1 - HOUR_MS) / ChunkMs(args) + k
    requires k <= ChunkCount(args)
    ensures |BootstrapGrid(args, now1)| == |BootstrapGrid(args, now2)| == ChunkCount(args)
    ensures BootstrapGrid(args, now1)[k..] == BootstrapGrid(args, now2)[..ChunkCount(args) - k]
  {
    ChunkDividesLookback(args);
    var d, n, q := ChunkMs(args), ChunkCount(args), (now1 - HOUR_MS) / ChunkMs(args);
    var start1 := EndBound(args, now1) - LookbackMs(args);
    assert (q + k) * d == q * d + k * d;
    BoundaryIsLinear(start1, d, k);
    assert EndBound(args, now2) - LookbackMs(args) == Boundary(start1, d, k);
    GridLength(start1, d, n);
    GridLength(Boundary(start1, d, k), d, n);
    forall j: nat | j < n - k
      ensures BootstrapGrid(args, now1)[k..][j] == BootstrapGrid(args, now2)[..n - k][j]
    {
      GridShifts(start1, d, n, k, j);
    }
  }

  // -------------------------------------------------------------- sub-chunks

  function Subchunks(chunk: Chunk, interval: int): seq<Chunk>
    decreases chunk.end - chunk.start
  {
    if interval <= 0 || chunk.end <= chunk.start then []
    else
      var end := Min(chunk.start + interval, chunk.end);
      [Chunk(chunk.start, end)] + Subchunks(Chunk(end, chunk.end), interval)
  }

  method NormalizeSubchunks(args: Args, chunk: Chunk) returns (chunks: seq<Chunk>)
    requires IsTime(chunk.start) && IsTime(chunk.end)
    ensures chunks == Subchunks(chunk, args.interval)
  {
    if args.interval <= 0 || chunk.end <= chunk.start {
      return [];
    }
    chunks := [];
    var cursor := chunk.start;
    while cursor < chunk.end
      invariant chunk.start <= cursor <= chunk.end
      invariant Subchunks(chunk, args.interval) == chunks + Subchunks(Chunk(cursor, chunk.end), args.interval)
      decreases chunk.end - cursor
    {
      var end := Min(Saturate(cursor + args.interval), chunk.end);
      if end <= cursor {
        break;
      }
      assert Subchunks(Chunk(cursor, chunk.end), args.interval) ==
             [Chunk(cursor, end)] + Subchunks(Chunk(end, chunk.end), args.interval);
      chunks := chunks + [Chunk(cursor, end)];
      cursor := end;
    }
  }

  /** Sub-chunks tile their chunk: they start where it starts, end where it ends, and meet end to start. */
  lemma {:induction false} SubchunksTile(chunk: Chunk, interval: int)
    requires interval > 0 && chunk.start < chunk.end
    ensures var subs := Subchunks(chunk, interval);
            && subs != []
            && subs[0].start == chunk.start
            && subs[|subs| - 1].end == chunk.end
            && (forall i :: 0 <= i < |subs| ==> subs[i].start < subs[i].end <= subs[i].start + interval)
            && (forall i :: 0 <= i < |subs| - 1 ==> subs[i].end == subs[i + 1].start)
            && (forall i :: 0 <= i < |subs| - 1 ==> subs[i].end == subs[i].start + interval)
    decreases chunk.end - chunk.start
  {
    var end := Min(chunk.start + interval, chunk.end);
    var rest := Subchunks(Chunk(end, chunk.end), interval);
    if end < chunk.end {
      SubchunksTile(Chunk(end, chunk.end), interval);
    } else {
      assert rest == [];
    }
  }

  /** The arguments a bootstrap normalizer is started with: an explicit range, one-second windows. */
  function NormalizerArgs(args: Args, sub: Chunk): WS.Args
  {
    WS.Args(Some(sub.start), Some(sub.end), args.interval, WINDOW_MS,
            300_000, 3_600_000, 360_000, 192, true, false, 900_000)
  }

  function NormalizerDecision(args: Args, sub: Chunk, now: int): WS.Decision
    requires 0 < args.interval <= I64_MAX
  {
    WS.DecideMode(NormalizerArgs(args, sub), now, None, None)
  }

  ghost predicate Accepted(args: Args, sub: Chunk)
    requires 0 < args.interval <= I64_MAX
  {
    forall now :: NormalizerDecision(args, sub, now) == WS.Selected(WS.Backfill, Range(sub.start, sub.end))
  }

  lemma AcceptedIff(args: Args, sub: Chunk)
    requires 0 < args.interval <= I64_MAX
    ensures Accepted(args, sub) <==> WS.RangeAccepted(Range(sub.start, sub.end), WINDOW_MS, args.interval)
  {
    assert NormalizerDecision(args, sub, 0) == NormalizerDecision(args, sub, 0);
  }

  lemma {:induction false} AlignedSubchunksAccepted(args: Args, chunk: Chunk)
    requires 0 < args.interval <= I64_MAX && args.interval % WINDOW_MS == 0
    requires 0 <= chunk.start && chunk.start % args.interval == 0 && chunk.end % args.interval == 0
    ensures forall sub :: sub in Subchunks(chunk, args.interval) ==> Accepted(args, sub)
    decreases chunk.end - chunk.start
  {
    if chunk.start < chunk.end {
      var i := args.interval;
      MultiplesApart(chunk.start, chunk.end, i);
      ModShift(chunk.start, i);
      var first := Chunk(chunk.start, chunk.start + i);
      MultipleOfMultiple(first.start, i, WINDOW_MS);
      MultipleOfMultiple(first.end, i, WINDOW_MS);
      AcceptedIff(args, first);
      AlignedSubchunksAccepted(args, Chunk(first.end, chunk.end));
    }
  }

  /**
   The supervisor-to-normalizer contract: every sub-chunk is accepted as a
   BACKFILL range exactly when both ends of the chunk lie on the interval.
   */
  lemma SubchunksAcceptedIff(args: Args, chunk: Chunk)
    requires 0 < args.interval <= I64_MAX && args.interval % WINDOW_MS == 0
    requires 0 <= chunk.start < chunk.end
    ensures (forall sub :: sub in Subchunks(chunk, args.interval) ==> Accepted(args, sub)) <==>
            chunk.start % args.interval == 0 && chunk.end % args.interval == 0
  {
    if chunk.start % args.interval == 0 && chunk.end % args.interval == 0 {
      AlignedSubchunksAccepted(args, chunk);
    } else {
      var subs := Subchunks(chunk, args.interval);
      SubchunksTile(chunk, args.interval);
      assert subs[0] in subs && subs[|subs| - 1] in subs;
      AcceptedIff(args, subs[0]);
      AcceptedIff(args, subs[|subs| - 1]);
    }
  }

  /** With an interval dividing the chunk width, every chunk of the grid from time zero on satisfies the contract. */
  lemma GridChunksAccepted(args: Args, now: int, chunk: Chunk)
    requires Validated(args) && args.interval <= I64_MAX && args.interval % WINDOW_MS == 0
    requires ChunkMs(args) % args.interval == 0
    requires chunk in BootstrapGrid(args, now) && 0 <= chunk.start
    ensures forall sub :: sub in Subchunks(chunk, args.interval) ==> Accepted(args, sub)
  {
    ChunkDividesLookback(args);
    StartBoundAligned(args, now);
    var start, d, n := EndBound(args, now) - LookbackMs(args), ChunkMs(args), ChunkCount(args);
    GridLength(start, d, n);
    var k: nat :| k < n && Grid(start, d, n)[k] == chunk;
    GridAt(start, d, n, k);
    BoundaryMod(start, d, k);
    BoundaryMod(start, d, k + 1);
    MultipleOfMultiple(chunk.start, d, args.interval);
    MultipleOfMultiple(chunk.end, d, args.interval);
    AlignedSubchunksAccepted(args, chunk);
  }
}
