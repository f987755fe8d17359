/**
 The normalizer's window scheduler: which window to run next, the out-of-order
 live-priority window, and the drain loop that runs windows until none is ready.
 Times are i64 milliseconds; saturation and truncating division are explicit.
 */
module WindowScheduler {
  import opened Wrappers
  import opened Arithmetic
  import opened Times

  datatype Mode = Live | CatchUp | Backfill

  datatype Decision = NotReady | Refused | Selected(mode: Mode, range: Range)

  datatype Args = Args(
    inputStart: Option<int>,
    inputEnd: Option<int>,
    interval: int,
    windowMs: int,
    scanMargin: int,
    projectionLookback: int,
    watermark: int,
    maxWindowsPerTick: nat,
    livePriority: bool,
    livePriorityOnly: bool,
    lagThreshold: int)

  /** What argument parsing accepts. */
  predicate Validated(args: Args)
  {
    && 0 < args.interval <= I64_MAX && 0 < args.windowMs <= I64_MAX
    && 0 < args.scanMargin <= args.watermark <= I64_MAX
    && 0 < args.projectionLookback <= I64_MAX && 0 < args.lagThreshold <= I64_MAX
  }

  predicate IsCursor(c: Option<int>) { c.Some? ==> IsTime(c.value) }

  /** A clock reading short of the very last millisecond of i64, so that no sum below reaches it by saturating. */
  predicate IsNow(t: int) { I64_MIN <= t < I64_MAX }

  function AlignFloor(value: int, interval: int): int
  {
    if interval <= 0 then value else Saturate(value - value % interval)
  }

  predicate RangeAccepted(r: Range, windowMs: int, interval: int)
  {
    && 0 <= r.start < r.end
    && (windowMs > 0 ==> r.start % windowMs == 0 && r.end % windowMs == 0)
    && (interval > 0 ==> r.start % interval == 0 && r.end % interval == 0)
  }

  function ReadyEnd(now: int, interval: int): int
    requires interval > 0
  {
    TruncDiv(now, interval) * interval
  }

  function DecideLivePriority(args: Args, now: int, last: Option<int>): Decision
    requires Validated(args)
  {
    var readyEnd := ReadyEnd(now, args.interval);
    if !args.livePriority || args.inputStart.Some? then NotReady
    else if readyEnd <= 0 || now < Saturate(readyEnd + args.watermark) then NotReady
    else if last.Some? && last.value >= readyEnd then NotReady
    else if last.Some? && Saturate(readyEnd - last.value) < args.lagThreshold then NotReady
    else
      var r := Range(Saturate(readyEnd - args.interval), readyEnd);
      if RangeAccepted(r, args.windowMs, args.interval) then Selected(Live, r) else Refused
  }

  /** Where sequential work begins: after the last success, else at the oldest L0 object. */
  function StartCursor(args: Args, last: Option<int>, oldest: Option<int>): Option<int>
  {
    match (last, oldest)
    case (Some(v), _) => Some(AlignFloor(v, args.interval))
    case (None, Some(v)) => Some(AlignFloor(AlignFloor(v, args.interval), args.interval))
    case (None, None) => None
  }

  function DecideMode(args: Args, now: int, last: Option<int>, oldest: Option<int>): Decision
    requires Validated(args)
  {
    if args.inputStart.Some? && args.inputEnd.Some? then
      var r := Range(args.inputStart.value, args.inputEnd.value);
      if RangeAccepted(r, args.windowMs, args.interval) then Selected(Backfill, r) else Refused
    else
      var readyEnd := ReadyEnd(now, args.interval);
      match StartCursor(args, last, oldest)
      case None => NotReady
      case Some(start) =>
        var end := Saturate(start + args.interval);
        if end > readyEnd then NotReady
        else if !RangeAccepted(Range(start, end), args.windowMs, args.interval) then Refused
        else if end == readyEnd && now < Saturate(readyEnd + args.watermark) then NotReady
        else Selected(if end == readyEnd then Live else CatchUp, Range(start, end))
  }

  // ------------------------------------------------------------ arithmetic

  lemma ReadyEndBounds(now: int, interval: int)
    requires interval > 0
    ensures ReadyEnd(now, interval) % interval == 0
    ensures now >= 0 ==> now - interval < ReadyEnd(now, interval) <= now
    ensures now < 0 ==> ReadyEnd(now, interval) <= 0
  {
    var q := TruncDiv(now, interval);
    MultipleMod(q, interval);
    if now < 0 {
      assert q <= 0;
    }
  }

  // ------------------------------------------------------ what is decided, outright

  lemma ReadyEndIs(now: int, interval: int)
    requires interval > 0
    ensures now >= 0 ==> ReadyEnd(now, interval) == now / interval * interval
    ensures now < 0 ==> ReadyEnd(now, interval) <= 0 && now / interval * interval < 0
  {
    ReadyEndBounds(now, interval);
    if now < 0 {
      assert now / interval <= -1;
      MulBounds(interval, now / interval);
    }
  }

  /**
   Live priority selects the window that ends at the last whole interval, exactly
   when it is switched on, no range is given, that window is past its watermark,
   and the last success lags behind it by the threshold.
   */
  lemma LiveSelectedIff(args: Args, now: int, last: Option<int>)
    requires Validated(args) && IsNow(now) && IsCursor(last) && args.interval % args.windowMs == 0
    ensures var e := now / args.interval * args.interval;
            DecideLivePriority(args, now, last) ==
            if args.livePriority && args.inputStart.None? && e > 0 && now >= e + args.watermark
               && (last.Some? ==> last.value < e && e - last.value >= args.lagThreshold)
            then Selected(Live, Range(e - args.interval, e)) else NotReady
  {
    var e, i := now / args.interval * args.interval, args.interval;
    ReadyEndIs(now, i);
    ReadyEndBounds(now, i);
    if e > 0 {
      MultiplesApart(0, e, i);
      ModShift(e, i);
      MultipleOfMultiple(e, i, args.windowMs);
      MultipleOfMultiple(e - i, i, args.windowMs);
    }
  }

  /**
   From a success or an oldest object at v, sequential work selects the window v
   falls in, exactly when it ends by the last whole interval and, ending right
   there, is past its watermark; that one is LIVE, every earlier one CATCH-UP.
   */
  lemma SequentialSelectedIff(args: Args, now: int, v: int)
    requires Validated(args) && args.inputStart.None? && IsNow(now) && IsTime(v) && 0 <= v
    requires args.interval % args.windowMs == 0
    ensures var e, start := now / args.interval * args.interval, v - v % args.interval;
            var end := start + args.interval;
            var d := if end < e then Selected(CatchUp, Range(start, end))
                     else if end == e && now >= e + args.watermark then Selected(Live, Range(start, end))
                     else NotReady;
            DecideMode(args, now, Some(v), None) == d && DecideMode(args, now, None, Some(v)) == d
  {
    var e, i, start := now / args.interval * args.interval, args.interval, v - v % args.interval;
    ReadyEndIs(now, i);
    ReadyEndBounds(now, i);
    FloorDecidesAlike(args, now, v);
    assert AlignFloor(v, i) == start;
    DecideModeAtCursor(args, now, start);
    DecidedMode(args, now, start);
  }

  lemma DecidedMode(args: Args, now: int, start: int)
    requires Validated(args) && args.inputStart.None?
    ensures var d := DecideMode(args, now, Some(start), None);
            d.Selected? ==> d.mode == if d.range.end == ReadyEnd(now, args.interval) then Live else CatchUp
  {
  }

  /** A given range is accepted exactly when it is nonempty, not negative, and on both grids; else it is an error. */
  lemma BackfillSelectedIff(args: Args, now: int, last: Option<int>, oldest: Option<int>)
    requires Validated(args) && args.inputStart.Some? && args.inputEnd.Some?
    ensures var s, e := args.inputStart.value, args.inputEnd.value;
            DecideMode(args, now, last, oldest) ==
            if 0 <= s < e && s % args.windowMs == 0 && e % args.windowMs == 0
               && s % args.interval == 0 && e % args.interval == 0
            then Selected(Backfill, Range(s, e)) else Refused
  {
  }

  // -------------------------------------------------- closed-window safety

  function ScanRange(args: Args, r: Range): Range
  {
    Range(Saturate(r.start - args.scanMargin), Saturate(r.end + args.scanMargin))
  }

  function ReadRange(args: Args, r: Range): Range
  {
    var lookback := if args.livePriorityOnly then args.scanMargin else args.projectionLookback;
    Range(Saturate(r.start - (if args.scanMargin > lookback then args.scanMargin else lookback)),
          ScanRange(args, r).end)
  }

  /**
   A scan reaches a margin beyond the window on both sides; a read reaches back
   by the lookback if that is more, so that with a lookback of an hour the
   value of an hour earlier is within reach for every instant of the window.
   */
  lemma ReadReachesBack(args: Args, r: Range)
    requires Validated(args) && 0 <= r.start <= r.end <= I64_MAX
    ensures ScanRange(args, r).start == r.start - args.scanMargin
    ensures ScanRange(args, r).end == Min(r.end + args.scanMargin, I64_MAX)
    ensures var read := ReadRange(args, r);
            && read.start <= ScanRange(args, r).start && read.end == ScanRange(args, r).end
            && (args.livePriorityOnly ==> read.start == r.start - args.scanMargin)
            && (!args.livePriorityOnly ==>
                  && read.start == r.start - (if args.scanMargin > args.projectionLookback then args.scanMargin
                                              else args.projectionLookback)
                  && (args.projectionLookback >= HOUR_MS ==> read.start <= r.start - HOUR_MS))
  {
  }

  /** A decision taken from the clock, sequential or live-priority. */
  ghost predicate ClockDecision(args: Args, now: int, last: Option<int>, oldest: Option<int>, d: Decision)
    requires Validated(args)
  {
    && d.Selected? && d.mode != Backfill
    && (d == DecideMode(args, now, last, oldest) || d == DecideLivePriority(args, now, last))
  }

  /**
   Every window taken from the clock is closed: its end lies the watermark, or a
   whole interval, in the past, it is one interval wide and aligned.
   */
  lemma DecisionsAreClosed(args: Args, now: int, last: Option<int>, oldest: Option<int>, d: Decision)
    requires Validated(args) && IsNow(now) && IsCursor(last) && IsCursor(oldest)
    requires ClockDecision(args, now, last, oldest, d)
    ensures now >= d.range.end + Min(args.watermark, args.interval)
    ensures d.mode == Live ==> now >= d.range.end + args.watermark && d.range.end == ReadyEnd(now, args.interval)
    ensures d.mode == CatchUp ==> now >= d.range.end + args.interval
    ensures d.range.end == d.range.start + args.interval
    ensures RangeAccepted(d.range, args.windowMs, args.interval)
    ensures d.mode == Live ==> ScanRange(args, d.range).end <= now && ReadRange(args, d.range).end <= now
    ensures d.mode == CatchUp && args.scanMargin <= args.interval ==> ScanRange(args, d.range).end <= now
  {
    var readyEnd := ReadyEnd(now, args.interval);
    ReadyEndBounds(now, args.interval);
    if d == DecideMode(args, now, last, oldest) && d.mode == CatchUp {
      MultiplesApart(d.range.end, readyEnd, args.interval);
    }
  }

  ghost predicate CatchUpScansThePast(args: Args)
    requires Validated(args)
  {
    forall now, last, oldest, r ::
      && IsNow(now) && IsCursor(last) && IsCursor(oldest)
      && DecideMode(args, now, last, oldest) == Selected(CatchUp, r)
      ==> ScanRange(args, r).end <= now
  }

  lemma WideMarginScansTheFuture(args: Args)
    requires Validated(args) && args.inputStart.None? && args.interval % args.windowMs == 0
    requires args.interval < args.scanMargin && args.interval + args.scanMargin <= I64_MAX
    ensures DecideMode(args, 2 * args.interval, Some(0), None) == Selected(CatchUp, Range(0, args.interval))
    ensures ScanRange(args, Range(0, args.interval)).end > 2 * args.interval
  {
    var i := args.interval;
    MultipleMod(2, i);
    MultipleMod(0, args.windowMs);
    assert ReadyEnd(2 * i, i) == 2 * i;
    assert StartCursor(args, Some(0), None) == Some(0);
    assert RangeAccepted(Range(0, i), args.windowMs, i);
  }

  /**
   The bound on CATCH-UP scans is exact: with a margin wider than the interval
   there is a moment at which a CATCH-UP scan reaches into the future.
   */
  lemma CatchUpScansThePastIff(args: Args)
    requires Validated(args) && args.inputStart.None? && args.interval % args.windowMs == 0
    requires args.interval + args.scanMargin <= I64_MAX
    ensures CatchUpScansThePast(args) <==> args.scanMargin <= args.interval
  {
    if args.scanMargin <= args.interval {
      forall now, last, oldest, r |
        && IsNow(now) && IsCursor(last) && IsCursor(oldest)
        && DecideMode(args, now, last, oldest) == Selected(CatchUp, r)
        ensures ScanRange(args, r).end <= now
      {
        DecisionsAreClosed(args, now, last, oldest, Selected(CatchUp, r));
      }
    } else {
      WideMarginScansTheFuture(args);
    }
  }

  // ------------------------------------------------------ sequential tiling

  function Window(start: int, interval: int, k: nat): Range
  {
    Range(Boundary(start, interval, k), Boundary(start, interval, k + 1))
  }

  /** Is the window beginning at an aligned cursor ready? */
  predicate Ready(args: Args, now: int, cursor: int)
    requires Validated(args)
  {
    var readyEnd := ReadyEnd(now, args.interval);
    && cursor + args.interval <= readyEnd
    && (cursor + args.interval == readyEnd ==> now >= readyEnd + args.watermark)
  }

  /** Where sequential work must stop for a given clock. */
  function LastBoundary(args: Args, now: int): int
    requires Validated(args)
  {
    var readyEnd := ReadyEnd(now, args.interval);
    if now >= readyEnd + args.watermark then readyEnd else readyEnd - args.interval
  }

  /** From an aligned nonnegative cursor, `DecideMode` selects exactly the window there, exactly when it is ready. */
  lemma DecideModeAtCursor(args: Args, now: int, cursor: int)
    requires Validated(args) && args.inputStart.None? && IsNow(now) && IsTime(cursor)
    requires args.interval % args.windowMs == 0 && 0 <= cursor && cursor % args.interval == 0
    ensures var d := DecideMode(args, now, Some(cursor), None);
            && !d.Refused?
            && (d.Selected? <==> Ready(args, now, cursor))
            && (d.Selected? ==> d.range == Range(cursor, cursor + args.interval))
  {
    ReadyEndBounds(now, args.interval);
    ModShift(cursor, args.interval);
    MultipleOfMultiple(cursor, args.interval, args.windowMs);
    MultipleOfMultiple(cursor + args.interval, args.interval, args.windowMs);
  }

  /** Feed each returned end back as the cursor until nothing is ready. */
  function Iterate(args: Args, now: int, cursor: int): seq<Range>
    requires Validated(args)
    decreases ReadyEnd(now, args.interval) - cursor
  {
    var d := DecideMode(args, now, Some(cursor), None);
    if d.Selected? && d.mode != Backfill && d.range.end > cursor
    then [d.range] + Iterate(args, now, d.range.end)
    else []
  }

  lemma IterateUnfolds(args: Args, now: int, cursor: int)
    requires Validated(args) && args.inputStart.None? && IsNow(now) && IsTime(cursor)
    requires args.interval % args.windowMs == 0 && 0 <= cursor && cursor % args.interval == 0
    ensures Ready(args, now, cursor) ==>
              && Iterate(args, now, cursor) ==
                 [Range(cursor, cursor + args.interval)] + Iterate(args, now, cursor + args.interval)
              && IsTime(cursor + args.interval) && (cursor + args.interval) % args.interval == 0
    ensures !Ready(args, now, cursor) ==> Iterate(args, now, cursor) == []
  {
    DecideModeAtCursor(args, now, cursor);
    ModShift(cursor, args.interval);
    ReadyEndBounds(now, args.interval);
  }

  /** Not ready from the last boundary on; ready everywhere on the grid before it. */
  lemma ReadyIffBeforeLastBoundary(args: Args, now: int, cursor: int)
    requires Validated(args) && cursor % args.interval == 0
    ensures Ready(args, now, cursor) <==> cursor < LastBoundary(args, now)
    ensures Ready(args, now, cursor) ==> cursor + args.interval <= LastBoundary(args, now)
  {
    var i, readyEnd := args.interval, ReadyEnd(now, args.interval);
    ReadyEndBounds(now, i);
    ModShift(readyEnd, i);
    if cursor < LastBoundary(args, now) {
      MultiplesApart(cursor, LastBoundary(args, now), i);
    }
    if cursor < readyEnd {
      MultiplesApart(cursor, readyEnd, i);
      if cursor + i < readyEnd {
        ModShift(cursor, i);
        MultiplesApart(cursor + i, readyEnd, i);
      }
    }
  }

  lemma {:induction false} IterateStops(args: Args, now: int, cursor: int)
    requires Validated(args) && args.inputStart.None? && IsNow(now) && IsTime(cursor)
    requires args.interval % args.windowMs == 0 && 0 <= cursor && cursor % args.interval == 0
    ensures var n := |Iterate(args, now, cursor)|;
            && (cursor <= LastBoundary(args, now) ==> Boundary(cursor, args.interval, n) == LastBoundary(args, now))
            && (cursor > LastBoundary(args, now) ==> n == 0)
    decreases LastBoundary(args, now) - cursor
  {
    ReadyIffBeforeLastBoundary(args, now, cursor);
    IterateUnfolds(args, now, cursor);
    if Ready(args, now, cursor) {
      IterateStops(args, now, cursor + args.interval);
      BoundaryShift(cursor, args.interval, |Iterate(args, now, cursor + args.interval)|);
    }
  }

  lemma {:induction false} IterateSteps(args: Args, now: int, cursor: int, k: nat)
    requires Validated(args) && args.inputStart.None? && IsNow(now) && IsTime(cursor)
    requires args.interval % args.windowMs == 0 && 0 <= cursor && cursor % args.interval == 0
    requires k < |Iterate(args, now, cursor)|
    ensures Iterate(args, now, cursor)[k] == Window(cursor, args.interval, k)
    decreases k
  {
    var i := args.interval;
    IterateUnfolds(args, now, cursor);
    if k > 0 {
      IterateSteps(args, now, cursor + i, k - 1);
      BoundaryShift(cursor, i, k - 1);
      BoundaryShift(cursor, i, k);
    }
  }

  /** An unaligned cursor, and an oldest object in place of a cursor, decide as their floor does. */
  lemma FloorDecidesAlike(args: Args, now: int, cursor: int)
    requires Validated(args) && IsTime(cursor) && 0 <= cursor
    ensures var floor := AlignFloor(cursor, args.interval);
            && 0 <= floor <= cursor < floor + args.interval && floor % args.interval == 0
            && DecideMode(args, now, Some(cursor), None) == DecideMode(args, now, Some(floor), None)
            && DecideMode(args, now, None, Some(cursor)) == DecideMode(args, now, Some(floor), None)
  {
    hide ReadyEnd, RangeAccepted;
    FloorBounds(cursor, args.interval);
    var floor := AlignFloor(cursor, args.interval);
    assert AlignFloor(floor, args.interval) == floor;
    assert StartCursor(args, Some(cursor), None) == StartCursor(args, Some(floor), None);
    assert StartCursor(args, None, Some(cursor)) == StartCursor(args, Some(floor), None);
  }

  lemma IterateFloors(args: Args, now: int, cursor: int)
    requires Validated(args) && args.inputStart.None? && IsNow(now) && IsTime(cursor) && 0 <= cursor
    requires args.interval % args.windowMs == 0
    ensures Iterate(args, now, cursor) == Iterate(args, now, AlignFloor(cursor, args.interval))
  {
    FloorDecidesAlike(args, now, cursor);
    DecideModeAtCursor(args, now, AlignFloor(cursor, args.interval));
  }

  /**
   Sequential catch-up tiles time: contiguous aligned windows from the floored
   cursor, stopping exactly at the last boundary the clock allows, or at once
   when the floored cursor is already past it.
   */
  lemma CatchUpTilesTime(args: Args, now: int, cursor: int)
    requires Validated(args) && args.inputStart.None? && IsNow(now) && IsTime(cursor)
    requires args.interval % args.windowMs == 0 && 0 <= cursor
    ensures var windows := Iterate(args, now, cursor);
            var start := AlignFloor(cursor, args.interval);
            && (forall k: nat :: k < |windows| ==> windows[k] == Window(start, args.interval, k))
            && (start <= LastBoundary(args, now) ==>
                  start + |windows| * args.interval == LastBoundary(args, now))
            && (start > LastBoundary(args, now) ==> windows == [])
  {
    hide DecideMode, Iterate;
    FloorDecidesAlike(args, now, cursor);
    IterateFloors(args, now, cursor);
    var start := AlignFloor(cursor, args.interval);
    IterateStops(args, now, start);
    BoundaryIsLinear(start, args.interval, |Iterate(args, now, start)|);
    forall k: nat | k < |Iterate(args, now, start)|
      ensures Iterate(args, now, start)[k] == Window(start, args.interval, k)
    {
      IterateSteps(args, now, start, k);
    }
  }

  // -------------------------------------------------------------- one tick

  /** What the outside does during a tick: clock readings, the outcome of each run, shutdown polls. */
  datatype World = World(clock: nat -> int, runOk: nat -> bool, shutdown: nat -> bool)

  /** Where sequential work stands: the last L1 success, else the oldest L0 object. */
  datatype Cursor = Cursor(last: Option<int>, oldest: Option<int>)

  predicate IsPosition(c: Cursor) { IsCursor(c.last) && IsCursor(c.oldest) }

  datatype Why = Drained(now: int) | LiveOnly | MaxWindows | ShutDown | Errored

  datatype Step = Failed | Idle | Ran(range: Range)

  /** How a tick ended, where the cursor stands, what the tick ran, and which of it was the live window. */
  datatype TickEnd = TickEnd(why: Why, cursor: Cursor, ran: seq<Range>, live: Option<Range>)

  function LiveTurn(args: Args, now: int, runOk: bool, last: Option<int>): Step
    requires Validated(args)
  {
    match DecideLivePriority(args, now, last)
    case Refused => Failed
    case NotReady => Idle
    case Selected(_, range) => if runOk then Ran(range) else Failed
  }

  function AfterLive(c: Cursor, step: Step): Cursor
  {
    if step.Ran? then Cursor(if c.last == Some(step.range.start) then Some(step.range.end) else c.last, None) else c
  }

  function SequentialTurn(args: Args, now: int, live: Option<Range>, runOk: bool, c: Cursor): Step
    requires Validated(args)
  {
    match DecideMode(args, now, c.last, c.oldest)
    case Refused => Failed
    case NotReady => Idle
    case Selected(_, range) => if live == Some(range) || runOk then Ran(range) else Failed
  }

  function Sequential(args: Args, w: World, turn: nat, processed: nat, live: Option<Range>, c: Cursor): TickEnd
    requires Validated(args)
    decreases args.maxWindowsPerTick - processed
  {
    if w.shutdown(2 * turn) then TickEnd(ShutDown, c, [], live)
    else if processed >= args.maxWindowsPerTick then TickEnd(MaxWindows, c, [], live)
    else match SequentialTurn(args, w.clock(turn), live, w.runOk(turn), c)
      case Failed => TickEnd(Errored, c, [], live)
      case Idle => TickEnd(Drained(w.clock(turn)), c, [], live)
      case Ran(range) =>
        var next, mine := Cursor(Some(range.end), None), if live == Some(range) then [] else [range];
        if w.shutdown(2 * turn + 1) then TickEnd(ShutDown, next, mine, live)
        else
          var rest := Sequential(args, w, turn + 1, processed + 1, live, next);
          rest.(ran := mine + rest.ran)
  }

  function Tick(args: Args, w: World, c: Cursor): TickEnd
    requires Validated(args)
  {
    var step := LiveTurn(args, w.clock(0), w.runOk(0), c.last);
    var live := if step.Ran? then Some(step.range) else None;
    var turns := |LiveRuns(live)|;
    if step.Failed? then TickEnd(Errored, c, [], None)
    else if args.livePriorityOnly then TickEnd(LiveOnly, AfterLive(c, step), LiveRuns(live), live)
    else
      var rest := Sequential(args, w, turns, turns, live, AfterLive(c, step));
      rest.(ran := LiveRuns(live) + rest.ran, live := live)
  }

  lemma Reassociate(a: seq<Range>, b: seq<Range>, c: seq<Range>)
    ensures a + (b + c) == a + b + c
  {
  }

  lemma SequentialStops(args: Args, w: World, turn: nat, processed: nat, live: Option<Range>, c: Cursor)
    requires Validated(args)
    ensures var t := Sequential(args, w, turn, processed, live, c);
            && (w.shutdown(2 * turn) ==> t == TickEnd(ShutDown, c, [], live))
            && (!w.shutdown(2 * turn) && processed >= args.maxWindowsPerTick ==> t == TickEnd(MaxWindows, c, [], live))
  {
  }

  /** One turn of the loop, as the loop body meets it. */
  lemma SequentialUnfolds(args: Args, w: World, turn: nat, processed: nat, live: Option<Range>, c: Cursor)
    requires Validated(args) && !w.shutdown(2 * turn) && processed < args.maxWindowsPerTick
    ensures var t := Sequential(args, w, turn, processed, live, c);
            var step := SequentialTurn(args, w.clock(turn), live, w.runOk(turn), c);
            if !step.Ran? then t == TickEnd(if step.Failed? then Errored else Drained(w.clock(turn)), c, [], live)
            else
              var next := Cursor(Some(step.range.end), None);
              var mine := if live == Some(step.range) then [] else [step.range];
              var rest := Sequential(args, w, turn + 1, processed + 1, live, next);
              t == if w.shutdown(2 * turn + 1) then TickEnd(ShutDown, next, mine, live)
                   else rest.(ran := mine + rest.ran)
  {
    hide SequentialTurn;
  }

  function LiveRuns(live: Option<Range>): seq<Range>
  {
    if live.Some? then [live.value] else []
  }

  /**
   The worker's in-memory cursor and the ranges it has run. `runOk` stands for
   the outcome of reading, building and publishing one range.
   */
  class Worker {
    var last: Option<int>
    var oldest: Option<int>
    var runs: seq<Range>

    constructor (last: Option<int>, oldest: Option<int>)
      ensures this.last == last && this.oldest == oldest && runs == []
    {
      this.last, this.oldest, runs := last, oldest, [];
    }

    /** Runs the live-priority window; moves the cursor only when the window starts right at it. */
    method RunLivePriorityDecision(args: Args, now: int, runOk: bool) returns (step: Step)
      requires Validated(args)
      modifies this`last, this`runs
      ensures var d := DecideLivePriority(args, now, old(last));
              && (step.Ran? <==> d.Selected? && runOk)
              && (step.Idle? <==> d.NotReady?)
              && (step.Ran? ==> d == Selected(Live, step.range))
      ensures step.Ran? ==>
                && runs == old(runs) + [step.range]
                && last == (if old(last) == Some(step.range.start) then Some(step.range.end) else old(last))
      ensures !step.Ran? ==> runs == old(runs) && last == old(last)
    {
      var d := DecideLivePriority(args, now, last);
      if d.Refused? {
        return Failed;
      }
      if d.NotReady? {
        return Idle;
      }
      if !runOk {
        return Failed;
      }
      runs := runs + [d.range];
      if last == Some(d.range.start) {
        last := Some(d.range.end);
      }
      return Ran(d.range);
    }

    /** Runs the next sequential window unless live priority already ran that very range. */
    method RunNextReadyDecision(args: Args, now: int, live: Option<Range>, runOk: bool) returns (step: Step)
      requires Validated(args)
      modifies this`runs
      ensures var d := DecideMode(args, now, last, oldest);
              && (step.Ran? <==> d.Selected? && (runOk || live == Some(d.range)))
              && (step.Idle? <==> d.NotReady?)
              && (step.Ran? ==> d.range == step.range)
      ensures runs == old(runs) + (if step.Ran? && live != Some(step.range) then [step.range] else [])
    {
      var d := DecideMode(args, now, last, oldest);
      if d.Refused? {
        return Failed;
      }
      if d.NotReady? {
        return Idle;
      }
      if live == Some(d.range) {
        return Ran(d.range);
      }
      if !runOk {
        return Failed;
      }
      runs := runs + [d.range];
      return Ran(d.range);
    }

    /** The sequential part of a tick. */
    method DrainSequential(args: Args, w: World, live: Option<Range>, firstTurn: nat) returns (why: Why)
      requires Validated(args)
      modifies this
      ensures var t := Sequential(args, w, firstTurn, firstTurn, live, Cursor(old(last), old(oldest)));
              why == t.why && Cursor(last, oldest) == t.cursor && runs == old(runs) + t.ran
    {
      hide DecideMode, Sequential, Validated;
      var processed, turn := firstTurn, firstTurn;
      ghost var all, done := Sequential(args, w, firstTurn, firstTurn, live, Cursor(last, oldest)), [];
      while true
        invariant runs == old(runs) + done
        invariant var rest := Sequential(args, w, turn, processed, live, Cursor(last, oldest));
                  all.why == rest.why && all.cursor == rest.cursor && all.ran == done + rest.ran
        decreases args.maxWindowsPerTick - processed
      {
        SequentialStops(args, w, turn, processed, live, Cursor(last, oldest));
        if w.shutdown(2 * turn) {
          return ShutDown;
        }
        if processed >= args.maxWindowsPerTick {
          return MaxWindows;
        }
        SequentialUnfolds(args, w, turn, processed, live, Cursor(last, oldest));
        var now := w.clock(turn);
        var step := RunNextReadyDecision(args, now, live, w.runOk(turn));
        if !step.Ran? {
          return if step.Failed? then Errored else Drained(now);
        }
        processed := processed + 1;
        ghost var mine := if live == Some(step.range) then [] else [step.range];
        Reassociate(done, mine, Sequential(args, w, turn + 1, processed, live, Cursor(Some(step.range.end), None)).ran);
        assert runs == old(runs) + (done + mine);
        done := done + mine;
        last, oldest := Some(step.range.end), None;
        if w.shutdown(2 * turn + 1) {
          return ShutDown;
        }
        turn := turn + 1;
      }
    }

    /**
     One tick. The clock is read afresh before every window and may read
     anything; any run may fail; shutdown may come at any time.
     */
    method DrainReadyWindows(args: Args, w: World) returns (why: Why, live: Option<Range>)
      requires Validated(args)
      modifies this
      ensures var t := Tick(args, w, Cursor(old(last), old(oldest)));
              why == t.why && live == t.live && Cursor(last, oldest) == t.cursor && runs == old(runs) + t.ran
    {
      hide DecideLivePriority, Sequential;
      var step := RunLivePriorityDecision(args, w.clock(0), w.runOk(0));
      live := if step.Ran? then Some(step.range) else None;
      if step.Failed? {
        return Errored, live;
      }
      if step.Ran? {
        oldest := None;
      }
      if args.livePriorityOnly {
        return LiveOnly, live;
      }
      why := DrainSequential(args, w, live, if step.Ran? then 1 else 0);
    }
  }

  // ------------------------------------------------- what a tick runs, always

  /** The first n windows from start, leaving out the one live priority has already run. */
  function SequentialRuns(start: int, interval: int, n: nat, live: Option<Range>): seq<Range>
  {
    if n == 0 then []
    else
      var w := Window(start, interval, n - 1);
      SequentialRuns(start, interval, n - 1, live) + (if live == Some(w) then [] else [w])
  }

  /** The same, with the first window split off. */
  lemma {:induction false} SequentialRunsUnfold(start: int, interval: int, n: nat, live: Option<Range>)
    ensures SequentialRuns(start, interval, n + 1, live) ==
            (if live == Some(Range(start, start + interval)) then [] else [Range(start, start + interval)])
            + SequentialRuns(start + interval, interval, n, live)
  {
    var first := if live == Some(Range(start, start + interval)) then [] else [Range(start, start + interval)];
    if n == 0 {
      assert Window(start, interval, 0) == Range(start, start + interval);
      assert SequentialRuns(start, interval, 0, live) == [];
      assert SequentialRuns(start, interval, 1, live) == [] + first;
    } else {
      SequentialRunsUnfold(start, interval, n - 1, live);
      BoundaryShift(start, interval, n - 1);
      BoundaryShift(start, interval, n);
      assert Window(start, interval, n) == Window(start + interval, interval, n - 1);
    }
  }

  function Position(args: Args, c: Cursor): Option<int> { StartCursor(args, c.last, c.oldest) }

  /** One sequential turn: it can only run the window at the cursor, and only when that window is ready. */
  lemma TurnAtPosition(args: Args, now: int, live: Option<Range>, runOk: bool, c: Cursor)
    requires Validated(args) && args.inputStart.None? && IsNow(now) && IsPosition(c)
    ensures var step := SequentialTurn(args, now, live, runOk, c);
            var at := Position(args, c);
            && (step.Ran? ==>
                  && at.Some? && step.range == Range(at.value, at.value + args.interval)
                  && 0 <= at.value && at.value % args.interval == 0 && IsTime(step.range.end)
                  && Ready(args, now, at.value) && (runOk || live == Some(step.range))
                  && Position(args, Cursor(Some(step.range.end), None)) == Some(step.range.end))
            && (step.Idle? ==> at.None? || !Ready(args, now, at.value))
            && (step.Failed? ==> at.Some? && (!runOk || Misfit(args, now, at.value)))
  {
    var d := DecideMode(args, now, c.last, c.oldest);
    ReadyEndBounds(now, args.interval);
    if d.Selected? {
      DecisionsAreClosed(args, now, c.last, c.oldest, d);
      assert AlignFloor(d.range.end, args.interval) == d.range.end;
    }
  }

  /** Everything the sequential part can have done: the first m windows from where it stood, and why it stopped. */
  ghost predicate Account(args: Args, w: World, turn: nat, processed: nat, live: Option<Range>, c: Cursor,
                          t: TickEnd, m: nat)
    requires Validated(args)
  {
    var at := Position(args, c);
    && t.live == live && (m > 0 ==> at.Some?)
    && (at.None? ==> t.ran == [] && t.cursor == c)
    && (at.Some? ==>
          && t.ran == SequentialRuns(at.value, args.interval, m, live)
          && Position(args, t.cursor) == Some(Boundary(at.value, args.interval, m))
          && (forall k: nat :: k < m && StandsStill(w) ==>
                Ready(args, w.clock(0), Boundary(at.value, args.interval, k))))
    && StopCause(args, w, t.why, turn + m, processed + m, m > 0, Position(args, t.cursor))
  }

  /**
   Why the loop stopped at this turn, with so many windows processed, `ran` or
   not one of its own, and the cursor at this position: each reason has its
   cause in the poll, the limit, the clock reading or the run of that very turn.
   */
  predicate StopCause(args: Args, w: World, why: Why, turn: nat, processed: nat, ran: bool, at: Option<int>)
    requires Validated(args)
  {
    match why
    case ShutDown => w.shutdown(2 * turn) || (ran && turn > 0 && w.shutdown(2 * turn - 1))
    case MaxWindows => processed >= args.maxWindowsPerTick && (ran ==> processed == args.maxWindowsPerTick)
    case Drained(now) =>
      && now == w.clock(turn) && processed < args.maxWindowsPerTick
      && (at.Some? ==> !Ready(args, now, at.value))
    case Errored =>
      && at.Some? && processed < args.maxWindowsPerTick
      && (!w.runOk(turn) || Misfit(args, w.clock(turn), at.value))
    case LiveOnly => false
  }

  ghost predicate StandsStill(w: World)
  {
    forall k: nat :: w.clock(k) == w.clock(0)
  }

  ghost predicate Ticking(w: World)
  {
    forall k: nat :: IsNow(w.clock(k))
  }

  /** A window that is due but that range validation refuses: before time zero, or off the row width's grid. */
  predicate Misfit(args: Args, now: int, start: int)
    requires Validated(args)
  {
    var end := Saturate(start + args.interval);
    end <= ReadyEnd(now, args.interval) && !RangeAccepted(Range(start, end), args.windowMs, args.interval)
  }

  lemma {:induction false} SequentialIsAccounted(args: Args, w: World, turn: nat, processed: nat,
                                                 live: Option<Range>, c: Cursor) returns (m: nat)
    requires Validated(args) && args.inputStart.None? && Ticking(w) && IsPosition(c)
    ensures Account(args, w, turn, processed, live, c, Sequential(args, w, turn, processed, live, c), m)
    decreases args.maxWindowsPerTick - processed
  {
    hide DecideMode, Misfit, Ready, StartCursor, Sequential, SequentialTurn, Account;
    m := 0;
    var now, step := w.clock(turn), SequentialTurn(args, w.clock(turn), live, w.runOk(turn), c);
    SequentialStops(args, w, turn, processed, live, c);
    TurnAtPosition(args, now, live, w.runOk(turn), c);
    if w.shutdown(2 * turn) {
      NothingRan(args, w, turn, processed, live, c, ShutDown);
    } else if processed >= args.maxWindowsPerTick {
      NothingRan(args, w, turn, processed, live, c, MaxWindows);
    } else {
      SequentialUnfolds(args, w, turn, processed, live, c);
      if !step.Ran? {
        NothingRan(args, w, turn, processed, live, c, if step.Failed? then Errored else Drained(now));
      } else {
        var next, b := Cursor(Some(step.range.end), None), step.range.start;
        if w.shutdown(2 * turn + 1) {
          ShutDownAfterOne(args, w, turn, processed, live, c, next, b);
          m := 1;
        } else {
          var k := SequentialIsAccounted(args, w, turn + 1, processed + 1, live, next);
          var rest := Sequential(args, w, turn + 1, processed + 1, live, next);
          AccountUnfolds(args, w, turn, processed, live, c, next, b, rest, k);
          m := k + 1;
        }
      }
    }
  }

  /** A shutdown poll right after one window. */
  lemma ShutDownAfterOne(args: Args, w: World, turn: nat, processed: nat, live: Option<Range>, c: Cursor,
                         next: Cursor, b: int)
    requires Validated(args) && w.shutdown(2 * turn + 1) && Ready(args, w.clock(turn), b)
    requires Position(args, c) == Some(b) && Position(args, next) == Some(b + args.interval)
    ensures var mine := if live == Some(Range(b, b + args.interval)) then [] else [Range(b, b + args.interval)];
            Account(args, w, turn, processed, live, c, TickEnd(ShutDown, next, mine, live), 1)
  {
    hide Misfit, Ready, StartCursor;
    SequentialRunsUnfold(b, args.interval, 0, live);
    assert StandsStill(w) ==> w.clock(turn) == w.clock(0);
  }

  /** A stop before any window, with its cause. */
  lemma NothingRan(args: Args, w: World, turn: nat, processed: nat, live: Option<Range>, c: Cursor, why: Why)
    requires Validated(args)
    requires StopCause(args, w, why, turn, processed, false, Position(args, c))
    ensures Account(args, w, turn, processed, live, c, TickEnd(why, c, [], live), 0)
  {
    hide Misfit, Ready, StartCursor, StopCause;
  }

  lemma AccountUnfolds(args: Args, w: World, turn: nat, processed: nat, live: Option<Range>, c: Cursor, next: Cursor,
                       b: int, rest: TickEnd, k: nat)
    requires Validated(args)
    requires Position(args, c) == Some(b) && Position(args, next) == Some(b + args.interval)
    requires Ready(args, w.clock(turn), b) && processed < args.maxWindowsPerTick
    requires Account(args, w, turn + 1, processed + 1, live, next, rest, k)
    ensures var mine := if live == Some(Range(b, b + args.interval)) then [] else [Range(b, b + args.interval)];
            Account(args, w, turn, processed, live, c, rest.(ran := mine + rest.ran), k + 1)
  {
    hide Misfit, Ready, StartCursor;
    SequentialRunsUnfold(b, args.interval, k, live);
    BoundaryShift(b, args.interval, k);
    forall j: nat | j < k + 1 && StandsStill(w)
      ensures Ready(args, w.clock(0), Boundary(b, args.interval, j))
    {
      if j > 0 {
        BoundaryShift(b, args.interval, j - 1);
      } else {
        assert w.clock(turn) == w.clock(0);
      }
    }
  }

  lemma DistinctWindows(start: int, interval: int, j: nat, k: nat)
    requires interval > 0 && j < k
    ensures Window(start, interval, j).end <= Window(start, interval, k).start
  {
    BoundaryGrows(start, interval, j, k);
  }

  lemma {:induction false} SequentialRunsMembers(start: int, interval: int, n: nat, live: Option<Range>, r: Range)
    requires interval > 0
    ensures r in SequentialRuns(start, interval, n, live) <==>
            live != Some(r) && exists k: nat :: k < n && r == Window(start, interval, k)
  {
    if n > 0 {
      SequentialRunsMembers(start, interval, n - 1, live, r);
    }
  }

  predicate NoRepeats(rs: seq<Range>)
  {
    forall i, j :: 0 <= i < j < |rs| ==> rs[i] != rs[j]
  }

  lemma {:induction false} SequentialRunsDistinct(start: int, interval: int, n: nat, live: Option<Range>)
    requires interval > 0
    ensures NoRepeats(SequentialRuns(start, interval, n, live))
  {
    if n > 0 {
      var front := SequentialRuns(start, interval, n - 1, live);
      SequentialRunsDistinct(start, interval, n - 1, live);
      forall i | 0 <= i < |front|
        ensures front[i] != Window(start, interval, n - 1)
      {
        SequentialRunsMembers(start, interval, n - 1, live, front[i]);
        var k: nat :| k < n - 1 && front[i] == Window(start, interval, k);
        DistinctWindows(start, interval, k, n - 1);
      }
    }
  }

  /**
   Exactly once: of the live window and the first n sequential windows without
   it nothing occurs twice, and every one of them occurs.
   */
  lemma EachWindowOnce(start: int, interval: int, n: nat, live: Option<Range>)
    requires interval > 0
    ensures var ran := LiveRuns(live) + SequentialRuns(start, interval, n, live);
            && NoRepeats(ran)
            && forall r :: r in ran <==> live == Some(r) || exists k: nat :: k < n && r == Window(start, interval, k)
  {
    var ran := LiveRuns(live) + SequentialRuns(start, interval, n, live);
    SequentialRunsDistinct(start, interval, n, live);
    forall r
      ensures r in ran <==> live == Some(r) || exists k: nat :: k < n && r == Window(start, interval, k)
    {
      SequentialRunsMembers(start, interval, n, live, r);
    }
    if live.Some? {
      SequentialRunsMembers(start, interval, n, live, live.value);
    }
  }

  // ------------------------------------------------ the account of a whole tick

  /** Live priority ran with no L1 success on record: the loop then has nothing to start from. */
  predicate Forgets(c: Cursor, live: Option<Range>) { c.last.None? && live.Some? }

  lemma LivePriorityShape(args: Args, now: int, last: Option<int>, range: Range)
    requires Validated(args) && IsNow(now) && IsCursor(last)
    requires DecideLivePriority(args, now, last) == Selected(Live, range)
    ensures range == Range(ReadyEnd(now, args.interval) - args.interval, ReadyEnd(now, args.interval))
    ensures 0 <= range.start && range.start % args.interval == 0 && range.end % args.interval == 0 && IsTime(range.end)
    ensures Ready(args, now, range.start) && LastBoundary(args, now) == range.end
    ensures last.Some? ==> last.value < range.end
  {
    DecisionsAreClosed(args, now, last, None, Selected(Live, range));
    ReadyEndBounds(now, args.interval);
  }

  /** The live window started right at the cursor and moved it. */
  predicate Advanced(c: Cursor, live: Option<Range>) { live.Some? && c.last == Some(live.value.start) }

  /** How many of the first m windows the loop itself dealt with. */
  function LoopWindows(c: Cursor, live: Option<Range>, m: nat): nat
  {
    if Advanced(c, live) && m > 0 then m - 1 else m
  }

  /** How many turns a tick took to deal with m windows. */
  function Turns(c: Cursor, live: Option<Range>, m: nat): nat { |LiveRuns(live)| + LoopWindows(c, live, m) }

  /**
   What a tick did, in every case: the live window, then the first m windows
   from the starting position without it, with the cursor m windows on; and each
   way of stopping has its cause at the turn it stopped. With nothing to start
   from, or forgotten, the cursor is empty.
   */
  ghost predicate TickAccount(args: Args, w: World, c: Cursor, t: TickEnd, m: nat)
    requires Validated(args)
  {
    var at, d := Position(args, c), DecideLivePriority(args, w.clock(0), c.last);
    && (t.live.Some? <==> d.Selected? && w.runOk(0)) && (t.live.Some? ==> d == Selected(Live, t.live.value))
    && (Advanced(c, t.live) ==> m > 0)
    && (at.None? || Forgets(c, t.live) ==> m == 0 && t.ran == LiveRuns(t.live) && t.cursor == Cursor(None, None))
    && (at.Some? && !Forgets(c, t.live) ==>
          && t.ran == LiveRuns(t.live) + SequentialRuns(at.value, args.interval, m, t.live)
          && Position(args, t.cursor) == Some(Boundary(at.value, args.interval, m))
          && (forall k: nat :: k < m && StandsStill(w) ==>
                Ready(args, w.clock(0), Boundary(at.value, args.interval, k))))
    && if d.Refused? || (d.Selected? && !w.runOk(0)) then t.why == Errored && m == 0
       else if args.livePriorityOnly then t.why == LiveOnly
       else StopCause(args, w, t.why, Turns(c, t.live, m), Turns(c, t.live, m), LoopWindows(c, t.live, m) > 0,
                      Position(args, t.cursor))
  }

  lemma LiveIsLive(args: Args, now: int, last: Option<int>)
    requires Validated(args)
    ensures var d := DecideLivePriority(args, now, last); d.Selected? ==> d.mode == Live
  {
  }

  lemma AdjacentLive(start: int, interval: int, m: nat)
    ensures var live := Range(start, start + interval);
            SequentialRuns(start, interval, m + 1, Some(live)) ==
            SequentialRuns(start + interval, interval, m, Some(live))
  {
    SequentialRunsUnfold(start, interval, m, Some(Range(start, start + interval)));
  }

  /** Where the loop of a tick starts, relative to where the tick starts. */
  lemma AfterLivePosition(args: Args, now: int, c: Cursor, range: Range)
    requires Validated(args) && IsNow(now) && IsPosition(c)
    requires DecideLivePriority(args, now, c.last) == Selected(Live, range)
    ensures var next := AfterLive(c, Ran(range));
            && IsPosition(next)
            && (c.last.None? ==> Position(args, next) == None)
            && (c.last.Some? && c.last.value != range.start ==> Position(args, next) == Position(args, c))
            && (c.last == Some(range.start) ==>
                  && Position(args, c) == Some(range.start)
                  && Position(args, next) == Some(range.start + args.interval))
    ensures range.end == range.start + args.interval && Ready(args, now, range.start)
  {
    LivePriorityShape(args, now, c.last, range);
  }

  lemma NoPositionIff(args: Args, c: Cursor)
    ensures Position(args, c).None? <==> c == Cursor(None, None)
  {
  }

  lemma AccountExtends(args: Args, w: World, c: Cursor, range: Range, rest: TickEnd, k: nat) returns (m: nat)
    requires Validated(args) && Ticking(w) && IsPosition(c) && w.runOk(0) && !args.livePriorityOnly
    requires DecideLivePriority(args, w.clock(0), c.last) == Selected(Live, range)
    requires Account(args, w, 1, 1, Some(range), AfterLive(c, Ran(range)), rest, k)
    ensures TickAccount(args, w, c, rest.(ran := [range] + rest.ran, live := Some(range)), m)
  {
    hide DecideLivePriority, Misfit, Ready, StartCursor;
    AfterLivePosition(args, w.clock(0), c, range);
    NoPositionIff(args, c);
    NoPositionIff(args, AfterLive(c, Ran(range)));
    m := k;
    if c.last == Some(range.start) {
      m := k + 1;
      var b := range.start;
      AdjacentLive(b, args.interval, k);
      BoundaryShift(b, args.interval, k);
      forall j: nat | j < m && StandsStill(w)
        ensures Ready(args, w.clock(0), Boundary(b, args.interval, j))
      {
        if j > 0 {
          BoundaryShift(b, args.interval, j - 1);
        }
      }
    }
  }

  /** Every tick, whatever the clock, the runs and the shutdown signal do, has such an account. */
  lemma TickIsAccounted(args: Args, w: World, c: Cursor) returns (m: nat)
    requires Validated(args) && args.inputStart.None? && Ticking(w) && IsPosition(c)
    ensures TickAccount(args, w, c, Tick(args, w, c), m)
  {
    hide DecideLivePriority, Misfit, Ready, StartCursor, Sequential;
    m := 0;
    var step := LiveTurn(args, w.clock(0), w.runOk(0), c.last);
    LiveIsLive(args, w.clock(0), c.last);
    NoPositionIff(args, c);
    if step.Ran? {
      AfterLivePosition(args, w.clock(0), c, step.range);
      var next, live := AfterLive(c, step), Some(step.range);
      if args.livePriorityOnly {
        m := if c.last == Some(step.range.start) then 1 else 0;
        AdjacentLive(step.range.start, args.interval, 0);
      } else {
        var k := SequentialIsAccounted(args, w, 1, 1, live, next);
        m := AccountExtends(args, w, c, step.range, Sequential(args, w, 1, 1, live, next), k);
      }
    } else if step.Idle? && !args.livePriorityOnly {
      m := SequentialIsAccounted(args, w, 0, 0, None, c);
      var rest := Sequential(args, w, 0, 0, None, c);
      assert [] + rest.ran == rest.ran;
    }
  }

  // ------------------------------------------------------- an undisturbed tick

  ghost predicate Quiet(w: World)
  {
    StandsStill(w) && forall k: nat :: w.runOk(k) && !w.shutdown(k)
  }

  /** Windows are whole rows and cursors are times after zero, so nothing is refused. */
  predicate Fits(args: Args, c: Cursor)
    requires Validated(args)
  {
    && args.interval % args.windowMs == 0 && IsPosition(c)
    && (c.last.Some? ==> c.last.value >= 0) && (c.oldest.Some? ==> c.oldest.value >= 0)
  }

  ghost predicate ReadyWindow(args: Args, now: int, c: Cursor, r: Range)
    requires Validated(args)
  {
    var at := Position(args, c);
    && at.Some?
    && exists k: nat ::
         Ready(args, now, Boundary(at.value, args.interval, k)) && r == Window(at.value, args.interval, k)
  }

  function ReadyCount(args: Args, now: int, c: Cursor): nat
    requires Validated(args)
  {
    var at := Position(args, c);
    if at.Some? then |Iterate(args, now, at.value)| else 0
  }

  lemma FitPosition(args: Args, c: Cursor)
    requires Validated(args) && Fits(args, c) && Position(args, c).Some?
    ensures var at := Position(args, c).value; 0 <= at && at % args.interval == 0 && IsTime(at)
    ensures c.last.Some? ==> Position(args, c).value <= c.last.value
  {
    var v := if c.last.Some? then c.last.value else c.oldest.value;
    FloorBounds(v, args.interval);
    FloorBounds(AlignFloor(v, args.interval), args.interval);
  }

  /** The ready windows are the first so many. */
  lemma ReadyPrefix(args: Args, now: int, at: int, k: nat)
    requires Validated(args) && args.inputStart.None? && IsNow(now) && IsTime(at)
    requires args.interval % args.windowMs == 0 && 0 <= at && at % args.interval == 0
    ensures Ready(args, now, Boundary(at, args.interval, k)) <==> k < |Iterate(args, now, at)|
  {
    hide Iterate;
    var n, last := |Iterate(args, now, at)|, LastBoundary(args, now);
    IterateStops(args, now, at);
    BoundaryMod(at, args.interval, k);
    ReadyIffBeforeLastBoundary(args, now, Boundary(at, args.interval, k));
    if k < n {
      BoundaryGrows(at, args.interval, k, n);
    } else if n < k {
      BoundaryGrows(at, args.interval, n, k);
    }
    if at > last && k > 0 {
      BoundaryGrows(at, args.interval, 0, k);
    }
  }

  lemma NothingMisfits(args: Args, now: int, at: int, k: nat)
    requires Validated(args) && IsNow(now) && 0 <= at && at % args.interval == 0 && args.interval % args.windowMs == 0
    ensures !Misfit(args, now, Boundary(at, args.interval, k))
  {
    var b := Boundary(at, args.interval, k);
    ReadyEndBounds(now, args.interval);
    BoundaryMod(at, args.interval, k);
    if k > 0 {
      BoundaryGrows(at, args.interval, 0, k);
    }
    ModShift(b, args.interval);
    MultipleOfMultiple(b, args.interval, args.windowMs);
    MultipleOfMultiple(b + args.interval, args.interval, args.windowMs);
  }

  lemma LiveIsNotRefused(args: Args, now: int, last: Option<int>)
    requires Validated(args) && IsNow(now) && args.interval % args.windowMs == 0
    ensures !DecideLivePriority(args, now, last).Refused?
  {
    var end := ReadyEnd(now, args.interval);
    ReadyEndBounds(now, args.interval);
    if end > 0 {
      MultiplesApart(0, end, args.interval);
      ModShift(end, args.interval);
      MultipleOfMultiple(end, args.interval, args.windowMs);
      MultipleOfMultiple(end - args.interval, args.interval, args.windowMs);
    }
  }

  /** What live priority does on an undisturbed tick: decided by the clock and the last success alone. */
  function LiveWindow(args: Args, now: int, c: Cursor): Option<Range>
    requires Validated(args)
  {
    var d := DecideLivePriority(args, now, c.last);
    if d.Selected? then Some(d.range) else None
  }

  /** The turns an undisturbed tick needs before it finds nothing ready. */
  function TurnsNeeded(args: Args, now: int, c: Cursor): nat
    requires Validated(args)
  {
    var live := LiveWindow(args, now, c);
    if Forgets(c, live) then 1 else Turns(c, live, ReadyCount(args, now, c))
  }

  /**
   An undisturbed tick ends by itself exactly when the turns it needs fit under
   the limit, and else at the limit; having drained, it has dealt with every
   ready window.
   */
  lemma QuietTickDrainsIff(args: Args, w: World, c: Cursor) returns (m: nat)
    requires Validated(args) && args.inputStart.None? && !args.livePriorityOnly && Fits(args, c)
    requires Quiet(w) && IsNow(w.clock(0))
    ensures TickAccount(args, w, c, Tick(args, w, c), m)
    ensures var t, now := Tick(args, w, c), w.clock(0);
            && t.live == LiveWindow(args, now, c)
            && t.why == (if TurnsNeeded(args, now, c) < args.maxWindowsPerTick then Drained(now) else MaxWindows)
            && (t.why.Drained? && !Forgets(c, t.live) ==> m == ReadyCount(args, now, c))
            && (t.why.MaxWindows? ==>
                  && Turns(c, t.live, m) >= args.maxWindowsPerTick
                  && (LoopWindows(c, t.live, m) > 0 ==> Turns(c, t.live, m) == args.maxWindowsPerTick))
            && (Position(args, c).Some? && !Forgets(c, t.live) ==>
                  Position(args, t.cursor) == Some(Boundary(Position(args, c).value, args.interval, m)))
  {
    hide DecideLivePriority, Ready, StartCursor, Tick, Iterate, Misfit;
    var now, at := w.clock(0), Position(args, c);
    m := TickIsAccounted(args, w, c);
    var t := Tick(args, w, c);
    LiveIsNotRefused(args, now, c.last);
    NoPositionIff(args, t.cursor);
    if at.Some? {
      FitPosition(args, c);
      NothingMisfits(args, now, at.value, m);
      if m > 0 {
        ReadyPrefix(args, now, at.value, m - 1);
      }
      ReadyPrefix(args, now, at.value, m);
    }
  }

  lemma ReadyWindowIff(args: Args, now: int, c: Cursor, r: Range)
    requires Validated(args) && args.inputStart.None? && IsNow(now) && Fits(args, c)
    ensures ReadyWindow(args, now, c, r) <==>
            var at := Position(args, c);
            at.Some? && exists k: nat :: k < ReadyCount(args, now, c) && r == Window(at.value, args.interval, k)
  {
    hide Ready, StartCursor, Iterate, Window;
    var at := Position(args, c);
    if at.Some? {
      FitPosition(args, c);
      forall k: nat
        ensures Ready(args, now, Boundary(at.value, args.interval, k)) <==> k < ReadyCount(args, now, c)
      {
        ReadyPrefix(args, now, at.value, k);
      }
    }
  }

  /** The live window is itself one of the ready windows when sequential work is behind it. */
  lemma LiveIsReady(args: Args, now: int, c: Cursor, live: Range)
    requires Validated(args) && IsNow(now) && Fits(args, c)
    requires DecideLivePriority(args, now, c.last) == Selected(Live, live)
    requires Position(args, c).Some? && Position(args, c).value <= live.start
    ensures ReadyWindow(args, now, c, live)
  {
    var at, i := Position(args, c).value, args.interval;
    FitPosition(args, c);
    LivePriorityShape(args, now, c.last, live);
    var k := BoundaryReaches(at, live.start, i);
    assert live == Window(at, i, k);
  }

  lemma CursorIsBehindLive(args: Args, now: int, c: Cursor, live: Range)
    requires Validated(args) && IsNow(now) && Fits(args, c) && c.last.Some?
    requires DecideLivePriority(args, now, c.last) == Selected(Live, live)
    ensures Position(args, c).Some? && Position(args, c).value <= live.start
  {
    LivePriorityShape(args, now, c.last, live);
    FitPosition(args, c);
    MultiplesApart(Position(args, c).value, live.end, args.interval);
  }

  /**
   Exactly once per tick: with a standing clock, no failure, no shutdown and
   room under the limit, a tick ends by itself having run the live window and
   every ready window from the floored cursor, nothing else and nothing twice;
   with an L1 success on record the live window is one of those. The exception
   is `Forgets`, whose exact extent `EveryReadyWindowRunsIff` gives.
   */
  lemma UndisturbedTick(args: Args, w: World, c: Cursor)
    requires Validated(args) && args.inputStart.None? && !args.livePriorityOnly && Fits(args, c)
    requires Quiet(w) && IsNow(w.clock(0)) && TurnsNeeded(args, w.clock(0), c) < args.maxWindowsPerTick
    ensures var t, now := Tick(args, w, c), w.clock(0);
            && t.why == Drained(now) && t.live == LiveWindow(args, now, c) && NoRepeats(t.ran)
            && (forall r :: r in t.ran <==> t.live == Some(r) || (!Forgets(c, t.live) && ReadyWindow(args, now, c, r)))
            && (c.last.Some? ==> forall r :: r in t.ran <==> ReadyWindow(args, now, c, r))
  {
    hide DecideLivePriority, Ready, StartCursor, Tick, Iterate, SequentialRuns, ReadyWindow, Window, ReadyCount, Fits;
    var t, now, at := Tick(args, w, c), w.clock(0), Position(args, c);
    var m := QuietTickDrainsIff(args, w, c);
    forall r
      ensures ReadyWindow(args, now, c, r) <==>
              at.Some? && exists k: nat :: k < ReadyCount(args, now, c) && r == Window(at.value, args.interval, k)
    {
      ReadyWindowIff(args, now, c, r);
    }
    if at.Some? && !Forgets(c, t.live) {
      EachWindowOnce(at.value, args.interval, m, t.live);
    }
    if c.last.Some? && t.live.Some? {
      CursorIsBehindLive(args, now, c, t.live.value);
      LiveIsReady(args, now, c, t.live.value);
    }
  }

  /**
   A ready backlog is left out of an undisturbed tick exactly when there is no
   L1 success on record, live priority runs, and the oldest L0 object lies more
   than one window before the last boundary.
   */
  lemma EveryReadyWindowRunsIff(args: Args, w: World, c: Cursor)
    requires Validated(args) && args.inputStart.None? && !args.livePriorityOnly && Fits(args, c)
    requires Quiet(w) && IsNow(w.clock(0)) && TurnsNeeded(args, w.clock(0), c) < args.maxWindowsPerTick
    ensures (forall r :: ReadyWindow(args, w.clock(0), c, r) ==> r in Tick(args, w, c).ran) <==>
            || c.last.Some? || c.oldest.None? || !DecideLivePriority(args, w.clock(0), None).Selected?
            || AlignFloor(c.oldest.value, args.interval) + args.interval >= LastBoundary(args, w.clock(0))
  {
    hide DecideLivePriority, Tick, ReadyCount, Iterate;
    var t, now := Tick(args, w, c), w.clock(0);
    UndisturbedTick(args, w, c);
    LiveIsLive(args, now, None);
    if c.last.None? && c.oldest.Some? && DecideLivePriority(args, now, None).Selected? {
      ForgottenWindows(args, now, c, t.live.value);
    }
  }

  /** With no success on record, what is ready but not the live window. */
  lemma ForgottenWindows(args: Args, now: int, c: Cursor, live: Range)
    requires Validated(args) && IsNow(now) && Fits(args, c) && c.last.None? && c.oldest.Some?
    requires DecideLivePriority(args, now, None) == Selected(Live, live)
    ensures (forall r :: ReadyWindow(args, now, c, r) ==> r == live) <==>
            AlignFloor(c.oldest.value, args.interval) + args.interval >= LastBoundary(args, now)
  {
    var at, i, last := AlignFloor(c.oldest.value, args.interval), args.interval, LastBoundary(args, now);
    FitPosition(args, c);
    FloorBounds(c.oldest.value, i);
    assert Position(args, c) == Some(at);
    LivePriorityShape(args, now, None, live);
    ReadyIffBeforeLastBoundary(args, now, at);
    if at + i < last {
      assert Ready(args, now, Boundary(at, i, 0)) && Window(at, i, 0) != live;
      assert ReadyWindow(args, now, c, Window(at, i, 0));
    } else {
      forall k: nat | Ready(args, now, Boundary(at, i, k))
        ensures Window(at, i, k) == live
      {
        BoundaryMod(at, i, k);
        ReadyIffBeforeLastBoundary(args, now, Boundary(at, i, k));
        if k > 0 {
          BoundaryGrows(at, i, 0, k);
        }
        MultiplesApart(Boundary(at, i, k), last, i);
      }
    }
  }

  /** The failing case as a tick: two windows are ready, only the newer is run, and nothing is left to start from. */
  lemma LivePriorityForgetsOldest()
    ensures exists args: Args, w: World, c: Cursor, r: Range ::
              && Validated(args) && args.inputStart.None? && Quiet(w) && IsNow(w.clock(0)) && Fits(args, c)
              && ReadyWindow(args, w.clock(0), c, r)
              && var t := Tick(args, w, c);
                 t.why == Drained(w.clock(0)) && r !in t.ran && t.cursor == Cursor(None, None)
  {
    var args := Args(None, None, 900_000, 1_000, 300_000, 3_600_000, 360_000, 192, true, false, 900_000);
    var w := World(_ => 2_160_000, _ => true, _ => false);
    var c := Cursor(None, Some(0));
    assert ReadyEnd(2_160_000, 900_000) == 1_800_000;
    assert DecideLivePriority(args, 2_160_000, None) == Selected(Live, Range(900_000, 1_800_000));
    assert Position(args, c) == Some(0);
    assert Ready(args, 2_160_000, Boundary(0, 900_000, 0));
    var r := Window(0, 900_000, 0);
    assert ReadyWindow(args, 2_160_000, c, r);
    var t := Tick(args, w, c);
    assert t == TickEnd(Drained(2_160_000), Cursor(None, None), [Range(900_000, 1_800_000)], t.live);
    assert r == Range(0, 900_000);
  }
}
