/**
 Tick after tick. Every tick starts from the end of the newest success on
 record, so a live-priority window published ahead of an undrained backlog
 becomes the next cursor, and what lies before it is never run.
 */
module TickSequence {
  import opened Wrappers
  import opened Times
  import opened Arithmetic
  import opened WindowScheduler

  /** What one tick meets: the outside, and the oldest L0 object should no success be on record. */
  datatype Round = Round(world: World, oldest: Option<int>)

  /** The end of the newest of the published ranges. */
  function NewestEnd(published: seq<Range>): Option<int>
  {
    if published == [] then None
    else
      var before, end := NewestEnd(published[..|published| - 1]), published[|published| - 1].end;
      Some(if before.Some? && before.value > end then before.value else end)
  }

  function CursorFor(published: seq<Range>, round: Round): Cursor
  {
    var last := NewestEnd(published);
    Cursor(last, if last.Some? then None else round.oldest)
  }

  function TickFrom(args: Args, published: seq<Range>, round: Round): TickEnd
    requires Validated(args)
  {
    Tick(args, round.world, CursorFor(published, round))
  }

  function Ticks(args: Args, published: seq<Range>, rounds: seq<Round>): seq<Range>
    requires Validated(args)
  {
    if rounds == [] then published
    else
      var before := Ticks(args, published, rounds[..|rounds| - 1]);
      before + TickFrom(args, before, rounds[|rounds| - 1]).ran
  }

  function Slot(start: int, interval: int): Range { Range(start, start + interval) }

  predicate IsSlot(args: Args, first: int, r: Range)
    requires args.interval > 0
  {
    first <= r.start && r.start % args.interval == 0 && r == Slot(r.start, args.interval) && IsTime(r.end)
  }

  /** Some success is on record, and all of them lie on the grid from the first slot on. */
  ghost predicate OnGrid(args: Args, first: int, published: seq<Range>)
    requires args.interval > 0
  {
    published != [] && 0 <= first && first % args.interval == 0 && forall r :: r in published ==> IsSlot(args, first, r)
  }

  /** Every slot from the first up to the newest end has been published. */
  ghost predicate Gapless(args: Args, first: int, published: seq<Range>)
    requires args.interval > 0 && published != []
  {
    forall x :: first <= x && x % args.interval == 0 && x + args.interval <= NewestValue(published) ==>
      Slot(x, args.interval) in published
  }

  function NewestValue(published: seq<Range>): int
    requires published != []
  {
    NewestEnd(published).value
  }

  /** The tick ran a live window and stopped with its cursor still before it. */
  predicate Jumps(args: Args, published: seq<Range>, round: Round)
    requires Validated(args)
  {
    var t := TickFrom(args, published, round);
    var at := Position(args, t.cursor);
    t.live.Some? && at.Some? && at.value < t.live.value.start
  }

  // ---------------------------------------------------------------- newest end

  lemma {:induction false} NewestIsGreatest(published: seq<Range>)
    requires published != []
    ensures forall r :: r in published ==> r.end <= NewestValue(published)
    ensures exists r :: r in published && r.end == NewestValue(published)
  {
    var front, last := published[..|published| - 1], published[|published| - 1];
    assert published == front + [last];
    assert last in published;
    assert NewestEnd(published) == Some(if NewestEnd(front).Some? && NewestEnd(front).value > last.end
                                        then NewestEnd(front).value else last.end);
    if front != [] {
      NewestIsGreatest(front);
      var r :| r in front && r.end == NewestValue(front);
      assert r in published;
      assert NewestValue(published) == r.end || NewestValue(published) == last.end;
    }
  }

  lemma NewestIs(published: seq<Range>, r: Range)
    requires r in published && forall q :: q in published ==> q.end <= r.end
    ensures NewestValue(published) == r.end
  {
    NewestIsGreatest(published);
  }

  lemma StartsAtNewest(args: Args, first: int, published: seq<Range>, round: Round)
    requires Validated(args) && OnGrid(args, first, published)
    ensures published != []
    ensures var e, c := NewestValue(published), CursorFor(published, round);
            && e % args.interval == 0 && first + args.interval <= e && IsTime(e)
            && c == Cursor(Some(e), None) && IsPosition(c) && Position(args, c) == Some(e)
  {
    NewestIsGreatest(published);
    var r :| r in published && r.end == NewestValue(published);
    assert IsSlot(args, first, r);
    ModShift(r.start, args.interval);
  }

  // ------------------------------------------------------------------- one tick

  /** The first m windows from an aligned start are the slots between it and the m-th boundary. */
  lemma WindowsAreSlots(start: int, interval: int, m: nat, r: Range)
    requires interval > 0 && start % interval == 0
    ensures (exists k: nat :: k < m && r == Window(start, interval, k)) <==>
            start <= r.start && r.start % interval == 0 && r == Slot(r.start, interval)
            && r.end <= Boundary(start, interval, m)
  {
    forall k: nat | k < m && r == Window(start, interval, k)
      ensures start <= r.start && r.start % interval == 0 && r == Slot(r.start, interval)
      ensures r.end <= Boundary(start, interval, m)
    {
      BoundaryMod(start, interval, k);
      if k > 0 {
        BoundaryGrows(start, interval, 0, k);
      }
      BoundaryGrows(start, interval, k, m);
    }
    if start <= r.start && r.start % interval == 0 && r == Slot(r.start, interval)
       && r.end <= Boundary(start, interval, m) {
      var k := BoundaryReaches(start, r.start, interval);
      assert r == Window(start, interval, k);
      if m < k {
        BoundaryGrows(start, interval, m, k);
      }
    }
  }

  /** What a tick publishes, in terms of the newest end e and the boundary b its cursor reached. */
  ghost predicate Publishes(args: Args, e: int, b: int, live: Option<Range>, ran: seq<Range>)
    requires args.interval > 0
  {
    && e <= b && b % args.interval == 0 && IsTime(b)
    && (live.Some? ==>
          live.value.start % args.interval == 0 && e <= live.value.start
          && live.value == Slot(live.value.start, args.interval) && IsTime(live.value.end))
    && forall r :: r in ran <==> live == Some(r)
                                 || (e <= r.start && r.start % args.interval == 0
                                     && r == Slot(r.start, args.interval) && r.end <= b)
  }

  lemma TickPublishes(args: Args, first: int, published: seq<Range>, round: Round) returns (b: int)
    requires Validated(args) && args.inputStart.None? && Ticking(round.world) && OnGrid(args, first, published)
    ensures var t := TickFrom(args, published, round);
            Position(args, t.cursor) == Some(b) && Publishes(args, NewestValue(published), b, t.live, t.ran)
  {
    hide Tick, DecideLivePriority, SequentialRuns, Window, Ready, StopCause, StartCursor, OnGrid, NewestEnd;
    StartsAtNewest(args, first, published, round);
    var e, c, i := NewestValue(published), CursorFor(published, round), args.interval;
    var t := TickFrom(args, published, round);
    var m := TickIsAccounted(args, round.world, c);
    b := Boundary(e, i, m);
    BoundaryMod(e, i, m);
    if m > 0 {
      BoundaryGrows(e, i, 0, m);
    }
    PositionIsTime(args, t.cursor);
    if t.live.Some? {
      LivePriorityShape(args, round.world.clock(0), c.last, t.live.value);
      MultiplesApart(e, t.live.value.end, i);
    }
    EachWindowOnce(e, i, m, t.live);
    forall r
      ensures r in t.ran <==> t.live == Some(r)
                              || (e <= r.start && r.start % i == 0 && r == Slot(r.start, i) && r.end <= b)
    {
      WindowsAreSlots(e, i, m, r);
    }
  }

  lemma PositionIsTime(args: Args, c: Cursor)
    requires Validated(args)
    ensures Position(args, c).Some? ==> IsTime(Position(args, c).value)
  {
  }

  /** The range of those published that ends where the cursor stands. */
  lemma LastBeforeCursor(args: Args, first: int, published: seq<Range>, b: int, live: Option<Range>, ran: seq<Range>)
    returns (r: Range)
    requires Validated(args) && OnGrid(args, first, published)
    requires Publishes(args, NewestValue(published), b, live, ran)
    ensures r in published + ran && r.end == b
  {
    assert published != [] && b % args.interval == 0 && NewestValue(published) <= b;
    hide OnGrid, NewestEnd, IsSlot, Publishes, Slot, Validated;
    if NewestValue(published) < b {
      MultiplesApartSlots(args, first, published, b);
      SlotRan(args, NewestValue(published), b, live, ran, b - args.interval);
      r := Slot(b - args.interval, args.interval);
    } else {
      NewestIsGreatest(published);
      r :| r in published && r.end == NewestValue(published);
    }
  }

  lemma SlotRan(args: Args, e: int, b: int, live: Option<Range>, ran: seq<Range>, x: int)
    requires Validated(args) && Publishes(args, e, b, live, ran)
    requires e <= x && x % args.interval == 0 && x + args.interval <= b
    ensures Slot(x, args.interval) in ran && Slot(x, args.interval).end == x + args.interval
  {
    var r := Slot(x, args.interval);
    assert r.start == x;
  }

  lemma StaysOnGrid(args: Args, first: int, published: seq<Range>, b: int, live: Option<Range>, ran: seq<Range>)
    requires Validated(args) && OnGrid(args, first, published)
    requires Publishes(args, NewestValue(published), b, live, ran)
    ensures OnGrid(args, first, published + ran)
    ensures forall q :: q in published + ran ==> q.end <= b || live == Some(q)
  {
    hide NewestEnd;
    StartsAtNewest(args, first, published, Round(World(_ => 0, _ => true, _ => false), None));
    NewestIsGreatest(published);
    forall q | q in published + ran
      ensures IsSlot(args, first, q) && (q.end <= b || live == Some(q))
    {
      if q !in published {
        assert q in ran;
      }
    }
  }

  lemma NewestAfter(args: Args, first: int, published: seq<Range>, b: int, live: Option<Range>, ran: seq<Range>)
    requires Validated(args) && OnGrid(args, first, published)
    requires Publishes(args, NewestValue(published), b, live, ran)
    ensures OnGrid(args, first, published + ran)
    ensures NewestValue(published + ran) == (if live.Some? && live.value.end > b then live.value.end else b)
  {
    StaysOnGrid(args, first, published, b, live, ran);
    var r := LastBeforeCursor(args, first, published, b, live, ran);
    assert live.Some? ==> live.value in ran;
    hide OnGrid, NewestEnd, Publishes, Slot;
    NewestIs(published + ran, if live.Some? && live.value.end > b then live.value else r);
  }

  lemma MultiplesApartSlots(args: Args, first: int, published: seq<Range>, b: int)
    requires Validated(args) && OnGrid(args, first, published) && b % args.interval == 0 && NewestValue(published) < b
    ensures NewestValue(published) <= b - args.interval && (b - args.interval) % args.interval == 0
  {
    ModShift(b, args.interval);
    StartsAtNewest(args, first, published, Round(World(_ => 0, _ => true, _ => false), None));
    MultiplesApart(NewestValue(published), b, args.interval);
  }

  /** One more tick leaves no gap exactly when there was none and it did not jump. */
  lemma TickKeepsGapless(args: Args, first: int, published: seq<Range>, round: Round)
    requires Validated(args) && args.inputStart.None? && Ticking(round.world) && OnGrid(args, first, published)
    ensures var after := published + TickFrom(args, published, round).ran;
            && OnGrid(args, first, after)
            && (Gapless(args, first, after) <==> Gapless(args, first, published) && !Jumps(args, published, round))
  {
    hide Tick, Position, OnGrid;
    var t := TickFrom(args, published, round);
    var b := TickPublishes(args, first, published, round);
    NewestAfter(args, first, published, b, t.live, t.ran);
    GapsAfter(args, first, published, b, t.live, t.ran);
  }

  lemma GapsAfter(args: Args, first: int, published: seq<Range>, b: int, live: Option<Range>, ran: seq<Range>)
    requires Validated(args) && OnGrid(args, first, published)
    requires Publishes(args, NewestValue(published), b, live, ran)
    requires NewestValue(published + ran) == (if live.Some? && live.value.end > b then live.value.end else b)
    ensures Gapless(args, first, published + ran) <==>
            Gapless(args, first, published) && !(live.Some? && b < live.value.start)
  {
    var e, i, all := NewestValue(published), args.interval, published + ran;
    StartsAtNewest(args, first, published, Round(World(_ => 0, _ => true, _ => false), None));
    NewestIsGreatest(published);
    if live.Some? && b < live.value.start {
      MultiplesApart(b, live.value.start, i);
      assert Slot(b, i) !in all;
    } else if Gapless(args, first, published) {
      forall x | first <= x && x % i == 0 && x + i <= NewestValue(all)
        ensures Slot(x, i) in all
      {
        if e < x + i {
          AtLeastNewest(e, x, i);
          if b < x + i {
            AtLeastNewest(b, x, i);
          }
        }
      }
    } else {
      var x :| first <= x && x % i == 0 && x + i <= e && Slot(x, i) !in published;
      assert Slot(x, i) !in ran;
    }
  }

  lemma AtLeastNewest(e: int, x: int, i: int)
    requires i > 0 && e % i == 0 && x % i == 0 && e < x + i
    ensures e <= x
  {
    ModShift(x, i);
    MultiplesApart(e, x + i, i);
  }

  // ------------------------------------------------------------------ every tick

  /**
   Over any sequence of ticks, whatever each meets: everything between the first
   slot and the newest success has been published exactly when it had been at
   the start and no tick jumped. A gap, once left, stays for good.
   */
  lemma {:induction false} TicksLeaveNoGapIff(args: Args, first: int, published: seq<Range>, rounds: seq<Round>)
    requires Validated(args) && args.inputStart.None? && OnGrid(args, first, published)
    requires forall j :: 0 <= j < |rounds| ==> Ticking(rounds[j].world)
    ensures OnGrid(args, first, Ticks(args, published, rounds))
    ensures Gapless(args, first, Ticks(args, published, rounds)) <==>
            Gapless(args, first, published) && NeverJumps(args, published, rounds)
  {
    hide Jumps, Gapless, OnGrid, TickFrom, Ticking, Validated, NeverJumps;
    NeverJumpsSnoc(args, published, rounds);
    if rounds != [] {
      var n := |rounds| - 1;
      TicksLeaveNoGapIff(args, first, published, rounds[..n]);
      TickKeepsGapless(args, first, Ticks(args, published, rounds[..n]), rounds[n]);
    }
  }

  ghost predicate NeverJumps(args: Args, published: seq<Range>, rounds: seq<Round>)
    requires Validated(args)
  {
    forall j :: 0 <= j < |rounds| ==> !Jumps(args, Ticks(args, published, rounds[..j]), rounds[j])
  }

  lemma NeverJumpsSnoc(args: Args, published: seq<Range>, rounds: seq<Round>)
    requires Validated(args)
    ensures NeverJumps(args, published, rounds) <==>
            (rounds != [] ==>
               var n := |rounds| - 1;
               NeverJumps(args, published, rounds[..n]) && !Jumps(args, Ticks(args, published, rounds[..n]), rounds[n]))
  {
    hide Jumps, Ticks, Validated;
    if rounds != [] {
      var front := rounds[..|rounds| - 1];
      assert forall j :: 0 <= j < |front| ==> front[..j] == rounds[..j] && front[j] == rounds[j];
    }
  }

  /**
   An undisturbed tick jumps exactly when live priority runs and the backlog
   before its window does not fit under the limit.
   */
  lemma JumpsIff(args: Args, first: int, published: seq<Range>, round: Round)
    requires Validated(args) && args.inputStart.None? && !args.livePriorityOnly && args.interval % args.windowMs == 0
    requires OnGrid(args, first, published) && Quiet(round.world) && IsNow(round.world.clock(0))
    ensures var e, live := NewestValue(published), LiveWindow(args, round.world.clock(0), CursorFor(published, round));
            Jumps(args, published, round) <==>
            live.Some? && e < live.value.start && e + args.maxWindowsPerTick * args.interval <= live.value.start
  {
    hide Tick, DecideLivePriority, Iterate, OnGrid, TickAccount, NewestEnd, StartCursor;
    StartsAtNewest(args, first, published, round);
    var w, e, c, i := round.world, NewestValue(published), CursorFor(published, round), args.interval;
    NewestIsPositive(args, first, published);
    var m := QuietTickDrainsIff(args, w, c);
    var t := TickFrom(args, published, round);
    LiveIsLive(args, w.clock(0), c.last);
    if t.live.Some? {
      QuietJump(args, w.clock(0), e, t.live.value, t.why, m);
    }
  }

  /** Where the cursor of an undisturbed tick ends, relative to the live window. */
  lemma QuietJump(args: Args, now: int, e: int, live: Range, why: Why, m: nat)
    requires Validated(args) && args.inputStart.None? && args.interval % args.windowMs == 0
    requires IsNow(now) && IsTime(e) && 0 <= e && e % args.interval == 0
    requires DecideLivePriority(args, now, Some(e)) == Selected(Live, live)
    requires var turns := Turns(Cursor(Some(e), None), Some(live), m);
             && (why.Drained? ==> m == |Iterate(args, now, e)|)
             && (why.Drained? ==> TurnsNeeded(args, now, Cursor(Some(e), None)) < args.maxWindowsPerTick)
             && (why.MaxWindows? ==>
                   && turns >= args.maxWindowsPerTick
                   && (LoopWindows(Cursor(Some(e), None), Some(live), m) > 0 ==> turns == args.maxWindowsPerTick))
    requires why.Drained? || why.MaxWindows?
    ensures Boundary(e, args.interval, m) < live.start <==>
            e < live.start && e + args.maxWindowsPerTick * args.interval <= live.start
  {
    hide DecideLivePriority, Iterate, Ready;
    var i, max := args.interval, args.maxWindowsPerTick;
    LivePriorityShape(args, now, Some(e), live);
    MultiplesApart(e, live.end, i);
    BoundaryIsLinear(e, i, max);
    BoundaryMod(e, i, m);
    if m > 0 {
      BoundaryGrows(e, i, 0, m);
    }
    if Boundary(e, i, m) < live.start {
      MultiplesApart(Boundary(e, i, m), live.start, i);
    }
    if e < live.start && why.Drained? {
      IterateStops(args, now, e);
      NeedsMoreThan(args, now, e, live);
      BoundaryGrows(e, i, m, max);
    }
    if e < live.start && why.MaxWindows? && m > 0 {
      assert max == m + 1;
    }
  }

  lemma NeedsMoreThan(args: Args, now: int, e: int, live: Range)
    requires Validated(args) && IsTime(e) && e % args.interval == 0
    requires DecideLivePriority(args, now, Some(e)) == Selected(Live, live) && e != live.start
    ensures TurnsNeeded(args, now, Cursor(Some(e), None)) == 1 + |Iterate(args, now, e)|
  {
    hide DecideLivePriority, Iterate;
    assert AlignFloor(e, args.interval) == e;
  }

  lemma NewestIsPositive(args: Args, first: int, published: seq<Range>)
    requires Validated(args) && OnGrid(args, first, published)
    ensures NewestValue(published) >= 0
  {
    StartsAtNewest(args, first, published, Round(World(_ => 0, _ => true, _ => false), None));
  }

  /** A worker that only ever runs the live window jumps whenever that window is not the next one. */
  lemma LiveOnlyJumpsIff(args: Args, first: int, published: seq<Range>, round: Round)
    requires Validated(args) && args.livePriorityOnly && OnGrid(args, first, published)
    requires Quiet(round.world) && IsNow(round.world.clock(0))
    ensures var e, live := NewestValue(published), LiveWindow(args, round.world.clock(0), CursorFor(published, round));
            Jumps(args, published, round) <==> live.Some? && e < live.value.start
  {
    hide DecideLivePriority, Sequential, OnGrid;
    var c, now := CursorFor(published, round), round.world.clock(0);
    StartsAtNewest(args, first, published, round);
    LiveIsLive(args, now, c.last);
    if LiveWindow(args, now, c).Some? {
      AfterLivePosition(args, now, c, LiveWindow(args, now, c).value);
    }
  }

  /** A worker without live priority runs no live window, never jumps, and so never leaves a gap. */
  lemma WithoutLivePriority(args: Args, first: int, published: seq<Range>, rounds: seq<Round>)
    requires Validated(args) && args.inputStart.None? && !args.livePriority
    requires OnGrid(args, first, published) && Gapless(args, first, published)
    requires forall j :: 0 <= j < |rounds| ==> Ticking(rounds[j].world)
    ensures forall rs, round :: TickFrom(args, rs, round).live.None? && !Jumps(args, rs, round)
    ensures OnGrid(args, first, Ticks(args, published, rounds))
    ensures Gapless(args, first, Ticks(args, published, rounds))
  {
    hide Gapless, OnGrid, Sequential, Validated;
    forall rs: seq<Range>, round: Round
      ensures TickFrom(args, rs, round).live.None? && !Jumps(args, rs, round)
    {
      NoLiveTurn(args, round.world, CursorFor(rs, round));
    }
    TicksLeaveNoGapIff(args, first, published, rounds);
  }

  lemma NoLiveTurn(args: Args, w: World, c: Cursor)
    requires Validated(args) && !args.livePriority
    ensures Tick(args, w, c).live.None?
  {
    hide Sequential;
  }

  /** The failing case: with room for one window a tick, the two windows before the live one are never run. */
  lemma BacklogIsSkipped()
    ensures exists args: Args, published: seq<Range>, round: Round ::
              && Validated(args) && args.inputStart.None? && !args.livePriorityOnly
              && OnGrid(args, 0, published) && Gapless(args, 0, published) && Quiet(round.world)
              && Jumps(args, published, round)
  {
    var args := Args(None, None, 900_000, 1_000, 300_000, 3_600_000, 360_000, 1, true, false, 900_000);
    var published, round := [Range(0, 900_000)], Round(World(_ => 3_960_000, _ => true, _ => false), None);
    assert NewestValue(published) == 900_000;
    assert ReadyEnd(3_960_000, 900_000) == 3_600_000;
    assert DecideLivePriority(args, 3_960_000, Some(900_000)) == Selected(Live, Range(2_700_000, 3_600_000));
    assert OnGrid(args, 0, published);
    forall x | 0 <= x && x % 900_000 == 0 && x + 900_000 <= 900_000
      ensures Slot(x, 900_000) in published
    {
      assert x == 0;
    }
    assert Gapless(args, 0, published);
    JumpsIff(args, 0, published, round);
  }

  /** With nothing published, an undisturbed tick runs exactly the ready windows from the oldest object on. */
  lemma FirstTickStartsAtOldest(args: Args, round: Round)
    requires Validated(args) && args.inputStart.None? && !args.livePriority && !args.livePriorityOnly
    requires Quiet(round.world) && IsNow(round.world.clock(0)) && Fits(args, Cursor(None, round.oldest))
    requires TurnsNeeded(args, round.world.clock(0), Cursor(None, round.oldest)) < args.maxWindowsPerTick
    ensures var now, ran := round.world.clock(0), TickFrom(args, [], round).ran;
            NoRepeats(ran) && forall r :: r in ran <==> ReadyWindow(args, now, Cursor(None, round.oldest), r)
  {
    hide Sequential, ReadyWindow, TurnsNeeded, Fits, Tick;
    var c := Cursor(None, round.oldest);
    assert CursorFor([], round) == c;
    NoLiveTurn(args, round.world, c);
    UndisturbedTick(args, round.world, c);
  }
}
