/**
 The values of the Binance depth-book synchroniser: wire messages, the local
 book, the plain left fold that buffered replay has to refine, and the exchange
 history against which the book is judged.
 */
module DepthBook {
  import opened Wrappers

  /** Levels of one side, keyed by numeric price. */
  type Side = map<real, real>

  datatype Level = Level(price: real, quantity: real)

  /** A level as received; a field is None when `FixedDecimal::parse_unsigned` rejects its text. */
  datatype WireLevel = WireLevel(price: Option<real>, quantity: Option<real>)

  datatype DiffEvent = DiffEvent(firstId: nat, finalId: nat, bids: seq<WireLevel>, asks: seq<WireLevel>)

  datatype Snapshot = Snapshot(lastUpdateId: nat, bids: seq<WireLevel>, asks: seq<WireLevel>)

  datatype Alert =
    | SnapshotParseFailed
    | SnapshotAlignmentGap(expected: nat, observed: nat)
    | BufferedSequenceGap(expected: nat, observed: nat)
    | DepthLevelParseFailed(observed: nat)

  datatype Outcome = Ok | Err(alert: Alert)

  // ---------------------------------------------------------------- levels

  function ParseLevels(levels: seq<WireLevel>): (r: Option<seq<Level>>)
  {
    if levels == [] then Some([])
    else
      var last := levels[|levels| - 1];
      match ParseLevels(levels[..|levels| - 1])
      case None => None
      case Some(front) =>
        if last.price.Some? && last.quantity.Some?
        then Some(front + [Level(last.price.value, last.quantity.value)])
        else None
  }

  predicate Readable(level: WireLevel) { level.price.Some? && level.quantity.Some? }

  /** Levels parse exactly when every field of every level does, and then each one is there, in its place. */
  lemma {:induction false} ParseLevelsMeans(levels: seq<WireLevel>)
    ensures ParseLevels(levels).Some? <==> forall i :: 0 <= i < |levels| ==> Readable(levels[i])
    ensures ParseLevels(levels).Some? ==>
              && |ParseLevels(levels).value| == |levels|
              && forall i :: 0 <= i < |levels| ==>
                   ParseLevels(levels).value[i] == Level(levels[i].price.value, levels[i].quantity.value)
  {
    if levels != [] {
      var front, last := levels[..|levels| - 1], levels[|levels| - 1];
      assert levels == front + [last];
      ParseLevelsMeans(front);
    }
  }

  function Put(side: Side, price: real, quantity: real): Side
  {
    if quantity > 0.0 then side[price := quantity] else side - {price}
  }

  function ApplyLevels(side: Side, levels: seq<Level>): Side
  {
    if levels == [] then side
    else
      var last := levels[|levels| - 1];
      Put(ApplyLevels(side, levels[..|levels| - 1]), last.price, last.quantity)
  }

  /** The quantity resting at a price; an absent level rests at zero. */
  function Quantity(side: Side, price: real): real
  {
    if price in side then side[price] else 0.0
  }

  predicate Positive(side: Side)
  {
    forall p :: p in side ==> side[p] > 0.0
  }

  ghost predicate Mentions(levels: seq<Level>, price: real)
  {
    exists i :: 0 <= i < |levels| && levels[i].price == price
  }

  /** Absolute updates overwrite: what a price was before matters only if no level names it. */
  lemma {:induction false} ApplyLevelsAt(side: Side, levels: seq<Level>, price: real)
    ensures Quantity(ApplyLevels(side, levels), price) ==
            if Mentions(levels, price) then Quantity(ApplyLevels(map[], levels), price) else Quantity(side, price)
  {
    if levels != [] {
      var front, last := levels[..|levels| - 1], levels[|levels| - 1];
      ApplyLevelsAt(side, front, price);
      if last.price != price {
        assert Mentions(levels, price) <==> Mentions(front, price) by {
          if Mentions(levels, price) {
            var i :| 0 <= i < |levels| && levels[i].price == price;
            assert front[i].price == price;
          }
          if Mentions(front, price) {
            var i :| 0 <= i < |front| && front[i].price == price;
            assert levels[i].price == price;
          }
        }
      } else {
        assert levels[|levels| - 1].price == price;
      }
    }
  }

  lemma {:induction false} ApplyLevelsPositive(side: Side, levels: seq<Level>)
    requires Positive(side)
    ensures Positive(ApplyLevels(side, levels))
  {
    if levels != [] {
      ApplyLevelsPositive(side, levels[..|levels| - 1]);
    }
  }

  lemma SameQuantitiesSameSide(a: Side, b: Side)
    requires Positive(a) && Positive(b)
    requires forall p :: Quantity(a, p) == Quantity(b, p)
    ensures a == b
  {
    forall p
      ensures p in a <==> p in b
      ensures p in a ==> a[p] == b[p]
    {
      assert Quantity(a, p) == Quantity(b, p);
    }
  }

  // ---------------------------------------------------- the reference fold

  datatype Core = Core(lastId: nat, bids: Side, asks: Side)

  datatype Stop = Finished | GapAt(event: DiffEvent) | MalformedAt(event: DiffEvent)

  datatype Replay = Replay(core: Core, stop: Stop, applied: nat)

  datatype Step = Skip | Gap | Malformed | Apply(next: Core)

  function DepthStep(core: Core, event: DiffEvent): Step
  {
    if event.finalId <= core.lastId then Skip
    else if event.firstId > core.lastId + 1 then Gap
    else match (ParseLevels(event.bids), ParseLevels(event.asks))
      case (Some(bids), Some(asks)) =>
        Apply(Core(event.finalId, ApplyLevels(core.bids, bids), ApplyLevels(core.asks, asks)))
      case (_, _) => Malformed
  }

  /** Skip stale, stop at a gap, otherwise apply: no pre-filter and no alignment check. */
  function Fold(core: Core, events: seq<DiffEvent>): Replay
    decreases |events|
  {
    if events == [] then Replay(core, Finished, 0)
    else match DepthStep(core, events[0])
      case Skip => Fold(core, events[1..])
      case Gap => Replay(core, GapAt(events[0]), 0)
      case Malformed => Replay(core, MalformedAt(events[0]), 0)
      case Apply(next) => var r := Fold(next, events[1..]); r.(applied := r.applied + 1)
  }

  function Fresh(events: seq<DiffEvent>, lastId: nat): seq<DiffEvent>
  {
    if events == [] then []
    else (if events[0].finalId > lastId then [events[0]] else []) + Fresh(events[1..], lastId)
  }

  /** Dropping events at or below an id the book has already reached changes nothing in the fold. */
  lemma {:induction false} FoldIgnoresStale(core: Core, events: seq<DiffEvent>, lastId: nat)
    requires lastId <= core.lastId
    ensures Fold(core, Fresh(events, lastId)) == Fold(core, events)
    decreases |events|
  {
    if events != [] {
      var rest := Fresh(events[1..], lastId);
      if events[0].finalId > lastId {
        assert Fresh(events, lastId)[1..] == rest;
        match DepthStep(core, events[0])
        case Skip => FoldIgnoresStale(core, events[1..], lastId);
        case Gap =>
        case Malformed =>
        case Apply(next) => FoldIgnoresStale(next, events[1..], lastId);
      } else {
        assert Fresh(events, lastId) == rest;
        FoldIgnoresStale(core, events[1..], lastId);
      }
    }
  }

  function MaxFinal(events: seq<DiffEvent>, lastId: nat): nat
  {
    if events == [] then lastId
    else MaxFinal(events[1..], if events[0].finalId > lastId then events[0].finalId else lastId)
  }

  /** Replay never moves the id back, keeps quantities positive, and on completion reaches the newest id seen. */
  lemma {:induction false} FoldShape(core: Core, events: seq<DiffEvent>)
    ensures var r := Fold(core, events);
            && core.lastId <= r.core.lastId
            && (core.lastId < r.core.lastId <==> r.applied > 0)
            && (r.stop.Finished? ==> r.core.lastId == MaxFinal(events, core.lastId))
            && (r.stop.GapAt? ==> r.stop.event in events && r.stop.event.firstId > r.core.lastId + 1)
            && (r.stop.MalformedAt? ==> r.stop.event in events)
            && (r.applied == 0 ==> r.core == core)
            && (Positive(core.bids) ==> Positive(r.core.bids))
            && (Positive(core.asks) ==> Positive(r.core.asks))
    decreases |events|
  {
    if events != [] {
      match DepthStep(core, events[0])
      case Skip => FoldShape(core, events[1..]);
      case Gap =>
      case Malformed =>
      case Apply(next) =>
        FoldShape(next, events[1..]);
        if Positive(core.bids) { ApplyLevelsPositive(core.bids, ParseLevels(events[0].bids).value); }
        if Positive(core.asks) { ApplyLevelsPositive(core.asks, ParseLevels(events[0].asks).value); }
    }
  }

  // ------------------------------------------------------ exchange history

  datatype BookSide = Bid | Ask

  /** Update number n (counting from 1) sets one level of one side to an absolute quantity. */
  datatype Update = Update(side: BookSide, price: real, quantity: real)

  type History = seq<Update>

  function SideAt(h: History, side: BookSide, id: nat): Side
    requires id <= |h|
  {
    if id == 0 then map[]
    else
      var before := SideAt(h, side, id - 1);
      if h[id - 1].side == side then Put(before, h[id - 1].price, h[id - 1].quantity) else before
  }

  lemma {:induction false} SideAtPositive(h: History, side: BookSide, id: nat)
    requires id <= |h|
    ensures Positive(SideAt(h, side, id))
  {
    if id > 0 {
      SideAtPositive(h, side, id - 1);
    }
  }

  ghost predicate Touched(h: History, side: BookSide, lo: nat, hi: nat, price: real)
    requires lo <= hi <= |h|
  {
    exists k :: lo <= k < hi && h[k].side == side && h[k].price == price
  }

  lemma {:induction false} UntouchedKeepsQuantity(h: History, side: BookSide, lo: nat, hi: nat, price: real)
    requires lo <= hi <= |h|
    requires !Touched(h, side, lo, hi, price)
    ensures Quantity(SideAt(h, side, lo), price) == Quantity(SideAt(h, side, hi), price)
    decreases hi
  {
    if lo < hi {
      assert !Touched(h, side, lo, hi - 1, price);
      UntouchedKeepsQuantity(h, side, lo, hi - 1, price);
      assert !(h[hi - 1].side == side && h[hi - 1].price == price);
    }
  }

  /**
   A side of a diff is faithful when it names every price touched by updates
   firstId..finalId and gives each price it names the quantity resting there
   after update finalId.
   */
  ghost predicate FaithfulLevels(h: History, side: BookSide, levels: seq<Level>, firstId: nat, finalId: nat)
    requires 1 <= firstId <= finalId <= |h|
  {
    && (forall p :: Touched(h, side, firstId - 1, finalId, p) ==> Mentions(levels, p))
    && (forall p :: Mentions(levels, p) ==>
          Quantity(ApplyLevels(map[], levels), p) == Quantity(SideAt(h, side, finalId), p))
  }

  /** Malformed text is not constrained: an event that does not parse is never applied. */
  ghost predicate FaithfulEvent(h: History, event: DiffEvent)
  {
    && 1 <= event.firstId <= event.finalId <= |h|
    && (ParseLevels(event.bids).Some? ==>
          FaithfulLevels(h, Bid, ParseLevels(event.bids).value, event.firstId, event.finalId))
    && (ParseLevels(event.asks).Some? ==>
          FaithfulLevels(h, Ask, ParseLevels(event.asks).value, event.firstId, event.finalId))
  }

  ghost predicate FaithfulEvents(h: History, events: seq<DiffEvent>)
  {
    forall e :: e in events ==> FaithfulEvent(h, e)
  }

  /** The levels a side's updates lo..hi spell out one by one. */
  function LevelsOf(h: History, side: BookSide, lo: nat, hi: nat): seq<Level>
    requires lo <= hi <= |h|
  {
    if lo == hi then []
    else
      var u := h[hi - 1];
      LevelsOf(h, side, lo, hi - 1) + (if u.side == side then [Level(u.price, u.quantity)] else [])
  }

  lemma {:induction false} LevelsOfReplays(h: History, side: BookSide, lo: nat, hi: nat)
    requires lo <= hi <= |h|
    ensures ApplyLevels(SideAt(h, side, lo), LevelsOf(h, side, lo, hi)) == SideAt(h, side, hi)
    decreases hi
  {
    if lo < hi {
      LevelsOfReplays(h, side, lo, hi - 1);
      var front, all := LevelsOf(h, side, lo, hi - 1), LevelsOf(h, side, lo, hi);
      assert h[hi - 1].side == side ==> all[..|all| - 1] == front;
      assert h[hi - 1].side != side ==> all == front;
    }
  }

  lemma {:induction false} LevelsOfMentions(h: History, side: BookSide, lo: nat, hi: nat, k: nat)
    requires lo <= k < hi <= |h| && h[k].side == side
    ensures Mentions(LevelsOf(h, side, lo, hi), h[k].price)
    decreases hi
  {
    var all := LevelsOf(h, side, lo, hi);
    if k == hi - 1 {
      assert all[|all| - 1].price == h[k].price;
    } else {
      LevelsOfMentions(h, side, lo, hi - 1, k);
      var front := LevelsOf(h, side, lo, hi - 1);
      var i :| 0 <= i < |front| && front[i].price == h[k].price;
      assert all[i].price == h[k].price;
    }
  }

  /** The faithfulness assumption is met by the plain diff stream: listing the updates themselves. */
  lemma PlainDiffIsFaithful(h: History, side: BookSide, firstId: nat, finalId: nat)
    requires 1 <= firstId <= finalId <= |h|
    ensures FaithfulLevels(h, side, LevelsOf(h, side, firstId - 1, finalId), firstId, finalId)
  {
    var levels := LevelsOf(h, side, firstId - 1, finalId);
    LevelsOfReplays(h, side, firstId - 1, finalId);
    forall p | Touched(h, side, firstId - 1, finalId, p)
      ensures Mentions(levels, p)
    {
      var k :| firstId - 1 <= k < finalId && h[k].side == side && h[k].price == p;
      LevelsOfMentions(h, side, firstId - 1, finalId, k);
    }
    forall p | Mentions(levels, p)
      ensures Quantity(ApplyLevels(map[], levels), p) == Quantity(SideAt(h, side, finalId), p)
    {
      ApplyLevelsAt(SideAt(h, side, firstId - 1), levels, p);
    }
  }

  // ------------------------------------------------------------ refinement

  /** Local side and exchange side rest the same quantity at this price after update id. */
  predicate AgreesAt(h: History, side: BookSide, id: nat, local: Side, price: real)
  {
    id <= |h| && Quantity(local, price) == Quantity(SideAt(h, side, id), price)
  }

  /**
   One diff straddling the local id: every price that agreed before still
   agrees afterwards, and every price the diff names comes to agree.
   */
  lemma FaithfulLevelsAgree(h: History, side: BookSide, levels: seq<Level>, firstId: nat, finalId: nat,
                            id: nat, local: Side, price: real)
    requires 1 <= firstId <= finalId <= |h|
    requires FaithfulLevels(h, side, levels, firstId, finalId)
    requires firstId <= id + 1 && id <= finalId
    ensures AgreesAt(h, side, id, local, price) || Mentions(levels, price)
            ==> AgreesAt(h, side, finalId, ApplyLevels(local, levels), price)
  {
    ApplyLevelsAt(local, levels, price);
    if !Mentions(levels, price) && AgreesAt(h, side, id, local, price) {
      assert !Touched(h, side, firstId - 1, finalId, price);
      assert !Touched(h, side, id, finalId, price);
      UntouchedKeepsQuantity(h, side, id, finalId, price);
    }
  }

  function SideOf(core: Core, side: BookSide): Side
  {
    if side.Bid? then core.bids else core.asks
  }

  /**
   Price by price, replay of a faithful buffer keeps agreement with the
   exchange; nothing is assumed about the other levels, so this also covers a
   snapshot truncated to its best levels.
   */
  lemma {:induction false} FoldAgrees(h: History, core: Core, events: seq<DiffEvent>, side: BookSide, price: real)
    requires FaithfulEvents(h, events)
    requires AgreesAt(h, side, core.lastId, SideOf(core, side), price)
    ensures var r := Fold(core, events);
            AgreesAt(h, side, r.core.lastId, SideOf(r.core, side), price)
    decreases |events|
  {
    if events != [] {
      var e := events[0];
      assert FaithfulEvent(h, e);
      match DepthStep(core, e)
      case Skip => FoldAgrees(h, core, events[1..], side, price);
      case Gap =>
      case Malformed =>
      case Apply(next) =>
        var levels := ParseLevels(if side.Bid? then e.bids else e.asks).value;
        FaithfulLevelsAgree(h, side, levels, e.firstId, e.finalId, core.lastId, SideOf(core, side), price);
        FoldAgrees(h, next, events[1..], side, price);
    }
  }

  ghost predicate IsExchangeBook(h: History, core: Core)
  {
    && core.lastId <= |h|
    && core.bids == SideAt(h, Bid, core.lastId)
    && core.asks == SideAt(h, Ask, core.lastId)
  }

  /** A book that is the exchange book stays the exchange book through any replay, whatever stops it. */
  lemma FoldIsExchangeBook(h: History, core: Core, events: seq<DiffEvent>)
    requires FaithfulEvents(h, events)
    requires IsExchangeBook(h, core)
    ensures IsExchangeBook(h, Fold(core, events).core)
  {
    var r := Fold(core, events).core;
    SideAtPositive(h, Bid, core.lastId);
    SideAtPositive(h, Ask, core.lastId);
    FoldShape(core, events);
    FoldAgrees(h, core, events, Bid, 0.0);
    forall p
      ensures Quantity(r.bids, p) == Quantity(SideAt(h, Bid, r.lastId), p)
      ensures Quantity(r.asks, p) == Quantity(SideAt(h, Ask, r.lastId), p)
    {
      FoldAgrees(h, core, events, Bid, p);
      FoldAgrees(h, core, events, Ask, p);
    }
    SideAtPositive(h, Bid, r.lastId);
    SideAtPositive(h, Ask, r.lastId);
    SameQuantitiesSameSide(r.bids, SideAt(h, Bid, r.lastId));
    SameQuantitiesSameSide(r.asks, SideAt(h, Ask, r.lastId));
  }
}
