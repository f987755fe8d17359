/**
 The per-symbol depth synchroniser: the book that is updated in place, the
 values its operations refine, and what holds of it over every run.
 */
module DepthSync {
  import opened Wrappers
  import opened DepthBook

  const MAX_BUFFERED_EVENTS := 1_000

  /** One symbol's state; `snapshotAttempted` is its membership in the shared attempted set. */
  datatype Tracker = Tracker(
    lastUpdateId: Option<nat>, bids: Side, asks: Side, buffered: seq<DiffEvent>, snapshotAttempted: bool)

  const Initial := Tracker(None, map[], map[], [], false)

  function ParseSnapshot(levels: seq<WireLevel>): (r: Option<Side>)
  {
    if levels == [] then Some(map[])
    else
      var last := levels[|levels| - 1];
      match ParseSnapshot(levels[..|levels| - 1])
      case None => None
      case Some(side) =>
        if last.price.None? || last.quantity.None? then None
        else if last.quantity.value > 0.0 then Some(side[last.price.value := last.quantity.value])
        else Some(side)
  }

  /** This level rests a positive quantity at the price. */
  predicate Rests(level: WireLevel, price: real)
  {
    Readable(level) && level.price.value == price && level.quantity.value > 0.0
  }

  /**
   A snapshot side parses exactly when every field of every level does; a price
   is then present exactly when some level rests a positive quantity there, and
   it holds the quantity of the last such level.
   */
  lemma {:induction false} ParseSnapshotMeans(levels: seq<WireLevel>, price: real)
    ensures ParseSnapshot(levels).Some? <==> forall i :: 0 <= i < |levels| ==> Readable(levels[i])
    ensures ParseSnapshot(levels).Some? ==>
              (price in ParseSnapshot(levels).value <==> exists i :: 0 <= i < |levels| && Rests(levels[i], price))
    ensures ParseSnapshot(levels).Some? && price in ParseSnapshot(levels).value ==>
              exists i :: && 0 <= i < |levels| && Rests(levels[i], price)
                          && ParseSnapshot(levels).value[price] == levels[i].quantity.value
                          && forall j :: i < j < |levels| ==> !Rests(levels[j], price)
  {
    if levels != [] {
      var front, last := levels[..|levels| - 1], levels[|levels| - 1];
      assert levels == front + [last];
      ParseSnapshotMeans(front, price);
      if ParseSnapshot(levels).Some? && !Rests(last, price) && price in ParseSnapshot(front).value {
        var i :| && 0 <= i < |front| && Rests(front[i], price)
                 && ParseSnapshot(front).value[price] == front[i].quantity.value
                 && forall j :: i < j < |front| ==> !Rests(front[j], price);
        assert Rests(levels[i], price) && ParseSnapshot(levels).value[price] == levels[i].quantity.value;
      }
    }
  }

  lemma {:induction false} MalformedPrefix(levels: seq<WireLevel>, n: nat)
    requires n < |levels|
    requires levels[n].price.None? || levels[n].quantity.None?
    ensures ParseLevels(levels).None? && ParseSnapshot(levels).None?
  {
    var front := levels[..|levels| - 1];
    if n < |front| {
      MalformedPrefix(front, n);
    }
  }

  /** Synchronisation as a whole, over the unfiltered buffer and in terms of the plain fold. */
  function Synchronised(t: Tracker, s: Snapshot): (Tracker, Outcome)
  {
    match (ParseSnapshot(s.bids), ParseSnapshot(s.asks))
    case (None, _) => (t.(lastUpdateId := Some(s.lastUpdateId)), Err(SnapshotParseFailed))
    case (Some(bids), None) => (t.(lastUpdateId := Some(s.lastUpdateId), bids := bids), Err(SnapshotParseFailed))
    case (Some(bids), Some(asks)) =>
      Replayed(t.buffered, Core(s.lastUpdateId, bids, asks), t.snapshotAttempted)
  }

  /** A snapshot core and the fold of the buffer over it, as the state and outcome they amount to. */
  function Replayed(events: seq<DiffEvent>, core: Core, attempted: bool): (Tracker, Outcome)
  {
    var r := Fold(core, events);
    var next := Tracker(Some(r.core.lastId), r.core.bids, r.core.asks, [], attempted);
    match r.stop
    case Finished => (next, Ok)
    case GapAt(e) =>
      if r.applied == 0
      then (next.(buffered := Fresh(events, core.lastId)), Err(SnapshotAlignmentGap(core.lastId + 1, e.firstId)))
      else (next.(buffered := [e]), Err(BufferedSequenceGap(r.core.lastId + 1, e.firstId)))
    case MalformedAt(e) =>
      (Initial.(snapshotAttempted := attempted), Err(DepthLevelParseFailed(e.firstId)))
  }

  function AfterSyncedEvent(t: Tracker, e: DiffEvent): Tracker
    requires t.lastUpdateId.Some?
  {
    match DepthStep(Core(t.lastUpdateId.value, t.bids, t.asks), e)
    case Skip => t
    case Gap => Initial.(buffered := [e])
    case Malformed => Initial
    case Apply(next) => t.(lastUpdateId := Some(next.lastId), bids := next.bids, asks := next.asks)
  }

  function AfterUnsyncedEvent(t: Tracker, e: DiffEvent): Tracker
  {
    if |t.buffered| >= MAX_BUFFERED_EVENTS then Initial.(buffered := [e])
    else t.(buffered := t.buffered + [e])
  }

  /** One diff event, followed by the snapshot fetch it may trigger; None is a failed fetch. */
  function AfterEvent(t: Tracker, e: DiffEvent, fetched: Option<Snapshot>): Tracker
  {
    var u := if t.lastUpdateId.Some? then AfterSyncedEvent(t, e) else AfterUnsyncedEvent(t, e);
    if u.lastUpdateId.Some? || u.snapshotAttempted then u
    else
      var attempted := u.(snapshotAttempted := true);
      match fetched
      case None => attempted
      case Some(s) =>
        var (v, outcome) := Synchronised(attempted, s);
        if outcome.Ok? then v else v.(snapshotAttempted := false)
  }

  datatype Input = Input(event: DiffEvent, fetched: Option<Snapshot>)

  function Run(inputs: seq<Input>): Tracker
  {
    if inputs == [] then Initial
    else
      var last := inputs[|inputs| - 1];
      AfterEvent(Run(inputs[..|inputs| - 1]), last.event, last.fetched)
  }

  // ---------------------------------------------------------- in-place book

  method ParseLevelUpdates(levels: seq<WireLevel>) returns (r: Option<seq<Level>>)
    ensures r == ParseLevels(levels)
    ensures r.Some? <==> forall i :: 0 <= i < |levels| ==> Readable(levels[i])
    ensures r.Some? ==>
              && |r.value| == |levels|
              && forall i :: 0 <= i < |levels| ==>
                   r.value[i] == Level(levels[i].price.value, levels[i].quantity.value)
  {
    ParseLevelsMeans(levels);
    var parsed: seq<Level> := [];
    for i := 0 to |levels|
      invariant ParseLevels(levels[..i]) == Some(parsed)
    {
      assert levels[..i + 1][..i] == levels[..i];
      if levels[i].price.None? || levels[i].quantity.None? {
        MalformedPrefix(levels, i);
        return None;
      }
      parsed := parsed + [Level(levels[i].price.value, levels[i].quantity.value)];
    }
    assert levels[..|levels|] == levels;
    return Some(parsed);
  }

  method ParseSnapshotLevels(levels: seq<WireLevel>) returns (r: Option<Side>)
    ensures r == ParseSnapshot(levels)
    ensures r.Some? ==> Positive(r.value)
  {
    var parsed: Side := map[];
    for i := 0 to |levels|
      invariant ParseSnapshot(levels[..i]) == Some(parsed)
      invariant Positive(parsed)
    {
      assert levels[..i + 1][..i] == levels[..i];
      if levels[i].price.None? || levels[i].quantity.None? {
        MalformedPrefix(levels, i);
        return None;
      }
      if levels[i].quantity.value > 0.0 {
        parsed := parsed[levels[i].price.value := levels[i].quantity.value];
      }
    }
    assert levels[..|levels|] == levels;
    return Some(parsed);
  }

  lemma {:induction false} FreshSnoc(events: seq<DiffEvent>, e: DiffEvent, lastId: nat)
    ensures Fresh(events + [e], lastId) == Fresh(events, lastId) + (if e.finalId > lastId then [e] else [])
  {
    if events != [] {
      FreshSnoc(events[1..], e, lastId);
      assert (events + [e])[1..] == events[1..] + [e];
    }
  }

  method RetainFresh(events: seq<DiffEvent>, lastId: nat) returns (kept: seq<DiffEvent>)
    ensures kept == Fresh(events, lastId)
  {
    kept := [];
    for i := 0 to |events|
      invariant kept == Fresh(events[..i], lastId)
    {
      FreshSnoc(events[..i], events[i], lastId);
      assert events[..i + 1] == events[..i] + [events[i]];
      if events[i].finalId > lastId {
        kept := kept + [events[i]];
      }
    }
    assert events[..|events|] == events;
  }

  class LocalOrderBook {
    var lastUpdateId: Option<nat>
    var bids: Side
    var asks: Side
    var buffered: seq<DiffEvent>
    var snapshotAttempted: bool

    ghost function State(): Tracker
      reads this
    {
      Tracker(lastUpdateId, bids, asks, buffered, snapshotAttempted)
    }

    constructor ()
      ensures State() == Initial
    {
      lastUpdateId, bids, asks, buffered, snapshotAttempted := None, map[], map[], [], false;
    }

    method ResetForResync(e: DiffEvent)
      modifies this`lastUpdateId, this`bids, this`asks, this`buffered
      ensures State() == Initial.(buffered := [e], snapshotAttempted := old(snapshotAttempted))
    {
      lastUpdateId, bids, asks, buffered := None, map[], map[], [e];
    }

    method ResetAfterOverflow()
      modifies this`lastUpdateId, this`bids, this`asks, this`buffered
      ensures State() == Initial.(snapshotAttempted := old(snapshotAttempted))
    {
      lastUpdateId, bids, asks, buffered := None, map[], map[], [];
    }

    method ApplyBids(levels: seq<Level>)
      modifies this`bids
      ensures bids == ApplyLevels(old(bids), levels)
    {
      for i := 0 to |levels|
        invariant bids == ApplyLevels(old(bids), levels[..i])
      {
        assert levels[..i + 1][..i] == levels[..i];
        if levels[i].quantity > 0.0 {
          bids := bids[levels[i].price := levels[i].quantity];
        } else {
          bids := bids - {levels[i].price};
        }
      }
      assert levels[..|levels|] == levels;
    }

    method ApplyAsks(levels: seq<Level>)
      modifies this`asks
      ensures asks == ApplyLevels(old(asks), levels)
    {
      for i := 0 to |levels|
        invariant asks == ApplyLevels(old(asks), levels[..i])
      {
        assert levels[..i + 1][..i] == levels[..i];
        if levels[i].quantity > 0.0 {
          asks := asks[levels[i].price := levels[i].quantity];
        } else {
          asks := asks - {levels[i].price};
        }
      }
      assert levels[..|levels|] == levels;
    }

    /** All or nothing: a level that does not parse leaves the book as it was. */
    method ApplyDepthDelta(e: DiffEvent) returns (outcome: Outcome)
      modifies this`lastUpdateId, this`bids, this`asks
      ensures outcome.Ok? <==> ParseLevels(e.bids).Some? && ParseLevels(e.asks).Some?
      ensures outcome.Ok? ==>
                && lastUpdateId == Some(e.finalId)
                && bids == ApplyLevels(old(bids), ParseLevels(e.bids).value)
                && asks == ApplyLevels(old(asks), ParseLevels(e.asks).value)
      ensures outcome.Err? ==> outcome.alert == DepthLevelParseFailed(e.firstId) && State() == old(State())
    {
      var bidUpdates := ParseLevelUpdates(e.bids);
      if bidUpdates.None? {
        return Err(DepthLevelParseFailed(e.firstId));
      }
      var askUpdates := ParseLevelUpdates(e.asks);
      if askUpdates.None? {
        return Err(DepthLevelParseFailed(e.firstId));
      }
      ApplyBids(bidUpdates.value);
      ApplyAsks(askUpdates.value);
      lastUpdateId := Some(e.finalId);
      return Ok;
    }

    /** Pre-filter, alignment check and replay together refine the plain fold over the unfiltered buffer. */
    method SyncFromSnapshot(s: Snapshot) returns (outcome: Outcome)
      modifies this
      ensures (State(), outcome) == Synchronised(old(State()), s)
    {
      lastUpdateId := Some(s.lastUpdateId);
      var parsedBids := ParseSnapshotLevels(s.bids);
      if parsedBids.None? {
        return Err(SnapshotParseFailed);
      }
      bids := parsedBids.value;
      var parsedAsks := ParseSnapshotLevels(s.asks);
      if parsedAsks.None? {
        return Err(SnapshotParseFailed);
      }
      asks := parsedAsks.value;
      outcome := AlignAndReplay(s.lastUpdateId);
    }

    method AlignAndReplay(snapshotId: nat) returns (outcome: Outcome)
      requires lastUpdateId == Some(snapshotId)
      modifies this`lastUpdateId, this`bids, this`asks, this`buffered
      ensures (State(), outcome) ==
              Replayed(old(buffered), Core(snapshotId, old(bids), old(asks)), snapshotAttempted)
    {
      hide Fold, Replayed, ReplayEnd;
      ReplayedCases(buffered, Core(snapshotId, bids, asks), snapshotAttempted);
      buffered := RetainFresh(buffered, snapshotId);
      if buffered == [] {
        return Ok;
      }
      if buffered[0].firstId > snapshotId + 1 {
        return Err(SnapshotAlignmentGap(snapshotId + 1, buffered[0].firstId));
      }
      outcome := ReplayBuffered(Core(snapshotId, bids, asks));
    }

    method ReplayBuffered(ghost start: Core) returns (outcome: Outcome)
      requires lastUpdateId == Some(start.lastId) && bids == start.bids && asks == start.asks
      modifies this`lastUpdateId, this`bids, this`asks, this`buffered
      ensures (State(), outcome) == ReplayEnd(start, old(buffered), snapshotAttempted)
    {
      var events := buffered;
      buffered := [];
      ghost var applied := 0;
      for i := 0 to |events|
        invariant buffered == [] && lastUpdateId.Some?
        invariant var r := Fold(Core(lastUpdateId.value, bids, asks), events[i..]);
                  Fold(start, events) == r.(applied := r.applied + applied)
      {
        var e := events[i];
        assert events[i..][1..] == events[i + 1..];
        if e.finalId <= lastUpdateId.value {
          continue;
        }
        if e.firstId > lastUpdateId.value + 1 {
          buffered := buffered + [e];
          assert buffered == [e];
          return Err(BufferedSequenceGap(lastUpdateId.value + 1, e.firstId));
        }
        outcome := ApplyDepthDelta(e);
        if outcome.Err? {
          ResetAfterOverflow();
          return;
        }
        applied := applied + 1;
      }
      return Ok;
    }

    method HandleSyncedEvent(e: DiffEvent)
      requires lastUpdateId.Some?
      modifies this
      ensures State() == AfterSyncedEvent(old(State()), e)
      ensures var id := old(lastUpdateId).value;
              && (e.finalId <= id ==> State() == old(State()))
              && (e.finalId > id && e.firstId > id + 1 ==> State() == Tracker(None, map[], map[], [e], false))
              && (e.finalId > id && e.firstId <= id + 1 && lastUpdateId.None? ==>
                    State() == Tracker(None, map[], map[], [], false))
      ensures lastUpdateId.Some? ==> lastUpdateId == old(lastUpdateId) || lastUpdateId == Some(e.finalId)
    {
      if e.finalId <= lastUpdateId.value {
        return;
      }
      if e.firstId > lastUpdateId.value + 1 {
        ResetForResync(e);
        snapshotAttempted := false;
        return;
      }
      var outcome := ApplyDepthDelta(e);
      if outcome.Err? {
        ResetAfterOverflow();
        snapshotAttempted := false;
      }
    }

    method BufferUnsyncedEvent(e: DiffEvent)
      modifies this
      ensures State() == AfterUnsyncedEvent(old(State()), e)
      ensures State() == if |old(buffered)| >= 1_000 then Tracker(None, map[], map[], [e], false)
                         else old(State()).(buffered := old(buffered) + [e])
    {
      if |buffered| >= MAX_BUFFERED_EVENTS {
        ResetAfterOverflow();
        snapshotAttempted := false;
      }
      buffered := buffered + [e];
    }

    method HandleDiffDepthEvent(e: DiffEvent, fetched: Option<Snapshot>)
      modifies this
      ensures State() == AfterEvent(old(State()), e, fetched)
    {
      if lastUpdateId.Some? {
        HandleSyncedEvent(e);
      } else {
        BufferUnsyncedEvent(e);
      }
      if lastUpdateId.None? && !snapshotAttempted {
        snapshotAttempted := true;
        if fetched.Some? {
          var outcome := SyncFromSnapshot(fetched.value);
          if outcome.Err? {
            snapshotAttempted := false;
          }
        }
      }
    }
  }

  /** How replaying a buffer in place ends: a gap leaves the offending event, a malformed one leaves no book. */
  function ReplayEnd(core: Core, events: seq<DiffEvent>, attempted: bool): (Tracker, Outcome)
  {
    var r := Fold(core, events);
    var next := Tracker(Some(r.core.lastId), r.core.bids, r.core.asks, [], attempted);
    match r.stop
    case Finished => (next, Ok)
    case GapAt(e) => (next.(buffered := [e]), Err(BufferedSequenceGap(r.core.lastId + 1, e.firstId)))
    case MalformedAt(e) => (Initial.(snapshotAttempted := attempted), Err(DepthLevelParseFailed(e.firstId)))
  }

  /** The fold over the unfiltered buffer, seen through the pre-filter and the check on the first event left. */
  lemma ReplayedCases(events: seq<DiffEvent>, core: Core, attempted: bool)
    ensures var left := Fresh(events, core.lastId);
            Replayed(events, core, attempted) ==
            if left == [] then (Tracker(Some(core.lastId), core.bids, core.asks, [], attempted), Ok)
            else if left[0].firstId > core.lastId + 1 then
              (Tracker(Some(core.lastId), core.bids, core.asks, left, attempted),
               Err(SnapshotAlignmentGap(core.lastId + 1, left[0].firstId)))
            else ReplayEnd(core, left, attempted)
  {
    hide Fold, Fresh;
    var left := Fresh(events, core.lastId);
    FoldIgnoresStale(core, events, core.lastId);
    FreshIsFresh(events, core.lastId);
    FoldStarts(core, left);
    assert left != [] ==> left[0] in left;
    if left != [] && left[0].firstId <= core.lastId + 1 {
      FirstAligned(core, left);
    }
  }

  lemma FoldStarts(core: Core, events: seq<DiffEvent>)
    ensures events == [] ==> Fold(core, events) == Replay(core, Finished, 0)
    ensures events != [] && events[0].finalId > core.lastId && events[0].firstId > core.lastId + 1 ==>
              Fold(core, events) == Replay(core, GapAt(events[0]), 0)
  {
  }

  lemma {:induction false} FreshIsFresh(events: seq<DiffEvent>, lastId: nat)
    ensures forall e :: e in Fresh(events, lastId) <==> e in events && e.finalId > lastId
  {
    if events != [] {
      FreshIsFresh(events[1..], lastId);
    }
  }

  lemma FirstAligned(core: Core, events: seq<DiffEvent>)
    requires events != [] && events[0].finalId > core.lastId && events[0].firstId <= core.lastId + 1
    ensures Fold(core, events).stop.GapAt? ==> Fold(core, events).applied > 0
  {
  }

  // --------------------------------------------------------- main results

  /** Each side that parses is the exchange's full side at the snapshot id. */
  ghost predicate FaithfulSnapshot(h: History, s: Snapshot)
  {
    && s.lastUpdateId <= |h|
    && (ParseSnapshot(s.bids).Some? ==> ParseSnapshot(s.bids).value == SideAt(h, Bid, s.lastUpdateId))
    && (ParseSnapshot(s.asks).Some? ==> ParseSnapshot(s.asks).value == SideAt(h, Ask, s.lastUpdateId))
  }

  predicate Parses(s: Snapshot)
  {
    ParseSnapshot(s.bids).Some? && ParseSnapshot(s.asks).Some?
  }

  /** A book that claims an id is the exchange's book at that id. */
  ghost predicate TellsTheTruth(h: History, t: Tracker)
  {
    t.lastUpdateId.Some? ==> IsExchangeBook(h, Core(t.lastUpdateId.value, t.bids, t.asks))
  }

  /**
   Depth refinement: Ok and both gap alerts leave the exchange's book at the id
   the local book claims; Ok leaves no buffered event and has reached the
   newest id on offer; a malformed event leaves no book at all.
   */
  lemma SyncRefinesExchange(h: History, t: Tracker, s: Snapshot)
    requires FaithfulEvents(h, t.buffered) && FaithfulSnapshot(h, s) && Parses(s)
    ensures var (u, outcome) := Synchronised(t, s);
            && TellsTheTruth(h, u)
            && (outcome.Ok? ==> u.buffered == [] && u.lastUpdateId == Some(MaxFinal(t.buffered, s.lastUpdateId)))
            && (outcome.Err? ==> (outcome.alert.DepthLevelParseFailed? <==> u.lastUpdateId.None?))
  {
    var core := Core(s.lastUpdateId, ParseSnapshot(s.bids).value, ParseSnapshot(s.asks).value);
    FoldIsExchangeBook(h, core, t.buffered);
    FoldShape(core, t.buffered);
  }

  /** What the alerts report: the id after the book's own, and the first id of the event that left the gap. */
  lemma AlertsAreExact(t: Tracker, s: Snapshot)
    ensures !Parses(s) <==> Synchronised(t, s).1 == Err(SnapshotParseFailed)
    ensures var (u, outcome) := Synchronised(t, s);
            outcome.Err? ==>
            match outcome.alert
            case SnapshotAlignmentGap(expected, observed) =>
              && expected == s.lastUpdateId + 1 < observed && u.lastUpdateId == Some(s.lastUpdateId)
              && u.buffered != [] && u.buffered[0].firstId == observed
            case BufferedSequenceGap(expected, observed) =>
              && u.lastUpdateId.Some? && expected == u.lastUpdateId.value + 1 < observed
              && s.lastUpdateId < u.lastUpdateId.value && |u.buffered| == 1 && u.buffered[0].firstId == observed
              && u.buffered[0] in t.buffered
            case DepthLevelParseFailed(observed) => exists e :: e in t.buffered && e.firstId == observed
            case SnapshotParseFailed => u.lastUpdateId == Some(s.lastUpdateId) && u.buffered == t.buffered
  {
    hide Fold, ApplyLevels, ParseLevels, Positive, MaxFinal;
    if Parses(s) {
      var core := Core(s.lastUpdateId, ParseSnapshot(s.bids).value, ParseSnapshot(s.asks).value);
      FoldShape(core, t.buffered);
      ReplayedCases(t.buffered, core, t.snapshotAttempted);
    }
  }

  /** What waits for a snapshot once this event is in, where one is wanted: after an overflow or a gap, it alone. */
  function Waiting(t: Tracker, e: DiffEvent): Option<seq<DiffEvent>>
  {
    if t.lastUpdateId.None? then
      if |t.buffered| >= 1_000 then Some([e])
      else if t.snapshotAttempted then None else Some(t.buffered + [e])
    else if e.finalId <= t.lastUpdateId.value then None
    else if e.firstId > t.lastUpdateId.value + 1 then Some([e])
    else if ParseLevels(e.bids).Some? && ParseLevels(e.asks).Some? then None
    else Some([])
  }

  /**
   When a snapshot is asked for and what becomes of it: one that cannot be had is not asked for again until the
   book is reset, one that raises an alert is asked for again at the next chance, and otherwise none is used.
   */
  lemma FetchMeans(t: Tracker, e: DiffEvent, fetched: Option<Snapshot>)
    ensures var v, waiting := AfterEvent(t, e, fetched), Waiting(t, e);
            && (waiting.None? ==> v == AfterEvent(t, e, None))
            && (waiting.None? && t.lastUpdateId.None? ==> v == t.(buffered := t.buffered + [e]))
            && (waiting.Some? && fetched.None? ==>
                  v.lastUpdateId.None? && v.snapshotAttempted && v.buffered == waiting.value)
            && (waiting.Some? && fetched.Some? ==>
                  exists u: Tracker :: u.lastUpdateId.None? && u.snapshotAttempted && u.buffered == waiting.value
                    && v == Synchronised(u, fetched.value).0.(snapshotAttempted := v.snapshotAttempted)
                    && (v.snapshotAttempted <==> Synchronised(u, fetched.value).1.Ok?))
  {
    hide ParseLevels, ApplyLevels, Fold, Fresh;
    if Waiting(t, e).Some? && fetched.Some? {
      var w := if t.lastUpdateId.Some? then AfterSyncedEvent(t, e) else AfterUnsyncedEvent(t, e);
      var u := w.(snapshotAttempted := true);
      assert u.buffered == Waiting(t, e).value;
      SyncKeepsAttempt(u, fetched.value);
    }
  }

  lemma SyncKeepsAttempt(t: Tracker, s: Snapshot)
    ensures Synchronised(t, s).0.snapshotAttempted == t.snapshotAttempted
  {
    hide Fold, Fresh, ParseSnapshot;
  }

  /** Two snapshots that synchronise over the same buffer and end at the same id give the same book. */
  lemma SyncIsSnapshotIndependent(h: History, t: Tracker, s1: Snapshot, s2: Snapshot)
    requires FaithfulEvents(h, t.buffered)
    requires FaithfulSnapshot(h, s1) && FaithfulSnapshot(h, s2) && Parses(s1) && Parses(s2)
    requires Synchronised(t, s1).1.Ok? && Synchronised(t, s2).1.Ok?
    requires MaxFinal(t.buffered, s1.lastUpdateId) == MaxFinal(t.buffered, s2.lastUpdateId)
    ensures Synchronised(t, s1).0 == Synchronised(t, s2).0
  {
    SyncRefinesExchange(h, t, s1);
    SyncRefinesExchange(h, t, s2);
  }

  /** An unbroken stretch of the diff stream whose every level parses. */
  predicate Unbroken(events: seq<DiffEvent>)
  {
    forall i :: 0 <= i < |events| ==>
      && events[i].firstId <= events[i].finalId
      && ParseLevels(events[i].bids).Some? && ParseLevels(events[i].asks).Some?
      && (i + 1 < |events| ==> events[i + 1].firstId == events[i].finalId + 1)
  }

  lemma {:induction false} FoldFinishesUnbroken(core: Core, events: seq<DiffEvent>)
    requires Unbroken(events)
    requires events != [] ==> events[0].firstId <= core.lastId + 1
    ensures Fold(core, events).stop.Finished?
    decreases |events|
  {
    if events != [] {
      match DepthStep(core, events[0])
      case Skip => FoldFinishesUnbroken(core, events[1..]);
      case Apply(next) => FoldFinishesUnbroken(next, events[1..]);
    }
  }

  /** Over an unbroken buffer, synchronisation succeeds exactly when the snapshot reaches its first event. */
  lemma SyncSucceedsIff(t: Tracker, s: Snapshot)
    requires Unbroken(t.buffered) && Parses(s)
    ensures Synchronised(t, s).1.Ok? <==>
            (t.buffered != [] ==> t.buffered[0].firstId <= s.lastUpdateId + 1)
  {
    var core := Core(s.lastUpdateId, ParseSnapshot(s.bids).value, ParseSnapshot(s.asks).value);
    if t.buffered != [] ==> t.buffered[0].firstId <= s.lastUpdateId + 1 {
      FoldFinishesUnbroken(core, t.buffered);
    }
  }

  /** With a snapshot cut to its best levels, every price it got right stays right. */
  lemma TruncatedSnapshotAgrees(h: History, t: Tracker, s: Snapshot, side: BookSide, price: real)
    requires FaithfulEvents(h, t.buffered) && Parses(s)
    requires AgreesAt(h, side, s.lastUpdateId,
                      (if side.Bid? then ParseSnapshot(s.bids) else ParseSnapshot(s.asks)).value, price)
    ensures var u := Synchronised(t, s).0;
            u.lastUpdateId.Some? ==>
              AgreesAt(h, side, u.lastUpdateId.value, if side.Bid? then u.bids else u.asks, price)
  {
    FoldAgrees(h, Core(s.lastUpdateId, ParseSnapshot(s.bids).value, ParseSnapshot(s.asks).value),
               t.buffered, side, price);
  }

  ghost predicate Safe(h: History, t: Tracker)
  {
    && TellsTheTruth(h, t)
    && (t.lastUpdateId.None? ==> t.bids == map[] && t.asks == map[])
    && FaithfulEvents(h, t.buffered)
    && |t.buffered| <= MAX_BUFFERED_EVENTS
  }

  lemma {:induction false} FreshShrinks(events: seq<DiffEvent>, lastId: nat)
    ensures |Fresh(events, lastId)| <= |events|
  {
    if events != [] {
      FreshShrinks(events[1..], lastId);
    }
  }

  lemma SyncKeepsSafe(h: History, t: Tracker, s: Snapshot)
    requires Safe(h, t) && FaithfulSnapshot(h, s) && Parses(s)
    ensures Safe(h, Synchronised(t, s).0)
  {
    SyncRefinesExchange(h, t, s);
    FreshIsFresh(t.buffered, s.lastUpdateId);
    FreshShrinks(t.buffered, s.lastUpdateId);
    FoldShape(Core(s.lastUpdateId, ParseSnapshot(s.bids).value, ParseSnapshot(s.asks).value), t.buffered);
  }

  lemma EventKeepsSafe(h: History, t: Tracker, e: DiffEvent)
    requires Safe(h, t) && FaithfulEvent(h, e)
    ensures Safe(h, if t.lastUpdateId.Some? then AfterSyncedEvent(t, e) else AfterUnsyncedEvent(t, e))
  {
    if t.lastUpdateId.Some? {
      var core := Core(t.lastUpdateId.value, t.bids, t.asks);
      FoldIsExchangeBook(h, core, [e]);
      var step := DepthStep(core, e);
      assert [e][1..] == [];
      assert step.Apply? ==> Fold(core, [e]).core == Fold(step.next, []).core == step.next;
    }
  }

  ghost predicate FaithfulInputs(h: History, inputs: seq<Input>)
  {
    forall i :: 0 <= i < |inputs| ==>
      && FaithfulEvent(h, inputs[i].event)
      && (inputs[i].fetched.Some? ==> FaithfulSnapshot(h, inputs[i].fetched.value))
  }

  /** The book dates from a snapshot that did not parse; a gap or a malformed diff since then would have cleared it. */
  predicate Tainted(inputs: seq<Input>)
  {
    if inputs == [] then false
    else
      var front, last := inputs[..|inputs| - 1], inputs[|inputs| - 1];
      var t := Run(front);
      var u := if t.lastUpdateId.Some? then AfterSyncedEvent(t, last.event) else AfterUnsyncedEvent(t, last.event);
      if u.lastUpdateId.Some? then Tainted(front)
      else !u.snapshotAttempted && last.fetched.Some? && !Parses(last.fetched.value)
  }

  /** Only a fetched snapshot that does not parse can taint a run. */
  lemma {:induction false} TaintHasCause(inputs: seq<Input>)
    requires Tainted(inputs)
    ensures exists i :: 0 <= i < |inputs| && inputs[i].fetched.Some? && !Parses(inputs[i].fetched.value)
  {
    hide Parses, AfterSyncedEvent, AfterUnsyncedEvent;
    var front, last := inputs[..|inputs| - 1], inputs[|inputs| - 1];
    if Tainted(front) {
      TaintHasCause(front);
      var i :| 0 <= i < |front| && front[i].fetched.Some? && !Parses(front[i].fetched.value);
      assert inputs[i] == front[i];
    } else {
      assert inputs[|inputs| - 1].fetched.Some? && !Parses(inputs[|inputs| - 1].fetched.value);
    }
  }

  lemma SyncKeepsBuffer(h: History, t: Tracker, s: Snapshot)
    requires FaithfulEvents(h, t.buffered) && |t.buffered| <= MAX_BUFFERED_EVENTS
    ensures var u := Synchronised(t, s).0; FaithfulEvents(h, u.buffered) && |u.buffered| <= MAX_BUFFERED_EVENTS
    ensures var u := Synchronised(t, s).0; u.lastUpdateId.None? ==> u.bids == map[] && u.asks == map[]
  {
    FreshIsFresh(t.buffered, s.lastUpdateId);
    FreshShrinks(t.buffered, s.lastUpdateId);
    if Parses(s) {
      FoldShape(Core(s.lastUpdateId, ParseSnapshot(s.bids).value, ParseSnapshot(s.asks).value), t.buffered);
    }
  }

  /** What holds in every state: faithful bounded buffer, empty book while unsynced. */
  ghost predicate Tidy(h: History, t: Tracker)
  {
    && (t.lastUpdateId.None? ==> t.bids == map[] && t.asks == map[])
    && FaithfulEvents(h, t.buffered) && |t.buffered| <= MAX_BUFFERED_EVENTS
  }

  lemma EventKeepsTidy(h: History, t: Tracker, e: DiffEvent)
    requires Tidy(h, t) && FaithfulEvent(h, e)
    ensures Tidy(h, if t.lastUpdateId.Some? then AfterSyncedEvent(t, e) else AfterUnsyncedEvent(t, e))
  {
  }

  /**
   Safety over every run: diffs in any order, repeated, missing or malformed,
   fetches that succeed, fail or do not parse at any time. The buffer keeps its
   bound, an unsynced book is empty, and a synced book is the exchange's book
   unless the run is tainted.
   */
  lemma {:induction false} RunIsSafe(h: History, inputs: seq<Input>)
    requires FaithfulInputs(h, inputs)
    ensures Tidy(h, Run(inputs)) && (!Tainted(inputs) ==> Safe(h, Run(inputs)))
  {
    if inputs != [] {
      var front, last := inputs[..|inputs| - 1], inputs[|inputs| - 1];
      assert last == inputs[|inputs| - 1] && forall i :: 0 <= i < |front| ==> front[i] == inputs[i];
      RunIsSafe(h, front);
      StepIsSafe(h, front, last);
    }
  }

  lemma StepIsSafe(h: History, front: seq<Input>, last: Input)
    requires Tidy(h, Run(front)) && (!Tainted(front) ==> Safe(h, Run(front)))
    requires FaithfulEvent(h, last.event) && (last.fetched.Some? ==> FaithfulSnapshot(h, last.fetched.value))
    ensures Tidy(h, AfterEvent(Run(front), last.event, last.fetched))
    ensures Tainted(front + [last]) || Safe(h, AfterEvent(Run(front), last.event, last.fetched))
  {
    hide AfterSyncedEvent, AfterUnsyncedEvent, Synchronised, IsExchangeBook;
    assert (front + [last])[..|front|] == front;
    var t := Run(front);
    var u := if t.lastUpdateId.Some? then AfterSyncedEvent(t, last.event) else AfterUnsyncedEvent(t, last.event);
    EventKeepsTidy(h, t, last.event);
    if !Tainted(front) {
      EventKeepsSafe(h, t, last.event);
    }
    if u.lastUpdateId.None? && !u.snapshotAttempted && last.fetched.Some? {
      var attempted := u.(snapshotAttempted := true);
      SyncKeepsBuffer(h, attempted, last.fetched.value);
      if Parses(last.fetched.value) {
        SyncKeepsSafe(h, attempted, last.fetched.value);
      }
    }
  }

  // ------------------------------------------------------- snapshots that do not parse

  /**
   A snapshot that does not parse still claims its id, over an unsynced (hence
   empty) book: the claim is true of a history only if every side that was not
   loaded is empty there.
   */
  lemma UnparsedClaim(h: History, t: Tracker, s: Snapshot)
    requires t.lastUpdateId.None? && t.bids == map[] && t.asks == map[] && FaithfulSnapshot(h, s) && !Parses(s)
    ensures Synchronised(t, s).1 == Err(SnapshotParseFailed)
    ensures Synchronised(t, s).0.lastUpdateId == Some(s.lastUpdateId)
    ensures TellsTheTruth(h, Synchronised(t, s).0) <==>
            && (ParseSnapshot(s.bids).None? ==> SideAt(h, Bid, s.lastUpdateId) == map[])
            && SideAt(h, Ask, s.lastUpdateId) == map[]
  {
  }

  lemma {:induction false} SideAtPrefix(h: History, more: History, side: BookSide, id: nat)
    requires id <= |h|
    ensures SideAt(h + more, side, id) == SideAt(h, side, id)
  {
    if id > 0 {
      SideAtPrefix(h, more, side, id - 1);
    }
  }

  /** One update for each resting level rebuilds a side. */
  lemma {:induction false} SideHistory(side: BookSide, levels: Side) returns (h: History)
    requires Positive(levels)
    ensures |h| == |levels| && SideAt(h, side, |h|) == levels
    ensures forall k :: 0 <= k < |h| ==> h[k].side == side
    decreases |levels|
  {
    h := [];
    if exists p: real :: p in levels {
      hide SideAt;
      var price: real :| price in levels;
      h := SideHistory(side, levels - {price});
      AddsLevel(h, Update(side, price, levels[price]));
      assert levels == (levels - {price})[price := levels[price]];
      assert |levels| == |levels - {price}| + 1;
      h := h + [Update(side, price, levels[price])];
    } else {
      assert levels == map[];
    }
  }

  lemma AddsLevel(h: History, u: Update)
    requires u.quantity > 0.0
    ensures SideAt(h + [u], u.side, |h| + 1) == SideAt(h, u.side, |h|)[u.price := u.quantity]
  {
    SideAtPrefix(h, [u], u.side, |h|);
  }

  /** Updates of other sides leave a side alone. */
  lemma {:induction false} OtherUpdates(h: History, more: History, side: BookSide, k: nat)
    requires k <= |more| && forall i :: 0 <= i < k ==> more[i].side != side
    ensures SideAt(h + more, side, |h| + k) == SideAt(h, side, |h|)
  {
    if k == 0 {
      SideAtPrefix(h, more, side, |h|);
    } else {
      OtherUpdates(h, more, side, k - 1);
    }
  }

  /** After updates of other sides only, a side starts from nothing. */
  lemma {:induction false} AfterOthers(h: History, more: History, side: BookSide, k: nat)
    requires k <= |more| && forall i :: 0 <= i < |h| ==> h[i].side != side
    ensures SideAt(h + more, side, |h| + k) == SideAt(more, side, k)
  {
    if k == 0 {
      OtherUpdates([], h, side, |h|);
      assert [] + h == h;
      SideAtPrefix(h, more, side, |h|);
    } else {
      AfterOthers(h, more, side, k - 1);
    }
  }

  /** A book of both sides, in as many updates as it has levels. */
  lemma BookHistory(bids: Side, asks: Side) returns (h: History)
    requires Positive(bids) && Positive(asks)
    ensures |h| == |bids| + |asks| && SideAt(h, Bid, |h|) == bids && SideAt(h, Ask, |h|) == asks
  {
    hide SideAt, Positive;
    var b := SideHistory(Bid, bids);
    var a := SideHistory(Ask, asks);
    h := b + a;
    OtherUpdates(b, a, Bid, |a|);
    AfterOthers(b, a, Ask, |a|);
  }

  /** Extends a history to n updates by setting one new level again and again. */
  lemma {:induction false} WithLevel(h: History, side: BookSide, price: real, n: nat) returns (g: History)
    requires |h| < n
    ensures |g| == n && SideAt(g, side, n) == SideAt(h, side, |h|)[price := 1.0]
    ensures forall other :: other != side ==> SideAt(g, other, n) == SideAt(h, other, |h|)
    decreases n
  {
    var u := Update(side, price, 1.0);
    var f := h;
    if |h| + 1 < n {
      f := WithLevel(h, side, price, n - 1);
    }
    g := f + [u];
    SideAtPrefix(f, [u], Bid, n - 1);
    SideAtPrefix(f, [u], Ask, n - 1);
  }

  /**
   Two histories with the same updates after a cut, whose books differ there in
   one level never touched again, differ in it ever after and in nothing else.
   */
  lemma {:induction false} TailAgrees(h: History, g: History, cut: nat, k: nat, side: BookSide, price: real)
    requires cut <= k <= |h| == |g| && forall i :: cut <= i < |h| ==> g[i] == h[i] && g[i].price != price
    requires SideAt(g, side, cut) == SideAt(h, side, cut)[price := 1.0]
    requires forall other :: other != side ==> SideAt(g, other, cut) == SideAt(h, other, cut)
    ensures SideAt(g, side, k) == SideAt(h, side, k)[price := 1.0]
    ensures forall other :: other != side ==> SideAt(g, other, k) == SideAt(h, other, k)
    decreases k
  {
    if cut < k {
      TailAgrees(h, g, cut, k - 1, side, price);
    }
  }

  lemma {:induction false} FreshPrice(used: set<real>) returns (price: real)
    ensures forall p :: p in used ==> p < price
  {
    price := 0.0;
    if exists x: real :: x in used {
      var p: real :| p in used;
      var above := FreshPrice(used - {p});
      price := if p < above then above else p + 1.0;
      forall x | x in used
        ensures x < price
      {
        assert x != p ==> x in used - {p};
      }
    }
  }

  ghost function Named(e: DiffEvent): set<real>
  {
    (if ParseLevels(e.bids).Some? then set l | l in ParseLevels(e.bids).value :: l.price else {})
    + (if ParseLevels(e.asks).Some? then set l | l in ParseLevels(e.asks).value :: l.price else {})
  }

  lemma EventStaysFaithful(h: History, g: History, cut: nat, e: DiffEvent, side: BookSide, price: real)
    requires cut <= |h| == |g| && forall i :: cut <= i < |h| ==> g[i] == h[i] && g[i].price != price
    requires SideAt(g, side, cut) == SideAt(h, side, cut)[price := 1.0]
    requires forall other :: other != side ==> SideAt(g, other, cut) == SideAt(h, other, cut)
    requires FaithfulEvent(h, e) && e.firstId > cut && price !in Named(e)
    ensures FaithfulEvent(g, e)
  {
    TailAgrees(h, g, cut, e.finalId, side, price);
    if ParseLevels(e.bids).Some? {
      LevelsStayFaithful(h, g, Bid, ParseLevels(e.bids).value, e.firstId, e.finalId, price);
    }
    if ParseLevels(e.asks).Some? {
      LevelsStayFaithful(h, g, Ask, ParseLevels(e.asks).value, e.firstId, e.finalId, price);
    }
  }

  lemma LevelsStayFaithful(h: History, g: History, side: BookSide, levels: seq<Level>, firstId: nat, finalId: nat,
                           price: real)
    requires 1 <= firstId <= finalId <= |h| == |g| && FaithfulLevels(h, side, levels, firstId, finalId)
    requires forall i :: firstId - 1 <= i < finalId ==> g[i] == h[i]
    requires forall l :: l in levels ==> l.price != price
    requires forall p :: p != price ==> Quantity(SideAt(g, side, finalId), p) == Quantity(SideAt(h, side, finalId), p)
    ensures FaithfulLevels(g, side, levels, firstId, finalId)
  {
    hide ApplyLevels, SideAt;
    forall p | Touched(g, side, firstId - 1, finalId, p)
      ensures Mentions(levels, p)
    {
      var k :| firstId - 1 <= k < finalId && g[k].side == side && g[k].price == p;
      assert h[k].side == side && h[k].price == p;
      assert Touched(h, side, firstId - 1, finalId, p);
    }
    forall p | Mentions(levels, p)
      ensures p != price
    {
      var i :| 0 <= i < |levels| && levels[i].price == p;
      assert levels[i] in levels;
    }
  }

  /**
   Before the first buffered update the history may hold one level more than
   any given one, with nothing the feed has sent to tell: an unparsed snapshot
   that does not load that side then claims a book that is not the exchange's.
   */
  lemma UnparsedSnapshotFitsALie(h: History, t: Tracker, s: Snapshot, cut: nat) returns (g: History)
    requires t.lastUpdateId.None? && t.bids == map[] && t.asks == map[] && !Parses(s)
    requires FaithfulSnapshot(h, s) && FaithfulEvents(h, t.buffered) && Roomy(h, t, s, cut)
    ensures FaithfulSnapshot(g, s) && FaithfulEvents(g, t.buffered) && !TellsTheTruth(g, Synchronised(t, s).0)
  {
    hide Synchronised, ParseSnapshot, Named, FaithfulEvent, SideAt;
    var side := if ParseSnapshot(s.bids).Some? then Ask else Bid;
    var used := (set u | u in h :: u.price) + (set e, p | e in t.buffered && p in Named(e) :: p);
    var price := FreshPrice(used);
    SideAtPositive(h, Bid, cut);
    SideAtPositive(h, Ask, cut);
    var book := BookHistory(SideAt(h, Bid, cut), SideAt(h, Ask, cut));
    var prefix := WithLevel(book, side, price, cut);
    g := prefix + h[cut..];
    SideAtPrefix(prefix, h[cut..], Bid, cut);
    SideAtPrefix(prefix, h[cut..], Ask, cut);
    forall i | cut <= i < |h|
      ensures g[i] == h[i] && g[i].price != price
    {
      assert h[i] in h;
      assert h[i].price in used;
    }
    TailAgrees(h, g, cut, s.lastUpdateId, side, price);
    forall e | e in t.buffered
      ensures FaithfulEvent(g, e)
    {
      assert price in Named(e) ==> price in used;
      EventStaysFaithful(h, g, cut, e, side, price);
    }
    assert price in SideAt(g, side, s.lastUpdateId);
    UnparsedClaim(g, t, s);
  }

  /** Before the cut, which no buffered event reaches back to, the history made more updates than it left levels. */
  ghost predicate Roomy(h: History, t: Tracker, s: Snapshot, cut: nat)
  {
    && cut <= s.lastUpdateId <= |h| && (forall e :: e in t.buffered ==> e.firstId > cut)
    && |SideAt(h, Bid, cut)| + |SideAt(h, Ask, cut)| < cut
  }

  /**
   The exact condition, on what the caller holds: given a history that explains
   snapshot and buffer with room before the buffer, the book is true of every
   history that explains them exactly when the snapshot parses.
   */
  lemma SnapshotIsTrueIff(h: History, t: Tracker, s: Snapshot, cut: nat)
    requires t.lastUpdateId.None? && t.bids == map[] && t.asks == map[]
    requires FaithfulSnapshot(h, s) && FaithfulEvents(h, t.buffered) && Roomy(h, t, s, cut)
    ensures (forall g :: FaithfulSnapshot(g, s) && FaithfulEvents(g, t.buffered) ==>
                           TellsTheTruth(g, Synchronised(t, s).0)) <==> Parses(s)
  {
    hide Synchronised, Roomy, FaithfulEvents, FaithfulSnapshot, TellsTheTruth, Parses;
    if Parses(s) {
      forall g | FaithfulSnapshot(g, s) && FaithfulEvents(g, t.buffered)
        ensures TellsTheTruth(g, Synchronised(t, s).0)
      {
        SyncRefinesExchange(g, t, s);
      }
    } else {
      var g := UnparsedSnapshotFitsALie(h, t, s, cut);
    }
  }

  /**
   Without room the buffer may vouch for an unparsed snapshot: a diff from the
   first update on that empties the side.
   */
  lemma BufferMayVouch()
    ensures exists t: Tracker, s: Snapshot ::
              && t.lastUpdateId.None? && t.bids == map[] && t.asks == map[] && !Parses(s)
              && forall h :: FaithfulSnapshot(h, s) && FaithfulEvents(h, t.buffered) ==>
                               TellsTheTruth(h, Synchronised(t, s).0)
  {
    hide Synchronised, SideAt, FaithfulLevels;
    var e := DiffEvent(1, 2, [], [WireLevel(Some(1.0), Some(0.0))]);
    var t, s := Initial.(buffered := [e]), Snapshot(2, [], [WireLevel(None, Some(1.0))]);
    MalformedPrefix(s.asks, 0);
    OneLevelParses(1.0, 0.0);
    forall h | FaithfulSnapshot(h, s) && FaithfulEvents(h, t.buffered)
      ensures TellsTheTruth(h, Synchronised(t, s).0)
    {
      assert FaithfulEvent(h, t.buffered[0]);
      SideIsEmptied(h, Ask, 1.0, 2);
      UnparsedClaim(h, t, s);
    }
    assert !Parses(s);
  }

  lemma OneLevelParses(price: real, quantity: real)
    ensures ParseLevels([WireLevel(Some(price), Some(quantity))]) == Some([Level(price, quantity)])
  {
    assert [WireLevel(Some(price), Some(quantity))][..0] == [];
    assert [] + [Level(price, quantity)] == [Level(price, quantity)];
  }

  /** A diff over all updates so far that names one price, at zero, says the side is empty. */
  lemma SideIsEmptied(h: History, side: BookSide, price: real, n: nat)
    requires 1 <= n <= |h| && FaithfulLevels(h, side, [Level(price, 0.0)], 1, n)
    ensures SideAt(h, side, n) == map[]
  {
    var levels := [Level(price, 0.0)];
    assert levels[..0] == [];
    forall p
      ensures Quantity(SideAt(h, side, n), p) == 0.0
    {
      if p == price {
        assert levels[0].price == p;
        assert ApplyLevels(map[], levels) == Put(map[], price, 0.0);
      } else {
        assert !Mentions(levels, p);
        assert !Touched(h, side, 1 - 1, n, p);
        UntouchedKeepsQuantity(h, side, 0, n, p);
      }
    }
    SideAtPositive(h, side, n);
    SameQuantitiesSameSide(SideAt(h, side, n), map[]);
  }

  /** A reachable run in which the book counts as synced and is wrong: one ask the snapshot text garbles. */
  lemma UnparsedSnapshotMisleads()
    ensures exists h: History, inputs: seq<Input> ::
              FaithfulInputs(h, inputs) && Run(inputs).lastUpdateId.Some? && !TellsTheTruth(h, Run(inputs))
  {
    var h := [Update(Ask, 1.0, 1.0)];
    var e := DiffEvent(1, 1, [], [WireLevel(Some(1.0), Some(1.0))]);
    var s := Snapshot(1, [], [WireLevel(None, Some(1.0))]);
    var inputs := [Input(e, Some(s))];
    PlainDiffIsFaithful(h, Ask, 1, 1);
    PlainDiffIsFaithful(h, Bid, 1, 1);
    assert [WireLevel(Some(1.0), Some(1.0))][..0] == [];
    assert LevelsOf(h, Ask, 0, 1) == [Level(1.0, 1.0)] == ParseLevels(e.asks).value;
    assert LevelsOf(h, Bid, 0, 1) == [] == ParseLevels(e.bids).value;
    MalformedPrefix(s.asks, 0);
    assert FaithfulInputs(h, inputs);
    assert inputs[..0] == [] && Run(inputs[..0]) == Initial;
    assert Run(inputs).lastUpdateId == Some(1) && Run(inputs).asks == map[];
    assert 1.0 in SideAt(h, Ask, 1);
  }
}
