/**
 Folding raw events into one slice. Input files arrive in completion order and
 may overlap, so what the published row shows must not depend on either.
 */
module SliceIngest {
  import opened Wrappers
  import opened StableSort
  import opened SliceFinalize
  import Arithmetic

  /** What the payload parser found; None where a field is missing or unreadable. */
  datatype TradePayload = TradePayload(price: real, quantity: real, side: string)
  datatype TopPayload = TopPayload(bid: real, bidQty: real, ask: real, askQty: real)

  datatype RawEvent = RawEvent(
    id: string, run: string, venue: string, symbol: string, kind: string,
    at: int, ingested: int, sequence: Option<int>,
    intact: bool, // the schema version is known and the payload hash matches
    trade: Option<TradePayload>, top: Option<TopPayload>)

  /** One slice and the limits events are held to; horizon is the scan end plus the clock-skew margin. */
  datatype Slice = Slice(
    venue: string, symbol: string, windowStart: int, windowMs: int, horizon: int, maxLatencyMs: int)
  {
    predicate Valid() { windowMs > 0 }
  }

  function ParseTrade(e: RawEvent): Option<Trade>
  {
    if e.trade.Some? && e.venue in {"binance", "upbit"} && e.trade.value.price > 0.0
        && e.trade.value.quantity > 0.0 then
      Some(Trade(e.at, e.ingested, e.trade.value.price, e.trade.value.quantity, e.trade.value.side, e.sequence, e.id))
    else None
  }

  predicate ValidTop(t: TopPayload)
  {
    t.bid > 0.0 && t.ask > 0.0 && t.bidQty >= 0.0 && t.askQty >= 0.0 && t.bid <= t.ask
  }

  function ParseBook(e: RawEvent): Option<BookTop>
  {
    if && e.top.Some? && ValidTop(e.top.value)
       && ((e.venue == "binance" && e.kind == "book_ticker") || (e.venue == "upbit" && e.kind == "depth_snapshot")) then
      Some(BookTop(e.at, e.ingested, e.top.value.bid, e.top.value.bidQty, e.top.value.ask, e.top.value.askQty,
                   e.sequence, e.id))
    else None
  }

  function RefTo(e: RawEvent): EventRef { EventRef(e.at, e.ingested, e.kind, e.id) }

  predicate IsDerivative(e: RawEvent)
  {
    e.venue == "binance" && (e.kind == "funding_rate_snapshot" || e.kind == "open_interest_snapshot")
  }

  /** Admitted to the accumulator at all; only admitted events claim their id. */
  predicate Admitted(slice: Slice, e: RawEvent)
  {
    e.intact && 0 < e.at < slice.horizon
  }

  predicate Concerns(slice: Slice, e: RawEvent)
    requires slice.Valid()
  {
    && !IsDerivative(e) && e.venue == slice.venue && e.symbol == slice.symbol
    && e.at / slice.windowMs * slice.windowMs == slice.windowStart
  }

  function EmptyRow(role: string): SliceRow
  {
    SliceRow(role, "", [], 0, 0, 0, 0, 0, 0, 0.0, None, None, None, None, None, None, 0, 0, [], [], [], [], [], [])
  }

  // ------------------------------------------------- the contribution of one event

  datatype Contribution = Contribution(
    trades: seq<Trade>, books: seq<BookTop>, depths: seq<EventRef>, tickers: seq<EventRef>,
    reasons: seq<string>, parents: nat, ok: int, delayed: int, invalid: int)

  predicate Late(slice: Slice, e: RawEvent) { e.ingested - e.at > slice.maxLatencyMs }

  /** What one event is worth to its slice, whatever came before it. */
  function Worth(slice: Slice, e: RawEvent): Contribution
  {
    var late := if Late(slice, e) then 1 else 0;
    var trade, book := ParseTrade(e), ParseBook(e);
    if e.kind == "trade" then
      if trade.Some? then Contribution([trade.value], [], [], [], [], 1, 1 - late, late, 0)
      else Contribution([], [], [], [], ["parse_trade_failed"], 0, 0, 0, 1)
    else if e.kind == "book_ticker" then
      if book.Some? then Contribution([], [book.value], [], [], [], 1, 1 - late, late, 0)
      else Contribution([], [], [], [], ["parse_book_ticker_failed"], 0, 0, 0, 1)
    else if e.kind == "depth_snapshot" then
      if book.Some? then Contribution([], [book.value], [RefTo(e)], [], [], 2, 1 - late, late, 0)
      else Contribution([], [], [RefTo(e)], [], [], 1, 0, 0, 0)
    else if e.kind == "depth_delta" then Contribution([], [], [RefTo(e)], [], [], 1, 1 - late, late, 0)
    else if e.kind == "ticker" then Contribution([], [], [], [RefTo(e)], [], 1, 1 - late, late, 0)
    else Contribution([], [], [], [], ["unknown_event_type"], 0, 0, 0, 1)
  }

  function Volume(trades: seq<Trade>): real
  {
    if trades == [] then 0.0 else Volume(trades[..|trades| - 1]) + trades[|trades| - 1].quantity
  }

  function Repeat(x: string, n: nat): seq<string> { seq(n, _ => x) }

  function Apply(slice: Slice, row: SliceRow, e: RawEvent): SliceRow
  {
    var c := Worth(slice, e);
    row.(trades := row.trades + c.trades, books := row.books + c.books,
         depths := row.depths + c.depths, tickers := row.tickers + c.tickers,
         missingReasons := row.missingReasons + c.reasons,
         parentEvents := row.parentEvents + Repeat(e.id, c.parents),
         parentRuns := row.parentRuns + Repeat(e.run, c.parents),
         ok := row.ok + c.ok, delayed := row.delayed + c.delayed, invalid := row.invalid + c.invalid,
         tradeCount := row.tradeCount + |c.trades|, tradeVolume := row.tradeVolume + Volume(c.trades),
         bookCount := row.bookCount + |c.books|, depthCount := row.depthCount + |c.depths|,
         lastPrice := if c.trades == [] then row.lastPrice else Some(c.trades[|c.trades| - 1].price),
         lastSize := if c.trades == [] then row.lastSize else Some(c.trades[|c.trades| - 1].quantity),
         bestBid := if c.books == [] then row.bestBid else Some(c.books[|c.books| - 1].bid),
         bestAsk := if c.books == [] then row.bestAsk else Some(c.books[|c.books| - 1].ask))
  }

  function Fold(slice: Slice, row: SliceRow, es: seq<RawEvent>): SliceRow
  {
    if es == [] then row else Apply(slice, Fold(slice, row, es[..|es| - 1]), es[|es| - 1])
  }

  /** The events that reach the row: admitted, of this slice, and the first to carry their id. */
  function Fresh(slice: Slice, es: seq<RawEvent>): seq<RawEvent>
    requires slice.Valid()
  {
    if es == [] then []
    else
      var front, last := es[..|es| - 1], es[|es| - 1];
      if Admitted(slice, last) && last.id !in Claimed(slice, front) && Concerns(slice, last)
      then Fresh(slice, front) + [last] else Fresh(slice, front)
  }

  function Claimed(slice: Slice, es: seq<RawEvent>): set<string>
  {
    set e | e in es && Admitted(slice, e) :: e.id
  }

  // ------------------------------------------------------------- the code

  class SliceAccumulator {
    const slice: Slice
    var row: SliceRow
    var seen: set<string>

    constructor (slice: Slice, role: string)
      ensures this.slice == slice && row == EmptyRow(role) && seen == {}
    {
      this.slice := slice;
      row := EmptyRow(role);
      seen := {};
    }

    method IngestRawEvent(e: RawEvent)
      requires slice.Valid()
      modifies this
      ensures seen == old(seen) + (if Admitted(slice, e) then {e.id} else {})
      ensures row == (if Admitted(slice, e) && e.id !in old(seen) && Concerns(slice, e)
                      then Apply(slice, old(row), e) else old(row))
    {
      hide Apply;
      if !e.intact {
        return;
      }
      if e.at <= 0 || e.at >= slice.horizon {
        return;
      }
      if e.id in seen {
        return;
      }
      seen := seen + {e.id};
      if IsDerivative(e) {
        return;
      }
      if e.venue == slice.venue && e.symbol == slice.symbol
          && e.at / slice.windowMs * slice.windowMs == slice.windowStart {
        ApplyEvent(e);
      }
    }

    method ApplyEvent(e: RawEvent)
      modifies this`row
      ensures row == Apply(slice, old(row), e)
    {
      hide Apply;
      if e.kind == "trade" {
        ApplyTradeEvent(e);
      } else if e.kind == "book_ticker" || e.kind == "depth_snapshot" {
        ApplyBookEvent(e);
      } else if e.kind == "depth_delta" {
        ApplyCompactDepthEvent(e);
      } else if e.kind == "ticker" {
        ApplyTickerEvent(e);
      } else {
        ApplyUnknownEvent(e);
      }
    }

    method ApplyTradeEvent(e: RawEvent)
      requires e.kind == "trade"
      modifies this`row
      ensures row == Apply(slice, old(row), e)
    {
      var parsed := ParseTrade(e);
      if parsed.Some? {
        var trade := parsed.value;
        assert Volume([trade]) == trade.quantity;
        row := row.(tradeCount := row.tradeCount + 1, tradeVolume := row.tradeVolume + trade.quantity);
        row := row.(lastPrice := Some(trade.price), lastSize := Some(trade.quantity), trades := row.trades + [trade]);
        MarkEventQuality(e);
        PushParent(e);
      } else {
        MarkInvalid("parse_trade_failed");
      }
      AppendForms(old(row), e);
    }

    method ApplyBookEvent(e: RawEvent)
      requires e.kind == "book_ticker" || e.kind == "depth_snapshot"
      modifies this`row
      ensures row == Apply(slice, old(row), e)
    {
      var parsed := ParseBook(e);
      if parsed.Some? {
        var book := parsed.value;
        row := row.(bookCount := row.bookCount + 1, bestBid := Some(book.bid), bestAsk := Some(book.ask),
                    books := row.books + [book]);
        MarkEventQuality(e);
        PushParent(e);
      } else if e.kind == "book_ticker" {
        MarkInvalid("parse_book_ticker_failed");
      }
      if e.kind == "depth_snapshot" {
        row := row.(depthCount := row.depthCount + 1, depths := row.depths + [RefTo(e)]);
        PushParent(e);
      }
      AppendForms(old(row), e);
    }

    method ApplyCompactDepthEvent(e: RawEvent)
      requires e.kind == "depth_delta"
      modifies this`row
      ensures row == Apply(slice, old(row), e)
    {
      row := row.(depthCount := row.depthCount + 1, depths := row.depths + [RefTo(e)]);
      MarkEventQuality(e);
      PushParent(e);
      AppendForms(old(row), e);
    }

    method ApplyTickerEvent(e: RawEvent)
      requires e.kind == "ticker"
      modifies this`row
      ensures row == Apply(slice, old(row), e)
    {
      row := row.(tickers := row.tickers + [RefTo(e)]);
      MarkEventQuality(e);
      PushParent(e);
      AppendForms(old(row), e);
    }

    method ApplyUnknownEvent(e: RawEvent)
      requires e.kind !in {"trade", "book_ticker", "depth_snapshot", "depth_delta", "ticker"}
      modifies this`row
      ensures row == Apply(slice, old(row), e)
    {
      MarkInvalid("unknown_event_type");
      AppendForms(old(row), e);
    }

    method MarkEventQuality(e: RawEvent)
      modifies this`row
      ensures row == (if Late(slice, e) then old(row).(delayed := old(row).delayed + 1)
                      else old(row).(ok := old(row).ok + 1))
    {
      if e.ingested - e.at > slice.maxLatencyMs {
        row := row.(delayed := row.delayed + 1);
      } else {
        row := row.(ok := row.ok + 1);
      }
    }

    method MarkInvalid(reason: string)
      modifies this`row
      ensures row == old(row).(invalid := old(row).invalid + 1, missingReasons := old(row).missingReasons + [reason])
    {
      row := row.(invalid := row.invalid + 1);
      row := row.(missingReasons := row.missingReasons + [reason]);
    }

    method PushParent(e: RawEvent)
      modifies this`row
      ensures row == old(row).(parentEvents := old(row).parentEvents + [e.id],
          parentRuns := old(row).parentRuns + [e.run])
    {
      row := row.(parentEvents := row.parentEvents + [e.id], parentRuns := row.parentRuns + [e.run]);
    }
  }

  /** Appending nothing, and appending twice, in the form the specification writes them. */
  lemma AppendForms(before: SliceRow, e: RawEvent)
    ensures before.trades + [] == before.trades && before.books + [] == before.books
    ensures before.depths + [] == before.depths && before.tickers + [] == before.tickers
    ensures before.missingReasons + [] == before.missingReasons
    ensures before.parentEvents + Repeat(e.id, 0) == before.parentEvents
    ensures before.parentRuns + Repeat(e.run, 0) == before.parentRuns
    ensures Repeat(e.id, 1) == [e.id] && Repeat(e.run, 1) == [e.run]
    ensures before.parentEvents + [e.id] + [e.id] == before.parentEvents + Repeat(e.id, 2)
    ensures before.parentRuns + [e.run] + [e.run] == before.parentRuns + Repeat(e.run, 2)
  {
  }

  /** Everything delivered to one slice, in the order it was delivered. */
  method BuildRow(slice: Slice, role: string, es: seq<RawEvent>) returns (row: SliceRow)
    requires slice.Valid()
    ensures row == Fold(slice, EmptyRow(role), Fresh(slice, es))
  {
    hide Apply, Admitted, Concerns;
    var acc := new SliceAccumulator(slice, role);
    for i := 0 to |es|
      invariant acc.slice == slice
      invariant acc.seen == Claimed(slice, es[..i])
      invariant acc.row == Fold(slice, EmptyRow(role), Fresh(slice, es[..i]))
    {
      FreshSnoc(slice, role, es[..i], es[i]);
      assert es[..i + 1] == es[..i] + [es[i]];
      acc.IngestRawEvent(es[i]);
    }
    assert es[..|es|] == es;
    return acc.row;
  }

  lemma FreshSnoc(slice: Slice, role: string, es: seq<RawEvent>, e: RawEvent)
    requires slice.Valid()
    ensures Claimed(slice, es + [e]) == Claimed(slice, es) + (if Admitted(slice, e) then {e.id} else {})
    ensures var kept := Fresh(slice, es);
            var counts := Admitted(slice, e) && e.id !in Claimed(slice, es) && Concerns(slice, e);
            && Fresh(slice, es + [e]) == (if counts then kept + [e] else kept)
            && Fold(slice, EmptyRow(role), Fresh(slice, es + [e]))
               == (if counts then Apply(slice, Fold(slice, EmptyRow(role), kept), e)
                   else Fold(slice, EmptyRow(role), kept))
  {
    hide Apply, Admitted, Concerns;
    var all := es + [e];
    assert all[..|all| - 1] == es && all[|all| - 1] == e;
    var kept := Fresh(slice, es);
    assert (kept + [e])[..|kept|] == kept;
  }

  // ------------------------------------------------------------ permutations

  lemma ApplyRespects(slice: Slice, r: SliceRow, s: SliceRow, e: RawEvent)
    requires Alike(r, s)
    ensures Alike(Apply(slice, r, e), Apply(slice, s, e))
  {
    hide Worth, Volume;
    NonEmptyAlike(r, s);
    var c := Worth(slice, e);
    MoreMembers(r.missingReasons, s.missingReasons, c.reasons);
    MoreMembers(r.parentEvents, s.parentEvents, Repeat(e.id, c.parents));
    MoreMembers(r.parentRuns, s.parentRuns, Repeat(e.run, c.parents));
    var a, b := Settled(r), Settled(s);
    assert a.ok == b.ok && a.lastPrice == b.lastPrice && a.bestBid == b.bestBid;
  }

  lemma NonEmptyAlike(r: SliceRow, s: SliceRow)
    requires SameEvents(r, s)
    ensures (r.trades == [] <==> s.trades == []) && (r.books == [] <==> s.books == [])
  {
    SameSize(r.trades, s.trades);
    SameSize(r.books, s.books);
  }

  lemma MoreMembers(a: seq<string>, b: seq<string>, more: seq<string>)
    requires SameMembers(a, b)
    ensures SameMembers(a + more, b + more)
  {
  }

  lemma SwapMembers(a: seq<string>, b: seq<string>, c: seq<string>)
    ensures SameMembers(a + b + c, a + c + b)
  {
  }

  /** Two events may change places: nothing but list order and "last seen" prices can tell. */
  lemma ApplySwaps(slice: Slice, row: SliceRow, e: RawEvent, f: RawEvent)
    ensures Alike(Apply(slice, Apply(slice, row, e), f), Apply(slice, Apply(slice, row, f), e))
  {
    hide Worth, Volume, SameMembers;
    var c, d := Worth(slice, e), Worth(slice, f);
    SwapMembers(row.missingReasons, c.reasons, d.reasons);
    SwapMembers(row.parentEvents, Repeat(e.id, c.parents), Repeat(f.id, d.parents));
    SwapMembers(row.parentRuns, Repeat(e.run, c.parents), Repeat(f.run, d.parents));
  }

  lemma AlikeTransitive(r: SliceRow, s: SliceRow, t: SliceRow)
    requires Alike(r, s) && Alike(s, t)
    ensures Alike(r, t)
  {
    hide Settled;
  }

  lemma FoldSnoc(slice: Slice, row: SliceRow, es: seq<RawEvent>, e: RawEvent)
    ensures Fold(slice, row, es + [e]) == Apply(slice, Fold(slice, row, es), e)
  {
    hide Apply;
    assert (es + [e])[..|es|] == es;
  }

  /** An event may be moved to the end. */
  lemma {:induction false} MoveToEnd(slice: Slice, row: SliceRow, es: seq<RawEvent>, i: nat)
    requires i < |es|
    ensures Alike(Fold(slice, row, es), Fold(slice, row, es[..i] + es[i + 1..] + [es[i]]))
    decreases |es|
  {
    hide Apply, Alike;
    var n := |es| - 1;
    var front, last := es[..n], es[n];
    assert es == front + [last];
    if i == n {
      assert es[..i] + es[i + 1..] + [es[i]] == es;
      AlikeReflexive(Fold(slice, row, es));
    } else {
      var rest := front[..i] + front[i + 1..];
      MoveToEnd(slice, row, front, i);
      FoldSnoc(slice, row, front, last);
      FoldSnoc(slice, row, rest, es[i]);
      FoldSnoc(slice, row, rest, last);
      FoldSnoc(slice, row, rest + [last], es[i]);
      ApplyRespects(slice, Fold(slice, row, front), Fold(slice, row, rest + [es[i]]), last);
      ApplySwaps(slice, Fold(slice, row, rest), es[i], last);
      AlikeTransitive(Fold(slice, row, es),
                      Apply(slice, Fold(slice, row, rest + [es[i]]), last),
                      Fold(slice, row, rest + [last] + [es[i]]));
      assert es[..i] + es[i + 1..] + [es[i]] == rest + [last] + [es[i]];
    }
  }

  lemma AlikeReflexive(r: SliceRow)
    ensures Alike(r, r)
  {
    hide Settled;
  }

  lemma {:induction false} FoldIgnoresOrder(slice: Slice, row: SliceRow, xs: seq<RawEvent>, ys: seq<RawEvent>)
    requires multiset(xs) == multiset(ys)
    ensures Alike(Fold(slice, row, xs), Fold(slice, row, ys))
    decreases |xs|
  {
    hide Apply, Alike;
    SameSize(xs, ys);
    if xs == [] {
      AlikeReflexive(row);
    } else {
      var n := |xs| - 1;
      var front, last := xs[..n], xs[n];
      assert xs == front + [last];
      assert last in multiset(ys);
      var i :| 0 <= i < |ys| && ys[i] == last;
      var rest := ys[..i] + ys[i + 1..];
      Removed(ys, i);
      LastOfMultiset(xs);
      FoldIgnoresOrder(slice, row, front, rest);
      MoveToEnd(slice, row, ys, i);
      FoldSnoc(slice, row, rest, last);
      FoldSnoc(slice, row, front, last);
      ApplyRespects(slice, Fold(slice, row, front), Fold(slice, row, rest), last);
      AlikeSymmetric(Fold(slice, row, ys), Fold(slice, row, rest + [last]));
      AlikeTransitive(Fold(slice, row, xs), Fold(slice, row, rest + [last]), Fold(slice, row, ys));
    }
  }

  lemma Removed<T>(ys: seq<T>, i: nat)
    requires i < |ys|
    ensures multiset(ys[..i] + ys[i + 1..]) == multiset(ys) - multiset{ys[i]}
  {
    assert ys == ys[..i] + [ys[i]] + ys[i + 1..];
  }

  lemma AlikeSymmetric(r: SliceRow, s: SliceRow)
    requires Alike(r, s)
    ensures Alike(s, r)
  {
    hide Settled;
  }

  // ------------------------------------------------- keys, once ids name events

  /** No two different admitted events share an id. */
  ghost predicate IdsNameEvents(slice: Slice, es: seq<RawEvent>)
  {
    forall e, f :: e in es && f in es && Admitted(slice, e) && Admitted(slice, f) && e.id == f.id ==> e == f
  }

  /** Every event in the row came from the listed raw event that carries its parent id. */
  ghost predicate Sourced(row: SliceRow, es: seq<RawEvent>)
  {
    && (forall t :: t in row.trades ==> exists e :: e in es && e.id == t.parent && ParseTrade(e) == Some(t))
    && (forall b :: b in row.books ==> exists e :: e in es && e.id == b.parent && ParseBook(e) == Some(b))
    && (forall d :: d in row.depths ==> exists e :: e in es && e.id == d.parent && RefTo(e) == d)
    && (forall d :: d in row.tickers ==> exists e :: e in es && e.id == d.parent && RefTo(e) == d)
  }

  lemma {:induction false} FoldIsSourced(slice: Slice, role: string, es: seq<RawEvent>)
    ensures Sourced(Fold(slice, EmptyRow(role), es), es)
  {
    hide ParseTrade, ParseBook, RefTo, Apply;
    if es != [] {
      var front, last := es[..|es| - 1], es[|es| - 1];
      FoldIsSourced(slice, role, front);
      SourcedGrows(slice, Fold(slice, EmptyRow(role), front), front, last);
      assert es == front + [last];
    }
  }

  lemma WorthIsSourced(slice: Slice, e: RawEvent)
    ensures var c := Worth(slice, e);
            && (forall t :: t in c.trades ==> ParseTrade(e) == Some(t) && e.id == t.parent)
            && (forall b :: b in c.books ==> ParseBook(e) == Some(b) && e.id == b.parent)
            && (forall d :: d in c.depths + c.tickers ==> RefTo(e) == d && e.id == d.parent)
  {
  }

  lemma SourcedGrows(slice: Slice, row: SliceRow, es: seq<RawEvent>, e: RawEvent)
    requires Sourced(row, es)
    ensures Sourced(Apply(slice, row, e), es + [e])
  {
    hide Worth, ParseTrade, ParseBook, RefTo;
    WorthIsSourced(slice, e);
    var c, all := Worth(slice, e), es + [e];
    assert e in all;
    assert forall f :: f in es ==> f in all;
    assert forall d :: d in c.depths || d in c.tickers ==> d in c.depths + c.tickers;
  }

  lemma SourcedKeysDetermine(row: SliceRow, es: seq<RawEvent>)
    requires Sourced(row, es)
    requires forall e, f :: e in es && f in es && e.id == f.id ==> e == f
    ensures RowKeysDetermine(row)
  {
    hide ParseTrade, ParseBook, RefTo, TradeKey, BookKey, RefKey;
    forall i, j | 0 <= i < |row.trades| && 0 <= j < |row.trades| && TradeKey(row.trades[i]) == TradeKey(row.trades[j])
      ensures row.trades[i] == row.trades[j]
    {
      TradeKeyNamesParent(row.trades[i], row.trades[j]);
    }
    forall i, j | 0 <= i < |row.books| && 0 <= j < |row.books| && BookKey(row.books[i]) == BookKey(row.books[j])
      ensures row.books[i] == row.books[j]
    {
      BookKeyNamesParent(row.books[i], row.books[j]);
    }
    forall i, j | 0 <= i < |row.depths| && 0 <= j < |row.depths| && RefKey(row.depths[i]) == RefKey(row.depths[j])
      ensures row.depths[i] == row.depths[j]
    {
      RefKeyNamesParent(row.depths[i], row.depths[j]);
    }
    forall i, j | 0 <= i < |row.tickers| && 0 <= j < |row.tickers| && RefKey(row.tickers[i]) == RefKey(row.tickers[j])
      ensures row.tickers[i] == row.tickers[j]
    {
      RefKeyNamesParent(row.tickers[i], row.tickers[j]);
    }
  }

  // --------------------------------------------------- delivery does not matter

  lemma {:induction false} FreshMembers(slice: Slice, es: seq<RawEvent>, e: RawEvent)
    requires slice.Valid() && IdsNameEvents(slice, es)
    ensures e in Fresh(slice, es) <==> e in es && Admitted(slice, e) && Concerns(slice, e)
  {
    hide Admitted, Concerns;
    if es != [] {
      var front, last := es[..|es| - 1], es[|es| - 1];
      assert es == front + [last];
      FreshMembers(slice, front, e);
      if e == last && last.id in Claimed(slice, front) && Admitted(slice, last) {
        assert e in front;
      }
    }
  }

  lemma {:induction false} FreshOnce(slice: Slice, es: seq<RawEvent>)
    requires slice.Valid()
    ensures forall e :: e in Fresh(slice, es) ==> e.id in Claimed(slice, es)
    ensures forall i, j :: 0 <= i < j < |Fresh(slice, es)| ==> Fresh(slice, es)[i].id != Fresh(slice, es)[j].id
  {
    hide Admitted, Concerns;
    if es != [] {
      var front, last := es[..|es| - 1], es[|es| - 1];
      assert es == front + [last];
      FreshOnce(slice, front);
    }
  }

  /** The same deliveries in any order, cut into files anyhow, with any repetition: one and the same event list. */
  lemma FreshIgnoresDelivery(slice: Slice, xs: seq<RawEvent>, ys: seq<RawEvent>)
    requires slice.Valid() && IdsNameEvents(slice, xs)
    requires forall e :: e in xs <==> e in ys
    ensures multiset(Fresh(slice, xs)) == multiset(Fresh(slice, ys))
  {
    hide Admitted, Concerns, Fresh;
    var a, b := Fresh(slice, xs), Fresh(slice, ys);
    FreshOnce(slice, xs);
    FreshOnce(slice, ys);
    forall e: RawEvent
      ensures multiset(a)[e] == multiset(b)[e]
    {
      FreshMembers(slice, xs, e);
      FreshMembers(slice, ys, e);
      DistinctCount(a, e);
      DistinctCount(b, e);
    }
  }

  /** What health snapshots and gap alerts add; they look only at the slice's identity and window. */
  datatype HealthNotes = HealthNotes(reasons: seq<string>, stale: nat, gap: nat)

  function WithHealth(row: SliceRow, notes: HealthNotes): SliceRow
  {
    row.(missingReasons := row.missingReasons + notes.reasons,
         stale := row.stale + notes.stale,
         gap := row.gap + notes.gap)
  }

  /** The published row. */
  function Published(slice: Slice, role: string, notes: HealthNotes, es: seq<RawEvent>): SliceRow
    requires slice.Valid()
  {
    FinalizeRow(WithHealth(Fold(slice, EmptyRow(role), Fresh(slice, es)), notes))
  }

  lemma HealthRespects(r: SliceRow, s: SliceRow, notes: HealthNotes)
    requires Alike(r, s)
    ensures Alike(WithHealth(r, notes), WithHealth(s, notes))
  {
    MoreMembers(r.missingReasons, s.missingReasons, notes.reasons);
    var a, b := Settled(r), Settled(s);
    assert a.stale == b.stale && a.gap == b.gap;
  }

  lemma NamedDeliveryDoesNotMatter(slice: Slice, role: string, notes: HealthNotes, xs: seq<RawEvent>, ys: seq<RawEvent>)
    requires slice.Valid() && IdsNameEvents(slice, xs)
    requires forall e :: e in xs <==> e in ys
    ensures Published(slice, role, notes, xs) == Published(slice, role, notes, ys)
  {
    hide Alike, Sourced, RowKeysDetermine, Apply, Fold, Fresh, FinalizeRow, Admitted, Concerns;
    var a, b := Fresh(slice, xs), Fresh(slice, ys);
    var r, s := Fold(slice, EmptyRow(role), a), Fold(slice, EmptyRow(role), b);
    FreshIgnoresDelivery(slice, xs, ys);
    FoldIgnoresOrder(slice, EmptyRow(role), a, b);
    HealthRespects(r, s, notes);
    FoldIsSourced(slice, role, a);
    FreshKeys(slice, xs, r);
    HealthKeepsKeys(r, notes);
    FinalizeIsCanonical(WithHealth(r, notes), WithHealth(s, notes));
  }

  lemma FreshKeys(slice: Slice, es: seq<RawEvent>, row: SliceRow)
    requires slice.Valid() && Sourced(row, Fresh(slice, es))
    ensures RowKeysDetermine(row)
  {
    hide Sourced, RowKeysDetermine, Fresh, Admitted, Concerns;
    FreshOnce(slice, es);
    SourcedKeysDetermine(row, Fresh(slice, es));
  }

  /**
   Whatever is delivered, the row that reaches finalisation meets the condition
   under which no arrival order of its events shows: ids are claimed once, and
   every sort key ends in the id.
   */
  lemma IngestedRowIsArrivalIndependent(slice: Slice, role: string, notes: HealthNotes, es: seq<RawEvent>)
    requires slice.Valid()
    ensures ArrivalIndependent(WithHealth(Fold(slice, EmptyRow(role), Fresh(slice, es)), notes))
  {
    hide Sourced, RowKeysDetermine, ArrivalIndependent, Fold, Fresh, Apply;
    var row := Fold(slice, EmptyRow(role), Fresh(slice, es));
    FoldIsSourced(slice, role, Fresh(slice, es));
    FreshKeys(slice, es, row);
    HealthKeepsKeys(row, notes);
    FinalizeCanonicalIff(WithHealth(row, notes));
  }

  lemma HealthKeepsKeys(row: SliceRow, notes: HealthNotes)
    requires RowKeysDetermine(row)
    ensures RowKeysDetermine(WithHealth(row, notes))
  {
  }

  // ----------------------------------------------- when a shared id makes a difference

  /** All that an admitted event can do to the slice: nothing, or its worth and the run it names as a parent. */
  function Effect(slice: Slice, e: RawEvent): Option<(Contribution, string)>
    requires slice.Valid()
  {
    if !Concerns(slice, e) then None
    else Some((Worth(slice, e), if Worth(slice, e).parents > 0 then e.run else ""))
  }

  /** Admitted events that share an id also share their effect on the slice. */
  ghost predicate SharedIdsAgree(slice: Slice, es: seq<RawEvent>)
    requires slice.Valid()
  {
    forall e, f :: e in es && f in es && Admitted(slice, e) && Admitted(slice, f) && e.id == f.id ==>
      Effect(slice, e) == Effect(slice, f)
  }

  /** The first admitted event of the pool with the same id. */
  function Stand(slice: Slice, pool: seq<RawEvent>, e: RawEvent): RawEvent
  {
    if pool == [] then e
    else if Admitted(slice, pool[0]) && pool[0].id == e.id then pool[0]
    else Stand(slice, pool[1..], e)
  }

  function StandIn(slice: Slice, pool: seq<RawEvent>, e: RawEvent): RawEvent
  {
    if Admitted(slice, e) then Stand(slice, pool, e) else e
  }

  function StandIns(slice: Slice, pool: seq<RawEvent>, es: seq<RawEvent>): seq<RawEvent>
  {
    if es == [] then []
    else StandIns(slice, pool, es[..|es| - 1]) + [StandIn(slice, pool, es[|es| - 1])]
  }

  lemma {:induction false} StandIsThere(slice: Slice, pool: seq<RawEvent>, e: RawEvent)
    requires e in pool && Admitted(slice, e)
    ensures var f := Stand(slice, pool, e); f in pool && Admitted(slice, f) && f.id == e.id
    ensures forall g: RawEvent :: g.id == e.id ==> Stand(slice, pool, g) == Stand(slice, pool, e)
  {
    hide Admitted;
    if !(Admitted(slice, pool[0]) && pool[0].id == e.id) {
      StandIsThere(slice, pool[1..], e);
    }
  }

  /** Standing in changes neither admission, id, nor effect. */
  lemma StandInsAgree(slice: Slice, pool: seq<RawEvent>, e: RawEvent)
    requires slice.Valid() && SharedIdsAgree(slice, pool) && e in pool
    ensures var f := StandIn(slice, pool, e);
            && f in pool && f.id == e.id && (Admitted(slice, f) <==> Admitted(slice, e))
            && (Admitted(slice, e) ==> Effect(slice, f) == Effect(slice, e))
  {
    hide Admitted, Effect;
    if Admitted(slice, e) {
      StandIsThere(slice, pool, e);
    }
  }

  lemma SameEffectSameApply(slice: Slice, row: SliceRow, e: RawEvent, f: RawEvent)
    requires slice.Valid() && e.id == f.id && Effect(slice, e) == Effect(slice, f) && Concerns(slice, e)
    ensures Concerns(slice, f) && Apply(slice, row, e) == Apply(slice, row, f)
  {
    hide Worth, Volume, Concerns;
    var c := Worth(slice, e);
    assert c.parents == 0 ==> Repeat(e.run, c.parents) == [] == Repeat(f.run, c.parents);
  }

  lemma {:induction false} StandInsMembers(slice: Slice, pool: seq<RawEvent>, es: seq<RawEvent>, f: RawEvent)
    ensures f in StandIns(slice, pool, es) <==> exists e :: e in es && StandIn(slice, pool, e) == f
  {
    hide StandIn;
    if es != [] {
      var front, last := es[..|es| - 1], es[|es| - 1];
      assert es == front + [last];
      StandInsMembers(slice, pool, front, f);
    }
  }

  lemma {:induction false} StandInsClaim(slice: Slice, pool: seq<RawEvent>, es: seq<RawEvent>)
    requires slice.Valid() && SharedIdsAgree(slice, pool) && forall e :: e in es ==> e in pool
    ensures Claimed(slice, StandIns(slice, pool, es)) == Claimed(slice, es)
  {
    hide Admitted, StandIn, SharedIdsAgree, Fold, Fresh;
    if es != [] {
      var front, last := es[..|es| - 1], es[|es| - 1];
      assert es == front + [last];
      StandInsClaim(slice, pool, front);
      StandInsAgree(slice, pool, last);
      FreshSnoc(slice, "", front, last);
      FreshSnoc(slice, "", StandIns(slice, pool, front), StandIn(slice, pool, last));
    }
  }

  /** The events that reach the row, and the row itself, are those of the stand-ins. */
  lemma {:induction false} StandInsBuildAlike(slice: Slice, pool: seq<RawEvent>, role: string, es: seq<RawEvent>)
    requires slice.Valid() && SharedIdsAgree(slice, pool) && forall e :: e in es ==> e in pool
    ensures Fold(slice, EmptyRow(role), Fresh(slice, StandIns(slice, pool, es)))
         == Fold(slice, EmptyRow(role), Fresh(slice, es))
  {
    hide Admitted, Concerns, StandIn, SharedIdsAgree, Apply, Fold, Fresh, Claimed;
    if es != [] {
      var front, last := es[..|es| - 1], es[|es| - 1];
      assert es == front + [last];
      StandInsBuildAlike(slice, pool, role, front);
      StandInsClaim(slice, pool, front);
      StandInsAgree(slice, pool, last);
      var f := StandIn(slice, pool, last);
      FreshSnoc(slice, role, front, last);
      FreshSnoc(slice, role, StandIns(slice, pool, front), f);
      if Admitted(slice, last) && Concerns(slice, last) {
        SameEffectSameApply(slice, Fold(slice, EmptyRow(role), Fresh(slice, front)), last, f);
      } else if Admitted(slice, last) && Concerns(slice, f) {
        SameEffectSameApply(slice, EmptyRow(role), f, last);
      }
    }
  }

  lemma StandInsAreNamed(slice: Slice, pool: seq<RawEvent>, es: seq<RawEvent>)
    requires slice.Valid() && SharedIdsAgree(slice, pool) && forall e :: e in es ==> e in pool
    ensures IdsNameEvents(slice, StandIns(slice, pool, es))
  {
    hide Admitted, SharedIdsAgree, StandIns, Stand;
    forall a, b | a in StandIns(slice, pool, es) && b in StandIns(slice, pool, es)
                  && Admitted(slice, a) && Admitted(slice, b) && a.id == b.id
      ensures a == b
    {
      StandInsMembers(slice, pool, es, a);
      StandInsMembers(slice, pool, es, b);
      var e, f :| e in es && f in es && StandIn(slice, pool, e) == a && StandIn(slice, pool, f) == b;
      StandInsAgree(slice, pool, e);
      StandInsAgree(slice, pool, f);
      StandIsThere(slice, pool, e);
    }
  }

  /**
   The published row depends only on which events were delivered: not on their
   order, not on how files split or overlap, not on how often each arrives; all
   it takes is that deliveries sharing an id would do the same to the slice.
   */
  lemma DeliveryDoesNotMatter(slice: Slice, role: string, notes: HealthNotes, xs: seq<RawEvent>, ys: seq<RawEvent>)
    requires slice.Valid() && SharedIdsAgree(slice, xs)
    requires forall e :: e in xs <==> e in ys
    ensures Published(slice, role, notes, xs) == Published(slice, role, notes, ys)
  {
    hide Admitted, SharedIdsAgree, StandIns, StandIn, Fold, Fresh, FinalizeRow, WithHealth, IdsNameEvents;
    var a, b := StandIns(slice, xs, xs), StandIns(slice, xs, ys);
    StandInsBuildAlike(slice, xs, role, xs);
    StandInsBuildAlike(slice, xs, role, ys);
    StandInsAreNamed(slice, xs, xs);
    forall f
      ensures f in a <==> f in b
    {
      StandInsMembers(slice, xs, xs, f);
      StandInsMembers(slice, xs, ys, f);
    }
    NamedDeliveryDoesNotMatter(slice, role, notes, a, b);
  }

  const NoNotes := HealthNotes([], 0, 0)

  /** A lone event's row, in order. */
  lemma LoneRow(slice: Slice, role: string, e: RawEvent)
    ensures var c, o := Worth(slice, e), Ordered(WithHealth(Apply(slice, EmptyRow(role), e), NoNotes));
            && o.trades == c.trades && o.books == c.books && o.depths == c.depths && o.tickers == c.tickers
            && o.ok == c.ok && o.delayed == c.delayed && o.invalid == c.invalid
            && o.missingReasons == c.reasons && o.parentRuns == Repeat(e.run, c.parents)
  {
    hide Sort, TradeKey, BookKey, RefKey, Worth, Volume, Repeat;
    WorthCounts(slice, e);
    var c := Worth(slice, e);
    SortOfFew(TradeKey, c.trades);
    SortOfFew(BookKey, c.books);
    SortOfFew(RefKey, c.depths);
    SortOfFew(RefKey, c.tickers);
    assert [] + c.trades == c.trades && [] + c.books == c.books;
    assert [] + c.depths == c.depths && [] + c.tickers == c.tickers;
    assert [] + c.reasons + [] == c.reasons && [] + Repeat(e.run, c.parents) == Repeat(e.run, c.parents);
  }

  lemma FinalizeKeeps(row: SliceRow)
    ensures var o, p := Ordered(row), FinalizeRow(row);
            && p.trades == o.trades && p.books == o.books && p.depths == o.depths && p.tickers == o.tickers
            && p.ok == o.ok && p.delayed == o.delayed && p.invalid == o.invalid
            && p.missingReasons == SortDedup(o.missingReasons + DerivedReasons(o))
                && p.parentRuns == SortDedup(o.parentRuns)
  {
    hide Ordered, SortDedup, DerivedReasons, Completeness;
  }

  /** What a lone event's row shows of its effect. */
  lemma LoneEventShows(slice: Slice, role: string, e: RawEvent)
    requires slice.Valid()
    ensures var c := Worth(slice, e);
            var p := FinalizeRow(WithHealth(Apply(slice, EmptyRow(role), e), NoNotes));
            && p.trades == c.trades && p.books == c.books && p.depths == c.depths && p.tickers == c.tickers
            && p.ok == c.ok && p.delayed == c.delayed && p.invalid == c.invalid
            && (forall x :: x in p.missingReasons && !Derived(x) <==> x in c.reasons)
            && p.parentRuns == (if c.parents > 0 then [e.run] else [])
  {
    hide Ordered, SortDedup, Worth, FinalizeRow, WithHealth, Apply, Repeat, DerivedReasons, Derived;
    WorthCounts(slice, e);
    var c := Worth(slice, e);
    var row := WithHealth(Apply(slice, EmptyRow(role), e), NoNotes);
    LoneRow(slice, role, e);
    FinalizeKeeps(row);
    SortDedupShape(c.reasons + DerivedReasons(Ordered(row)));
    DerivedAreDerived(Ordered(row));
    DedupRepeat(e.run, c.parents);
  }

  /** The reasons finalisation adds by itself. */
  predicate Derived(reason: string) { reason in {"all_invalid", "trade_silence", "depth_top_missing"} }

  lemma DerivedAreDerived(row: SliceRow)
    ensures forall x :: x in DerivedReasons(row) ==> Derived(x)
  {
  }

  lemma SortOfFew<T>(key: T -> seq<int>, xs: seq<T>)
    requires |xs| <= 1
    ensures Sort(key, xs) == xs
  {
    SortOfSorted(key, xs);
  }

  lemma DedupRepeat(x: string, n: nat)
    ensures SortDedup(Repeat(x, n)) == (if n > 0 then [x] else [])
  {
    SortDedupCanonicalIff(Repeat(x, n), if n > 0 then [x] else []);
    assert n > 0 ==> Repeat(x, n)[0] == x;
    SortOfFew(Codes, [x]);
    SortOfFew(Codes, []);
  }

  /** An event always leaves a trace: a list entry or an invalid mark, one reason at most, and a parent per entry. */
  lemma WorthCounts(slice: Slice, e: RawEvent)
    ensures var c := Worth(slice, e);
            && |c.trades| <= 1 && |c.books| <= 1 && |c.depths| <= 1 && |c.tickers| <= 1 && |c.reasons| <= 1
            && c.parents == |c.trades| + |c.books| + |c.depths| + |c.tickers|
            && (c.parents == 0 ==> c.invalid == 1)
            && (forall x :: x in c.reasons ==> !Derived(x))
  {
    assert "parse_trade_failed"[0] == 'p' && "parse_book_ticker_failed"[0] == 'p' && "unknown_event_type"[0] == 'u';
    assert "all_invalid"[0] == 'a' && "trade_silence"[0] == 't' && "depth_top_missing"[0] == 'd';
  }

  lemma FewReasonsEqual(a: seq<string>, b: seq<string>)
    requires |a| <= 1 && |b| <= 1 && forall x :: x in a <==> x in b
    ensures a == b
  {
    assert a != [] ==> a[0] in b;
    assert b != [] ==> b[0] in a;
  }

  lemma PairFresh(slice: Slice, e: RawEvent, f: RawEvent)
    requires slice.Valid() && e.id == f.id && Admitted(slice, e)
    ensures Fresh(slice, [e, f]) == (if Concerns(slice, e) then [e] else [])
  {
    assert [e, f][..1] == [e] && [e][..0] == [];
    assert e in [e];
    assert Fresh(slice, [e]) == [] + (if Concerns(slice, e) then [e] else []);
  }

  /** The row of the first delivery under an id, when a second one follows. */
  lemma FirstDeliveryWins(slice: Slice, role: string, e: RawEvent, f: RawEvent)
    requires slice.Valid() && e.id == f.id && Admitted(slice, e)
    ensures Published(slice, role, NoNotes, [e, f])
         == (if Concerns(slice, e) then FinalizeRow(WithHealth(Apply(slice, EmptyRow(role), e), NoNotes))
             else FinalizeRow(WithHealth(EmptyRow(role), NoNotes)))
  {
    hide Admitted, Concerns, Apply, Fresh, FinalizeRow;
    PairFresh(slice, e, f);
    FoldSnoc(slice, EmptyRow(role), [], e);
    assert [] + [e] == [e];
  }

  /** Two admitted events under one id with different effects: the order of delivery shows in the published row. */
  lemma SharedIdExposesOrder(slice: Slice, role: string, e: RawEvent, f: RawEvent)
    requires slice.Valid() && e.id == f.id && Admitted(slice, e) && Admitted(slice, f)
    requires Effect(slice, e) != Effect(slice, f)
    ensures Published(slice, role, NoNotes, [e, f]) != Published(slice, role, NoNotes, [f, e])
  {
    hide Admitted, Concerns, Apply, Fresh, FinalizeRow, Published, Worth, WithHealth, Derived;
    FirstDeliveryWins(slice, role, e, f);
    FirstDeliveryWins(slice, role, f, e);
    LoneEventShows(slice, role, e);
    LoneEventShows(slice, role, f);
    WorthCounts(slice, e);
    WorthCounts(slice, f);
    EmptyShows(role);
    var p, q := Published(slice, role, NoNotes, [e, f]), Published(slice, role, NoNotes, [f, e]);
    if p == q && Concerns(slice, e) && Concerns(slice, f) {
      FewReasonsEqual(Worth(slice, e).reasons, Worth(slice, f).reasons);
    }
  }

  lemma EmptyShows(role: string)
    ensures var p := FinalizeRow(WithHealth(EmptyRow(role), NoNotes));
            p.trades == [] && p.books == [] && p.depths == [] && p.tickers == [] && p.invalid == 0
  {
    hide SortDedup, Completeness;
  }

  /** Every two deliveries of the same events drawn from a pool publish the same row, whatever the health notes. */
  ghost predicate PublishesAlike(slice: Slice, role: string, pool: seq<RawEvent>)
    requires slice.Valid()
  {
    forall notes, xs, ys ::
      (forall e :: e in xs ==> e in pool) && (forall e :: e in xs <==> e in ys) ==>
        Published(slice, role, notes, xs) == Published(slice, role, notes, ys)
  }

  /** Delivery never shows exactly when admitted events that share an id share their effect on the slice. */
  lemma PublishesAlikeIff(slice: Slice, role: string, pool: seq<RawEvent>)
    requires slice.Valid()
    ensures PublishesAlike(slice, role, pool) <==> SharedIdsAgree(slice, pool)
  {
    hide Admitted, Effect, Published;
    if SharedIdsAgree(slice, pool) {
      forall notes, xs, ys | (forall e :: e in xs ==> e in pool) && (forall e :: e in xs <==> e in ys)
        ensures Published(slice, role, notes, xs) == Published(slice, role, notes, ys)
      {
        DeliveryDoesNotMatter(slice, role, notes, xs, ys);
      }
    } else {
      var e, f :| e in pool && f in pool && Admitted(slice, e) && Admitted(slice, f) && e.id == f.id
                  && Effect(slice, e) != Effect(slice, f);
      SharedIdExposesOrder(slice, role, e, f);
      assert forall x :: x in [e, f] <==> x in [f, e];
    }
  }

  // ------------------------------------------------------------- bookkeeping

  ghost predicate Accounted(row: SliceRow)
  {
    && row.tradeCount == |row.trades| && row.bookCount == |row.books| && row.depthCount == |row.depths|
    && row.tradeVolume == Volume(row.trades)
    && (row.trades == [] ==> row.lastPrice.None? && row.lastSize.None?)
    && (row.books == [] ==> row.bestBid.None? && row.bestAsk.None?)
    && row.mid.None? && row.spreadBps.None?
    && forall b :: b in row.books ==> 0.0 < b.bid <= b.ask
  }

  lemma WorthShape(slice: Slice, e: RawEvent)
    ensures |Worth(slice, e).trades| <= 1
    ensures forall b :: b in Worth(slice, e).books ==> 0.0 < b.bid <= b.ask
  {
  }

  lemma VolumeGrows(ts: seq<Trade>, more: seq<Trade>)
    requires |more| <= 1
    ensures Volume(ts + more) == Volume(ts) + Volume(more)
  {
    if more == [] {
      assert ts + more == ts;
    } else {
      assert (ts + more)[..|ts|] == ts && more[..0] == [];
    }
  }

  lemma ApplyAccounts(slice: Slice, row: SliceRow, e: RawEvent)
    requires Accounted(row)
    ensures Accounted(Apply(slice, row, e))
  {
    hide Worth, Volume;
    WorthShape(slice, e);
    VolumeGrows(row.trades, Worth(slice, e).trades);
  }

  lemma {:induction false} FoldAccounts(slice: Slice, role: string, es: seq<RawEvent>)
    ensures Accounted(Fold(slice, EmptyRow(role), es))
  {
    hide Apply;
    if es != [] {
      FoldAccounts(slice, role, es[..|es| - 1]);
      ApplyAccounts(slice, Fold(slice, EmptyRow(role), es[..|es| - 1]), es[|es| - 1]);
    }
  }

  // --------------------------------------------------- what a row is made of

  predicate Intact(slice: Slice, e: RawEvent) { e.intact && e.at > 0 && e.at < slice.horizon }

  /** An intact event of the slice's venue, symbol and window that is not a derivative observation. */
  predicate InSlice(slice: Slice, e: RawEvent)
    requires slice.Valid()
  {
    && Intact(slice, e)
    && !(e.venue == "binance" && e.kind in {"funding_rate_snapshot", "open_interest_snapshot"})
    && e.venue == slice.venue && e.symbol == slice.symbol
    && slice.windowStart % slice.windowMs == 0
    && slice.windowStart <= e.at < slice.windowStart + slice.windowMs
  }

  lemma InSliceIs(slice: Slice, e: RawEvent)
    requires slice.Valid()
    ensures InSlice(slice, e) <==> Admitted(slice, e) && Concerns(slice, e)
  {
    var w, start, floor := slice.windowMs, slice.windowStart, e.at / slice.windowMs * slice.windowMs;
    Arithmetic.MultipleMod(e.at / w, w);
    assert floor <= e.at < floor + w;
    if start % w == 0 && start <= e.at < start + w && start != floor {
      Arithmetic.MultiplesApart(if start < floor then start else floor, if start < floor then floor else start, w);
      assert false;
    }
  }

  /** Delivery i is of the slice and no intact delivery before it carries its id. */
  predicate Counted(slice: Slice, es: seq<RawEvent>, i: nat)
    requires slice.Valid()
  {
    i < |es| && InSlice(slice, es[i]) && forall j :: 0 <= j < i && Intact(slice, es[j]) ==> es[j].id != es[i].id
  }

  /** The events behind a row are the first intact deliveries of their ids, where those lie in the slice. */
  lemma {:induction false} FreshMeans(slice: Slice, es: seq<RawEvent>, e: RawEvent)
    requires slice.Valid()
    ensures e in Fresh(slice, es) <==> exists i: nat :: Counted(slice, es, i) && es[i] == e
  {
    hide Concerns, InSlice;
    if es != [] {
      var n := |es| - 1;
      var front, last := es[..n], es[n];
      FreshMeans(slice, front, e);
      InSliceIs(slice, last);
      assert forall i: nat :: i < n ==> (Counted(slice, front, i) <==> Counted(slice, es, i));
      assert last.id in Claimed(slice, front) <==>
             exists j :: 0 <= j < n && Intact(slice, es[j]) && es[j].id == last.id by {
        assert forall j :: 0 <= j < n ==> es[j] == front[j];
      }
      if exists i: nat :: Counted(slice, es, i) && es[i] == e {
        var i: nat :| Counted(slice, es, i) && es[i] == e;
        assert i < n ==> Counted(slice, front, i);
        assert i == n ==> e == last;
      }
      assert e == last && Counted(slice, es, n) ==> e in Fresh(slice, es);
      if e in Fresh(slice, front) {
        var i: nat :| Counted(slice, front, i) && front[i] == e;
        assert Counted(slice, es, i);
      }
      if e in Fresh(slice, es) && e !in Fresh(slice, front) {
        assert Counted(slice, es, n);
      }
    }
  }

  /** A trade the venue's parser accepts. */
  predicate GoodTrade(e: RawEvent)
  {
    && e.kind == "trade" && e.venue in {"binance", "upbit"}
    && e.trade.Some? && e.trade.value.price > 0.0 && e.trade.value.quantity > 0.0
  }

  /** A top of book the venue's parser accepts: uncrossed, with positive prices. */
  predicate GoodTop(e: RawEvent)
  {
    && (e.kind, e.venue) in {("book_ticker", "binance"), ("depth_snapshot", "upbit")}
    && e.top.Some? && 0.0 < e.top.value.bid <= e.top.value.ask
    && e.top.value.bidQty >= 0.0 && e.top.value.askQty >= 0.0
  }

  predicate IsDepth(e: RawEvent) { e.kind in {"depth_snapshot", "depth_delta"} }

  predicate IsTicker(e: RawEvent) { e.kind == "ticker" }

  /** An event counted for its quality, on time or delayed. */
  predicate Graded(e: RawEvent) { GoodTrade(e) || GoodTop(e) || e.kind in {"depth_delta", "ticker"} }

  /** An event counted as invalid: unreadable, or of a kind nobody knows. A depth snapshot never is. */
  predicate Unusable(e: RawEvent)
  {
    !GoodTrade(e) && !GoodTop(e) && e.kind !in {"depth_snapshot", "depth_delta", "ticker"}
  }

  /** Graded, and ingested more than the allowed latency after it happened. */
  function Delayed(slice: Slice): RawEvent -> bool
  {
    (e: RawEvent) => Graded(e) && e.ingested > e.at + slice.maxLatencyMs
  }

  function OnTime(slice: Slice): RawEvent -> bool
  {
    (e: RawEvent) => Graded(e) && e.ingested <= e.at + slice.maxLatencyMs
  }

  function TradeFrom(e: RawEvent): Trade
    requires GoodTrade(e)
  {
    Trade(e.at, e.ingested, e.trade.value.price, e.trade.value.quantity, e.trade.value.side, e.sequence, e.id)
  }

  function TopFrom(e: RawEvent): BookTop
    requires GoodTop(e)
  {
    BookTop(e.at, e.ingested, e.top.value.bid, e.top.value.bidQty, e.top.value.ask, e.top.value.askQty,
            e.sequence, e.id)
  }

  function RefFrom(e: RawEvent): EventRef { EventRef(e.at, e.ingested, e.kind, e.id) }

  /** The row lists the trades and the tops of book, with their own fields. */
  ghost predicate ListsPrices(row: SliceRow, es: seq<RawEvent>)
  {
    && (forall t :: t in row.trades <==> exists e :: e in es && GoodTrade(e) && TradeFrom(e) == t)
    && (forall b :: b in row.books <==> exists e :: e in es && GoodTop(e) && TopFrom(e) == b)
  }

  ghost predicate ListsRefs(row: SliceRow, es: seq<RawEvent>)
  {
    && (forall d :: d in row.depths <==> exists e :: e in es && IsDepth(e) && RefFrom(e) == d)
    && (forall d :: d in row.tickers <==> exists e :: e in es && IsTicker(e) && RefFrom(e) == d)
  }

  /** The row names the events and runs it is made of, and what was wrong with the others. */
  ghost predicate Names(row: SliceRow, es: seq<RawEvent>)
  {
    && (forall x :: x in row.parentEvents <==> exists e :: e in es && (Graded(e) || IsDepth(e)) && e.id == x)
    && (forall x :: x in row.parentRuns <==> exists e :: e in es && (Graded(e) || IsDepth(e)) && e.run == x)
    && (forall x :: x in row.missingReasons <==> exists e :: e in es && Unusable(e) && Complaint(e) == x)
  }

  function Complaint(e: RawEvent): string
  {
    if e.kind == "trade" then "parse_trade_failed"
    else if e.kind == "book_ticker" then "parse_book_ticker_failed"
    else "unknown_event_type"
  }

  ghost predicate Tallied(slice: Slice, row: SliceRow, es: seq<RawEvent>)
  {
    && |row.trades| == |Filter(GoodTrade, es)| && |row.books| == |Filter(GoodTop, es)|
    && |row.depths| == |Filter(IsDepth, es)| && |row.tickers| == |Filter(IsTicker, es)|
    && row.delayed == |Filter(Delayed(slice), es)| && row.ok == |Filter(OnTime(slice), es)|
    && row.invalid == |Filter(Unusable, es)|
  }

  /** The worth of one event, read off its own fields. */
  lemma WorthMeans(slice: Slice, e: RawEvent)
    ensures var c := Worth(slice, e);
            && c.trades == (if GoodTrade(e) then [TradeFrom(e)] else [])
            && c.books == (if GoodTop(e) then [TopFrom(e)] else [])
            && c.depths == (if IsDepth(e) then [RefFrom(e)] else [])
            && c.tickers == (if IsTicker(e) then [RefFrom(e)] else [])
            && c.reasons == (if Unusable(e) then [Complaint(e)] else [])
            && (c.parents > 0 <==> Graded(e) || IsDepth(e))
            && c.delayed == (if Delayed(slice)(e) then 1 else 0)
            && c.ok == (if OnTime(slice)(e) then 1 else 0)
            && c.invalid == (if Unusable(e) then 1 else 0)
  {
  }

  lemma ApplyListsPrices(slice: Slice, row: SliceRow, es: seq<RawEvent>, e: RawEvent)
    requires ListsPrices(row, es)
    ensures ListsPrices(Apply(slice, row, e), es + [e])
  {
    hide Worth, GoodTrade, GoodTop, IsDepth, IsTicker, TradeFrom, TopFrom, RefFrom, Volume, Repeat;
    hide Graded, Unusable, Complaint, Delayed, OnTime;
    WorthMeans(slice, e);
    var all := es + [e];
    assert forall f :: f in all <==> f in es || f == e;
  }

  lemma ApplyListsRefs(slice: Slice, row: SliceRow, es: seq<RawEvent>, e: RawEvent)
    requires ListsRefs(row, es)
    ensures ListsRefs(Apply(slice, row, e), es + [e])
  {
    hide Worth, GoodTrade, GoodTop, IsDepth, IsTicker, TradeFrom, TopFrom, RefFrom, Volume, Repeat;
    hide Graded, Unusable, Complaint, Delayed, OnTime;
    WorthMeans(slice, e);
    var all := es + [e];
    assert forall f :: f in all <==> f in es || f == e;
  }

  lemma ApplyNames(slice: Slice, row: SliceRow, es: seq<RawEvent>, e: RawEvent)
    requires Names(row, es)
    ensures Names(Apply(slice, row, e), es + [e])
  {
    hide Worth, GoodTrade, GoodTop, IsDepth, IsTicker, TradeFrom, TopFrom, RefFrom, Volume, Repeat;
    hide Graded, Unusable, Complaint, Delayed, OnTime;
    WorthMeans(slice, e);
    RepeatMembers(e.id, Worth(slice, e).parents);
    RepeatMembers(e.run, Worth(slice, e).parents);
    var all := es + [e];
    assert forall f :: f in all <==> f in es || f == e;
  }

  lemma RepeatMembers(x: string, n: nat)
    ensures forall y :: y in Repeat(x, n) <==> n > 0 && y == x
  {
    if n > 0 {
      assert Repeat(x, n)[0] == x;
    }
  }

  lemma ApplyTallies(slice: Slice, row: SliceRow, es: seq<RawEvent>, e: RawEvent)
    requires Tallied(slice, row, es)
    ensures Tallied(slice, Apply(slice, row, e), es + [e])
  {
    hide Worth, GoodTrade, GoodTop, IsDepth, IsTicker, Delayed, OnTime, Unusable, Filter, Volume;
    WorthMeans(slice, e);
    FilterSnoc(GoodTrade, es, e);
    FilterSnoc(GoodTop, es, e);
    FilterSnoc(IsDepth, es, e);
    FilterSnoc(IsTicker, es, e);
    FilterSnoc(Delayed(slice), es, e);
    FilterSnoc(OnTime(slice), es, e);
    FilterSnoc(Unusable, es, e);
  }

  lemma {:induction false} FoldMeans(slice: Slice, role: string, es: seq<RawEvent>)
    ensures var row := Fold(slice, EmptyRow(role), es);
            ListsPrices(row, es) && ListsRefs(row, es) && Names(row, es) && Tallied(slice, row, es)
  {
    hide ListsPrices, ListsRefs, Names, Tallied, Apply;
    if es == [] {
      EmptyMeans(slice, role);
    } else {
      var front, last := es[..|es| - 1], es[|es| - 1];
      FoldMeans(slice, role, front);
      var row := Fold(slice, EmptyRow(role), front);
      ApplyListsPrices(slice, row, front, last);
      ApplyListsRefs(slice, row, front, last);
      ApplyNames(slice, row, front, last);
      ApplyTallies(slice, row, front, last);
      assert es == front + [last];
    }
  }

  lemma EmptyMeans(slice: Slice, role: string)
    ensures ListsPrices(EmptyRow(role), []) && ListsRefs(EmptyRow(role), [])
    ensures Names(EmptyRow(role), []) && Tallied(slice, EmptyRow(role), [])
  {
  }

  /**
   What a built row holds, on the deliveries themselves: every entry is a first intact delivery of the slice's own
   venue, symbol and window, every such delivery of a readable kind is listed once with its own fields, and the
   tallies count them as on time, delayed or invalid.
   */
  lemma RowMeans(slice: Slice, role: string, es: seq<RawEvent>)
    requires slice.Valid()
    ensures var kept := Fresh(slice, es); var row := Fold(slice, EmptyRow(role), kept);
            && (forall e :: e in kept <==> exists i: nat :: Counted(slice, es, i) && es[i] == e)
            && (forall i, j :: 0 <= i < j < |kept| ==> kept[i].id != kept[j].id)
            && ListsPrices(row, kept) && ListsRefs(row, kept) && Names(row, kept) && Tallied(slice, row, kept)
  {
    hide Fresh, Fold, ListsPrices, ListsRefs, Names, Tallied, InSlice;
    FoldMeans(slice, role, Fresh(slice, es));
    FreshOnce(slice, es);
    forall e
      ensures e in Fresh(slice, es) <==> exists i: nat :: Counted(slice, es, i) && es[i] == e
    {
      FreshMeans(slice, es, e);
    }
  }

  /** The same of the row as published, to which health snapshots and gap alerts have added their notes. */
  lemma PublishedMeans(slice: Slice, role: string, notes: HealthNotes, es: seq<RawEvent>)
    requires slice.Valid()
    ensures var kept, p := Fresh(slice, es), Published(slice, role, notes, es);
            && ListsPrices(p, kept) && ListsRefs(p, kept) && Tallied(slice, p, kept)
            && p.sourceRole == role && p.stale == notes.stale && p.gap == notes.gap
            && p.tradeVolume == Traded(kept)
            && (forall x :: x in p.parentEvents <==> exists e :: e in kept && (Graded(e) || IsDepth(e)) && e.id == x)
            && (forall x :: x in p.parentRuns <==> exists e :: e in kept && (Graded(e) || IsDepth(e)) && e.run == x)
            && (forall x :: x in notes.reasons ==> x in p.missingReasons)
            && (forall e :: e in kept && Unusable(e) ==> Complaint(e) in p.missingReasons)
  {
    hide Fresh, Fold, FinalizeRow, Filter;
    var kept := Fresh(slice, es);
    var row := Fold(slice, EmptyRow(role), kept);
    FoldMeans(slice, role, kept);
    FoldTrades(slice, role, kept);
    FinalizeKeepsAll(WithHealth(row, notes));
    SameContents(row, Published(slice, role, notes, es), kept);
  }

  lemma SameContents(row: SliceRow, p: SliceRow, es: seq<RawEvent>)
    requires multiset(p.trades) == multiset(row.trades) && multiset(p.books) == multiset(row.books)
    requires multiset(p.depths) == multiset(row.depths) && multiset(p.tickers) == multiset(row.tickers)
    requires ListsPrices(row, es) && ListsRefs(row, es)
    ensures ListsPrices(p, es) && ListsRefs(p, es)
    ensures |p.trades| == |row.trades| && |p.books| == |row.books|
    ensures |p.depths| == |row.depths| && |p.tickers| == |row.tickers|
  {
    assert |p.trades| == |multiset(p.trades)| && |row.trades| == |multiset(row.trades)|;
    assert |p.books| == |multiset(p.books)| && |row.books| == |multiset(row.books)|;
    assert |p.depths| == |multiset(p.depths)| && |row.depths| == |multiset(row.depths)|;
    assert |p.tickers| == |multiset(p.tickers)| && |row.tickers| == |multiset(row.tickers)|;
    assert forall t :: t in p.trades <==> t in multiset(p.trades);
    assert forall t :: t in row.trades <==> t in multiset(row.trades);
    assert forall b :: b in p.books <==> b in multiset(p.books);
    assert forall b :: b in row.books <==> b in multiset(row.books);
    assert forall d :: d in p.depths <==> d in multiset(p.depths);
    assert forall d :: d in row.depths <==> d in multiset(row.depths);
    assert forall d :: d in p.tickers <==> d in multiset(p.tickers);
    assert forall d :: d in row.tickers <==> d in multiset(row.tickers);
  }

  /** The quantity traded, over the events. */
  function Traded(es: seq<RawEvent>): real
  {
    if es == [] then 0.0
    else
      var last := es[|es| - 1];
      Traded(es[..|es| - 1]) + (if GoodTrade(last) then last.trade.value.quantity else 0.0)
  }

  lemma {:induction false} FoldTrades(slice: Slice, role: string, es: seq<RawEvent>)
    ensures var row := Fold(slice, EmptyRow(role), es);
            row.tradeVolume == Traded(es) && row.sourceRole == role && row.stale == 0 && row.gap == 0
  {
    hide Worth;
    if es != [] {
      var front, last := es[..|es| - 1], es[|es| - 1];
      FoldTrades(slice, role, front);
      WorthMeans(slice, last);
      var c := Worth(slice, last);
      assert c.trades != [] ==> c.trades[..0] == [] && Volume(c.trades) == c.trades[0].quantity;
    }
  }

  lemma SpreadOf(bid: real, ask: real)
    requires 0.0 < bid <= ask
    ensures var mid := (bid + ask) / 2.0; bid <= mid <= ask && (ask - bid) / mid * 10_000.0 >= 0.0
  {
    var mid := (bid + ask) / 2.0;
    var ratio := (ask - bid) / mid;
    assert ratio * mid == ask - bid;
    assert ratio >= 0.0;
  }

  /**
   A published row quotes a price, with its mid inside a spread that is never
   negative, exactly when it saw a book.
   */
  lemma PublishedQuote(slice: Slice, role: string, notes: HealthNotes, es: seq<RawEvent>)
    requires slice.Valid()
    ensures var p := Published(slice, role, notes, es);
            && (p.books == [] ==> p.bestBid.None? && p.bestAsk.None? && p.mid.None? && p.spreadBps.None?)
            && (p.books != [] ==>
                  && p.bestBid.Some? && p.bestAsk.Some? && p.mid.Some? && p.spreadBps.Some?
                  && 0.0 < p.bestBid.value <= p.mid.value <= p.bestAsk.value && p.spreadBps.value >= 0.0)
            && p.tradeCount == |p.trades| && p.bookCount == |p.books| && p.depthCount == |p.depths|
  {
    hide Fold, Fresh, Sort, SortDedup, TradeKey, BookKey, RefKey, Completeness, Volume, DerivedReasons;
    var r := Fold(slice, EmptyRow(role), Fresh(slice, es));
    FoldAccounts(slice, role, Fresh(slice, es));
    SortKeepsSize(TradeKey, r.trades);
    SortKeepsSize(BookKey, r.books);
    SortKeepsSize(RefKey, r.depths);
    var books := Sort(BookKey, r.books);
    if books != [] {
      SortSorts(BookKey, r.books);
      var last := books[|books| - 1];
      assert last in multiset(books);
      assert last in r.books;
      SpreadOf(last.bid, last.ask);
    }
  }
}
