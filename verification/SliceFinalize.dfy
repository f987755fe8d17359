/**
 Finalising one normalised slice: event lists are sorted, reasons and parent
 ids are sorted and deduplicated, and the derived fields are recomputed.
 */
module SliceFinalize {
  import opened Wrappers
  import opened StableSort
  import opened Times


  datatype Trade = Trade(
    at: int, ingested: int, price: real, quantity: real, side: string, sequence: Option<int>, parent: string)

  datatype BookTop = BookTop(
    at: int, ingested: int, bid: real, bidQty: real, ask: real, askQty: real, sequence: Option<int>, parent: string)

  datatype EventRef = EventRef(at: int, ingested: int, kind: string, parent: string)

  datatype SliceRow = SliceRow(
    sourceRole: string,
    completeness: string,
    missingReasons: seq<string>,
    ok: int, delayed: int, stale: int, gap: int, invalid: int,
    tradeCount: int, tradeVolume: real, lastPrice: Option<real>, lastSize: Option<real>,
    bestBid: Option<real>, bestAsk: Option<real>, mid: Option<real>, spreadBps: Option<real>,
    bookCount: int, depthCount: int,
    trades: seq<Trade>, books: seq<BookTop>, depths: seq<EventRef>, tickers: seq<EventRef>,
    parentEvents: seq<string>, parentRuns: seq<string>)

  // ---------------------------------------------------------------- sort keys

  function SequenceKey(sequence: Option<int>): int
  {
    if sequence.Some? then sequence.value else I64_MAX
  }

  function TradeKey(t: Trade): seq<int> { [t.at, SequenceKey(t.sequence), t.ingested] + Codes(t.parent) }
  function BookKey(b: BookTop): seq<int> { [b.at, SequenceKey(b.sequence), b.ingested] + Codes(b.parent) }
  function RefKey(e: EventRef): seq<int> { [e.at, e.ingested] + Codes(e.parent) }

  lemma TradeKeyNamesParent(a: Trade, b: Trade)
    requires TradeKey(a) == TradeKey(b)
    ensures a.parent == b.parent
  {
    assert TradeKey(a)[3..] == Codes(a.parent) && TradeKey(b)[3..] == Codes(b.parent);
    CodesInjective(a.parent, b.parent);
  }

  lemma BookKeyNamesParent(a: BookTop, b: BookTop)
    requires BookKey(a) == BookKey(b)
    ensures a.parent == b.parent
  {
    assert BookKey(a)[3..] == Codes(a.parent) && BookKey(b)[3..] == Codes(b.parent);
    CodesInjective(a.parent, b.parent);
  }

  lemma RefKeyNamesParent(a: EventRef, b: EventRef)
    requires RefKey(a) == RefKey(b)
    ensures a.parent == b.parent
  {
    assert RefKey(a)[2..] == Codes(a.parent) && RefKey(b)[2..] == Codes(b.parent);
    CodesInjective(a.parent, b.parent);
  }

  // ----------------------------------------------------------- specification

  /** The row after its event lists are in order; the last trade and the last book top win. */
  function Ordered(row: SliceRow): SliceRow
  {
    var trades := Sort(TradeKey, row.trades);
    var books := Sort(BookKey, row.books);
    row.(trades := trades,
         books := books,
         depths := Sort(RefKey, row.depths),
         tickers := Sort(RefKey, row.tickers),
         lastPrice := if trades == [] then row.lastPrice else Some(trades[|trades| - 1].price),
         lastSize := if trades == [] then row.lastSize else Some(trades[|trades| - 1].quantity),
         bestBid := if books == [] then row.bestBid else Some(books[|books| - 1].bid),
         bestAsk := if books == [] then row.bestAsk else Some(books[|books| - 1].ask))
  }

  predicate Silent(row: SliceRow)
  {
    row.tradeCount == 0 && row.bookCount == 0 && row.depthCount == 0 && row.tickers == []
  }

  function DerivedReasons(row: SliceRow): seq<string>
  {
    (if !Silent(row) then [] else if row.invalid > 0 then ["all_invalid"] else ["trade_silence"])
    + (if row.bestBid.None? && row.bestAsk.None? then ["depth_top_missing"] else [])
  }

  function Completeness(row: SliceRow): string
  {
    if "venue_unavailable" in row.missingReasons then "incomplete"
    else if Silent(row) then "incomplete"
    else if row.invalid > 0 && row.ok == 0 then "incomplete"
    else if row.missingReasons != [] then "partial"
    else if row.delayed > 0 || row.stale > 0 || row.gap > 0 || row.invalid > 0 then "partial"
    else if row.sourceRole == "reference" then "reference_only"
    else "complete"
  }

  function Priced(row: SliceRow): SliceRow
  {
    if row.bestBid.Some? && row.bestAsk.Some? then
      var bid, ask := row.bestBid.value, row.bestAsk.value;
      var mid := (bid + ask) / 2.0;
      row.(mid := Some(mid), spreadBps := if mid > 0.0 then Some((ask - bid) / mid * 10_000.0) else None)
    else row
  }

  /** The row with the list-valued fields in canonical form. */
  function Listed(row: SliceRow): SliceRow
  {
    row.(missingReasons := SortDedup(row.missingReasons + DerivedReasons(row)),
         parentEvents := SortDedup(row.parentEvents),
         parentRuns := SortDedup(row.parentRuns))
  }

  function FinalizeRow(row: SliceRow): SliceRow
  {
    var priced := Priced(Listed(Ordered(row)));
    priced.(completeness := Completeness(priced))
  }

  // ------------------------------------------------------------- the code

  method NormalizeEventOrder(input: SliceRow) returns (row: SliceRow)
    ensures row == Ordered(input)
  {
    hide Sort, TradeKey, BookKey, RefKey;
    row := input.(trades := Sort(TradeKey, input.trades));
    if row.trades != [] {
      var last := row.trades[|row.trades| - 1];
      row := row.(lastPrice := Some(last.price), lastSize := Some(last.quantity));
    }
    row := row.(books := Sort(BookKey, row.books));
    if row.books != [] {
      var last := row.books[|row.books| - 1];
      row := row.(bestBid := Some(last.bid), bestAsk := Some(last.ask));
    }
    row := row.(depths := Sort(RefKey, row.depths));
    row := row.(tickers := Sort(RefKey, row.tickers));
  }

  /** One row, step by step as the code updates it. */
  method FinalizeOne(input: SliceRow) returns (row: SliceRow)
    ensures row == FinalizeRow(input)
  {
    hide Ordered, SortDedup, Completeness;
    row := NormalizeEventOrder(input);
    var reasons := row.missingReasons;
    if row.tradeCount == 0 && row.bookCount == 0 && row.depthCount == 0 && row.tickers == [] {
      if row.invalid > 0 {
        reasons := reasons + ["all_invalid"];
      } else {
        reasons := reasons + ["trade_silence"];
      }
    }
    if row.bestBid.None? && row.bestAsk.None? {
      reasons := reasons + ["depth_top_missing"];
    }
    assert reasons == row.missingReasons + DerivedReasons(row);
    row := row.(missingReasons := SortDedup(reasons),
                parentEvents := SortDedup(row.parentEvents),
                parentRuns := SortDedup(row.parentRuns));
    if row.bestBid.Some? && row.bestAsk.Some? {
      var bid, ask := row.bestBid.value, row.bestAsk.value;
      var mid := (bid + ask) / 2.0;
      row := row.(mid := Some(mid), spreadBps := if mid > 0.0 then Some((ask - bid) / mid * 10_000.0) else None);
    }
    row := row.(completeness := Completeness(row));
  }

  method FinalizeSlices(rows: seq<SliceRow>) returns (out: seq<SliceRow>)
    ensures |out| == |rows|
    ensures forall i :: 0 <= i < |rows| ==> out[i] == FinalizeRow(rows[i])
  {
    hide FinalizeRow;
    out := [];
    for i := 0 to |rows|
      invariant |out| == i
      invariant forall k :: 0 <= k < i ==> out[k] == FinalizeRow(rows[k])
    {
      var row := FinalizeOne(rows[i]);
      out := out + [row];
    }
  }

  // ------------------------------------------------------------- canonicity

  ghost predicate SameMembers(a: seq<string>, b: seq<string>)
  {
    forall x :: x in a <==> x in b
  }

  /** What the order of arrival does not touch. */
  function Settled(row: SliceRow): SliceRow
  {
    row.(completeness := "", missingReasons := [], parentEvents := [], parentRuns := [],
         trades := [], books := [], depths := [], tickers := [],
         lastPrice := if row.trades == [] then row.lastPrice else None,
         lastSize := if row.trades == [] then row.lastSize else None,
         bestBid := if row.books == [] then row.bestBid else None,
         bestAsk := if row.books == [] then row.bestAsk else None)
  }

  ghost predicate SameLists(r: SliceRow, s: SliceRow)
  {
    && SameMembers(r.missingReasons, s.missingReasons)
    && SameMembers(r.parentEvents, s.parentEvents)
    && SameMembers(r.parentRuns, s.parentRuns)
  }

  ghost predicate SameEvents(r: SliceRow, s: SliceRow)
  {
    && multiset(r.trades) == multiset(s.trades)
    && multiset(r.books) == multiset(s.books)
    && multiset(r.depths) == multiset(s.depths)
    && multiset(r.tickers) == multiset(s.tickers)
  }

  /**
   The same slice seen through two arrival orders: permuted events, permuted
   and repeated reasons and ids, and a "last seen" price that depends on them.
   */
  ghost predicate Alike(r: SliceRow, s: SliceRow)
  {
    Settled(r) == Settled(s) && SameLists(r, s) && SameEvents(r, s)
  }

  ghost predicate RowKeysDetermine(row: SliceRow)
  {
    && KeysDetermine(TradeKey, row.trades)
    && KeysDetermine(BookKey, row.books)
    && KeysDetermine(RefKey, row.depths)
    && KeysDetermine(RefKey, row.tickers)
  }

  lemma SameSize<T>(a: seq<T>, b: seq<T>)
    requires multiset(a) == multiset(b)
    ensures |a| == |b|
  {
    assert |a| == |multiset(a)| == |multiset(b)| == |b|;
  }

  lemma SortKeepsSize<T>(key: T -> seq<int>, xs: seq<T>)
    ensures |Sort(key, xs)| == |xs|
  {
    SortSorts(key, xs);
    SameSize(Sort(key, xs), xs);
  }

  lemma OrderedAgrees(r: SliceRow, s: SliceRow)
    requires Alike(r, s) && RowKeysDetermine(r)
    ensures var o, p := Ordered(r), Ordered(s);
            p == o.(completeness := s.completeness, missingReasons := s.missingReasons,
                    parentEvents := s.parentEvents, parentRuns := s.parentRuns)
  {
    hide Sort, TradeKey, BookKey, RefKey, SameMembers, KeysDetermine;
    SortIgnoresOrder(TradeKey, r.trades, s.trades);
    SortIgnoresOrder(BookKey, r.books, s.books);
    SortIgnoresOrder(RefKey, r.depths, s.depths);
    SortIgnoresOrder(RefKey, r.tickers, s.tickers);
    SameSize(r.trades, s.trades);
    SameSize(r.books, s.books);
    SortKeepsSize(TradeKey, r.trades);
    SortKeepsSize(BookKey, r.books);
    var o, p := Settled(r), Settled(s);
    assert o.sourceRole == p.sourceRole && o.ok == p.ok && o.delayed == p.delayed && o.stale == p.stale;
  }

  lemma {:induction false} ListedAgrees(o: SliceRow, p: SliceRow)
    requires SameLists(o, p)
    requires p == o.(completeness := p.completeness, missingReasons := p.missingReasons,
                     parentEvents := p.parentEvents, parentRuns := p.parentRuns)
    ensures Listed(p) == Listed(o).(completeness := p.completeness)
  {
    hide SortDedup;
    var extra := DerivedReasons(o);
    assert DerivedReasons(p) == extra;
    SortDedupCanonicalIff(o.missingReasons + extra, p.missingReasons + extra);
    SortDedupCanonicalIff(o.parentEvents, p.parentEvents);
    SortDedupCanonicalIff(o.parentRuns, p.parentRuns);
  }

  lemma OrderedKeepsLists(row: SliceRow)
    ensures Ordered(row).missingReasons == row.missingReasons
    ensures Ordered(row).parentEvents == row.parentEvents && Ordered(row).parentRuns == row.parentRuns
  {
  }

  /** Arrival order, and repetition of reasons and ids, never shows in a finalised row. */
  lemma FinalizeIsCanonical(r: SliceRow, s: SliceRow)
    requires Alike(r, s) && RowKeysDetermine(r)
    ensures FinalizeRow(r) == FinalizeRow(s)
  {
    hide Ordered, SortDedup, SameMembers, KeysDetermine, SameEvents, Settled, DerivedReasons;
    OrderedAgrees(r, s);
    OrderedKeepsLists(r);
    OrderedKeepsLists(s);
    ListedAgrees(Ordered(r), Ordered(s));
  }

  /** A row whose finalised form no arrival order can change. */
  ghost predicate ArrivalIndependent(row: SliceRow)
  {
    forall s :: Alike(row, s) ==> FinalizeRow(s) == FinalizeRow(row)
  }

  lemma OtherOrder<T(!new)>(key: T -> seq<int>, xs: seq<T>) returns (ys: seq<T>)
    requires !KeysDetermine(key, xs)
    ensures multiset(ys) == multiset(xs) && Sort(key, ys) != Sort(key, xs)
    ensures xs != [] && ys != []
  {
    hide Sort;
    var i: nat, j: nat :| i < |xs| && j < |xs| && key(xs[i]) == key(xs[j]) && xs[i] != xs[j];
    var a, b := EqualKeysExposeOrder(key, xs, i, j);
    ys := if Sort(key, a) != Sort(key, xs) then a else b;
    SameSize(ys, xs);
  }

  lemma EventsAreSorted(row: SliceRow)
    ensures var done := FinalizeRow(row);
            && done.trades == Sort(TradeKey, row.trades) && done.books == Sort(BookKey, row.books)
            && done.depths == Sort(RefKey, row.depths) && done.tickers == Sort(RefKey, row.tickers)
  {
    hide Sort, SortDedup, TradeKey, BookKey, RefKey, Completeness, DerivedReasons;
  }

  /** The finalised row is independent of arrival order exactly when sort keys determine events. */
  lemma FinalizeCanonicalIff(row: SliceRow)
    ensures ArrivalIndependent(row) <==> RowKeysDetermine(row)
  {
    hide Sort, KeysDetermine, TradeKey, BookKey, RefKey, FinalizeRow;
    if RowKeysDetermine(row) {
      forall s | Alike(row, s)
        ensures FinalizeRow(s) == FinalizeRow(row)
      {
        FinalizeIsCanonical(row, s);
      }
    } else if !KeysDetermine(TradeKey, row.trades) {
      var ys := OtherOrder(TradeKey, row.trades);
      var s := row.(trades := ys);
      EventsAreSorted(row);
      EventsAreSorted(s);
      assert Alike(row, s) && FinalizeRow(s).trades != FinalizeRow(row).trades;
    } else if !KeysDetermine(BookKey, row.books) {
      var ys := OtherOrder(BookKey, row.books);
      var s := row.(books := ys);
      EventsAreSorted(row);
      EventsAreSorted(s);
      assert Alike(row, s) && FinalizeRow(s).books != FinalizeRow(row).books;
    } else if !KeysDetermine(RefKey, row.depths) {
      var ys := OtherOrder(RefKey, row.depths);
      var s := row.(depths := ys);
      EventsAreSorted(row);
      EventsAreSorted(s);
      assert Alike(row, s) && FinalizeRow(s).depths != FinalizeRow(row).depths;
    } else {
      var ys := OtherOrder(RefKey, row.tickers);
      var s := row.(tickers := ys);
      EventsAreSorted(row);
      EventsAreSorted(s);
      assert Alike(row, s) && FinalizeRow(s).tickers != FinalizeRow(row).tickers;
    }
  }

  // ------------------------------------------------------------ idempotence

  lemma SortTwice<T>(key: T -> seq<int>, xs: seq<T>)
    ensures Sort(key, Sort(key, xs)) == Sort(key, xs)
  {
    SortSorts(key, xs);
    SortOfSorted(key, Sort(key, xs));
  }

  lemma SortDedupTwice(xs: seq<string>)
    ensures SortDedup(SortDedup(xs)) == SortDedup(xs)
  {
    SortDedupShape(xs);
    SortDedupCanonicalIff(SortDedup(xs), xs);
  }

  lemma DerivedReasonsOnce(xs: seq<string>, extra: seq<string>)
    ensures SortDedup(SortDedup(xs + extra) + extra) == SortDedup(xs + extra)
  {
    SortDedupShape(xs + extra);
    SortDedupCanonicalIff(SortDedup(xs + extra) + extra, xs + extra);
  }

  lemma OrderedTwice(row: SliceRow, done: SliceRow)
    requires done.trades == Ordered(row).trades && done.books == Ordered(row).books
    requires done.depths == Ordered(row).depths && done.tickers == Ordered(row).tickers
    requires done.lastPrice == Ordered(row).lastPrice && done.lastSize == Ordered(row).lastSize
    requires done.bestBid == Ordered(row).bestBid && done.bestAsk == Ordered(row).bestAsk
    ensures Ordered(done) == done
  {
    hide Sort, TradeKey, BookKey, RefKey;
    SortTwice(TradeKey, row.trades);
    SortTwice(BookKey, row.books);
    SortTwice(RefKey, row.depths);
    SortTwice(RefKey, row.tickers);
  }

  lemma ListedTwice(o: SliceRow, done: SliceRow)
    requires done.missingReasons == Listed(o).missingReasons
    requires done.parentEvents == Listed(o).parentEvents && done.parentRuns == Listed(o).parentRuns
    requires DerivedReasons(done) == DerivedReasons(o)
    ensures Listed(done) == done
  {
    hide SortDedup, DerivedReasons;
    DerivedReasonsOnce(o.missingReasons, DerivedReasons(o));
    SortDedupTwice(o.parentEvents);
    SortDedupTwice(o.parentRuns);
  }

  /** Finalising a finalised row changes nothing. */
  lemma FinalizeTwice(row: SliceRow)
    ensures FinalizeRow(FinalizeRow(row)) == FinalizeRow(row)
  {
    hide Sort, SortDedup, TradeKey, BookKey, RefKey, Completeness;
    var done := FinalizeRow(row);
    OrderedTwice(row, done);
    ListedTwice(Ordered(row), done);
    CompletenessIgnoresItself(Priced(Listed(Ordered(row))), done.completeness);
  }

  lemma CompletenessIgnoresItself(row: SliceRow, c: string)
    ensures Completeness(row.(completeness := c)) == Completeness(row)
  {
  }

  /** What finalisation adds to the reasons: whether any remain, and never the venue's. */
  lemma ReasonsAfter(row: SliceRow)
    ensures var o := Ordered(row);
            var reasons := Listed(o).missingReasons;
            && ("venue_unavailable" in reasons <==> "venue_unavailable" in row.missingReasons)
            && (reasons == [] <==> row.missingReasons == [] && DerivedReasons(o) == [])
  {
    hide Ordered, SortDedup;
    OrderedKeepsLists(row);
    var o := Ordered(row);
    var all := o.missingReasons + DerivedReasons(o);
    SortDedupShape(all);
    assert all != [] ==> all[0] in SortDedup(all);
    assert SortDedup(all) != [] ==> SortDedup(all)[0] in all;
    assert "venue_unavailable" !in DerivedReasons(o);
  }

  lemma OrderedQuotes(row: SliceRow)
    ensures Silent(Ordered(row)) <==> Silent(row)
    ensures Ordered(row).bestBid.None? && Ordered(row).bestAsk.None? <==>
            row.books == [] && row.bestBid.None? && row.bestAsk.None?
  {
    hide Sort, TradeKey, BookKey, RefKey;
    SortKeepsSize(BookKey, row.books);
    SortKeepsSize(RefKey, row.tickers);
  }

  /** The published verdict, read off the row as it came in. */
  lemma CompletenessMeans(row: SliceRow)
    ensures var verdict := FinalizeRow(row).completeness;
            var incomplete := || "venue_unavailable" in row.missingReasons
                              || Silent(row) || (row.invalid > 0 && row.ok == 0);
            var whole := && row.missingReasons == [] && (row.books != [] || row.bestBid.Some? || row.bestAsk.Some?)
                         && row.delayed <= 0 && row.stale <= 0 && row.gap <= 0 && row.invalid <= 0;
            && (verdict == "incomplete" <==> incomplete)
            && (verdict == "partial" <==> !incomplete && !whole)
            && (verdict == "reference_only" <==> !incomplete && whole && row.sourceRole == "reference")
            && (verdict == "complete" <==> !incomplete && whole && row.sourceRole != "reference")
  {
    hide Sort, SortDedup, TradeKey, BookKey, RefKey;
    ReasonsAfter(row);
    OrderedQuotes(row);
  }

  /** Not after, by exchange time, then sequence (a missing one last), then ingest time, then parent id. */
  predicate NotAfter(at: int, seq1: Option<int>, in1: int, id1: string,
                     at2: int, seq2: Option<int>, in2: int, id2: string)
  {
    var s, t := if seq1.Some? then seq1.value else 0x7FFF_FFFF_FFFF_FFFF,
                if seq2.Some? then seq2.value else 0x7FFF_FFFF_FFFF_FFFF;
    || at < at2
    || (at == at2 && s < t)
    || (at == at2 && s == t && in1 < in2)
    || (at == at2 && s == t && in1 == in2 && LexLeq(Codes(id1), Codes(id2)))
  }

  lemma LexCons(a: int, x: seq<int>, d: int, y: seq<int>)
    ensures LexLeq([a] + x, [d] + y) <==> a < d || (a == d && LexLeq(x, y))
  {
    assert ([a] + x)[1..] == x && ([d] + y)[1..] == y;
  }

  lemma LexPair(a: int, b: int, x: seq<int>, d: int, e: int, y: seq<int>)
    ensures LexLeq([a, b] + x, [d, e] + y) <==> a < d || (a == d && (b < e || (b == e && LexLeq(x, y))))
  {
    hide LexLeq;
    LexCons(b, x, e, y);
    LexCons(a, [b] + x, d, [e] + y);
    assert [a] + ([b] + x) == [a, b] + x && [d] + ([e] + y) == [d, e] + y;
  }

  lemma LexTriple(a: int, b: int, c: int, x: seq<int>, d: int, e: int, f: int, y: seq<int>)
    ensures LexLeq([a, b, c] + x, [d, e, f] + y) <==>
            a < d || (a == d && (b < e || (b == e && (c < f || (c == f && LexLeq(x, y))))))
  {
    hide LexLeq;
    LexPair(b, c, x, e, f, y);
    LexCons(a, [b, c] + x, d, [e, f] + y);
    assert [a] + ([b, c] + x) == [a, b, c] + x && [d] + ([e, f] + y) == [d, e, f] + y;
  }

  /** The sort keys order events as stated: trades and books by four fields, the others without a sequence. */
  lemma KeysOrder(t: Trade, u: Trade, b: BookTop, c: BookTop, e: EventRef, f: EventRef)
    ensures LexLeq(TradeKey(t), TradeKey(u)) <==>
            NotAfter(t.at, t.sequence, t.ingested, t.parent, u.at, u.sequence, u.ingested, u.parent)
    ensures LexLeq(BookKey(b), BookKey(c)) <==>
            NotAfter(b.at, b.sequence, b.ingested, b.parent, c.at, c.sequence, c.ingested, c.parent)
    ensures LexLeq(RefKey(e), RefKey(f)) <==>
            || e.at < f.at || (e.at == f.at && e.ingested < f.ingested)
            || (e.at == f.at && e.ingested == f.ingested && LexLeq(Codes(e.parent), Codes(f.parent)))
  {
    hide LexLeq, Codes;
    LexTriple(t.at, SequenceKey(t.sequence), t.ingested, Codes(t.parent),
              u.at, SequenceKey(u.sequence), u.ingested, Codes(u.parent));
    LexTriple(b.at, SequenceKey(b.sequence), b.ingested, Codes(b.parent),
              c.at, SequenceKey(c.sequence), c.ingested, Codes(c.parent));
    LexPair(e.at, e.ingested, Codes(e.parent), f.at, f.ingested, Codes(f.parent));
  }

  predicate NoActivity(row: SliceRow)
  {
    row.tradeCount == 0 && row.bookCount == 0 && row.depthCount == 0 && row.tickers == []
  }

  /** Which reason a row is given: for silence according to invalid events, and for a quote missing on both sides. */
  lemma ReasonsMean(row: SliceRow)
    ensures var done := FinalizeRow(row);
            && ("all_invalid" in done.missingReasons <==>
                  "all_invalid" in row.missingReasons || (NoActivity(row) && row.invalid > 0))
            && ("trade_silence" in done.missingReasons <==>
                  "trade_silence" in row.missingReasons || (NoActivity(row) && row.invalid <= 0))
            && ("depth_top_missing" in done.missingReasons <==>
                  "depth_top_missing" in row.missingReasons || (done.bestBid.None? && done.bestAsk.None?))
            && forall x :: x in row.missingReasons ==> x in done.missingReasons
  {
    hide Ordered, SortDedup, Completeness, DerivedReasons, Silent;
    OrderedKeepsLists(row);
    OrderedQuotes(row);
    OrderedKeepsInvalid(row);
    var o := Ordered(row);
    SortDedupShape(o.missingReasons + DerivedReasons(o));
    DerivedMeans(o);
    SilentMeans(row);
  }

  lemma SilentMeans(row: SliceRow)
    ensures Silent(row) <==> NoActivity(row)
  {
  }

  lemma DerivedMeans(o: SliceRow)
    ensures "all_invalid" in DerivedReasons(o) <==> Silent(o) && o.invalid > 0
    ensures "trade_silence" in DerivedReasons(o) <==> Silent(o) && o.invalid <= 0
    ensures "depth_top_missing" in DerivedReasons(o) <==> o.bestBid.None? && o.bestAsk.None?
  {
    hide Silent;
    assert "all_invalid"[0] == 'a' && "trade_silence"[0] == 't' && "depth_top_missing"[0] == 'd';
  }


  lemma OrderedKeepsInvalid(row: SliceRow)
    ensures Ordered(row).invalid == row.invalid
    ensures Ordered(row).mid == row.mid && Ordered(row).spreadBps == row.spreadBps
  {
  }

  /** With both sides quoted, the mid is their mean and the spread is in ten-thousandths of it; else both stay. */
  lemma PricesMean(row: SliceRow)
    ensures var done := FinalizeRow(row);
            if done.bestBid.Some? && done.bestAsk.Some? then
              var bid, ask := done.bestBid.value, done.bestAsk.value;
              && done.mid == Some((bid + ask) / 2.0)
              && (bid + ask <= 0.0 ==> done.spreadBps.None?)
              && (bid + ask > 0.0 ==>
                    done.spreadBps.Some? && done.spreadBps.value * done.mid.value == 10_000.0 * (ask - bid))
            else done.mid == row.mid && done.spreadBps == row.spreadBps
  {
    hide Ordered, SortDedup, Completeness, DerivedReasons;
    OrderedKeepsInvalid(row);
    var done := FinalizeRow(row);
    if done.bestBid.Some? && done.bestAsk.Some? {
      var bid, ask := done.bestBid.value, done.bestAsk.value;
      var mid := (bid + ask) / 2.0;
      if mid > 0.0 {
        SpreadTimesMid(ask - bid, mid);
      }
    }
  }

  lemma SpreadTimesMid(x: real, mid: real)
    requires mid > 0.0
    ensures (x / mid * 10_000.0) * mid == 10_000.0 * x
  {
    var q := x / mid;
    assert q * mid == x;
  }

  /** What finalisation keeps: every event, every count, and the members of the lists it puts in strict order. */
  lemma FinalizeKeepsAll(row: SliceRow)
    ensures var done := FinalizeRow(row);
            && multiset(done.trades) == multiset(row.trades) && multiset(done.books) == multiset(row.books)
            && multiset(done.depths) == multiset(row.depths) && multiset(done.tickers) == multiset(row.tickers)
            && StrictlySorted(done.parentEvents) && SameMembers(done.parentEvents, row.parentEvents)
            && StrictlySorted(done.parentRuns) && SameMembers(done.parentRuns, row.parentRuns)
            && StrictlySorted(done.missingReasons)
            && (forall x :: x in row.missingReasons ==> x in done.missingReasons)
            && (forall x :: x in done.missingReasons ==>
                  x in row.missingReasons || x in {"all_invalid", "trade_silence", "depth_top_missing"})
            && done.sourceRole == row.sourceRole && done.ok == row.ok && done.delayed == row.delayed
            && done.stale == row.stale && done.gap == row.gap && done.invalid == row.invalid
            && done.tradeCount == row.tradeCount && done.tradeVolume == row.tradeVolume
            && done.bookCount == row.bookCount && done.depthCount == row.depthCount
  {
    hide Sort, SortDedup, TradeKey, BookKey, RefKey, Completeness;
    SortSorts(TradeKey, row.trades);
    SortSorts(BookKey, row.books);
    SortSorts(RefKey, row.depths);
    SortSorts(RefKey, row.tickers);
    var o := Ordered(row);
    SortDedupShape(row.parentEvents);
    SortDedupShape(row.parentRuns);
    SortDedupShape(o.missingReasons + DerivedReasons(o));
  }

  /** The last trade and the quoted top are those no other event of the row comes after. */
  lemma LatestEventsWin(row: SliceRow)
    ensures var done := FinalizeRow(row);
            && (row.trades != [] ==>
                  exists t :: t in row.trades && done.lastPrice == Some(t.price) && done.lastSize == Some(t.quantity)
                              && forall u :: u in row.trades ==>
                                   NotAfter(u.at, u.sequence, u.ingested, u.parent,
                                            t.at, t.sequence, t.ingested, t.parent))
            && (row.books != [] ==>
                  exists b :: b in row.books && done.bestBid == Some(b.bid) && done.bestAsk == Some(b.ask)
                              && forall c :: c in row.books ==>
                                   NotAfter(c.at, c.sequence, c.ingested, c.parent,
                                            b.at, b.sequence, b.ingested, b.parent))
  {
    hide Sort, SortDedup, TradeKey, BookKey, RefKey, Completeness, LexLeq, DerivedReasons, NotAfter;
    var e := EventRef(0, 0, "", "");
    if row.trades != [] {
      var t := LatestOf(TradeKey, row.trades);
      forall u | u in row.trades
        ensures NotAfter(u.at, u.sequence, u.ingested, u.parent, t.at, t.sequence, t.ingested, t.parent)
      {
        var b := BookTop(0, 0, 0.0, 0.0, 0.0, 0.0, None, "");
        KeysOrder(u, t, b, b, e, e);
      }
    }
    if row.books != [] {
      var b := LatestOf(BookKey, row.books);
      forall c | c in row.books
        ensures NotAfter(c.at, c.sequence, c.ingested, c.parent, b.at, b.sequence, b.ingested, b.parent)
      {
        var t := Trade(0, 0, 0.0, 0.0, "", None, "");
        KeysOrder(t, t, c, b, e, e);
      }
    }
  }

  lemma LatestOf<T(!new)>(key: T -> seq<int>, xs: seq<T>) returns (x: T)
    requires xs != []
    ensures Sort(key, xs) != [] && x == Sort(key, xs)[|Sort(key, xs)| - 1]
    ensures x in xs && forall y :: y in xs ==> LexLeq(key(y), key(x))
  {
    hide Sort, LexLeq;
    SortSorts(key, xs);
    SortKeepsSize(key, xs);
    var sorted := Sort(key, xs);
    x := sorted[|sorted| - 1];
    assert x in multiset(sorted);
    forall y | y in xs
      ensures LexLeq(key(y), key(x))
    {
      assert y in multiset(xs);
      LastBounds(key, sorted, y);
    }
  }
}
