/**
 Binance aggTrades backfill of one symbol: a page by time, then pages by id
 until the range is passed or the server runs out.
 */
module Pagination {
  import opened Wrappers

  const BINANCE_PAGE_LIMIT := 1_000

  datatype AggTrade = AggTrade(id: int, timestampMs: int)

  /** The server's trades of the symbol: ids strictly increase, timestamps never decrease. */
  ghost predicate Ordered(log: seq<AggTrade>)
  {
    forall i, j :: 0 <= i < j < |log| ==> log[i].id < log[j].id && log[i].timestampMs <= log[j].timestampMs
  }

  predicate Within(t: AggTrade, start: int, end: int) { start <= t.timestampMs <= end }

  function InRange(log: seq<AggTrade>, start: int, end: int): seq<AggTrade>
  {
    if log == [] then []
    else InRange(log[..|log| - 1], start, end) +
         (if Within(log[|log| - 1], start, end) then [log[|log| - 1]] else [])
  }

  function FromId(log: seq<AggTrade>, id: int): seq<AggTrade>
  {
    if log == [] || log[0].id >= id then log else FromId(log[1..], id)
  }

  function FirstPage(trades: seq<AggTrade>): seq<AggTrade>
  {
    if |trades| <= BINANCE_PAGE_LIMIT then trades else trades[..BINANCE_PAGE_LIMIT]
  }

  lemma {:induction false} InRangeAppend(a: seq<AggTrade>, b: seq<AggTrade>, start: int, end: int)
    ensures InRange(a + b, start, end) == InRange(a, start, end) + InRange(b, start, end)
  {
    if b == [] {
      assert a + b == a;
    } else {
      var front := b[..|b| - 1];
      assert (a + b)[..|a + b| - 1] == a + front;
      InRangeAppend(a, front, start, end);
    }
  }

  lemma {:induction false} InRangeMembers(log: seq<AggTrade>, start: int, end: int)
    ensures forall t :: t in InRange(log, start, end) <==> t in log && start <= t.timestampMs <= end
  {
    if log != [] {
      InRangeMembers(log[..|log| - 1], start, end);
      assert log == log[..|log| - 1] + [log[|log| - 1]];
    }
  }

  lemma {:induction false} InRangeOrdered(log: seq<AggTrade>, start: int, end: int)
    requires Ordered(log)
    ensures Ordered(InRange(log, start, end))
  {
    if log != [] {
      var front := log[..|log| - 1];
      InRangeOrdered(front, start, end);
      InRangeMembers(front, start, end);
      var kept := InRange(front, start, end);
      forall i | 0 <= i < |kept|
        ensures kept[i].id < log[|log| - 1].id && kept[i].timestampMs <= log[|log| - 1].timestampMs
      {
        assert kept[i] in front;
      }
    }
  }

  lemma {:induction false} NothingLeft(log: seq<AggTrade>, start: int, end: int)
    requires forall t :: t in log ==> t.timestampMs > end
    ensures InRange(log, start, end) == []
  {
    if log != [] {
      NothingLeft(log[..|log| - 1], start, end);
    }
  }

  /** The n-th trade in range sits somewhere in the log, with exactly n trades in range up to it. */
  lemma {:induction false} LocateInRange(log: seq<AggTrade>, start: int, end: int, n: nat) returns (p: nat)
    requires 0 < n <= |InRange(log, start, end)|
    ensures 0 < p <= |log| && log[p - 1] == InRange(log, start, end)[n - 1]
    ensures InRange(log[..p], start, end) == InRange(log, start, end)[..n]
  {
    var front := log[..|log| - 1];
    if n <= |InRange(front, start, end)| {
      p := LocateInRange(front, start, end, n);
      assert log[..p] == front[..p];
    } else {
      p := |log|;
      assert log[..p] == log;
    }
  }

  lemma {:induction false} FromIdSkips(log: seq<AggTrade>, p: nat)
    requires Ordered(log) && 0 < p <= |log|
    ensures FromId(log, log[p - 1].id + 1) == log[p..]
  {
    if p == 1 {
      assert log[1..] == [] || log[1].id >= log[0].id + 1;
    } else {
      assert log[0].id < log[p - 1].id;
      FromIdSkips(log[1..], p - 1);
      assert log[1..][p - 1..] == log[p..];
    }
  }

  datatype Status = EmptyReport | OkReport | PartialReport

  datatype Report = Report(recordCount: nat, first: Option<int>, last: Option<int>, gapAlerts: nat, status: Status)

  const EmptyOne := Report(0, None, None, 0, EmptyReport)

  function Observed(r: Report, t: int): Report
  {
    r.(recordCount := r.recordCount + 1,
       first := Some(if r.first.Some? && r.first.value < t then r.first.value else t),
       last := Some(if r.last.Some? && r.last.value > t then r.last.value else t),
       status := OkReport)
  }

  function GapNoted(r: Report): Report
  {
    r.(gapAlerts := r.gapAlerts + 1, status := if r.recordCount > 0 then PartialReport else r.status)
  }

  /** What a report should say of the trades it covers, in order, before any gap is noted. */
  function Summary(trades: seq<AggTrade>): Report
  {
    if trades == [] then EmptyOne
    else Report(|trades|, Some(trades[0].timestampMs), Some(trades[|trades| - 1].timestampMs), 0, OkReport)
  }

  ghost predicate NoneLaterThan(trades: seq<AggTrade>, t: int)
  {
    forall x :: x in trades ==> x.timestampMs <= t
  }

  lemma ObservedExtendsSummary(trades: seq<AggTrade>, t: AggTrade)
    requires NoneLaterThan(trades, t.timestampMs)
    ensures Observed(Summary(trades), t.timestampMs) == Summary(trades + [t])
    ensures NoneLaterThan(trades + [t], t.timestampMs)
  {
    if trades != [] {
      assert trades[0] in trades && trades[|trades| - 1] in trades;
    }
  }

  /** One more trade of a page. */
  lemma InRangeStep(page: seq<AggTrade>, i: nat, start: int, end: int)
    requires i < |page|
    ensures InRange(page[..i + 1], start, end) ==
            InRange(page[..i], start, end) + (if Within(page[i], start, end) then [page[i]] else [])
  {
    assert page[..i + 1][..i] == page[..i];
  }

  lemma InRangePrefix(page: seq<AggTrade>, i: nat, start: int, end: int)
    requires i <= |page|
    ensures InRange(page[..i], start, end) <= InRange(page, start, end)
  {
    assert page == page[..i] + page[i..];
    InRangeAppend(page[..i], page[i..], start, end);
  }

  /** Past the end nothing more is in range. */
  lemma InRangeStops(page: seq<AggTrade>, i: nat, k: nat, start: int, end: int)
    requires Ordered(page) && i <= k < |page| && page[i].timestampMs > end
    ensures InRange(page, start, end) == InRange(page[..i], start, end) == InRange(page[..k + 1], start, end)
  {
    assert page == page[..i] + page[i..] && page[..k + 1] == page[..i] + page[i..k + 1];
    InRangeAppend(page[..i], page[i..], start, end);
    InRangeAppend(page[..i], page[i..k + 1], start, end);
    NothingLeft(page[i..], start, end);
    NothingLeft(page[i..k + 1], start, end);
  }

  datatype Failure = FetchFailed | AppendFailed | CursorDidNotAdvance

  datatype Result = Done | Failed(failure: Failure)

  /**
   One symbol's backfill against a sink. `fetchOk` and `appendOk` say whether
   the n-th fetch or append of the run succeeds.
   */
  class SymbolBackfill {
    const log: seq<AggTrade>
    const start: int
    const end: int
    const fetchOk: nat -> bool
    const appendOk: nat -> bool
    var fetches: nat
    var appends: nat
    var appended: seq<AggTrade>
    var gapRecords: nat
    var report: Report

    constructor (log: seq<AggTrade>, start: int, end: int, fetchOk: nat -> bool, appendOk: nat -> bool)
      ensures this.log == log && this.start == start && this.end == end
      ensures appended == [] && gapRecords == 0 && report == EmptyOne
    {
      this.log, this.start, this.end, this.fetchOk, this.appendOk := log, start, end, fetchOk, appendOk;
      fetches, appends, appended, gapRecords, report := 0, 0, [], 0, EmptyOne;
    }

    /** Some fetch after the first n failed. */
    ghost predicate FetchFailedSince(n: nat)
      reads this`fetches
    {
      exists k: nat :: n < k <= fetches && !fetchOk(k)
    }

    /** Some append after the first n failed. */
    ghost predicate AppendFailedSince(n: nat)
      reads this`appends
    {
      exists k: nat :: n < k <= appends && !appendOk(k)
    }

    /** A result that is not Done names what failed, and it did fail. */
    twostate predicate Excused(result: Result)
      reads this
    {
      && old(fetches) <= fetches && old(appends) <= appends
      && match result
         case Done => true
         case Failed(FetchFailed) => FetchFailedSince(old(fetches))
         case Failed(AppendFailed) => AppendFailedSince(old(appends))
         case Failed(CursorDidNotAdvance) => false
    }

    method FetchByTime() returns (page: Option<seq<AggTrade>>)
      modifies this`fetches
      ensures fetches == old(fetches) + 1 && (page.Some? <==> fetchOk(fetches))
      ensures page.Some? ==> page.value == FirstPage(InRange(log, start, end))
    {
      fetches := fetches + 1;
      return if fetchOk(fetches) then Some(FirstPage(InRange(log, start, end))) else None;
    }

    method FetchFromId(id: int) returns (page: Option<seq<AggTrade>>)
      modifies this`fetches
      ensures fetches == old(fetches) + 1 && (page.Some? <==> fetchOk(fetches))
      ensures page.Some? ==> page.value == FirstPage(FromId(log, id))
    {
      fetches := fetches + 1;
      return if fetchOk(fetches) then Some(FirstPage(FromId(log, id))) else None;
    }

    method AppendNoTradeGap() returns (ok: bool)
      modifies this`appends, this`gapRecords, this`report
      ensures report == GapNoted(old(report))
      ensures gapRecords == old(gapRecords) + (if ok then 1 else 0)
      ensures appends == old(appends) + 1 && (ok <==> appendOk(appends))
    {
      report := GapNoted(report);
      appends := appends + 1;
      ok := appendOk(appends);
      if ok {
        gapRecords := gapRecords + 1;
      }
    }

    /** Appends a page's trades in range; stops at the first one past the end. */
    method AppendPage(page: seq<AggTrade>) returns (stop: bool, ok: bool)
      requires Ordered(page) && report == Summary(appended)
      requires page != [] ==> NoneLaterThan(appended, page[0].timestampMs)
      modifies this`appends, this`appended, this`report
      ensures report == Summary(appended) && old(appended) <= appended <= old(appended) + InRange(page, start, end)
      ensures ok ==> appended == old(appended) + InRange(page, start, end)
      ensures ok ==> (stop <==> exists i :: 0 <= i < |page| && page[i].timestampMs > end)
      ensures old(appends) <= appends && (ok <==> !AppendFailedSince(old(appends)))
    {
      hide InRange, Summary, Observed;
      assert page[..0] == [];
      assert InRange([], start, end) == [] by {
        InRangeOfInRange([], start, end);
      }
      for i := 0 to |page|
        invariant report == Summary(appended)
        invariant appended == old(appended) + InRange(page[..i], start, end)
        invariant i < |page| ==> NoneLaterThan(appended, page[i].timestampMs)
        invariant forall j :: 0 <= j < i ==> page[j].timestampMs <= end
        invariant old(appends) <= appends && !AppendFailedSince(old(appends))
      {
        InRangePrefix(page, i, start, end);
        if page[i].timestampMs > end {
          InRangeStops(page, i, i, start, end);
          return true, true;
        }
        InRangeStep(page, i, start, end);
        if page[i].timestampMs < start {
          continue;
        }
        appends := appends + 1;
        if !appendOk(appends) {
          return false, false;
        }
        ObservedExtendsSummary(appended, page[i]);
        appended := appended + [page[i]];
        report := Observed(report, page[i].timestampMs);
      }
      assert page[..|page|] == page;
      return false, true;
    }

    /** The cursor stands right after log[p - 1] and everything in range before it is appended. */
    ghost predicate AtPosition(p: nat, nextFromId: int)
      reads this
    {
      && 0 < p <= |log| && nextFromId == log[p - 1].id + 1
      && appended == InRange(log[..p], start, end) && report == Summary(appended)
    }

    lemma AppendedSoFar(p: nat, q: nat)
      requires Ordered(log) && 0 < p < q <= |log|
      ensures InRange(log[..q], start, end) == InRange(log[..p], start, end) + InRange(log[p..q], start, end)
      ensures InRange(log[..q], start, end) <= InRange(log, start, end)
      ensures NoneLaterThan(InRange(log[..p], start, end), log[p].timestampMs)
      ensures Ordered(log[p..q])
    {
      hide InRange;
      assert log[..q] == log[..p] + log[p..q];
      InRangeAppend(log[..p], log[p..q], start, end);
      InRangePrefix(log, q, start, end);
      InRangeMembers(log[..p], start, end);
    }

    method AppendNextPage(page: seq<AggTrade>, ghost p: nat, nextFromId: int) returns (stop: bool, ok: bool)
      requires Ordered(log) && AtPosition(p, nextFromId) && page == FirstPage(log[p..]) && page != []
      modifies this`appends, this`appended, this`report
      ensures old(appended) <= appended <= InRange(log, start, end) && report == Summary(appended)
      ensures old(appends) <= appends && (ok <==> !AppendFailedSince(old(appends)))
      ensures ok ==>
                && AtPosition(p + |page|, page[|page| - 1].id + 1)
                && (stop ==> InRange(log, start, end) == appended)
    {
      hide InRange, Summary, Ordered;
      ghost var q := p + |page|;
      assert page == log[p..q];
      AppendedSoFar(p, q);
      stop, ok := AppendPage(page);
      if ok && stop {
        var i :| 0 <= i < |page| && page[i].timestampMs > end;
        InRangeStops(log, p + i, q - 1, start, end);
      }
    }

    /**
     Exact pagination: the run appends precisely the trades with start <= ts <=
     end, in order, each once; count and bounds match; a gap is noted exactly
     when there is none. A run fails only on a fetch or append that failed, never
     for want of cursor progress, and has then appended a prefix of them.
     */
    method BackfillSymbol() returns (result: Result)
      requires Ordered(log) && appended == [] && gapRecords == 0 && report == EmptyOne
      modifies this
      ensures result.Done? ==>
                && appended == InRange(log, start, end)
                && (forall t :: t in appended <==> t in log && start <= t.timestampMs <= end) && Ordered(appended)
                && report == (if appended == [] then GapNoted(EmptyOne) else Summary(appended))
                && gapRecords == (if appended == [] then 1 else 0)
                && report.recordCount == |appended|
                && report.gapAlerts == (if appended == [] then 1 else 0)
                && report.status == (if appended == [] then EmptyReport else OkReport)
                && report.first == (if appended == [] then None else Some(appended[0].timestampMs))
                && report.last == (if appended == [] then None else Some(appended[|appended| - 1].timestampMs))
      ensures appended <= InRange(log, start, end)
      ensures Excused(result)
      ensures (forall k: nat :: fetchOk(k) && appendOk(k)) ==> result.Done?
    {
      hide InRange, Ordered;
      InRangeMembers(log, start, end);
      InRangeOrdered(log, start, end);
      result := AppendAllPages();
      if result.Done? && report.recordCount == 0 {
        var ok := AppendNoTradeGap();
        return if ok then Done else Failed(AppendFailed);
      }
    }

    /** The page by time and, unless it is empty, the pages by id after it. */
    method AppendAllPages() returns (result: Result)
      requires Ordered(log) && appended == [] && report == EmptyOne
      modifies this`fetches, this`appends, this`appended, this`report
      ensures appended <= InRange(log, start, end) && report == Summary(appended)
      ensures result.Done? ==> appended == InRange(log, start, end)
      ensures Excused(result)
    {
      hide InRange, FromId;
      var fetched := FetchByTime();
      if fetched.None? {
        return Failed(FetchFailed);
      }
      var page := fetched.value;
      if page == [] {
        return Done;
      }
      ghost var p := LocateInRange(log, start, end, |page|);
      result := FirstPageAppended(page, p);
      if result.Done? {
        result := Paginate(page, p);
      }
    }

    /** The pages by id that follow a nonempty first page. */
    method Paginate(firstPage: seq<AggTrade>, ghost p0: nat) returns (result: Result)
      requires Ordered(log) && firstPage != [] && appended == firstPage == FirstPage(InRange(log, start, end))
      requires AtPosition(p0, firstPage[|firstPage| - 1].id + 1)
      modifies this`fetches, this`appends, this`appended, this`report
      ensures appended != [] && appended <= InRange(log, start, end) && report == Summary(appended)
      ensures result.Done? ==> appended == InRange(log, start, end)
      ensures Excused(result)
    {
      hide InRange, FromId, Summary;
      ghost var p := p0;
      var nextFromId := firstPage[|firstPage| - 1].id + 1;
      var stop, full := false, |firstPage| == BINANCE_PAGE_LIMIT;
      while !stop && full
        invariant AtPosition(p, nextFromId)
        invariant stop || !full ==> appended == InRange(log, start, end)
        invariant appended != [] && appended <= InRange(log, start, end)
        invariant old(fetches) <= fetches && old(appends) <= appends
        decreases |log| - p, !stop && full
      {
        FromIdSkips(log, p);
        var fetched := FetchFromId(nextFromId);
        if fetched.None? {
          return Failed(FetchFailed);
        }
        var page := fetched.value;
        if page == [] {
          assert log[..p] == log;
          return Done;
        }
        var ok;
        stop, ok := AppendNextPage(page, p, nextFromId);
        if !ok {
          return Failed(AppendFailed);
        }
        var nextCandidate := page[|page| - 1].id + 1;
        assert page[|page| - 1] == log[p + |page| - 1];
        assert log[p - 1].id < log[p + |page| - 1].id;
        if nextCandidate <= nextFromId {
          return Failed(CursorDidNotAdvance);
        }
        p := p + |page|;
        nextFromId, full := nextCandidate, |page| == BINANCE_PAGE_LIMIT;
        if !full {
          assert log[..p] == log;
        }
      }
      return Done;
    }

    /** The first page holds only trades in range, so appending it never stops early. */
    method FirstPageAppended(page: seq<AggTrade>, ghost p: nat) returns (result: Result)
      requires Ordered(log) && appended == [] && report == EmptyOne
      requires page == FirstPage(InRange(log, start, end)) && page != []
      requires 0 < p <= |log| && log[p - 1] == page[|page| - 1] && InRange(log[..p], start, end) == page
      modifies this`appends, this`appended, this`report
      ensures result.Done? ==> appended == page && AtPosition(p, page[|page| - 1].id + 1)
      ensures Excused(result)
      ensures appended <= InRange(log, start, end) && report == Summary(appended)
    {
      hide InRange, FromId, Ordered;
      PageInRange(log[..p], log, start, end, page);
      var stop, ok := AppendPage(page);
      return if ok then Done else Failed(AppendFailed);
    }
  }

  /** A page that is all the range holds of a prefix of the log. */
  lemma PageInRange(front: seq<AggTrade>, log: seq<AggTrade>, start: int, end: int, page: seq<AggTrade>)
    requires Ordered(log) && front <= log && page == InRange(front, start, end)
    ensures Ordered(page) && InRange(page, start, end) == page
    ensures forall i :: 0 <= i < |page| ==> page[i].timestampMs <= end
  {
    hide InRange;
    InRangeOrdered(front, start, end);
    InRangeMembers(front, start, end);
    assert forall i :: 0 <= i < |page| ==> page[i] in page;
    InRangeOfInRange(page, start, end);
  }

  lemma {:induction false} InRangeOfInRange(log: seq<AggTrade>, start: int, end: int)
    requires forall t :: t in log ==> Within(t, start, end)
    ensures InRange(log, start, end) == log
  {
    if log != [] {
      InRangeOfInRange(log[..|log| - 1], start, end);
      assert log[|log| - 1] in log;
      assert log == log[..|log| - 1] + [log[|log| - 1]];
    }
  }
}
