/**
 Hour partitions of L0 storage: how a writer places a record in one, and how a
 reader lists the ones a time range can touch.
 */
module Partitioning {
  import opened Arithmetic
  import opened Times

  // The days chrono can represent, -262143-01-01 up to and including 262142-12-31.
  const FIRST_DAY := -96_465_293
  const END_DAY := 95_026_237

  /** A UTC date, named by its day number, and an hour of it. */
  datatype HourPart = HourPart(day: int, hour: nat)

  predicate InCalendar(timestampMs: int)
  {
    FIRST_DAY * DAY_MS <= timestampMs < END_DAY * DAY_MS
  }

  /** A timestamp outside the calendar falls back to the epoch. */
  function TimeParts(timestampMs: int): HourPart
  {
    if InCalendar(timestampMs) then HourPart(timestampMs / DAY_MS, timestampMs % DAY_MS / HOUR_MS)
    else HourPart(0, 0)
  }

  /** A timestamp of the calendar lies in the named hour of the named day. */
  lemma TimePartsMeans(ts: int)
    ensures var part := TimeParts(ts);
            && part.hour < 24
            && (InCalendar(ts) ==>
                  part.day * DAY_MS + part.hour * HOUR_MS <= ts < part.day * DAY_MS + part.hour * HOUR_MS + HOUR_MS)
            && (!InCalendar(ts) ==> part == HourPart(0, 0))
  {
    var day, rest := ts / DAY_MS, ts % DAY_MS;
    assert ts == DAY_MS * day + rest && 0 <= rest < DAY_MS;
    assert rest == HOUR_MS * (rest / HOUR_MS) + rest % HOUR_MS;
  }

  function FloorHour(value: int): int { value / HOUR_MS * HOUR_MS }

  function HoursFrom(current: int, end: int): seq<HourPart>
    decreases end - current
  {
    if current >= end then [] else [TimeParts(current)] + HoursFrom(current + HOUR_MS, end)
  }

  /** The hours of [start, end), beginning with the hour start falls in. */
  function Hours(start: int, end: int): seq<HourPart> { HoursFrom(FloorHour(start), end) }

  method HourlyParts(start: int, end: int) returns (parts: seq<HourPart>)
    requires IsTime(start) && IsTime(end) && I64_MIN <= FloorHour(start)
    ensures parts == Hours(start, end)
  {
    parts := [];
    var current := FloorHour(start);
    while current < end
      invariant I64_MIN <= current
      invariant Hours(start, end) == parts + HoursFrom(current, end)
      decreases end - current
    {
      assert HoursFrom(current, end) == [TimeParts(current)] + HoursFrom(current + HOUR_MS, end);
      assert current + HOUR_MS > I64_MAX ==> HoursFrom(current + HOUR_MS, end) == [] == HoursFrom(I64_MAX, end);
      parts := parts + [TimeParts(current)];
      current := Saturate(current + HOUR_MS);
    }
  }

  /** A timestamp and the start of its hour fall in the same partition. */
  lemma SameHourSamePart(ts: int)
    ensures FloorHour(ts) <= ts < FloorHour(ts) + HOUR_MS
    ensures TimeParts(FloorHour(ts)) == TimeParts(ts)
  {
    var day, hour, rest := ts / DAY_MS, ts % DAY_MS / HOUR_MS, ts % DAY_MS % HOUR_MS;
    assert ts == DAY_MS * day + HOUR_MS * hour + rest;
    DivUnique(ts, HOUR_MS, 24 * day + hour, rest);
    DivUnique(FloorHour(ts), DAY_MS, day, HOUR_MS * hour);
    DivUnique(HOUR_MS * hour, HOUR_MS, hour, 0);
  }

  lemma {:induction false} HourListed(current: int, end: int, hourStart: int)
    requires current % HOUR_MS == 0 && hourStart % HOUR_MS == 0 && current <= hourStart < end
    ensures TimeParts(hourStart) in HoursFrom(current, end)
    decreases end - current
  {
    if current < hourStart {
      HourListed(current + HOUR_MS, end, hourStart);
    }
  }

  /** Pruning loses nothing: the partition of every record in the range is listed. */
  lemma PruningLosesNothing(start: int, end: int, ts: int)
    requires start <= ts < end
    ensures TimeParts(ts) in Hours(start, end)
  {
    SameHourSamePart(ts);
    HourListed(FloorHour(start), end, FloorHour(ts));
  }

  lemma {:induction false} HoursFromAt(current: int, end: int, k: nat)
    requires k < |HoursFrom(current, end)|
    ensures Boundary(current, HOUR_MS, k) < end
    ensures HoursFrom(current, end)[k] == TimeParts(Boundary(current, HOUR_MS, k))
    decreases k
  {
    if k > 0 {
      HoursFromAt(current + HOUR_MS, end, k - 1);
      BoundaryShift(current, HOUR_MS, k - 1);
    }
  }

  /** Nothing idle is listed: every listed hour is the partition of some instant of the (nonempty) range. */
  lemma ListedHoursMeetRange(start: int, end: int, part: HourPart)
    requires start < end && part in Hours(start, end)
    ensures exists ts :: start <= ts < end && TimeParts(ts) == part
  {
    var k: nat :| k < |Hours(start, end)| && Hours(start, end)[k] == part;
    HoursFromAt(FloorHour(start), end, k);
    SameHourSamePart(start);
    if k == 0 {
      assert TimeParts(start) == part;
    } else {
      BoundaryGrows(FloorHour(start), HOUR_MS, 0, k);
      assert TimeParts(Boundary(FloorHour(start), HOUR_MS, k)) == part;
    }
  }

  lemma DistinctHours(a: int, b: int)
    requires InCalendar(a) && InCalendar(b) && a % HOUR_MS == 0 && b % HOUR_MS == 0 && a != b
    ensures TimeParts(a) != TimeParts(b)
  {
    assert a == DAY_MS * (a / DAY_MS) + a % DAY_MS && b == DAY_MS * (b / DAY_MS) + b % DAY_MS;
    assert (a % DAY_MS) % HOUR_MS == 0 && (b % DAY_MS) % HOUR_MS == 0;
  }

  /** Within the calendar no hour is listed twice. */
  lemma NoHourTwice(start: int, end: int, j: nat, k: nat)
    requires InCalendar(start) && InCalendar(end - 1)
    requires j < k < |Hours(start, end)|
    ensures Hours(start, end)[j] != Hours(start, end)[k]
  {
    hide TimeParts, HoursFrom;
    var floor := FloorHour(start);
    HoursFromAt(floor, end, j);
    HoursFromAt(floor, end, k);
    BoundaryGrows(floor, HOUR_MS, j, k);
    if j > 0 {
      BoundaryGrows(floor, HOUR_MS, 0, j);
    }
    SameHourSamePart(start);
    HourBoundary(start, end, j);
    HourBoundary(start, end, k);
    DistinctHours(Boundary(floor, HOUR_MS, j), Boundary(floor, HOUR_MS, k));
  }

  lemma HourBoundary(start: int, end: int, k: nat)
    requires InCalendar(start) && InCalendar(end - 1) && Boundary(FloorHour(start), HOUR_MS, k) < end
    ensures var b := Boundary(FloorHour(start), HOUR_MS, k); InCalendar(b) && b % HOUR_MS == 0
  {
    hide FloorHour;
    FloorInCalendar(start);
    BoundaryMod(FloorHour(start), HOUR_MS, k);
    if k > 0 {
      BoundaryGrows(FloorHour(start), HOUR_MS, 0, k);
    }
  }

  lemma FloorInCalendar(ts: int)
    requires InCalendar(ts)
    ensures InCalendar(FloorHour(ts)) && FloorHour(ts) % HOUR_MS == 0
  {
    var first := FIRST_DAY * DAY_MS;
    MultipleMod(ts / HOUR_MS, HOUR_MS);
    SameHourSamePart(ts);
    if FloorHour(ts) < first {
      MultiplesApart(FloorHour(ts), first, HOUR_MS);
    }
  }

  // -------------------------------------------------------------- partitions

  /** A record to be stored, by family; the fields are those its partition depends on. */
  datatype Draft =
    | RawMarketEvent(venue: string, eventType: string, symbol: string, timestampMs: int)
    | SourceHealth(venue: string, timestampMs: int)
    | SymbolHealth(venue: string, symbol: string, timestampMs: int)
    | GapAlert(venue: string, gapType: string, symbol: string, timestampMs: int)

  datatype Partition =
    | RawPartition(venue: string, eventType: string, part: HourPart, shard: nat)
    | HealthPartition(venue: string, part: HourPart, shard: nat)
    | SymbolHealthPartition(venue: string, part: HourPart, shard: nat)
    | GapPartition(venue: string, gapType: string, part: HourPart, shard: nat)

  /** `hash` stands for the standard library's hasher. */
  function PartitionFor(draft: Draft, hash: string -> nat, shardCount: nat): Partition
    requires shardCount > 0
  {
    match draft
    case RawMarketEvent(venue, eventType, symbol, ts) =>
      RawPartition(venue, eventType, TimeParts(ts), hash(symbol) % shardCount)
    case SourceHealth(venue, ts) => HealthPartition(venue, TimeParts(ts), hash(venue) % shardCount)
    case SymbolHealth(venue, symbol, ts) => SymbolHealthPartition(venue, TimeParts(ts), hash(symbol) % shardCount)
    case GapAlert(venue, gapType, symbol, ts) => GapPartition(venue, gapType, TimeParts(ts), hash(symbol) % shardCount)
  }

  /** Each draft goes to its own family, names and hour, sharded by its symbol, or by its venue for source health. */
  lemma PartitionMeans(draft: Draft, hash: string -> nat, shardCount: nat)
    requires shardCount > 0
    ensures var p := PartitionFor(draft, hash, shardCount);
            && p.venue == draft.venue && p.part == TimeParts(draft.timestampMs) && p.shard < shardCount
            && (draft.RawMarketEvent? ==> p.RawPartition? && p.eventType == draft.eventType)
            && (draft.SourceHealth? ==> p.HealthPartition? && p.shard == hash(draft.venue) % shardCount)
            && (draft.SymbolHealth? ==> p.SymbolHealthPartition?)
            && (draft.GapAlert? ==> p.GapPartition? && p.gapType == draft.gapType)
            && (!draft.SourceHealth? ==> p.shard == hash(draft.symbol) % shardCount)
  {
  }
}
