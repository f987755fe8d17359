/**
 Derivative feature deltas: each observation is compared with the one known 15
 minutes and one hour earlier. Observations arrive in any order.
 */
module AsOf {
  import opened Wrappers
  import opened StableSort
  import opened Times

  const FIFTEEN_MINUTES_MS: int := 900_000
  const ONE_HOUR_MS := HOUR_MS
  const EPSILON: real := 1.0 / 4_503_599_627_370_496.0

  datatype Value = Finite(amount: real) | NonFinite

  datatype MetricKey = MetricKey(venue: string, native: string, canonical: string, market: string, metric: string)

  datatype Observation = Observation(key: MetricKey, value: Value, at: int, ingested: int)

  datatype Delta = Delta(
    key: MetricKey, now: Value, ago15m: Option<real>, ago1h: Option<real>,
    change15m: Option<real>, change1h: Option<real>,
    windowStart: int, windowEnd: int, knownAsOf: int,
    quality: string, missingReasons: seq<string>)

  // ------------------------------------------------------------------- order

  function TimeKey(m: Observation): seq<int> { [m.at] }

  /** Keys compare field by field; a terminator below every code point makes that one lexicographic order. */
  function KeyCodes(k: MetricKey): seq<int>
  {
    Codes(k.venue) + ([-1] + (Codes(k.native) + ([-1] + (Codes(k.canonical) + ([-1]
    + (Codes(k.market) + ([-1] + (Codes(k.metric) + [-1]))))))))
  }

  function GroupedKey(m: Observation): seq<int> { KeyCodes(m.key) + [m.at] }

  predicate IsPrefix(p: seq<int>, q: seq<int>) { |p| <= |q| && q[..|p|] == p }

  lemma {:induction false} PeelText(s: string, t: string, x: seq<int>, y: seq<int>)
    requires IsPrefix(Codes(s) + ([-1] + x), Codes(t) + ([-1] + y))
    ensures s == t && IsPrefix(x, y)
  {
    var p, q := Codes(s) + ([-1] + x), Codes(t) + ([-1] + y);
    assert forall i :: 0 <= i < |p| ==> p[i] == q[i];
    assert p[|s|] == -1 && (|t| < |p| ==> p[|t|] == q[|t|] == -1);
    assert forall i :: 0 <= i < |s| ==> p[i] == Codes(s)[i] >= 0;
    assert forall i :: 0 <= i < |t| ==> q[i] == Codes(t)[i] >= 0;
    assert p[..|s|] == Codes(s) && q[..|s|] == Codes(t);
    CodesInjective(s, t);
    assert forall i :: 0 <= i < |x| ==> x[i] == p[|s| + 1 + i] == q[|s| + 1 + i] == y[i];
  }

  lemma KeyCodesPrefixFree(k: MetricKey, l: MetricKey)
    requires IsPrefix(KeyCodes(k), KeyCodes(l))
    ensures k == l
  {
    hide Codes, IsPrefix;
    var k5, l5 := Codes(k.metric) + [-1], Codes(l.metric) + [-1];
    var k4, l4 := Codes(k.market) + ([-1] + k5), Codes(l.market) + ([-1] + l5);
    var k3, l3 := Codes(k.canonical) + ([-1] + k4), Codes(l.canonical) + ([-1] + l4);
    var k2, l2 := Codes(k.native) + ([-1] + k3), Codes(l.native) + ([-1] + l3);
    PeelText(k.venue, l.venue, k2, l2);
    PeelText(k.native, l.native, k3, l3);
    PeelText(k.canonical, l.canonical, k4, l4);
    PeelText(k.market, l.market, k5, l5);
    assert k5 == Codes(k.metric) + ([-1] + []) && l5 == Codes(l.metric) + ([-1] + []);
    PeelText(k.metric, l.metric, [], []);
  }

  lemma {:induction false} LexExtend(p: seq<int>, q: seq<int>, x: seq<int>, y: seq<int>)
    requires LexLeq(p, q) && !IsPrefix(p, q)
    ensures LexLeq(p + x, q + y)
    decreases |p|
  {
    assert p != [] && q != [];
    assert (p + x)[1..] == p[1..] + x && (q + y)[1..] == q[1..] + y;
    if p[0] == q[0] {
      assert p == [p[0]] + p[1..] && q == [q[0]] + q[1..];
      LexExtend(p[1..], q[1..], x, y);
    }
  }

  lemma {:induction false} LexCommonPrefix(p: seq<int>, x: seq<int>, y: seq<int>)
    ensures LexLeq(p + x, p + y) <==> LexLeq(x, y)
    decreases |p|
  {
    if p == [] {
      assert p + x == x && p + y == y;
    } else {
      LexCommonPrefix(p[1..], x, y);
      assert (p + x)[1..] == p[1..] + x && (p + y)[1..] == p[1..] + y;
    }
  }

  lemma {:induction false} TerminatedOrder(p: seq<int>, q: seq<int>, x: seq<int>, y: seq<int>)
    requires p != q && (forall i :: 0 <= i < |p| ==> p[i] >= 0) && (forall i :: 0 <= i < |q| ==> q[i] >= 0)
    ensures LexLeq(p + ([-1] + x), q + ([-1] + y)) <==> LexLeq(p, q)
    decreases |p|
  {
    var a, b := p + ([-1] + x), q + ([-1] + y);
    assert a[0] == (if p == [] then -1 else p[0]) && b[0] == (if q == [] then -1 else q[0]);
    if p != [] && q != [] && p[0] == q[0] {
      assert a[1..] == p[1..] + ([-1] + x) && b[1..] == q[1..] + ([-1] + y);
      assert p == [p[0]] + p[1..] && q == [q[0]] + q[1..];
      TerminatedOrder(p[1..], q[1..], x, y);
    }
  }

  lemma FieldOrder(s: string, t: string, x: seq<int>, y: seq<int>)
    ensures LexLeq(Codes(s) + ([-1] + x), Codes(t) + ([-1] + y)) <==>
            if s == t then LexLeq(x, y) else LexLeq(Codes(s), Codes(t))
  {
    if s == t {
      LexCommonPrefix(Codes(s), [-1] + x, [-1] + y);
      LexCommonPrefix([-1], x, y);
    } else {
      if Codes(s) == Codes(t) {
        CodesInjective(s, t);
      }
      TerminatedOrder(Codes(s), Codes(t), x, y);
    }
  }

  /** Groups come in the order of venue, then native and canonical symbol, then market, then metric; rows by time. */
  lemma RowsOrder(a: Observation, b: Observation)
    ensures var k, l := a.key, b.key;
            LexLeq(GroupedKey(a), GroupedKey(b)) <==>
            if k.venue != l.venue then LexLeq(Codes(k.venue), Codes(l.venue))
            else if k.native != l.native then LexLeq(Codes(k.native), Codes(l.native))
            else if k.canonical != l.canonical then LexLeq(Codes(k.canonical), Codes(l.canonical))
            else if k.market != l.market then LexLeq(Codes(k.market), Codes(l.market))
            else if k.metric != l.metric then LexLeq(Codes(k.metric), Codes(l.metric))
            else a.at <= b.at
  {
    hide Codes;
    var k, l := a.key, b.key;
    var k5, l5 := Codes(k.metric) + ([-1] + [a.at]), Codes(l.metric) + ([-1] + [b.at]);
    var k4, l4 := Codes(k.market) + ([-1] + k5), Codes(l.market) + ([-1] + l5);
    var k3, l3 := Codes(k.canonical) + ([-1] + k4), Codes(l.canonical) + ([-1] + l4);
    var k2, l2 := Codes(k.native) + ([-1] + k3), Codes(l.native) + ([-1] + l3);
    assert GroupedKey(a) == Codes(k.venue) + ([-1] + k2) && GroupedKey(b) == Codes(l.venue) + ([-1] + l2);
    FieldOrder(k.venue, l.venue, k2, l2);
    FieldOrder(k.native, l.native, k3, l3);
    FieldOrder(k.canonical, l.canonical, k4, l4);
    FieldOrder(k.market, l.market, k5, l5);
    FieldOrder(k.metric, l.metric, [a.at], [b.at]);
    assert LexLeq([a.at], [b.at]) <==> a.at <= b.at;
  }

  lemma GroupedKeyNamesKey(a: Observation, b: Observation)
    requires GroupedKey(a) == GroupedKey(b)
    ensures a.key == b.key
  {
    hide KeyCodes;
    var p, q := KeyCodes(a.key), KeyCodes(b.key);
    assert |p| == |GroupedKey(a)| - 1 == |q|;
    assert GroupedKey(a)[..|p|] == p && GroupedKey(b)[..|q|] == q;
    assert q[..|p|] == q;
    KeyCodesPrefixFree(a.key, b.key);
  }

  // ------------------------------------------------------------------ lookup

  function SameKey(k: MetricKey): Observation -> bool { (m: Observation) => m.key == k }
  function NotAfter(t: int): Observation -> bool { (m: Observation) => m.at <= t }
  function NotBefore(t: int): Observation -> bool { (m: Observation) => m.at >= t }

  /** The code's search: the first match when reading sorted rows backwards. */
  function FindFromEnd(rows: seq<Observation>, target: int): Option<Observation>
  {
    if rows == [] then None
    else if rows[|rows| - 1].at <= target then Some(rows[|rows| - 1])
    else FindFromEnd(rows[..|rows| - 1], target)
  }

  function FiniteOf(m: Option<Observation>): Option<real>
  {
    if m.Some? && m.value.value.Finite? then Some(m.value.value.amount) else None
  }

  function ValueAtOrBefore(rows: seq<Observation>, target: int): Option<real>
  {
    FiniteOf(FindFromEnd(rows, target))
  }

  /** Observation i is the one in force for key k at the target time; of equal times the later arrival is. */
  ghost predicate InForce(ms: seq<Observation>, k: MetricKey, target: int, i: nat)
  {
    && i < |ms| && ms[i].key == k && ms[i].at <= target
    && forall j :: 0 <= j < |ms| && ms[j].key == k && ms[j].at <= target ==>
         ms[j].at < ms[i].at || (ms[j].at == ms[i].at && j <= i)
  }

  /** The observation in force, in one pass over the arrivals. */
  function AsOf(ms: seq<Observation>, k: MetricKey, target: int): Option<Observation>
  {
    if ms == [] then None
    else
      var before, x := AsOf(ms[..|ms| - 1], k, target), ms[|ms| - 1];
      if x.key == k && x.at <= target && (before.None? || before.value.at <= x.at) then Some(x) else before
  }

  /** The lookup exists exactly when some same-key observation is early enough, and it is the one in force. */
  lemma {:induction false} AsOfIsInForce(ms: seq<Observation>, k: MetricKey, target: int)
    ensures AsOf(ms, k, target).None? <==> forall m :: m in ms && m.key == k ==> m.at > target
    ensures AsOf(ms, k, target).Some? ==>
              exists i: nat :: InForce(ms, k, target, i) && ms[i] == AsOf(ms, k, target).value
  {
    if ms != [] {
      var n := |ms| - 1;
      var front, x := ms[..n], ms[n];
      assert ms == front + [x];
      AsOfIsInForce(front, k, target);
      var before := AsOf(front, k, target);
      if x.key == k && x.at <= target && (before.None? || before.value.at <= x.at) {
        assert InForce(ms, k, target, n);
      } else if before.Some? {
        var i: nat :| InForce(front, k, target, i) && front[i] == before.value;
        assert InForce(ms, k, target, i);
      }
    }
  }

  lemma {:induction false} FindAfterInsert(rows: seq<Observation>, x: Observation, target: int)
    requires Sorted(TimeKey, rows)
    ensures var before := FindFromEnd(rows, target);
            FindFromEnd(Insert(TimeKey, rows, x), target)
            == if x.at <= target && (before.None? || before.value.at <= x.at) then Some(x) else before
  {
    if rows != [] {
      var n := |rows| - 1;
      var front, last := rows[..n], rows[n];
      LexSingle(last.at, x.at);
      if last.at <= x.at {
        FindIsBounded(rows, target);
        assert (rows + [x])[..|rows|] == rows;
      } else {
        FindAfterInsert(front, x, target);
        var ins := Insert(TimeKey, front, x);
        assert (ins + [last])[..|ins|] == ins;
      }
    }
  }

  lemma LexSingle(a: int, b: int)
    ensures LexLeq([a], [b]) <==> a <= b
  {
  }

  lemma {:induction false} FindIsBounded(rows: seq<Observation>, target: int)
    requires Sorted(TimeKey, rows) && rows != []
    ensures var found := FindFromEnd(rows, target);
            found.Some? ==> found.value.at <= target && found.value.at <= rows[|rows| - 1].at
  {
    var n := |rows| - 1;
    if rows[n].at > target && n > 0 {
      FindIsBounded(rows[..n], target);
      assert LexLeq(TimeKey(rows[n - 1]), TimeKey(rows[n]));
      LexSingle(rows[n - 1].at, rows[n].at);
    }
  }

  /** Searching the sorted group backwards finds the observation in force. */
  lemma {:induction false} LookupIsAsOf(ms: seq<Observation>, k: MetricKey, target: int)
    ensures FindFromEnd(Sort(TimeKey, Filter(SameKey(k), ms)), target) == AsOf(ms, k, target)
  {
    if ms != [] {
      var front, x := ms[..|ms| - 1], ms[|ms| - 1];
      assert ms == front + [x];
      LookupIsAsOf(front, k, target);
      FilterSnoc(SameKey(k), front, x);
      var group := Filter(SameKey(k), front);
      SortSnoc(TimeKey, group, x);
      SortSorts(TimeKey, group);
      FindAfterInsert(Sort(TimeKey, group), x, target);
      assert group + [] == group;
    }
  }

  /** Observations after T do not enter a lookup at or before T. */
  lemma {:induction false} AsOfIgnoresLater(ms: seq<Observation>, k: MetricKey, target: int, t: int)
    requires target <= t
    ensures AsOf(Filter(NotAfter(t), ms), k, target) == AsOf(ms, k, target)
  {
    if ms != [] {
      var front, x := ms[..|ms| - 1], ms[|ms| - 1];
      AsOfIgnoresLater(front, k, target, t);
      var early := Filter(NotAfter(t), front);
      assert (early + [x])[..|early|] == early;
      assert early + [] == early;
    }
  }

  // ------------------------------------------------------------------ deltas

  function Abs(x: real): real { if x < 0.0 then -x else x }

  function PercentChange(now: Value, previous: Option<real>): Option<real>
  {
    if previous.None? || now.NonFinite? || Abs(previous.value) <= EPSILON then None
    else
      assert previous.value != 0.0;
      Some((now.amount - previous.value) / previous.value * 100.0)
  }

  function FeatureDelta(row: Observation, ago15m: Option<real>, ago1h: Option<real>): Delta
  {
    var change15m, change1h := PercentChange(row.value, ago15m), PercentChange(row.value, ago1h);
    var missing := (if ago15m.None? then ["value_15m_ago_missing"] else [])
                   + (if ago1h.None? then ["value_1h_ago_missing"] else []);
    var quality := if missing == [] then "complete"
                   else if change15m.Some? || change1h.Some? then "partial"
                   else "insufficient";
    Delta(row.key, row.value, ago15m, ago1h, change15m, change1h,
          row.at, Saturate(row.at + 1_000), row.ingested, quality, missing)
  }

  /**
   A change is given exactly for a finite value against a previous one away from
   zero, and undoing it gives the value.
   */
  lemma PercentChangeInverts(now: Value, previous: Option<real>)
    ensures var change := PercentChange(now, previous);
            && (change.Some? <==> now.Finite? && previous.Some? && Abs(previous.value) > EPSILON)
            && (change.Some? ==> previous.value * (1.0 + change.value / 100.0) == now.amount)
  {
    if now.Finite? && previous.Some? && Abs(previous.value) > EPSILON {
      var p := previous.value;
      assert p != 0.0;
      var ratio := (now.amount - p) / p;
      assert ratio * p == now.amount - p;
      assert ratio * 100.0 / 100.0 == ratio;
    }
  }

  /** "complete" means both earlier values exist; "insufficient" means no change could be given and one is missing. */
  lemma QualityMeans(row: Observation, ago15m: Option<real>, ago1h: Option<real>)
    ensures var d := FeatureDelta(row, ago15m, ago1h);
            && (d.quality == "complete" <==> ago15m.Some? && ago1h.Some?)
            && (d.quality == "insufficient" <==>
                  !(ago15m.Some? && ago1h.Some?) && d.change15m.None? && d.change1h.None?)
            && ("value_15m_ago_missing" in d.missingReasons <==> ago15m.None?)
            && ("value_1h_ago_missing" in d.missingReasons <==> ago1h.None?)
  {
    hide PercentChange;
    assert "value_15m_ago_missing"[7] != "value_1h_ago_missing"[7];
  }

  /** One observation against what was in force before it, among all arrivals. */
  function DeltaOf(ms: seq<Observation>, row: Observation): Delta
  {
    FeatureDelta(row,
                 FiniteOf(AsOf(ms, row.key, row.at - FIFTEEN_MINUTES_MS)),
                 FiniteOf(AsOf(ms, row.key, row.at - ONE_HOUR_MS)))
  }

  function DeltasFor(ms: seq<Observation>, rows: seq<Observation>): seq<Delta>
  {
    if rows == [] then [] else DeltasFor(ms, rows[..|rows| - 1]) + [DeltaOf(ms, rows[|rows| - 1])]
  }

  /** One delta for each observation from the start of the range on, by key and then by time. */
  function Deltas(start: int, ms: seq<Observation>): seq<Delta>
  {
    DeltasFor(ms, Filter(NotBefore(start), Sort(GroupedKey, ms)))
  }

  /** The value is the finite value of the observation in force for the key at that time. */
  ghost predicate InForceValue(ms: seq<Observation>, k: MetricKey, target: int, value: Option<real>)
  {
    && (value.Some? ==> exists i: nat :: InForce(ms, k, target, i) && ms[i].value == Finite(value.value))
    && (value.None? ==> forall i: nat :: InForce(ms, k, target, i) ==> ms[i].value == NonFinite)
  }

  lemma InForceIsAsOf(ms: seq<Observation>, k: MetricKey, target: int)
    ensures InForceValue(ms, k, target, FiniteOf(AsOf(ms, k, target)))
  {
    hide AsOf;
    AsOfIsInForce(ms, k, target);
    var found := AsOf(ms, k, target);
    forall i: nat | InForce(ms, k, target, i)
      ensures found.Some? && ms[i] == found.value
    {
      assert ms[i] in ms;
      var j: nat :| InForce(ms, k, target, j) && ms[j] == found.value;
      assert i == j;
    }
  }

  /**
   What a delta says of its observation, outright: its own fields, the finite
   values in force a quarter of an hour and an hour before, the change against
   each, and a window of one second.
   */
  lemma DeltaMeans(ms: seq<Observation>, row: Observation)
    ensures var d := DeltaOf(ms, row);
            && d.key == row.key && d.now == row.value && d.windowStart == row.at && d.knownAsOf == row.ingested
            && (row.at + 1_000 <= I64_MAX && I64_MIN <= row.at ==> d.windowEnd == row.at + 1_000)
            && InForceValue(ms, row.key, d.windowStart - 900_000, d.ago15m)
            && InForceValue(ms, row.key, d.windowStart - 3_600_000, d.ago1h)
            && ChangeOf(d.now, d.ago15m, d.change15m) && ChangeOf(d.now, d.ago1h, d.change1h)
  {
    hide AsOf, InForceValue, PercentChange, FiniteOf;
    InForceIsAsOf(ms, row.key, row.at - 900_000);
    InForceIsAsOf(ms, row.key, row.at - 3_600_000);
    var d := DeltaOf(ms, row);
    PercentChangeInverts(d.now, d.ago15m);
    PercentChangeInverts(d.now, d.ago1h);
  }

  /** The change is given exactly for finite values away from zero, and takes the earlier value to the later. */
  predicate ChangeOf(now: Value, ago: Option<real>, change: Option<real>)
  {
    var epsilon := 1.0 / 4_503_599_627_370_496.0;
    && (change.Some? <==> now.Finite? && ago.Some? && (ago.value > epsilon || ago.value < -epsilon))
    && (change.Some? ==> ago.value * (1.0 + change.value / 100.0) == now.amount)
  }

  lemma {:induction false} DeltasForShape(ms: seq<Observation>, rows: seq<Observation>)
    ensures |DeltasFor(ms, rows)| == |rows|
    ensures forall i :: 0 <= i < |rows| ==> DeltasFor(ms, rows)[i] == DeltaOf(ms, rows[i])
  {
    hide DeltaOf;
    if rows != [] {
      DeltasForShape(ms, rows[..|rows| - 1]);
    }
  }

  /** Every observation of the range yields its one delta, and nothing else does. */
  lemma OneDeltaEach(start: int, ms: seq<Observation>)
    ensures exists rows :: (forall m: Observation ::
                              multiset(rows)[m] == if m.at >= start then multiset(ms)[m] else 0)
                           && Sorted(GroupedKey, rows) && |Deltas(start, ms)| == |rows|
                           && forall i :: 0 <= i < |rows| ==> Deltas(start, ms)[i] == DeltaOf(ms, rows[i])
  {
    hide DeltaOf, Sorted, GroupedKey;
    var rows := Sort(GroupedKey, Filter(NotBefore(start), ms));
    SortCommutesWithFilter(GroupedKey, NotBefore(start), ms);
    SortSorts(GroupedKey, Filter(NotBefore(start), ms));
    DeltasForShape(ms, rows);
    forall m: Observation
      ensures multiset(rows)[m] == if m.at >= start then multiset(ms)[m] else 0
    {
      RangeCounts(start, ms, m);
    }
  }

  lemma {:induction false} RangeCounts(start: int, ms: seq<Observation>, m: Observation)
    ensures multiset(Filter(NotBefore(start), ms))[m] == if m.at >= start then multiset(ms)[m] else 0
  {
    if ms != [] {
      var front, x := ms[..|ms| - 1], ms[|ms| - 1];
      assert ms == front + [x];
      RangeCounts(start, front, m);
    }
  }

  // -------------------------------------------------------------- no look-ahead

  lemma {:induction false} FiltersCommute<T>(p: T -> bool, q: T -> bool, xs: seq<T>)
    ensures Filter(p, Filter(q, xs)) == Filter(q, Filter(p, xs))
  {
    if xs != [] {
      var front, x := xs[..|xs| - 1], xs[|xs| - 1];
      FiltersCommute(p, q, front);
      var a, b := Filter(p, front), Filter(q, front);
      FilterSnoc(p, b, x);
      FilterSnoc(q, a, x);
      assert a + [] == a && b + [] == b;
    }
  }

  function StartsBy(t: int): Delta -> bool { (d: Delta) => d.windowStart <= t }

  lemma DeltaIsSettled(ms: seq<Observation>, x: Observation, t: int)
    ensures DeltaOf(ms, x).windowStart == x.at
    ensures x.at <= t ==> DeltaOf(Filter(NotAfter(t), ms), x) == DeltaOf(ms, x)
  {
    hide AsOf, Filter, FiniteOf, PercentChange;
    if x.at <= t {
      AsOfIgnoresLater(ms, x.key, x.at - FIFTEEN_MINUTES_MS, t);
      AsOfIgnoresLater(ms, x.key, x.at - ONE_HOUR_MS, t);
    }
  }

  lemma DeltasSnoc(ms: seq<Observation>, rows: seq<Observation>, x: Observation)
    ensures DeltasFor(ms, rows + [x]) == DeltasFor(ms, rows) + [DeltaOf(ms, x)]
  {
    hide DeltaOf;
    assert (rows + [x])[..|rows|] == rows;
  }

  lemma {:induction false} DeltasCommute(ms: seq<Observation>, rows: seq<Observation>, t: int)
    ensures Filter(StartsBy(t), DeltasFor(ms, rows)) == DeltasFor(Filter(NotAfter(t), ms), Filter(NotAfter(t), rows))
  {
    hide DeltaOf;
    if rows != [] {
      var front, x := rows[..|rows| - 1], rows[|rows| - 1];
      assert rows == front + [x];
      DeltasCommute(ms, front, t);
      DeltaIsSettled(ms, x, t);
      FilterSnoc(StartsBy(t), DeltasFor(ms, front), DeltaOf(ms, x));
      FilterSnoc(NotAfter(t), front, x);
      var early := Filter(NotAfter(t), front);
      DeltasSnoc(Filter(NotAfter(t), ms), early, x);
      assert early + [] == early;
    }
  }

  /** The deltas up to T are exactly the deltas of the observations up to T. */
  lemma PastIsSettled(start: int, t: int, ms: seq<Observation>)
    ensures Filter(StartsBy(t), Deltas(start, ms)) == Deltas(start, Filter(NotAfter(t), ms))
  {
    hide Sort, Filter, DeltasFor, GroupedKey;
    var sorted := Sort(GroupedKey, ms);
    DeltasCommute(ms, Filter(NotBefore(start), sorted), t);
    FiltersCommute(NotAfter(t), NotBefore(start), sorted);
    SortCommutesWithFilter(GroupedKey, NotAfter(t), ms);
  }

  /** Whatever arrives with a later exchange time, wherever it arrives, leaves every delta up to T as it was. */
  lemma NoLookAhead(start: int, t: int, ms: seq<Observation>, more: seq<Observation>)
    requires Filter(NotAfter(t), more) == Filter(NotAfter(t), ms)
    ensures Filter(StartsBy(t), Deltas(start, more)) == Filter(StartsBy(t), Deltas(start, ms))
  {
    PastIsSettled(start, t, ms);
    PastIsSettled(start, t, more);
  }

  // ------------------------------------------------------------- known-as-of time

  lemma {:induction false} AsOfMembers(ms: seq<Observation>, k: MetricKey, target: int)
    ensures var m := AsOf(ms, k, target); m.Some? ==> m.value in ms && m.value.key == k && m.value.at <= target
  {
    if ms != [] {
      AsOfMembers(ms[..|ms| - 1], k, target);
    }
  }

  /** Whatever a delta was compared with had been ingested by the time the delta says it is known as of. */
  predicate ComparesWithKnown(ms: seq<Observation>, row: Observation)
  {
    var m15, m60 := AsOf(ms, row.key, row.at - FIFTEEN_MINUTES_MS), AsOf(ms, row.key, row.at - ONE_HOUR_MS);
    && (m15.Some? ==> m15.value.ingested <= DeltaOf(ms, row).knownAsOf)
    && (m60.Some? ==> m60.value.ingested <= DeltaOf(ms, row).knownAsOf)
  }

  ghost predicate KnownAsOfHolds(pool: seq<Observation>)
  {
    forall ms, row :: (forall m :: m in ms ==> m in pool) && row in ms ==> ComparesWithKnown(ms, row)
  }

  /**
   `knownAsOf` is the row's own ingest time. It bounds everything a delta uses,
   for every selection of arrivals from a pool, exactly when no observation a
   quarter of an hour older than another of its key was ingested after it.
   */
  lemma KnownAsOfHoldsIff(pool: seq<Observation>)
    ensures KnownAsOfHolds(pool) <==>
            forall a, b :: a in pool && b in pool && a.key == b.key && a.at + FIFTEEN_MINUTES_MS <= b.at ==>
              a.ingested <= b.ingested
  {
    hide AsOf, PercentChange;
    forall ms: seq<Observation>, row | (forall m :: m in ms ==> m in pool) && row in ms
      ensures (forall a, b :: a in pool && b in pool && a.key == b.key && a.at + FIFTEEN_MINUTES_MS <= b.at ==>
                 a.ingested <= b.ingested) ==> ComparesWithKnown(ms, row)
    {
      AsOfMembers(ms, row.key, row.at - FIFTEEN_MINUTES_MS);
      AsOfMembers(ms, row.key, row.at - ONE_HOUR_MS);
    }
    forall a, b | a in pool && b in pool && a.key == b.key && a.at + FIFTEEN_MINUTES_MS <= b.at
      ensures KnownAsOfHolds(pool) ==> a.ingested <= b.ingested
    {
      AsOfOfTwo(a, b);
      assert b in [a, b];
      assert KnownAsOfHolds(pool) ==> ComparesWithKnown([a, b], b);
    }
  }

  lemma AsOfOfTwo(a: Observation, b: Observation)
    requires a.key == b.key && a.at + FIFTEEN_MINUTES_MS <= b.at
    ensures AsOf([a, b], b.key, b.at - FIFTEEN_MINUTES_MS) == Some(a)
  {
    assert [a, b][..1] == [a] && [a][..0] == [];
    assert AsOf([], b.key, b.at - FIFTEEN_MINUTES_MS) == None;
    assert AsOf([a], b.key, b.at - FIFTEEN_MINUTES_MS) == Some(a);
  }

  /** A failing case: the older of two observations was ingested last. */
  lemma KnownAsOfMayFail(k: MetricKey)
    ensures var late, row := Observation(k, Finite(1.0), 0, 1_000_000), Observation(k, Finite(2.0), 900_000, 900_001);
            !ComparesWithKnown([late, row], row)
  {
    AsOfOfTwo(Observation(k, Finite(1.0), 0, 1_000_000), Observation(k, Finite(2.0), 900_000, 900_001));
  }

  // ---------------------------------------------------------------- arrival order

  lemma {:induction false} FilterCount<T>(p: T -> bool, xs: seq<T>, x: T)
    ensures multiset(Filter(p, xs))[x] == if p(x) then multiset(xs)[x] else 0
  {
    if xs != [] {
      var front, last := xs[..|xs| - 1], xs[|xs| - 1];
      assert xs == front + [last];
      FilterCount(p, front, x);
    }
  }

  lemma FilterPermutes(p: Observation -> bool, ys: seq<Observation>, zs: seq<Observation>)
    requires multiset(ys) == multiset(zs)
    ensures multiset(Filter(p, ys)) == multiset(Filter(p, zs))
  {
    forall x: Observation
      ensures multiset(Filter(p, ys))[x] == multiset(Filter(p, zs))[x]
    {
      FilterCount(p, ys, x);
      FilterCount(p, zs, x);
    }
  }

  lemma AsOfIgnoresOrder(ys: seq<Observation>, zs: seq<Observation>, k: MetricKey, target: int)
    requires multiset(ys) == multiset(zs) && KeysDetermine(GroupedKey, ys)
    ensures AsOf(ys, k, target) == AsOf(zs, k, target)
  {
    hide Sort, Filter, FindFromEnd, AsOf, KeyCodes;
    var a, b := Filter(SameKey(k), ys), Filter(SameKey(k), zs);
    FilterPermutes(SameKey(k), ys, zs);
    forall i, j | 0 <= i < |a| && 0 <= j < |a| && TimeKey(a[i]) == TimeKey(a[j])
      ensures a[i] == a[j]
    {
      FilterMembers(SameKey(k), ys, a[i]);
      FilterMembers(SameKey(k), ys, a[j]);
      assert [a[i].at][0] == [a[j].at][0];
      assert GroupedKey(a[i]) == GroupedKey(a[j]);
    }
    SortIgnoresOrder(TimeKey, a, b);
    LookupIsAsOf(ys, k, target);
    LookupIsAsOf(zs, k, target);
  }

  lemma {:induction false} DeltasForAgree(ys: seq<Observation>, zs: seq<Observation>, rows: seq<Observation>)
    requires multiset(ys) == multiset(zs) && KeysDetermine(GroupedKey, ys)
    ensures DeltasFor(ys, rows) == DeltasFor(zs, rows)
  {
    hide AsOf, FeatureDelta, FiniteOf, KeysDetermine;
    if rows != [] {
      DeltasForAgree(ys, zs, rows[..|rows| - 1]);
      var row := rows[|rows| - 1];
      AsOfIgnoresOrder(ys, zs, row.key, row.at - FIFTEEN_MINUTES_MS);
      AsOfIgnoresOrder(ys, zs, row.key, row.at - ONE_HOUR_MS);
    }
  }

  /** A delta shows every field of its observation. */
  lemma DeltaShowsRow(ms: seq<Observation>, row: Observation)
    ensures var d := DeltaOf(ms, row); row == Observation(d.key, d.now, d.windowStart, d.knownAsOf)
  {
    hide AsOf, PercentChange;
  }

  lemma DeltasShowRows(ys: seq<Observation>, zs: seq<Observation>, a: seq<Observation>, b: seq<Observation>)
    requires DeltasFor(ys, a) == DeltasFor(zs, b)
    ensures a == b
  {
    hide DeltaOf, DeltasFor;
    DeltasForShape(ys, a);
    DeltasForShape(zs, b);
    forall i | 0 <= i < |a|
      ensures a[i] == b[i]
    {
      DeltaShowsRow(ys, a[i]);
      DeltaShowsRow(zs, b[i]);
    }
  }

  lemma {:induction false} EarlyStart(ms: seq<Observation>) returns (start: int)
    ensures forall m :: m in ms ==> start <= m.at
  {
    start := 0;
    if ms != [] {
      start := EarlyStart(ms[..|ms| - 1]);
      var last := ms[|ms| - 1];
      assert ms == ms[..|ms| - 1] + [last];
      start := Min(start, last.at);
    }
  }

  lemma {:induction false} KeepsAll(start: int, ms: seq<Observation>)
    requires forall m :: m in ms ==> start <= m.at
    ensures Filter(NotBefore(start), ms) == ms
  {
    if ms != [] {
      KeepsAll(start, ms[..|ms| - 1]);
      assert ms == ms[..|ms| - 1] + [ms[|ms| - 1]];
    }
  }

  /** No arrival order of these observations shows in their deltas, wherever the range starts. */
  ghost predicate ArrivalIndependent(ms: seq<Observation>)
  {
    forall start, ys, zs :: multiset(ys) == multiset(ms) == multiset(zs) ==> Deltas(start, ys) == Deltas(start, zs)
  }

  /**
   Files are folded in completion order: the deltas are independent of it
   exactly when no two different observations of one key share a time.
   */
  lemma DeltasIgnoreArrivalIff(ms: seq<Observation>)
    ensures ArrivalIndependent(ms) <==> KeysDetermine(GroupedKey, ms)
  {
    hide Sort, Filter, DeltasFor, GroupedKey;
    if KeysDetermine(GroupedKey, ms) {
      forall start, ys, zs | multiset(ys) == multiset(ms) == multiset(zs)
        ensures Deltas(start, ys) == Deltas(start, zs)
      {
        KeysDetermineMembers(ms, ys);
        SortIgnoresOrder(GroupedKey, ys, zs);
        DeltasForAgree(ys, zs, Filter(NotBefore(start), Sort(GroupedKey, ys)));
      }
    } else {
      var i: nat, j: nat :| i < |ms| && j < |ms| && GroupedKey(ms[i]) == GroupedKey(ms[j]) && ms[i] != ms[j];
      var ys, zs := EqualKeysExposeOrder(GroupedKey, ms, i, j);
      var start := EarlyStart(ms);
      SortedKeepsAll(start, ms, ys);
      SortedKeepsAll(start, ms, zs);
      if Deltas(start, ys) == Deltas(start, zs) {
        DeltasShowRows(ys, zs, Sort(GroupedKey, ys), Sort(GroupedKey, zs));
      }
    }
  }

  lemma KeysDetermineMembers(ms: seq<Observation>, ys: seq<Observation>)
    requires multiset(ys) == multiset(ms) && KeysDetermine(GroupedKey, ms)
    ensures KeysDetermine(GroupedKey, ys)
  {
    hide GroupedKey;
    forall i, j | 0 <= i < |ys| && 0 <= j < |ys| && GroupedKey(ys[i]) == GroupedKey(ys[j])
      ensures ys[i] == ys[j]
    {
      assert ys[i] in multiset(ms) && ys[j] in multiset(ms);
    }
  }

  lemma SortedKeepsAll(start: int, ms: seq<Observation>, ys: seq<Observation>)
    requires multiset(ys) == multiset(ms) && forall m :: m in ms ==> start <= m.at
    ensures Filter(NotBefore(start), Sort(GroupedKey, ys)) == Sort(GroupedKey, ys)
  {
    hide Sort, GroupedKey;
    SortSorts(GroupedKey, ys);
    forall m | m in Sort(GroupedKey, ys)
      ensures start <= m.at
    {
      assert m in multiset(Sort(GroupedKey, ys));
      assert m in multiset(ms);
    }
    KeepsAll(start, Sort(GroupedKey, ys));
  }

  // ---------------------------------------------------- the code, group by group

  /** The rows of each listed key, key after key. */
  function Groups(keys: seq<MetricKey>, rows: seq<Observation>): seq<Observation>
  {
    if keys == [] then []
    else Groups(keys[..|keys| - 1], rows) + Filter(SameKey(keys[|keys| - 1]), rows)
  }

  ghost predicate InOrder(keys: seq<MetricKey>)
  {
    Sorted(KeyCodes, keys) && forall i, j :: 0 <= i < j < |keys| ==> keys[i] != keys[j]
  }

  lemma {:induction false} FilterNone<T>(p: T -> bool, xs: seq<T>)
    requires forall x :: x in xs ==> !p(x)
    ensures Filter(p, xs) == []
  {
    if xs != [] {
      FilterNone(p, xs[..|xs| - 1]);
    }
  }

  /** A row that belongs after all others so far lands at the very end of the groups. */
  lemma {:induction false} GroupsSnoc(keys: seq<MetricKey>, rows: seq<Observation>, x: Observation)
    requires forall i, j :: 0 <= i < j < |keys| ==> keys[i] != keys[j]
    requires forall i, j :: 0 <= i < j < |keys| && keys[i] == x.key ==> Filter(SameKey(keys[j]), rows) == []
    ensures Groups(keys, rows + [x]) == Groups(keys, rows) + (if x.key in keys then [x] else [])
  {
    if keys != [] {
      var n := |keys| - 1;
      var front, last := keys[..n], keys[n];
      assert keys == front + [last];
      GroupsSnoc(front, rows, x);
      FilterSnoc(SameKey(last), rows, x);
      if x.key in front {
        var i :| 0 <= i < n && front[i] == x.key;
        assert keys[i] == x.key;
      }
    }
  }

  lemma OtherKeysAreLess(keys: seq<MetricKey>, rows: seq<Observation>, x: Observation, i: nat, j: nat)
    requires InOrder(keys) && i < j < |keys| && keys[i] == x.key
    requires forall m :: m in rows ==> LexLeq(GroupedKey(m), GroupedKey(x))
    ensures Filter(SameKey(keys[j]), rows) == []
  {
    hide KeyCodes, LexLeq;
    forall m | m in rows
      ensures m.key != keys[j]
    {
      if m.key == keys[j] {
        if IsPrefix(KeyCodes(x.key), KeyCodes(m.key)) {
          KeyCodesPrefixFree(x.key, m.key);
        }
        LexExtend(KeyCodes(x.key), KeyCodes(m.key), [x.at], [m.at]);
        LexAntisymmetric(GroupedKey(x), GroupedKey(m));
        GroupedKeyNamesKey(x, m);
        assert false;
      }
    }
    FilterNone(SameKey(keys[j]), rows);
  }

  /** Rows sorted by key and time are their own groups, key after key. */
  lemma {:induction false} SortedRowsAreGroups(keys: seq<MetricKey>, rows: seq<Observation>)
    requires InOrder(keys) && Sorted(GroupedKey, rows) && forall m :: m in rows ==> m.key in keys
    ensures Groups(keys, rows) == rows
  {
    hide LexLeq, GroupedKey, KeyCodes;
    if rows == [] {
      NoGroups(keys);
    } else {
      var n := |rows| - 1;
      var front, x := rows[..n], rows[n];
      assert rows == front + [x];
      SortedFront(GroupedKey, rows);
      SortedRowsAreGroups(keys, front);
      forall i, j | 0 <= i < j < |keys| && keys[i] == x.key
        ensures Filter(SameKey(keys[j]), front) == []
      {
        OtherKeysAreLess(keys, front, x, i, j);
      }
      GroupsSnoc(keys, front, x);
    }
  }

  lemma {:induction false} NoGroups(keys: seq<MetricKey>)
    ensures Groups(keys, []) == []
  {
    if keys != [] {
      NoGroups(keys[..|keys| - 1]);
    }
  }

  lemma {:induction false} SameOrderSameInsert<T>(f: T -> seq<int>, g: T -> seq<int>, xs: seq<T>, x: T)
    requires forall y :: y in xs ==> (LexLeq(f(y), f(x)) <==> LexLeq(g(y), g(x)))
    ensures Insert(f, xs, x) == Insert(g, xs, x)
  {
    hide LexLeq;
    if xs != [] {
      SameOrderSameInsert(f, g, xs[..|xs| - 1], x);
    }
  }

  lemma {:induction false} SameOrderSameSort<T(!new)>(f: T -> seq<int>, g: T -> seq<int>, xs: seq<T>)
    requires forall x, y :: x in xs && y in xs ==> (LexLeq(f(x), f(y)) <==> LexLeq(g(x), g(y)))
    ensures Sort(f, xs) == Sort(g, xs)
  {
    hide LexLeq, Insert;
    if xs != [] {
      var front, last := xs[..|xs| - 1], xs[|xs| - 1];
      assert xs == front + [last];
      SameOrderSameSort(f, g, front);
      SortSorts(f, front);
      forall y | y in Sort(f, front)
        ensures y in front
      {
        assert y in multiset(Sort(f, front));
      }
      SameOrderSameInsert(f, g, Sort(f, front), last);
    }
  }

  /** Within one key, sorting by key and time is sorting by time. */
  lemma GroupOfSorted(k: MetricKey, ms: seq<Observation>)
    ensures Filter(SameKey(k), Sort(GroupedKey, ms)) == Sort(TimeKey, Filter(SameKey(k), ms))
  {
    hide Sort, LexLeq, KeyCodes;
    SortCommutesWithFilter(GroupedKey, SameKey(k), ms);
    var group := Filter(SameKey(k), ms);
    forall x, y | x in group && y in group
      ensures LexLeq(GroupedKey(x), GroupedKey(y)) <==> LexLeq(TimeKey(x), TimeKey(y))
    {
      FilterMembers(SameKey(k), ms, x);
      FilterMembers(SameKey(k), ms, y);
      LexCommonPrefix(KeyCodes(k), [x.at], [y.at]);
    }
    SameOrderSameSort(GroupedKey, TimeKey, group);
  }

  /** The sorted map of groups: its keys in order, and each key's rows in time order. */
  method GroupDerivativeMetrics(ms: seq<Observation>)
    returns (keys: seq<MetricKey>, grouped: map<MetricKey, seq<Observation>>)
    ensures InOrder(keys) && forall k :: k in keys <==> k in grouped
    ensures forall k :: k in grouped <==> exists m :: m in ms && m.key == k
    ensures forall k :: k in grouped ==> grouped[k] == Sort(TimeKey, Filter(SameKey(k), ms))
  {
    hide Sort, InOrder, KeyCodes, Filter;
    var arrived: seq<MetricKey> := [];
    grouped := map[];
    for i := 0 to |ms|
      invariant forall k :: k in arrived <==> k in grouped
      invariant forall a, b :: 0 <= a < b < |arrived| ==> arrived[a] != arrived[b]
      invariant forall k :: k in grouped <==> exists m :: m in ms[..i] && m.key == k
      invariant forall k :: k in grouped ==> grouped[k] == Filter(SameKey(k), ms[..i])
    {
      var m := ms[i];
      assert ms[..i + 1] == ms[..i] + [m];
      forall k
        ensures Filter(SameKey(k), ms[..i + 1]) == Filter(SameKey(k), ms[..i]) + (if m.key == k then [m] else [])
      {
        FilterSnoc(SameKey(k), ms[..i], m);
      }
      if m.key in grouped {
        grouped := grouped[m.key := grouped[m.key] + [m]];
      } else {
        FilterNone(SameKey(m.key), ms[..i]);
        arrived := arrived + [m.key];
        grouped := grouped[m.key := [m]];
      }
    }
    assert ms[..|ms|] == ms;
    keys := Sort(KeyCodes, arrived);
    SortedKeysInOrder(arrived);
    grouped := SortEachGroup(keys, grouped);
  }

  method SortEachGroup(keys: seq<MetricKey>, groups: map<MetricKey, seq<Observation>>)
    returns (grouped: map<MetricKey, seq<Observation>>)
    requires InOrder(keys) && forall k :: k in keys <==> k in groups
    ensures grouped.Keys == groups.Keys && forall k :: k in groups ==> grouped[k] == Sort(TimeKey, groups[k])
  {
    hide Sort, Sorted;
    grouped := groups;
    for i := 0 to |keys|
      invariant grouped.Keys == groups.Keys
      invariant forall j :: 0 <= j < i ==> grouped[keys[j]] == Sort(TimeKey, groups[keys[j]])
      invariant forall j :: i <= j < |keys| ==> grouped[keys[j]] == groups[keys[j]]
    {
      grouped := grouped[keys[i] := Sort(TimeKey, grouped[keys[i]])];
    }
  }

  lemma SortedKeysInOrder(arrived: seq<MetricKey>)
    requires forall a, b :: 0 <= a < b < |arrived| ==> arrived[a] != arrived[b]
    ensures InOrder(Sort(KeyCodes, arrived)) && forall k :: k in Sort(KeyCodes, arrived) <==> k in arrived
  {
    hide Sort, KeyCodes, LexLeq;
    var keys := Sort(KeyCodes, arrived);
    SortSorts(KeyCodes, arrived);
    forall k
      ensures k in keys <==> k in arrived
    {
      assert k in multiset(keys) <==> k in multiset(arrived);
    }
    forall i, j | 0 <= i < j < |keys|
      ensures keys[i] != keys[j]
    {
      DistinctCount(arrived, keys[i]);
      TwiceCountsTwo(keys, i, j);
    }
  }

  /** The nested loops over groups and rows compute the deltas of the sorted arrivals. */
  method BuildDerivativeFeatureDeltas(start: int, ms: seq<Observation>) returns (deltas: seq<Delta>)
    ensures deltas == Deltas(start, ms)
  {
    hide Sort, Filter, DeltasFor, DeltaOf, FeatureDelta, AsOf, FindFromEnd, InOrder, GroupedKey;
    var keys, grouped := GroupDerivativeMetrics(ms);
    ghost var sorted := Sort(GroupedKey, ms);
    ghost var doneRows: seq<Observation> := [];
    deltas := [];
    NothingYet(start, ms);
    for i := 0 to |keys|
      invariant doneRows == Groups(keys[..i], sorted)
      invariant deltas == DeltasFor(ms, Filter(NotBefore(start), doneRows))
    {
      var rows := grouped[keys[i]];
      GroupOfSorted(keys[i], ms);
      assert keys[..i + 1][..i] == keys[..i];
      assert doneRows + rows[..0] == doneRows;
      for j := 0 to |rows|
        invariant deltas == DeltasFor(ms, Filter(NotBefore(start), doneRows + rows[..j]))
      {
        var row := rows[j];
        assert doneRows + rows[..j + 1] == doneRows + rows[..j] + [row];
        FilterSnoc(NotBefore(start), doneRows + rows[..j], row);
        ghost var listed := Filter(NotBefore(start), doneRows + rows[..j]);
        assert listed + [] == listed;
        if row.at >= start {
          RowDelta(ms, keys[i], row);
          DeltasSnoc(ms, listed, row);
          deltas := deltas + [FeatureDelta(row,
                                           ValueAtOrBefore(rows, row.at - FIFTEEN_MINUTES_MS),
                                           ValueAtOrBefore(rows, row.at - ONE_HOUR_MS))];
        }
      }
      assert rows[..|rows|] == rows;
      doneRows := doneRows + rows;
    }
    assert keys[..|keys|] == keys;
    AllGroups(keys, ms);
  }

  lemma NothingYet(start: int, ms: seq<Observation>)
    ensures DeltasFor(ms, Filter(NotBefore(start), [])) == []
  {
  }

  lemma AllGroups(keys: seq<MetricKey>, ms: seq<Observation>)
    requires InOrder(keys) && forall m :: m in ms ==> m.key in keys
    ensures Groups(keys, Sort(GroupedKey, ms)) == Sort(GroupedKey, ms)
  {
    hide Sort, InOrder, GroupedKey;
    SortSorts(GroupedKey, ms);
    forall m | m in Sort(GroupedKey, ms)
      ensures m.key in keys
    {
      assert m in multiset(Sort(GroupedKey, ms));
    }
    SortedRowsAreGroups(keys, Sort(GroupedKey, ms));
  }

  lemma RowDelta(ms: seq<Observation>, k: MetricKey, row: Observation)
    requires row in Sort(TimeKey, Filter(SameKey(k), ms))
    ensures var rows := Sort(TimeKey, Filter(SameKey(k), ms));
            DeltaOf(ms, row) == FeatureDelta(row,
                                             ValueAtOrBefore(rows, row.at - FIFTEEN_MINUTES_MS),
                                             ValueAtOrBefore(rows, row.at - ONE_HOUR_MS))
  {
    hide Sort, Filter, AsOf, FindFromEnd;
    var group := Filter(SameKey(k), ms);
    SortSorts(TimeKey, group);
    assert row in multiset(Sort(TimeKey, group));
    FilterMembers(SameKey(k), ms, row);
    LookupIsAsOf(ms, k, row.at - FIFTEEN_MINUTES_MS);
    LookupIsAsOf(ms, k, row.at - ONE_HOUR_MS);
  }
}
