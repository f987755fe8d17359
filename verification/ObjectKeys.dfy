/**
 The text of L0 object keys: distinct objects of a run never share a key, and a
 reader's key filter accepts the key of every partition it lists.
 */
module ObjectKeys {
  import opened Partitioning

  // ------------------------------------------------------------------ numbers

  function Digit(d: nat): char
    requires d < 10
  {
    '0' + d as char
  }

  function Decimal(n: nat): string
  {
    if n < 10 then [Digit(n)] else Decimal(n / 10) + [Digit(n % 10)]
  }

  /** Zero padding to a minimum width; longer numbers are not cut. */
  function Padded(n: nat, width: nat): string { Zeros(width, |Decimal(n)|) + Decimal(n) }

  function Zeros(width: nat, used: nat): string
    decreases width - used
  {
    if used >= width then "" else "0" + Zeros(width, used + 1)
  }

  function Value(s: string): int
  {
    if s == "" then 0 else 10 * Value(s[..|s| - 1]) + (s[|s| - 1] as int - '0' as int)
  }

  lemma {:induction false} DecimalRoundTrips(n: nat)
    ensures Value(Decimal(n)) == n
    ensures forall c :: c in Decimal(n) ==> '0' <= c <= '9'
  {
    if n < 10 {
      assert Decimal(n)[..0] == "";
    } else {
      DecimalRoundTrips(n / 10);
      var s := Decimal(n);
      assert s[..|s| - 1] == Decimal(n / 10);
    }
  }

  lemma {:induction false} LeadingZero(s: string)
    ensures Value("0" + s) == Value(s)
  {
    if s == "" {
      assert ("0" + s)[..0] == "";
    } else {
      assert ("0" + s)[..|s|] == "0" + s[..|s| - 1];
      LeadingZero(s[..|s| - 1]);
    }
  }

  lemma {:induction false} ZerosKeepValue(width: nat, used: nat, s: string)
    ensures Value(Zeros(width, used) + s) == Value(s)
    ensures forall c :: c in Zeros(width, used) ==> c == '0'
    decreases width - used
  {
    hide Value;
    if used < width {
      ZerosKeepValue(width, used + 1, s);
      LeadingZero(Zeros(width, used + 1) + s);
      assert Zeros(width, used) + s == "0" + (Zeros(width, used + 1) + s);
    } else {
      assert Zeros(width, used) + s == s;
    }
  }

  lemma PaddedRoundTrips(n: nat, width: nat)
    ensures Value(Padded(n, width)) == n
    ensures '/' !in Padded(n, width)
  {
    DecimalRoundTrips(n);
    ZerosKeepValue(width, |Decimal(n)|, Decimal(n));
  }

  // ----------------------------------------------------------------- segments

  function Join(segments: seq<string>): string
    requires segments != []
  {
    if |segments| == 1 then segments[0] else segments[0] + "/" + Join(segments[1..])
  }

  predicate SlashFree(segments: seq<string>)
  {
    forall i :: 0 <= i < |segments| ==> '/' !in segments[i]
  }

  /** The first slash tells where the first segment ends. */
  lemma FirstSlash(a: string, s: string, b: string, t: string)
    requires '/' !in a && '/' !in b && a + "/" + s == b + "/" + t
    ensures a == b && s == t
  {
    var x, y := a + "/" + s, b + "/" + t;
    assert x[|a|] == '/' && y[|b|] == '/';
    assert forall i :: 0 <= i < |a| ==> x[i] == a[i] != '/';
    assert forall i :: 0 <= i < |b| ==> y[i] == b[i] != '/';
    assert a == x[..|a|] && b == y[..|b|] && s == x[|a| + 1..] && t == y[|b| + 1..];
  }

  lemma {:induction false} JoinInjective(a: seq<string>, b: seq<string>)
    requires |a| == |b| != 0 && SlashFree(a) && SlashFree(b) && Join(a) == Join(b)
    ensures a == b
  {
    if |a| > 1 {
      FirstSlash(a[0], Join(a[1..]), b[0], Join(b[1..]));
      JoinInjective(a[1..], b[1..]);
      assert a == [a[0]] + a[1..] && b == [b[0]] + b[1..];
    }
  }

  lemma JoinStartsWith(segments: seq<string>)
    requires |segments| > 1
    ensures segments[0] + "/" <= Join(segments)
  {
  }

  // --------------------------------------------------------------- object keys

  /** One stored object: its partition and its part number within the run. */
  datatype ObjectId = ObjectId(partition: Partition, part: nat)

  function FamilyName(p: Partition): string
  {
    match p
    case RawPartition(_, _, _, _) => "raw_market_event"
    case HealthPartition(_, _, _) => "source_health"
    case SymbolHealthPartition(_, _, _) => "symbol_health"
    case GapPartition(_, _, _, _) => "gap_alert"
  }

  function TypeSegments(p: Partition): seq<string>
  {
    match p
    case RawPartition(venue, eventType, _, _) => ["venue=" + venue, "event_type=" + eventType]
    case HealthPartition(venue, _, _) => ["venue=" + venue]
    case SymbolHealthPartition(venue, _, _) => ["venue=" + venue]
    case GapPartition(venue, gapType, _, _) => ["venue=" + venue, "gap_type=" + gapType]
  }

  /** `dateText` renders a day number as a date. */
  function HourSegments(part: HourPart, dateText: int -> string): seq<string>
  {
    ["event_date=" + dateText(part.day), "hour=" + Padded(part.hour, 2)]
  }

  function Segments(o: ObjectId, runId: string, dateText: int -> string): seq<string>
  {
    [FamilyName(o.partition)] + TypeSegments(o.partition) + HourSegments(o.partition.part, dateText) +
    ["shard=" + Padded(o.partition.shard, 2), "run_id=" + runId + "-part-" + Padded(o.part, 6) + ".parquet"]
  }

  function ObjectKey(o: ObjectId, runId: string, dateText: int -> string): string
  {
    Join(Segments(o, runId, dateText))
  }

  ghost predicate FaithfulDates(dateText: int -> string)
  {
    && (forall d: int :: '/' !in dateText(d))
    && (forall d: int, e: int :: dateText(d) == dateText(e) ==> d == e)
  }

  lemma LabelsSlashFree()
    ensures '/' !in "venue=" && '/' !in "event_type=" && '/' !in "gap_type=" && '/' !in "event_date="
    ensures '/' !in "hour=" && '/' !in "shard="
    ensures '/' !in "raw_market_event" && '/' !in "source_health" && '/' !in "symbol_health" && '/' !in "gap_alert"
  {
  }

  lemma PrefixCancels(p: string, a: string, b: string)
    requires p + a == p + b
    ensures a == b
  {
    assert a == (p + a)[|p|..] && b == (p + b)[|p|..];
  }

  lemma SuffixCancels(a: string, b: string, s: string)
    requires a + s == b + s
    ensures a == b
  {
    assert |a + s| == |b + s|;
    assert a == (a + s)[..|a|] && b == (b + s)[..|b|];
  }

  lemma PaddedInjective(m: nat, n: nat, width: nat)
    requires Padded(m, width) == Padded(n, width)
    ensures m == n
  {
    PaddedRoundTrips(m, width);
    PaddedRoundTrips(n, width);
  }

  /** The last mark tells where the last piece begins. */
  lemma LastMark(a: string, s: string, b: string, t: string, c: char)
    requires c !in s && c !in t && a + [c] + s == b + [c] + t
    ensures a == b && s == t
  {
    var x, y := a + [c] + s, b + [c] + t;
    assert x[|a|] == c && y[|b|] == c;
    assert forall i :: |a| < i < |x| ==> x[i] == s[i - |a| - 1];
    assert forall i :: |b| < i < |y| ==> y[i] == t[i - |b| - 1];
    assert a == x[..|a|] && b == y[..|b|] && s == x[|a| + 1..] && t == y[|b| + 1..];
  }

  lemma JoinSnoc(segments: seq<string>, last: string)
    requires segments != []
    ensures Join(segments + [last]) == Join(segments) + "/" + last
  {
    JoinSplits(segments + [last], |segments|);
    assert (segments + [last])[..|segments|] == segments && (segments + [last])[|segments|..] == [last];
  }

  /** What a key shows before its shard: family, names and hour. */
  function TypeText(p: Partition): string { Join(TypeSegments(p)) }

  function KeyHead(o: ObjectId, dateText: int -> string): string
  {
    FamilyName(o.partition) + "/" + TypeText(o.partition) + "/" + ("event_date=" + dateText(o.partition.part.day))
    + "/" + ("hour=" + Padded(o.partition.part.hour, 2)) + "/" + ("shard=" + Padded(o.partition.shard, 2))
  }

  lemma KeyFromTheRight(o: ObjectId, runId: string, dateText: int -> string)
    ensures ObjectKey(o, runId, dateText) ==
            KeyHead(o, dateText) + ("/" + "run_id=" + runId + "-part") + "-" + Padded(o.part, 6) + ".parquet"
  {
    hide Join, Padded;
    var p := o.partition;
    var d, h := "event_date=" + dateText(p.part.day), "hour=" + Padded(p.part.hour, 2);
    var sh, r := "shard=" + Padded(p.shard, 2), "run_id=" + runId + "-part-" + Padded(o.part, 6) + ".parquet";
    var head := [FamilyName(p)] + TypeSegments(p);
    assert Segments(o, runId, dateText) == head + [d] + [h] + [sh] + [r];
    JoinSnoc(head, d);
    JoinSnoc(head + [d], h);
    JoinSnoc(head + [d] + [h], sh);
    JoinSnoc(head + [d] + [h] + [sh], r);
    JoinSplits(head, 1);
    assert head[..1] == [FamilyName(p)] && head[1..] == TypeSegments(p);
    JoinOne(FamilyName(p));
    assert "-part-" == "-part" + "-";
    assert KeyHead(o, dateText) + "/" + r ==
           KeyHead(o, dateText) + ("/" + "run_id=" + runId + "-part") + "-" + Padded(o.part, 6) + ".parquet";
  }

  lemma JoinOne(s: string)
    ensures Join([s]) == s
  {
  }

  /** The keys show the same text for these two partitions. */
  predicate SameText(p: Partition, q: Partition)
  {
    FamilyName(p) == FamilyName(q) && p.part == q.part && p.shard == q.shard && TypeText(p) == TypeText(q)
  }

  lemma HeadsAgree(o: ObjectId, q: ObjectId, dateText: int -> string)
    requires FaithfulDates(dateText) && KeyHead(o, dateText) == KeyHead(q, dateText)
    ensures SameText(o.partition, q.partition)
  {
    hide Padded, Join;
    var a, b := o.partition, q.partition;
    PaddedRoundTrips(a.shard, 2);
    PaddedRoundTrips(b.shard, 2);
    PaddedRoundTrips(a.part.hour, 2);
    PaddedRoundTrips(b.part.hour, 2);
    LabelsSlashFree();
    var fa, fb := FamilyName(a) + "/" + TypeText(a), FamilyName(b) + "/" + TypeText(b);
    var da, db := "event_date=" + dateText(a.part.day), "event_date=" + dateText(b.part.day);
    var ha, hb := "hour=" + Padded(a.part.hour, 2), "hour=" + Padded(b.part.hour, 2);
    var sa, sb := "shard=" + Padded(a.shard, 2), "shard=" + Padded(b.shard, 2);
    LastMark(fa + "/" + da + "/" + ha, sa, fb + "/" + db + "/" + hb, sb, '/');
    LastMark(fa + "/" + da, ha, fb + "/" + db, hb, '/');
    LastMark(fa, da, fb, db, '/');
    FirstSlash(FamilyName(a), TypeText(a), FamilyName(b), TypeText(b));
    PrefixCancels("event_date=", dateText(a.part.day), dateText(b.part.day));
    PrefixCancels("hour=", Padded(a.part.hour, 2), Padded(b.part.hour, 2));
    PrefixCancels("shard=", Padded(a.shard, 2), Padded(b.shard, 2));
  }

  /**
   Two objects of a run share a key exactly when part number, family, hour and
   shard agree and their names read alike.
   */
  lemma KeysAgreeIff(o: ObjectId, q: ObjectId, runId: string, dateText: int -> string)
    requires FaithfulDates(dateText)
    ensures ObjectKey(o, runId, dateText) == ObjectKey(q, runId, dateText) <==>
            o.part == q.part && SameText(o.partition, q.partition)
  {
    hide Padded, Join, ObjectKey, FaithfulDates;
    KeyFromTheRight(o, runId, dateText);
    KeyFromTheRight(q, runId, dateText);
    if ObjectKey(o, runId, dateText) == ObjectKey(q, runId, dateText) {
      var mid, m, n := "/" + "run_id=" + runId + "-part", Padded(o.part, 6), Padded(q.part, 6);
      SuffixCancels(KeyHead(o, dateText) + mid + "-" + m, KeyHead(q, dateText) + mid + "-" + n, ".parquet");
      PaddedIsDigits(o.part, 6);
      PaddedIsDigits(q.part, 6);
      LastMark(KeyHead(o, dateText) + mid, m, KeyHead(q, dateText) + mid, n, '-');
      SuffixCancels(KeyHead(o, dateText), KeyHead(q, dateText), mid);
      PaddedInjective(o.part, q.part, 6);
      HeadsAgree(o, q, dateText);
    }
  }

  lemma PaddedIsDigits(n: nat, width: nat)
    ensures '-' !in Padded(n, width)
  {
    DecimalRoundTrips(n);
    ZerosKeepValue(width, |Decimal(n)|, Decimal(n));
  }

  /** Numbers are padded to their width and never cut. */
  lemma {:induction false} PaddedWidth(n: nat, width: nat)
    ensures |Padded(n, width)| == if |Decimal(n)| < width then width else |Decimal(n)|
  {
    hide Decimal;
    ZerosWidth(width, |Decimal(n)|);
  }

  lemma {:induction false} ZerosWidth(width: nat, used: nat)
    ensures |Zeros(width, used)| == if used < width then width - used else 0
    decreases width - used
  {
    if used < width {
      ZerosWidth(width, used + 1);
    }
  }

  /** The text of every key, in full, family by family. */
  lemma KeyText(p: Partition, part: nat, runId: string, dateText: int -> string)
    ensures ObjectKey(ObjectId(p, part), runId, dateText) ==
            (match p
             case RawPartition(venue, eventType, _, _) =>
               "raw_market_event" + "/" + ("venue=" + venue + "/" + ("event_type=" + eventType))
             case HealthPartition(venue, _, _) => "source_health" + "/" + ("venue=" + venue)
             case SymbolHealthPartition(venue, _, _) => "symbol_health" + "/" + ("venue=" + venue)
             case GapPartition(venue, gapType, _, _) =>
               "gap_alert" + "/" + ("venue=" + venue + "/" + ("gap_type=" + gapType)))
            + "/" + ("event_date=" + dateText(p.part.day)) + "/" + ("hour=" + Padded(p.part.hour, 2))
            + "/" + ("shard=" + Padded(p.shard, 2))
            + ("/" + "run_id=" + runId + "-part") + "-" + Padded(part, 6) + ".parquet"
  {
    hide Padded, Join;
    KeyFromTheRight(ObjectId(p, part), runId, dateText);
    var segments := TypeSegments(p);
    if |segments| == 2 {
      JoinPair(segments[0], segments[1]);
    } else {
      JoinOne(segments[0]);
    }
  }

  // -------------------------------------------------------------- ambiguous names

  function Label(p: Partition): string
  {
    if p.RawPartition? then "/" + "event_type=" else if p.GapPartition? then "/" + "gap_type=" else ""
  }

  function TypeName(p: Partition): string
  {
    if p.RawPartition? then p.eventType else if p.GapPartition? then p.gapType else ""
  }

  predicate OccursAt(text: string, s: string, i: nat)
  {
    i + |s| <= |text| && text[i..i + |s|] == s
  }

  /** The label between venue and type occurs a second time in the two names around it. */
  ghost predicate SecondLabel(p: Partition)
  {
    && (p.RawPartition? || p.GapPartition?)
    && exists i: nat :: i != |p.venue| && OccursAt(p.venue + Label(p) + TypeName(p), Label(p), i)
  }

  lemma TypeTextForm(p: Partition)
    ensures TypeText(p) == "venue=" + (p.venue + Label(p) + TypeName(p))
  {
    hide Join;
    match p
    case RawPartition(venue, eventType, _, _) =>
      JoinPair("venue=" + venue, "event_type=" + eventType);
      Regroup("venue=", venue, "event_type=", eventType);
    case GapPartition(venue, gapType, _, _) =>
      JoinPair("venue=" + venue, "gap_type=" + gapType);
      Regroup("venue=", venue, "gap_type=", gapType);
    case HealthPartition(venue, _, _) =>
      JoinOne("venue=" + venue);
      assert venue + "" + "" == venue;
    case SymbolHealthPartition(venue, _, _) =>
      JoinOne("venue=" + venue);
      assert venue + "" + "" == venue;
  }

  lemma JoinPair(a: string, b: string)
    ensures Join([a, b]) == a + "/" + b
  {
    assert [a, b][1..] == [b];
  }

  lemma Regroup(a: string, v: string, tag: string, t: string)
    ensures (a + v) + "/" + (tag + t) == a + (v + ("/" + tag) + t)
  {
  }

  /** The partition whose names split the same text at another place. */
  function SplitAt(p: Partition, i: nat): Partition
    requires p.RawPartition? || p.GapPartition?
    requires i + |Label(p)| <= |p.venue + Label(p) + TypeName(p)|
  {
    var text, n := p.venue + Label(p) + TypeName(p), |Label(p)|;
    if p.RawPartition? then p.(venue := text[..i], eventType := text[i + n..])
    else p.(venue := text[..i], gapType := text[i + n..])
  }

  lemma SplitReadsAlike(p: Partition, i: nat)
    requires p.RawPartition? || p.GapPartition?
    requires i != |p.venue| && OccursAt(p.venue + Label(p) + TypeName(p), Label(p), i)
    ensures SplitAt(p, i) != p && SameText(SplitAt(p, i), p)
  {
    var q, text, n := SplitAt(p, i), p.venue + Label(p) + TypeName(p), |Label(p)|;
    assert |q.venue| == i;
    assert text == text[..i] + text[i..i + n] + text[i + n..];
    TypeTextForm(p);
    TypeTextForm(q);
  }

  /** Two ways of reading one text as name, label, name put the label at two places. */
  lemma TwoReadings(v: string, t: string, w: string, u: string, tag: string)
    requires v + tag + t == w + tag + u && (v != w || t != u)
    ensures |v| != |w| && OccursAt(v + tag + t, tag, |w|)
  {
    var x, n := v + tag + t, |tag|;
    assert x == w + tag + u;
    assert v == x[..|v|] && w == x[..|w|] && t == x[|v| + n..] && u == x[|w| + n..];
    assert x[|w|..|w| + n] == tag;
  }

  lemma AlikeIsSplit(p: Partition, q: Partition)
    requires SameText(p, q) && p != q
    ensures SecondLabel(p)
  {
    hide TypeText, OccursAt;
    TypeTextForm(p);
    TypeTextForm(q);
    FamiliesDiffer(p, q);
    PrefixCancels("venue=", p.venue + Label(p) + TypeName(p), q.venue + Label(q) + TypeName(q));
    assert Label(p) == "" ==>
             p.venue + Label(p) + TypeName(p) == p.venue && q.venue + Label(q) + TypeName(q) == q.venue;
    TwoReadings(p.venue, TypeName(p), q.venue, TypeName(q), Label(p));
  }

  lemma FamiliesDiffer(p: Partition, q: Partition)
    requires FamilyName(p) == FamilyName(q)
    ensures p.RawPartition? == q.RawPartition? && p.GapPartition? == q.GapPartition?
    ensures p.HealthPartition? == q.HealthPartition? && Label(p) == Label(q)
  {
    assert "raw_market_event"[0] == 'r' && "gap_alert"[0] == 'g';
    assert "source_health"[1] == 'o' && "symbol_health"[1] == 'y';
  }

  /** An object's key is its own exactly when the label does not occur a second time in its names. */
  lemma KeyIsUniqueIff(o: ObjectId, runId: string, dateText: int -> string)
    requires FaithfulDates(dateText)
    ensures (forall q :: ObjectKey(q, runId, dateText) == ObjectKey(o, runId, dateText) ==> q == o) <==>
            !SecondLabel(o.partition)
  {
    hide ObjectKey, FaithfulDates, SameText;
    if SecondLabel(o.partition) {
      var p := o.partition;
      var i: nat :| i != |p.venue| && OccursAt(p.venue + Label(p) + TypeName(p), Label(p), i);
      SplitReadsAlike(p, i);
      var q := ObjectId(SplitAt(p, i), o.part);
      KeysAgreeIff(q, o, runId, dateText);
      assert ObjectKey(q, runId, dateText) == ObjectKey(o, runId, dateText) && q != o;
    } else {
      forall q | ObjectKey(q, runId, dateText) == ObjectKey(o, runId, dateText)
        ensures q == o
      {
        KeysAgreeIff(o, q, runId, dateText);
        if q.partition != o.partition {
          AlikeIsSplit(o.partition, q.partition);
        }
      }
    }
  }

  /** Names without a slash. */
  predicate PlainNames(p: Partition)
  {
    '/' !in p.venue && '/' !in TypeName(p)
  }

  lemma OneSlash(v: string, tag: string, t: string, i: nat)
    requires '/' !in v && '/' !in tag && '/' !in t && OccursAt(v + ("/" + tag) + t, "/" + tag, i)
    ensures i == |v|
  {
    var text := v + ("/" + tag) + t;
    assert text[i] == text[i..i + 1 + |tag|][0] == '/';
    assert text == v + "/" + (tag + t);
    assert forall k :: 0 <= k < |v| ==> text[k] == v[k] != '/';
    assert forall k :: |v| < k < |text| ==> text[k] == (tag + t)[k - |v| - 1] != '/';
  }

  lemma PlainNamesHaveOneLabel(p: Partition)
    requires PlainNames(p)
    ensures !SecondLabel(p)
  {
    hide OccursAt;
    LabelsSlashFree();
    if SecondLabel(p) {
      var i: nat :| i != |p.venue| && OccursAt(p.venue + Label(p) + TypeName(p), Label(p), i);
      OneSlash(p.venue, if p.RawPartition? then "event_type=" else "gap_type=", TypeName(p), i);
    }
  }

  // ------------------------------------------------------------ the program's names

  const VENUES: set<string> := {"upbit", "binance"}

  const RAW_EVENT_TYPES: set<string> := {
    "trade", "book_ticker", "depth_delta", "depth_snapshot", "ticker",
    "funding_rate_snapshot", "open_interest_snapshot"}

  /** The gap types the program writes. */
  const GAP_TYPES: set<string> := {
    "depth_update_id_gap", "ordering_violation", "upbit_error", "ws_reconnect", "historical_range_empty"}

  /** The gap types the S3 reader lists. */
  const LISTED_GAP_TYPES: set<string> := {"depth_update_id_gap", "ordering_violation", "upbit_error"}

  predicate WrittenByProgram(p: Partition)
  {
    && p.venue in VENUES
    && (p.RawPartition? ==> p.eventType in RAW_EVENT_TYPES)
    && (p.GapPartition? ==> p.gapType in GAP_TYPES)
  }

  lemma ProgramNamesArePlain(p: Partition)
    requires WrittenByProgram(p)
    ensures PlainNames(p)
  {
    VenuesAreSlashFree(p.venue);
    if p.RawPartition? {
      EventTypesAreSlashFree(p.eventType);
    } else if p.GapPartition? {
      GapTypesAreSlashFree(p.gapType);
    }
  }

  lemma VenuesAreSlashFree(v: string)
    requires v in VENUES
    ensures '/' !in v
  {
    assert '/' !in "upbit" && '/' !in "binance";
  }

  lemma EventTypesAreSlashFree(t: string)
    requires t in RAW_EVENT_TYPES
    ensures '/' !in t
  {
    assert '/' !in "trade" && '/' !in "book_ticker" && '/' !in "depth_delta" && '/' !in "depth_snapshot";
    assert '/' !in "ticker" && '/' !in "funding_rate_snapshot" && '/' !in "open_interest_snapshot";
  }

  lemma GapTypesAreSlashFree(t: string)
    requires t in GAP_TYPES
    ensures '/' !in t
  {
    assert '/' !in "depth_update_id_gap" && '/' !in "ordering_violation" && '/' !in "upbit_error";
    assert '/' !in "ws_reconnect" && '/' !in "historical_range_empty";
  }

  /** Object immutability, at the level of key text, for every object the program writes. */
  lemma ProgramKeysAreUnique(o: ObjectId, q: ObjectId, runId: string, dateText: int -> string)
    requires FaithfulDates(dateText) && WrittenByProgram(o.partition)
    requires ObjectKey(o, runId, dateText) == ObjectKey(q, runId, dateText)
    ensures o == q
  {
    hide ObjectKey, FaithfulDates, SecondLabel, WrittenByProgram;
    ProgramNamesArePlain(o.partition);
    PlainNamesHaveOneLabel(o.partition);
    KeyIsUniqueIff(o, runId, dateText);
  }

  // ------------------------------------------------------------------- reader

  ghost predicate Contains(s: string, needle: string)
  {
    exists pre: string, post: string :: s == pre + needle + post
  }

  /** The text a key of this hour contains. */
  function HourText(part: HourPart, dateText: int -> string): string
  {
    "/" + ("event_date=" + dateText(part.day)) + "/" + ("hour=" + Padded(part.hour, 2)) + "/"
  }

  predicate Recognized(key: string)
  {
    || "raw_market_event" + "/" <= key || "symbol_health" + "/" <= key
    || "source_health" + "/" <= key || "gap_alert" + "/" <= key
  }

  ghost predicate KeyMatchesParts(key: string, parts: seq<HourPart>, dateText: int -> string)
  {
    && Recognized(key)
    && exists part :: part in parts && Contains(key, HourText(part, dateText))
  }

  lemma {:induction false} JoinSplits(segments: seq<string>, i: nat)
    requires 0 < i < |segments|
    ensures Join(segments) == Join(segments[..i]) + "/" + Join(segments[i..])
  {
    if i > 1 {
      JoinSplits(segments[1..], i - 1);
      assert segments[1..][..i - 1] == segments[1..i] == segments[..i][1..];
      assert segments[1..][i - 1..] == segments[i..];
    }
  }

  lemma ContainsAround(pre: string, a: string, b: string, post: string)
    ensures Contains(pre + "/" + (a + "/" + (b + "/" + post)), "/" + a + "/" + b + "/")
  {
    var needle := "/" + a + "/" + b + "/";
    assert pre + "/" + (a + "/" + (b + "/" + post)) == pre + needle + post;
  }

  lemma JoinOfTwo(segments: seq<string>)
    requires |segments| > 2
    ensures Join(segments) == segments[0] + "/" + (segments[1] + "/" + Join(segments[2..]))
  {
    assert segments[1..][1..] == segments[2..];
    assert Join(segments[1..]) == segments[1] + "/" + Join(segments[2..]);
  }

  lemma JoinAround(segments: seq<string>, i: nat)
    requires 0 < i && i + 2 < |segments|
    ensures Contains(Join(segments), "/" + segments[i] + "/" + segments[i + 1] + "/")
  {
    hide Join, Contains;
    JoinSplits(segments, i);
    JoinOfTwo(segments[i..]);
    ContainsAround(Join(segments[..i]), segments[i], segments[i + 1], Join(segments[i..][2..]));
  }

  lemma KeyShape(o: ObjectId, runId: string, dateText: int -> string)
    ensures Recognized(ObjectKey(o, runId, dateText))
    ensures Contains(ObjectKey(o, runId, dateText), HourText(o.partition.part, dateText))
  {
    hide Padded, Decimal, Join, Contains;
    var s := Segments(o, runId, dateText);
    var n := |s|;
    assert s[n - 4] == "event_date=" + dateText(o.partition.part.day);
    assert s[n - 3] == "hour=" + Padded(o.partition.part.hour, 2);
    JoinAround(s, n - 4);
    JoinStartsWith(s);
  }

  /** A reader that lists the hours of its range accepts the key of every object holding a record of that range. */
  lemma ReaderFindsObject(o: ObjectId, runId: string, dateText: int -> string, start: int, end: int, ts: int)
    requires start <= ts < end && o.partition.part == TimeParts(ts)
    ensures KeyMatchesParts(ObjectKey(o, runId, dateText), Hours(start, end), dateText)
  {
    hide Padded, Contains, ObjectKey;
    PruningLosesNothing(start, end, ts);
    KeyShape(o, runId, dateText);
  }

  // ------------------------------------------------------------- S3 prefix listing

  function Prefix(p: Partition, dateText: int -> string): string
  {
    Join([FamilyName(p)] + TypeSegments(p) + HourSegments(p.part, dateText)) + "/"
  }

  /** The partitions whose prefixes the reader lists for an hour. */
  predicate Listed(p: Partition)
  {
    && p.venue in VENUES
    && (p.RawPartition? ==> p.eventType in RAW_EVENT_TYPES)
    && (p.GapPartition? ==> p.gapType in LISTED_GAP_TYPES)
  }

  ghost predicate CoveredByListing(key: string, part: HourPart, dateText: int -> string)
  {
    exists p: Partition :: p.part == part && Listed(p) && Prefix(p, dateText) <= key
  }

  /** Two texts cut at their first slash compare piece by piece. */
  lemma CutAtSlash(a: string, inner: string, b: string, rest: string)
    requires '/' !in a && '/' !in b
    ensures a + "/" + inner <= b + "/" + rest <==> a == b && inner <= rest
  {
    var whole := b + "/" + rest;
    if a + "/" + inner <= whole {
      var more := whole[|a + "/" + inner|..];
      assert a + "/" + (inner + more) == whole;
      FirstSlash(a, inner + more, b, rest);
    }
    if a == b && inner <= rest {
      assert whole == a + "/" + inner + rest[|inner|..];
    }
  }

  /** A joined prefix is a prefix of a joined key exactly when it is its first segments. */
  lemma {:induction false} PrefixOfJoin(a: seq<string>, b: seq<string>)
    requires 0 < |a| < |b| && SlashFree(a) && SlashFree(b[..|a|])
    ensures Join(a) + "/" <= Join(b) <==> a == b[..|a|]
    decreases |a|
  {
    assert b[0] == b[..|a|][0];
    if |a| == 1 {
      CutAtSlash(a[0], "", b[0], Join(b[1..]));
      assert Join(a) + "/" == a[0] + "/" + "";
      assert a == b[..1] <==> a[0] == b[0];
    } else {
      assert b[1..][..|a| - 1] == b[..|a|][1..];
      assert a == [a[0]] + a[1..] && b[..|a|] == [b[0]] + b[..|a|][1..];
      PrefixOfJoin(a[1..], b[1..]);
      CutAtSlash(a[0], Join(a[1..]) + "/", b[0], Join(b[1..]));
      assert Join(a) + "/" == a[0] + "/" + (Join(a[1..]) + "/");
    }
  }

  lemma SegmentsSlashFree(p: Partition, dateText: int -> string)
    requires PlainNames(p) && FaithfulDates(dateText)
    ensures SlashFree([FamilyName(p)] + TypeSegments(p) + HourSegments(p.part, dateText))
  {
    hide Padded;
    PaddedRoundTrips(p.part.hour, 2);
    LabelsSlashFree();
    assert SlashFree(TypeSegments(p));
  }

  /** The segments before the shard name family, names and hour. */
  lemma SegmentsDetermine(p: Partition, q: Partition, dateText: int -> string)
    requires FaithfulDates(dateText)
    ensures var a, b := [FamilyName(p)] + TypeSegments(p) + HourSegments(p.part, dateText),
                        [FamilyName(q)] + TypeSegments(q) + HourSegments(q.part, dateText);
            a == b <==>
            FamilyName(p) == FamilyName(q) && p.venue == q.venue && TypeName(p) == TypeName(q) && p.part == q.part
  {
    hide Padded;
    var a, b := [FamilyName(p)] + TypeSegments(p) + HourSegments(p.part, dateText),
                [FamilyName(q)] + TypeSegments(q) + HourSegments(q.part, dateText);
    if FamilyName(p) == FamilyName(q) {
      FamiliesDiffer(p, q);
    }
    if a == b {
      assert a[0] == b[0];
      FamiliesDiffer(p, q);
      var n := |a|;
      assert a[1] == b[1] && a[n - 1] == b[n - 1] && a[n - 2] == b[n - 2];
      PrefixCancels("venue=", p.venue, q.venue);
      PrefixCancels("event_date=", dateText(p.part.day), dateText(q.part.day));
      PrefixCancels("hour=", Padded(p.part.hour, 2), Padded(q.part.hour, 2));
      PaddedInjective(p.part.hour, q.part.hour, 2);
      if p.RawPartition? {
        assert a[2] == b[2];
        PrefixCancels("event_type=", p.eventType, q.eventType);
      } else if p.GapPartition? {
        assert a[2] == b[2];
        PrefixCancels("gap_type=", p.gapType, q.gapType);
      }
    }
  }

  /** The prefixes listed for an hour cover exactly the objects of that hour whose names are listed. */
  lemma ListingCoversIff(o: ObjectId, runId: string, dateText: int -> string, part: HourPart)
    requires FaithfulDates(dateText) && PlainNames(o.partition)
    ensures CoveredByListing(ObjectKey(o, runId, dateText), part, dateText) <==>
            o.partition.part == part && Listed(o.partition)
  {
    hide Padded, Join, ObjectKey, FaithfulDates;
    forall p | Listed(p)
      ensures Prefix(p, dateText) <= ObjectKey(o, runId, dateText) <==>
              && FamilyName(p) == FamilyName(o.partition) && p.venue == o.partition.venue
              && TypeName(p) == TypeName(o.partition) && p.part == o.partition.part
    {
      PrefixMatches(p, o, runId, dateText);
    }
    if o.partition.part == part && Listed(o.partition) {
      assert Prefix(o.partition, dateText) <= ObjectKey(o, runId, dateText);
    }
    if CoveredByListing(ObjectKey(o, runId, dateText), part, dateText) {
      var p: Partition :| p.part == part && Listed(p) && Prefix(p, dateText) <= ObjectKey(o, runId, dateText);
      FamiliesDiffer(p, o.partition);
    }
  }

  lemma PrefixMatches(p: Partition, o: ObjectId, runId: string, dateText: int -> string)
    requires FaithfulDates(dateText) && PlainNames(o.partition) && Listed(p)
    ensures Prefix(p, dateText) <= ObjectKey(o, runId, dateText) <==>
            && FamilyName(p) == FamilyName(o.partition) && p.venue == o.partition.venue
            && TypeName(p) == TypeName(o.partition) && p.part == o.partition.part
  {
    hide Padded, Join, FaithfulDates;
    var a := [FamilyName(p)] + TypeSegments(p) + HourSegments(p.part, dateText);
    var b := [FamilyName(o.partition)] + TypeSegments(o.partition) + HourSegments(o.partition.part, dateText);
    var key := Segments(o, runId, dateText);
    ProgramNamesArePlain(p);
    SegmentsSlashFree(p, dateText);
    SegmentsSlashFree(o.partition, dateText);
    SegmentsDetermine(p, o.partition, dateText);
    assert key[..|b|] == b;
    if |a| <= |b| {
      assert key[..|a|] == b[..|a|];
      PrefixOfJoin(a, key);
      if a == key[..|a|] {
        assert a[0] == b[0];
        FamiliesDiffer(p, o.partition);
      }
    } else {
      assert FamilyName(p) != FamilyName(o.partition);
      assert key[..1] == [FamilyName(o.partition)] && a[..1] == [FamilyName(p)];
      LongerPrefixFails(a, key, FamilyName(p), FamilyName(o.partition));
    }
  }

  lemma LongerPrefixFails(a: seq<string>, key: seq<string>, f: string, g: string)
    requires |a| > 1 && |key| > 1 && a[0] == f && key[0] == g && f != g && '/' !in f && '/' !in g
    ensures !(Join(a) + "/" <= Join(key))
  {
    if Join(a) + "/" <= Join(key) {
      var rest := Join(key)[|Join(a) + "/"|..];
      assert f + "/" + (Join(a[1..]) + "/" + rest) == g + "/" + Join(key[1..]);
      FirstSlash(f, Join(a[1..]) + "/" + rest, g, Join(key[1..]));
    }
  }

  /**
   Of what the program writes, the S3 reader never sees reconnect gaps and empty
   historical ranges, and sees all else.
   */
  lemma NeverListedIff(p: Partition)
    requires WrittenByProgram(p)
    ensures !Listed(p) <==> p.GapPartition? && p.gapType in {"ws_reconnect", "historical_range_empty"}
  {
    assert "depth_update_id_gap"[0] == 'd' && "ordering_violation"[0] == 'o' && "upbit_error"[0] == 'u';
    assert "ws_reconnect"[0] == 'w' && "historical_range_empty"[0] == 'h';
  }
}
