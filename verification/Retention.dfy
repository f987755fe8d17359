/**
 Age-based deletion of stored objects: a streaming plan over prefix listings,
 then the deletions. What may be deleted, what is left, and when streaming
 without deduplication is exact.
 */
module Retention {
  import opened Wrappers
  import opened StableSort
  import opened Times
  import Bootstrap
  import ObjectKeys

  const U64_MAX: int := 0xFFFF_FFFF_FFFF_FFFF

  datatype ObjectSummary = ObjectSummary(key: string, size: nat, lastModified: Option<int>)

  datatype Config = Config(prefixes: seq<string>, protectedPrefixes: seq<string>, retentionSecs: int, maxDeletes: nat)

  predicate Validated(config: Config)
  {
    config.prefixes != [] && config.retentionSecs > 0 && config.maxDeletes > 0
  }

  datatype Decision = Keep | MissingLastModified | Protected | Delete(ageSecs: int)

  datatype Candidate = Candidate(key: string, size: nat, ageSecs: int)

  datatype Stats = Stats(scanned: nat, missing: nat, guarded: nat, expired: nat, stopped: bool,
                         deleted: nat, failed: nat, deletedBytes: nat, maxAgeSecs: int)

  predicate IsProtected(config: Config, key: string)
  {
    var prefixes := config.protectedPrefixes;
    exists i :: 0 <= i < |prefixes| && prefixes[i] != "" && prefixes[i] <= key
  }

  function Decide(config: Config, now: int, o: ObjectSummary): Decision
  {
    if IsProtected(config, o.key) then Protected
    else if o.lastModified.None? then MissingLastModified
    else
      var ageMs := Saturate(now - o.lastModified.value);
      if ageMs < Saturate(config.retentionSecs * 1000) then Keep else Delete(TruncDiv(ageMs, 1000))
  }

  /**
   Exactly the unprotected objects of known age past the retention period are
   deleted; saturation shows only for ages that no longer fit 64 bits.
   */
  lemma DeletesExactlyTheExpired(config: Config, now: int, o: ObjectSummary)
    requires Validated(config)
    ensures Decide(config, now, o).Delete? <==>
              && !IsProtected(config, o.key) && o.lastModified.Some?
              && (now - o.lastModified.value >= config.retentionSecs * 1000 || now - o.lastModified.value >= I64_MAX)
    ensures Decide(config, now, o).Protected? <==> IsProtected(config, o.key)
    ensures Decide(config, now, o).MissingLastModified? <==> !IsProtected(config, o.key) && o.lastModified.None?
    ensures Decide(config, now, o).Delete? && now - o.lastModified.value <= I64_MAX ==>
              Decide(config, now, o).ageSecs == (now - o.lastModified.value) / 1000
    ensures Decide(config, now, o).Delete? && config.retentionSecs * 1000 <= I64_MAX ==>
              Decide(config, now, o).ageSecs >= config.retentionSecs
  {
  }

  // ----------------------------------------------------------- the plan, declaratively

  function Doomed(config: Config, now: int): ObjectSummary -> bool
  {
    (o: ObjectSummary) => Decide(config, now, o).Delete?
  }

  function Undated(config: Config, now: int): ObjectSummary -> bool
  {
    (o: ObjectSummary) => Decide(config, now, o).MissingLastModified?
  }

  function Guarded(config: Config, now: int): ObjectSummary -> bool
  {
    (o: ObjectSummary) => Decide(config, now, o).Protected?
  }

  function CandidateOf(config: Config, now: int, o: ObjectSummary): Candidate
    requires Decide(config, now, o).Delete?
  {
    Candidate(o.key, o.size, Decide(config, now, o).ageSecs)
  }

  /** The first so many of the expired objects, in listing order. */
  function Chosen(config: Config, now: int, os: seq<ObjectSummary>): seq<Candidate>
  {
    if os == [] then []
    else
      var front, last := Chosen(config, now, os[..|os| - 1]), os[|os| - 1];
      if Decide(config, now, last).Delete? && |front| < config.maxDeletes
      then front + [CandidateOf(config, now, last)] else front
  }

  datatype Plan = Plan(
    scanned: nat, missing: nat, guarded: nat, expired: nat, stopped: bool, candidates: seq<Candidate>)

  function PlanOf(config: Config, now: int, os: seq<ObjectSummary>): Plan
  {
    var expired := |Filter(Doomed(config, now), os)|;
    Plan(|os|, |Filter(Undated(config, now), os)|, |Filter(Guarded(config, now), os)|, expired,
         expired > config.maxDeletes, Chosen(config, now, os))
  }

  lemma {:induction false} ChosenShape(config: Config, now: int, os: seq<ObjectSummary>)
    ensures var doomed := Filter(Doomed(config, now), os);
            var chosen := Chosen(config, now, os);
            && |chosen| == (if |doomed| <= config.maxDeletes then |doomed| else config.maxDeletes)
            && (forall i :: 0 <= i < |chosen| ==>
                  i < |doomed| && Decide(config, now, doomed[i]).Delete?
                      && chosen[i] == CandidateOf(config, now, doomed[i]))
  {
    hide Decide;
    if os != [] {
      var front, last := os[..|os| - 1], os[|os| - 1];
      ChosenShape(config, now, front);
      assert os == front + [last];
      FilterSnoc(Doomed(config, now), front, last);
    }
  }

  predicate Shielded(config: Config, key: string)
  {
    exists p :: p in config.protectedPrefixes && p != "" && p <= key
  }

  /** Unprotected, dated, and at least the retention period old. */
  function Expired(config: Config, now: int): ObjectSummary -> bool
  {
    (o: ObjectSummary) => && !Shielded(config, o.key) && o.lastModified.Some?
                          && now - o.lastModified.value >= config.retentionSecs * 1000
  }

  function Timeless(config: Config): ObjectSummary -> bool
  {
    (o: ObjectSummary) => !Shielded(config, o.key) && o.lastModified.None?
  }

  function Sheltered(config: Config): ObjectSummary -> bool
  {
    (o: ObjectSummary) => Shielded(config, o.key)
  }

  lemma ShieldedIs(config: Config, key: string)
    ensures Shielded(config, key) <==> IsProtected(config, key)
  {
    if Shielded(config, key) {
      var p :| p in config.protectedPrefixes && p != "" && p <= key;
      var i :| 0 <= i < |config.protectedPrefixes| && config.protectedPrefixes[i] == p;
    }
    if IsProtected(config, key) {
      var i :| 0 <= i < |config.protectedPrefixes| && config.protectedPrefixes[i] != ""
               && config.protectedPrefixes[i] <= key;
      assert config.protectedPrefixes[i] in config.protectedPrefixes;
    }
  }

  lemma {:induction false} FilterAgrees(p: ObjectSummary -> bool, q: ObjectSummary -> bool, os: seq<ObjectSummary>)
    requires forall o :: o in os ==> p(o) == q(o)
    ensures Filter(p, os) == Filter(q, os)
  {
    if os != [] {
      FilterAgrees(p, q, os[..|os| - 1]);
    }
  }

  /** Ages and the retention period fit 64-bit milliseconds. */
  ghost predicate AgesFit(config: Config, now: int, os: seq<ObjectSummary>)
  {
    && config.retentionSecs * 1000 <= I64_MAX
    && forall o :: o in os && o.lastModified.Some? ==> I64_MIN <= now - o.lastModified.value <= I64_MAX
  }

  /**
   What a plan counts and what it would delete, on the objects' own fields: the first expired ones up to the limit,
   in listing order, each with its key, size and age in whole seconds.
   */
  lemma PlanMeans(config: Config, now: int, os: seq<ObjectSummary>)
    requires Validated(config) && AgesFit(config, now, os)
    ensures var plan, expired := PlanOf(config, now, os), Filter(Expired(config, now), os);
            && plan.scanned == |os| && plan.expired == |expired|
            && plan.missing == |Filter(Timeless(config), os)| && plan.guarded == |Filter(Sheltered(config), os)|
            && (plan.stopped <==> |expired| > config.maxDeletes)
            && |plan.candidates| == (if plan.stopped then config.maxDeletes else |expired|)
            && forall i :: 0 <= i < |plan.candidates| ==>
                 && plan.candidates[i].key == expired[i].key && plan.candidates[i].size == expired[i].size
                 && expired[i].lastModified.Some?
                 && plan.candidates[i].ageSecs == (now - expired[i].lastModified.value) / 1000
  {
    hide Decide, Filter, Chosen;
    forall o | o in os
      ensures Doomed(config, now)(o) == Expired(config, now)(o)
      ensures Undated(config, now)(o) == Timeless(config)(o) && Guarded(config, now)(o) == Sheltered(config)(o)
    {
      DeletesExactlyTheExpired(config, now, o);
      ShieldedIs(config, o.key);
    }
    FilterAgrees(Doomed(config, now), Expired(config, now), os);
    FilterAgrees(Undated(config, now), Timeless(config), os);
    FilterAgrees(Guarded(config, now), Sheltered(config), os);
    ChosenShape(config, now, os);
    var expired := Filter(Expired(config, now), os);
    forall i | 0 <= i < |expired|
      ensures Decide(config, now, expired[i]).Delete? && expired[i].lastModified.Some?
      ensures Decide(config, now, expired[i]).ageSecs == (now - expired[i].lastModified.value) / 1000
    {
      assert expired[i] in expired;
      FilterMembers(Expired(config, now), os, expired[i]);
      DeletesExactlyTheExpired(config, now, expired[i]);
    }
  }

  // ----------------------------------------------------------------- the code

  datatype DeleteReply = Deleted | FailedButGone | Failed

  class Sweep {
    const config: Config
    const now: int
    var objects: seq<ObjectSummary>
    var stats: Stats
    var candidates: seq<Candidate>

    constructor (config: Config, now: int, objects: seq<ObjectSummary>)
      ensures this.config == config && this.now == now && this.objects == objects
      ensures Planned([]) && Undeleted()
    {
      this.config, this.now, this.objects := config, now, objects;
      stats, candidates := Stats(0, 0, 0, 0, false, 0, 0, 0, 0), [];
    }

    /** Statistics and candidates are those of the plan for the objects listed so far. */
    ghost predicate Planned(listed: seq<ObjectSummary>)
      reads this
    {
      PlanOf(config, now, listed) ==
      Plan(stats.scanned, stats.missing, stats.guarded, stats.expired, stats.stopped, candidates)
    }

    ghost predicate Undeleted()
      reads this
    {
      stats.deleted == 0 && stats.failed == 0 && stats.deletedBytes == 0 && stats.maxAgeSecs == 0
    }

    method Observe(o: ObjectSummary, ghost listed: seq<ObjectSummary>)
      requires Planned(listed) && Undeleted()
      modifies this`stats, this`candidates
      ensures Planned(listed + [o]) && Undeleted()
    {
      hide Decide;
      PlanSnoc(config, now, listed, o);
      stats := stats.(scanned := stats.scanned + 1);
      match Decide(config, now, o)
      case Keep =>
      case MissingLastModified => stats := stats.(missing := stats.missing + 1);
      case Protected => stats := stats.(guarded := stats.guarded + 1);
      case Delete(ageSecs) =>
        stats := stats.(expired := stats.expired + 1);
        if |candidates| >= config.maxDeletes {
          stats := stats.(stopped := true);
          return;
        }
        candidates := candidates + [Candidate(o.key, o.size, ageSecs)];
    }

    method ListPrefix(prefix: string, ghost listed: seq<ObjectSummary>)
      requires Planned(listed) && Undeleted()
      modifies this`stats, this`candidates
      ensures Planned(listed + Filter(Under(prefix), objects)) && Undeleted()
    {
      hide PlanOf;
      var page := Filter(Under(prefix), objects);
      assert listed + page[..0] == listed;
      for i := 0 to |page|
        invariant Planned(listed + page[..i]) && Undeleted()
      {
        Observe(page[i], listed + page[..i]);
        assert listed + page[..i + 1] == listed + page[..i] + [page[i]];
      }
      assert page[..|page|] == page;
    }

    /** One retention run; a listing may fail before anything is deleted, a failed delete may have been applied. */
    method RunOnce(listingFails: nat -> bool, reply: nat -> DeleteReply) returns (ok: bool)
      requires Validated(config) && Planned([]) && Undeleted()
      modifies this
      ensures ok <==> forall i :: 0 <= i < |config.prefixes| ==> !listingFails(i)
      ensures !ok ==> objects == old(objects)
      ensures ok ==> Planned(Listing(config.prefixes, old(objects)))
      ensures ok ==> stats.deleted + stats.failed == |candidates|
      ensures ok ==> objects == Filter(NotIn(GoneKeys(candidates, reply, |candidates|)), old(objects))
      ensures ok ==> stats.deleted == DeletedCount(reply, |candidates|)
      ensures ok ==> stats.deletedBytes == Min(U64_MAX, DeletedSize(candidates, reply, |candidates|))
      ensures ok ==> OldestDeleted(candidates, reply, |candidates|, stats.maxAgeSecs)
    {
      for i := 0 to |config.prefixes|
        invariant Planned(Listing(config.prefixes[..i], objects)) && Undeleted() && objects == old(objects)
        invariant forall j :: 0 <= j < i ==> !listingFails(j)
      {
        if listingFails(i) {
          return false;
        }
        ListPrefix(config.prefixes[i], Listing(config.prefixes[..i], objects));
        assert config.prefixes[..i + 1][..i] == config.prefixes[..i];
      }
      assert config.prefixes[..|config.prefixes|] == config.prefixes;
      DeleteAll(reply);
      return true;
    }

    method DeleteAll(reply: nat -> DeleteReply)
      requires Undeleted()
      modifies this`objects, this`stats
      ensures stats == old(stats).(deleted := stats.deleted, failed := stats.failed,
                                   deletedBytes := stats.deletedBytes, maxAgeSecs := stats.maxAgeSecs)
      ensures stats.deleted + stats.failed == |candidates| && stats.deleted == DeletedCount(reply, |candidates|)
      ensures stats.deletedBytes == Min(U64_MAX, DeletedSize(candidates, reply, |candidates|))
      ensures OldestDeleted(candidates, reply, |candidates|, stats.maxAgeSecs)
      ensures objects == Filter(NotIn(GoneKeys(candidates, reply, |candidates|)), old(objects))
    {
      hide Filter, OldestDeleted;
      FilterAll(NotIn({}), objects);
      NoneDeleted(candidates, reply);
      for i := 0 to |candidates|
        invariant stats == old(stats).(deleted := stats.deleted, failed := stats.failed,
                                       deletedBytes := stats.deletedBytes, maxAgeSecs := stats.maxAgeSecs)
        invariant stats.deleted + stats.failed == i && stats.deleted == DeletedCount(reply, i)
        invariant stats.deletedBytes == Min(U64_MAX, DeletedSize(candidates, reply, i))
        invariant OldestDeleted(candidates, reply, i, stats.maxAgeSecs)
        invariant objects == Filter(NotIn(GoneKeys(candidates, reply, i)), old(objects))
      {
        var c := candidates[i];
        OldestSnoc(candidates, reply, i, stats.maxAgeSecs);
        assert GoneKeys(candidates, reply, i) + {} == GoneKeys(candidates, reply, i);
        if reply(i) != Failed {
          objects := Filter(NotIn({c.key}), objects);
          FilterTwice(GoneKeys(candidates, reply, i), c.key, old(objects));
        }
        if reply(i) == Deleted {
          var bytes := stats.deletedBytes + c.size;
          stats := stats.(deleted := stats.deleted + 1,
                          deletedBytes := if bytes > U64_MAX then U64_MAX else bytes,
                          maxAgeSecs := if c.ageSecs > stats.maxAgeSecs then c.ageSecs else stats.maxAgeSecs);
        } else {
          stats := stats.(failed := stats.failed + 1);
        }
      }
    }
  }

  function DeletedCount(reply: nat -> DeleteReply, n: nat): nat
  {
    if n == 0 then 0 else DeletedCount(reply, n - 1) + (if reply(n - 1) == Deleted then 1 else 0)
  }

  /** The bytes confirmed deleted, not yet held to 64 bits. */
  function DeletedSize(cs: seq<Candidate>, reply: nat -> DeleteReply, n: nat): nat
    requires n <= |cs|
  {
    if n == 0 then 0 else DeletedSize(cs, reply, n - 1) + (if reply(n - 1) == Deleted then cs[n - 1].size else 0)
  }

  /** The greatest age among confirmed deletions, or zero where none is positive. */
  ghost predicate OldestDeleted(cs: seq<Candidate>, reply: nat -> DeleteReply, n: nat, age: int)
    requires n <= |cs|
  {
    && age >= 0
    && (forall i :: 0 <= i < n && reply(i) == Deleted ==> cs[i].ageSecs <= age)
    && (age > 0 ==> exists i :: 0 <= i < n && reply(i) == Deleted && cs[i].ageSecs == age)
  }

  lemma NoneDeleted(cs: seq<Candidate>, reply: nat -> DeleteReply)
    ensures OldestDeleted(cs, reply, 0, 0)
  {
  }

  lemma OldestSnoc(cs: seq<Candidate>, reply: nat -> DeleteReply, n: nat, age: int)
    requires n < |cs| && OldestDeleted(cs, reply, n, age)
    ensures OldestDeleted(cs, reply, n + 1, if reply(n) == Deleted && cs[n].ageSecs > age then cs[n].ageSecs else age)
  {
  }

  lemma PlanSnoc(config: Config, now: int, os: seq<ObjectSummary>, o: ObjectSummary)
    ensures var a, b := PlanOf(config, now, os), PlanOf(config, now, os + [o]);
            var decision := Decide(config, now, o);
            && b.scanned == a.scanned + 1
            && b.missing == a.missing + (if decision.MissingLastModified? then 1 else 0)
            && b.guarded == a.guarded + (if decision.Protected? then 1 else 0)
            && b.expired == a.expired + (if decision.Delete? then 1 else 0)
            && b.stopped == (a.stopped || (decision.Delete? && |a.candidates| >= config.maxDeletes))
            && b.candidates == a.candidates + (if decision.Delete? && |a.candidates| < config.maxDeletes
                                               then [Candidate(o.key, o.size, decision.ageSecs)] else [])
  {
    hide Decide;
    FilterSnoc(Doomed(config, now), os, o);
    FilterSnoc(Undated(config, now), os, o);
    FilterSnoc(Guarded(config, now), os, o);
    ChosenShape(config, now, os);
    assert (os + [o])[..|os|] == os;
  }

  function Under(prefix: string): ObjectSummary -> bool { (o: ObjectSummary) => prefix <= o.key }
  function NotIn(gone: set<string>): ObjectSummary -> bool { (o: ObjectSummary) => o.key !in gone }

  function KeysOf(cs: seq<Candidate>): set<string> { set c | c in cs :: c.key }

  /** The keys whose delete took effect: confirmed, or reported as failed and applied all the same. */
  function GoneKeys(cs: seq<Candidate>, reply: nat -> DeleteReply, n: nat): set<string>
    requires n <= |cs|
  {
    if n == 0 then {} else GoneKeys(cs, reply, n - 1) + (if reply(n - 1) != Failed then {cs[n - 1].key} else {})
  }

  /** A key is gone exactly when some reply to its delete was not a plain failure. */
  lemma {:induction false} GoneMeans(cs: seq<Candidate>, reply: nat -> DeleteReply, n: nat, key: string)
    requires n <= |cs|
    ensures key in GoneKeys(cs, reply, n) <==>
            exists i :: 0 <= i < n && cs[i].key == key && (reply(i) == Deleted || reply(i) == FailedButGone)
  {
    if n > 0 {
      GoneMeans(cs, reply, n - 1, key);
    }
  }

  lemma {:induction false} DeletedCountMeans(reply: nat -> DeleteReply, n: nat)
    ensures DeletedCount(reply, n) == |set i | 0 <= i < n && reply(i) == Deleted|
  {
    if n > 0 {
      DeletedCountMeans(reply, n - 1);
      var before, now := set i | 0 <= i < n - 1 && reply(i) == Deleted, set i | 0 <= i < n && reply(i) == Deleted;
      assert now == before + if reply(n - 1) == Deleted then {n - 1} else {};
    }
  }

  /** Only candidates go. */
  lemma {:induction false} GoneAreCandidates(cs: seq<Candidate>, reply: nat -> DeleteReply, n: nat)
    requires n <= |cs|
    ensures GoneKeys(cs, reply, n) <= KeysOf(cs)
  {
    if n > 0 {
      GoneAreCandidates(cs, reply, n - 1);
      assert cs[n - 1] in cs;
    }
  }

  /** All of them do when every delete was confirmed. */
  lemma {:induction false} AllConfirmedAllGone(cs: seq<Candidate>, reply: nat -> DeleteReply, n: nat)
    requires n <= |cs| && DeletedCount(reply, n) == n
    ensures forall i :: 0 <= i < n ==> cs[i].key in GoneKeys(cs, reply, n)
  {
    if n > 0 {
      DeletedAtMost(reply, n - 1);
      AllConfirmedAllGone(cs, reply, n - 1);
    }
  }

  lemma {:induction false} DeletedAtMost(reply: nat -> DeleteReply, n: nat)
    ensures DeletedCount(reply, n) <= n
  {
    if n > 0 {
      DeletedAtMost(reply, n - 1);
    }
  }

  lemma {:induction false} FilterAll<T>(p: T -> bool, xs: seq<T>)
    requires forall i :: 0 <= i < |xs| ==> p(xs[i])
    ensures Filter(p, xs) == xs
  {
    if xs != [] {
      FilterAll(p, xs[..|xs| - 1]);
      assert xs == xs[..|xs| - 1] + [xs[|xs| - 1]];
    }
  }

  lemma {:induction false} FilterTwice(gone: set<string>, key: string, os: seq<ObjectSummary>)
    ensures Filter(NotIn({key}), Filter(NotIn(gone), os)) == Filter(NotIn(gone + {key}), os)
  {
    if os != [] {
      var front, last := os[..|os| - 1], os[|os| - 1];
      FilterTwice(gone, key, front);
      FilterSnoc(NotIn({key}), Filter(NotIn(gone), front), last);
      assert Filter(NotIn(gone), front) + [] == Filter(NotIn(gone), front);
    }
  }

  // --------------------------------------------------------------- what is deleted

  /** Everything listed, prefix after prefix. */
  function Listing(prefixes: seq<string>, store: seq<ObjectSummary>): seq<ObjectSummary>
  {
    if prefixes == [] then []
    else Listing(prefixes[..|prefixes| - 1], store) + Filter(Under(prefixes[|prefixes| - 1]), store)
  }

  ghost predicate Reachable(prefixes: seq<string>, key: string)
  {
    exists i :: 0 <= i < |prefixes| && prefixes[i] <= key
  }

  lemma {:induction false} ListingMembers(prefixes: seq<string>, store: seq<ObjectSummary>, o: ObjectSummary)
    ensures o in Listing(prefixes, store) <==> o in store && Reachable(prefixes, o.key)
  {
    if prefixes == [] {
      assert !Reachable(prefixes, o.key);
    } else {
      hide Reachable, Filter;
      var n := |prefixes| - 1;
      ListingMembers(prefixes[..n], store, o);
      FilterMembers(Under(prefixes[n]), store, o);
      ReachableSnoc(prefixes, o.key);
    }
  }

  lemma ReachableSnoc(prefixes: seq<string>, key: string)
    requires prefixes != []
    ensures Reachable(prefixes, key) <==> Reachable(prefixes[..|prefixes| - 1], key) || prefixes[|prefixes| - 1] <= key
  {
    var n := |prefixes| - 1;
    var front := prefixes[..n];
    if Reachable(front, key) {
      var i :| 0 <= i < |front| && front[i] <= key;
      assert prefixes[i] <= key;
    }
    if Reachable(prefixes, key) && !(prefixes[n] <= key) {
      var i :| 0 <= i < |prefixes| && prefixes[i] <= key;
      assert front[i] <= key;
    }
  }

  lemma {:induction false} ChosenMembers(config: Config, now: int, os: seq<ObjectSummary>, c: Candidate)
    requires c in Chosen(config, now, os)
    ensures exists o :: o in os && Decide(config, now, o).Delete? && c == CandidateOf(config, now, o)
  {
    hide Decide;
    var front, last := os[..|os| - 1], os[|os| - 1];
    assert last in os && forall o :: o in front ==> o in os;
    if c in Chosen(config, now, front) {
      ChosenMembers(config, now, front, c);
    }
  }

  ghost predicate DistinctKeys(os: seq<ObjectSummary>)
  {
    forall i, j :: 0 <= i < j < |os| ==> os[i].key != os[j].key
  }

  /** Only expired, unprotected objects under a configured prefix can go, in a bucket that holds one object a key. */
  lemma OnlyExpiredAreDeleted(config: Config, now: int, store: seq<ObjectSummary>, o: ObjectSummary)
    requires DistinctKeys(store) && o in store
    requires o.key in KeysOf(Chosen(config, now, Listing(config.prefixes, store)))
    ensures Reachable(config.prefixes, o.key) && Decide(config, now, o).Delete? && !IsProtected(config, o.key)
  {
    hide Chosen, Listing;
    var listed := Listing(config.prefixes, store);
    var c :| c in Chosen(config, now, listed) && c.key == o.key;
    ChosenMembers(config, now, listed, c);
    var p :| p in listed && Decide(config, now, p).Delete? && c == CandidateOf(config, now, p);
    ListingMembers(config.prefixes, store, p);
    assert p == o;
  }

  /** A run below the delete limit chooses every expired object it can reach. */
  lemma BelowTheLimitAllAreChosen(config: Config, now: int, store: seq<ObjectSummary>, o: ObjectSummary)
    requires !PlanOf(config, now, Listing(config.prefixes, store)).stopped
    requires o in store && Reachable(config.prefixes, o.key) && Decide(config, now, o).Delete?
    ensures o.key in KeysOf(Chosen(config, now, Listing(config.prefixes, store)))
  {
    hide Decide, Chosen, Listing, Filter;
    var listed := Listing(config.prefixes, store);
    ListingMembers(config.prefixes, store, o);
    FilterMembers(Doomed(config, now), listed, o);
    ChosenShape(config, now, listed);
    var doomed := Filter(Doomed(config, now), listed);
    var i :| 0 <= i < |doomed| && doomed[i] == o;
    assert Chosen(config, now, listed)[i].key == o.key;
  }

  // ------------------------------------------------- streaming against deduplicating

  function FirstOfEachKey(os: seq<ObjectSummary>): seq<ObjectSummary>
  {
    if os == [] then []
    else
      var front, last := os[..|os| - 1], os[|os| - 1];
      if last.key in KeySet(front) then FirstOfEachKey(front) else FirstOfEachKey(front) + [last]
  }

  function KeySet(os: seq<ObjectSummary>): set<string> { set o | o in os :: o.key }

  lemma KeySetSnoc(os: seq<ObjectSummary>, o: ObjectSummary)
    ensures KeySet(os + [o]) == KeySet(os) + {o.key}
  {
  }

  lemma DistinctSnoc(os: seq<ObjectSummary>, o: ObjectSummary)
    ensures DistinctKeys(os + [o]) <==> DistinctKeys(os) && o.key !in KeySet(os)
  {
    var all := os + [o];
    assert forall i :: 0 <= i < |os| ==> all[i] == os[i] && os[i] in os && os[i].key in KeySet(os);
    assert all[|os|] == o;
    if DistinctKeys(all) {
      assert forall i, j :: 0 <= i < j < |os| ==> all[i].key != all[j].key;
      forall x | x in os
        ensures x.key != o.key
      {
        var i :| 0 <= i < |os| && os[i] == x;
        assert all[i].key != all[|os|].key;
      }
    }
  }

  lemma {:induction false} FirstsAreFewer(os: seq<ObjectSummary>)
    ensures |FirstOfEachKey(os)| <= |os|
    ensures DistinctKeys(os) ==> FirstOfEachKey(os) == os
    ensures |FirstOfEachKey(os)| == |os| ==> DistinctKeys(os)
  {
    hide DistinctKeys, KeySet;
    if os == [] {
      NoneIsDistinct();
    } else {
      FirstsAreFewer(os[..|os| - 1]);
      DistinctSnoc(os[..|os| - 1], os[|os| - 1]);
      assert os == os[..|os| - 1] + [os[|os| - 1]];
    }
  }

  lemma NoneIsDistinct()
    ensures DistinctKeys([]) && KeySet([]) == {}
  {
  }

  function FirstFew(os: seq<ObjectSummary>, n: nat): seq<ObjectSummary> { if |os| <= n then os else os[..n] }

  /** Listings that name a key twice describe it alike. */
  ghost predicate SameSummaries(os: seq<ObjectSummary>)
  {
    forall o, q :: o in os && q in os && o.key == q.key ==> o == q
  }

  lemma {:induction false} FirstsKeepKeys(os: seq<ObjectSummary>)
    ensures KeySet(FirstOfEachKey(os)) == KeySet(os) && DistinctKeys(FirstOfEachKey(os))
  {
    hide DistinctKeys, KeySet;
    if os == [] {
      NoneIsDistinct();
    } else {
      var front, last := os[..|os| - 1], os[|os| - 1];
      FirstsKeepKeys(front);
      assert os == front + [last];
      KeySetSnoc(front, last);
      KeySetSnoc(FirstOfEachKey(front), last);
      DistinctSnoc(FirstOfEachKey(front), last);
    }
  }

  /** Of a listing cut short, the firsts are the first of the firsts. */
  lemma {:induction false} FirstsOfPrefix(os: seq<ObjectSummary>, n: nat)
    requires n <= |os|
    ensures FirstOfEachKey(os[..n]) <= FirstOfEachKey(os)
    decreases |os|
  {
    if n < |os| {
      var front := os[..|os| - 1];
      FirstsOfPrefix(front, n);
      assert front[..n] == os[..n];
    } else {
      assert os[..n] == os;
    }
  }

  /** A key of the front that an object repeats is a key of what the front's filter keeps, if the object is kept. */
  lemma RepeatIsFiltered(p: ObjectSummary -> bool, front: seq<ObjectSummary>, last: ObjectSummary)
    requires SameSummaries(front + [last]) && p(last)
    ensures last.key in KeySet(Filter(p, front)) <==> last.key in KeySet(front)
  {
    assert last in front + [last];
    forall o | o in front && o.key == last.key
      ensures o == last
    {
      assert o in front + [last];
    }
    FilterMembers(p, front, last);
    if last.key in KeySet(Filter(p, front)) {
      var o :| o in Filter(p, front) && o.key == last.key;
      FilterMembers(p, front, o);
    }
  }

  lemma {:induction false} FirstsCommute(config: Config, now: int, os: seq<ObjectSummary>)
    requires SameSummaries(os)
    ensures Filter(Doomed(config, now), FirstOfEachKey(os)) == FirstOfEachKey(Filter(Doomed(config, now), os))
  {
    hide Decide, KeySet;
    if os != [] {
      var front, last, p := os[..|os| - 1], os[|os| - 1], Doomed(config, now);
      assert os == front + [last];
      FirstsCommute(config, now, front);
      var f := Filter(p, front);
      FilterSnoc(p, front, last);
      FilterSnoc(p, FirstOfEachKey(front), last);
      assert f + [] == f && (f + [last])[..|f|] == f;
      if p(last) {
        RepeatIsFiltered(p, front, last);
      }
    }
  }

  lemma ChosenKeys(config: Config, now: int, os: seq<ObjectSummary>)
    ensures KeysOf(Chosen(config, now, os)) == KeySet(FirstFew(Filter(Doomed(config, now), os), config.maxDeletes))
  {
    hide Decide, Chosen, Filter;
    ChosenShape(config, now, os);
    var chosen, few := Chosen(config, now, os), FirstFew(Filter(Doomed(config, now), os), config.maxDeletes);
    assert |chosen| == |few| && forall i :: 0 <= i < |few| ==> chosen[i].key == few[i].key;
    forall k
      ensures k in KeysOf(chosen) <==> k in KeySet(few)
    {
      if k in KeysOf(chosen) {
        var i :| 0 <= i < |chosen| && chosen[i].key == k;
        assert few[i] in few;
      }
      if k in KeySet(few) {
        var i :| 0 <= i < |few| && few[i].key == k;
        assert chosen[i] in chosen;
      }
    }
  }

  lemma PrefixesOfDistinct(os: seq<ObjectSummary>, a: nat, b: nat)
    requires DistinctKeys(os) && a <= b <= |os|
    ensures KeySet(os[..a]) == KeySet(os[..b]) <==> a == b
  {
    if a < b {
      assert os[..b][a] == os[a];
      assert os[a].key in KeySet(os[..b]);
      assert forall i :: 0 <= i < a ==> os[..a][i].key == os[i].key != os[a].key;
    }
  }

  /** The keys of the first m listings against the first m keys. */
  lemma FirstFewIff(os: seq<ObjectSummary>, m: nat)
    ensures var few := FirstFew(os, m);
            KeySet(few) == KeySet(FirstFew(FirstOfEachKey(os), m)) <==> DistinctKeys(few) || KeySet(few) == KeySet(os)
  {
    hide FirstOfEachKey, DistinctKeys, KeySet;
    var few, firsts := FirstFew(os, m), FirstOfEachKey(os);
    var n := |few|;
    assert few == os[..n];
    FirstsOfPrefix(os, n);
    FirstsKeepKeys(os);
    FirstsKeepKeys(few);
    FirstsAreFewer(few);
    var p := |FirstOfEachKey(few)|;
    assert FirstOfEachKey(few) == firsts[..p];
    assert firsts[..|firsts|] == firsts;
    PrefixesOfDistinct(firsts, p, |firsts|);
    PrefixesOfDistinct(firsts, p, |FirstFew(firsts, m)|);
    assert FirstFew(firsts, m) == firsts[..|FirstFew(firsts, m)|];
    if n < m {
      assert few == os;
    }
  }

  /**
   Planning without deduplication deletes the keys that planning with it
   deletes, exactly when no key repeats among the expired listings that fit
   under the limit, or every expired key is among them.
   */
  lemma StreamingDeletesAlikeIff(config: Config, now: int, os: seq<ObjectSummary>)
    requires SameSummaries(os)
    ensures var expired := Filter(Doomed(config, now), os);
            var few := FirstFew(expired, config.maxDeletes);
            KeysOf(Chosen(config, now, os)) == KeysOf(Chosen(config, now, FirstOfEachKey(os))) <==>
            DistinctKeys(few) || KeySet(few) == KeySet(expired)
  {
    hide *;
    ChosenKeys(config, now, os);
    ChosenKeys(config, now, FirstOfEachKey(os));
    FirstsCommute(config, now, os);
    FirstFewIff(Filter(Doomed(config, now), os), config.maxDeletes);
  }

  /** A failing case: two overlapping prefixes, two expired objects and room for two deletes delete only one. */
  lemma StreamingMayDeleteFewer()
    ensures var config := Config(["a", ""], [], 1, 2);
            var store := [ObjectSummary("a", 1, Some(0)), ObjectSummary("b", 1, Some(0))];
            var listed := Listing(config.prefixes, store);
            && DistinctKeys(store)
            && KeysOf(Chosen(config, 1_000, listed)) == {"a"}
            && KeysOf(Chosen(config, 1_000, FirstOfEachKey(listed))) == {"a", "b"}
  {
    hide Chosen, Listing, FirstOfEachKey, Filter, Decide, KeysOf;
    var config := Config(["a", ""], [], 1, 2);
    var a, b := ObjectSummary("a", 1, Some(0)), ObjectSummary("b", 1, Some(0));
    var store, listed := [a, b], [a, a, b];
    assert "a"[0] != "b"[0];
    ListingOfTwo(a, b);
    ChosenKeys(config, 1_000, listed);
    ChosenKeys(config, 1_000, [a, b]);
    DoomedAll(config, 1_000, listed);
    DoomedAll(config, 1_000, [a, b]);
    FirstsOfThree(a, b);
    assert FirstFew(listed, 2) == [a, a];
  }

  lemma ListingOfTwo(a: ObjectSummary, b: ObjectSummary)
    requires a.key == "a" && b.key == "b"
    ensures Listing(["a", ""], [a, b]) == [a, a, b]
  {
    hide Filter;
    assert ["a", ""][..1] == ["a"] && ["a"][..0] == [];
    assert [a, b] == [a] + [b] && [a] == [] + [a];
    FilterSnoc(Under("a"), [a], b);
    FilterSnoc(Under("a"), [], a);
    FilterAll(Under("a"), []);
    FilterAll(Under(""), [a, b]);
    assert !("a" <= b.key) by {
      assert "a"[0] != b.key[0];
    }
    assert Listing(["a"], [a, b]) == [] + [a];
  }

  lemma DoomedAll(config: Config, now: int, os: seq<ObjectSummary>)
    requires config.protectedPrefixes == [] && config.retentionSecs == 1 && now == 1_000
    requires forall i :: 0 <= i < |os| ==> os[i].lastModified == Some(0)
    ensures Filter(Doomed(config, now), os) == os
  {
    FilterAll(Doomed(config, now), os);
  }

  lemma FirstsOfThree(a: ObjectSummary, b: ObjectSummary)
    requires a.key != b.key
    ensures FirstOfEachKey([a, a, b]) == [a, b]
  {
    assert [a, a, b][..2] == [a, a] && [a, a][..1] == [a] && [a][..0] == [];
    assert FirstOfEachKey([a]) == [] + [a];
    assert a.key in KeySet([a]);
    assert FirstOfEachKey([a, a]) == [a];
    assert b.key !in KeySet([a, a]);
  }

  lemma {:induction false} ListingRepeatsAreSame(prefixes: seq<string>, store: seq<ObjectSummary>)
    requires DistinctKeys(store)
    ensures SameSummaries(Listing(prefixes, store))
  {
    hide Listing;
    forall o, q | o in Listing(prefixes, store) && q in Listing(prefixes, store) && o.key == q.key
      ensures o == q
    {
      ListingMembers(prefixes, store, o);
      ListingMembers(prefixes, store, q);
    }
  }

  /** A run that stays below the limit, or whose prefixes are incomparable, deletes the same keys either way. */
  lemma RunDeletesAlike(config: Config, now: int, store: seq<ObjectSummary>)
    requires DistinctKeys(store)
    requires Incomparable(config.prefixes) || !PlanOf(config, now, Listing(config.prefixes, store)).stopped
    ensures var listed := Listing(config.prefixes, store);
            KeysOf(Chosen(config, now, listed)) == KeysOf(Chosen(config, now, FirstOfEachKey(listed)))
  {
    hide Listing, Chosen, KeysOf, FirstOfEachKey, Filter, KeySet, DistinctKeys, Incomparable;
    var listed := Listing(config.prefixes, store);
    ListingRepeatsAreSame(config.prefixes, store);
    StreamingDeletesAlikeIff(config, now, listed);
    var expired := Filter(Doomed(config, now), listed);
    if Incomparable(config.prefixes) {
      IncomparableListsOnce(config.prefixes, store);
      FilterKeepsDistinct(Doomed(config, now), listed);
      DistinctPrefix(expired, config.maxDeletes);
    }
  }

  lemma DistinctPrefix(os: seq<ObjectSummary>, n: nat)
    requires DistinctKeys(os)
    ensures DistinctKeys(FirstFew(os, n))
  {
  }

  /** The deduplicating planner, as a sweep that skips keys it has seen. */
  method PlanRetentionDeletes(config: Config, now: int, os: seq<ObjectSummary>) returns (sweep: Sweep)
    ensures fresh(sweep) && sweep.config == config && sweep.now == now
    ensures sweep.Planned(FirstOfEachKey(os))
  {
    hide PlanOf;
    sweep := new Sweep(config, now, []);
    var seen: set<string> := {};
    for i := 0 to |os|
      invariant fresh(sweep) && sweep.config == config && sweep.now == now
      invariant seen == KeySet(os[..i])
      invariant sweep.Planned(FirstOfEachKey(os[..i])) && sweep.Undeleted()
    {
      assert os[..i + 1][..i] == os[..i];
      KeySetSnoc(os[..i], os[i]);
      assert os[..i + 1] == os[..i] + [os[i]];
      if os[i].key in seen {
        continue;
      }
      seen := seen + {os[i].key};
      sweep.Observe(os[i], FirstOfEachKey(os[..i]));
    }
    assert os[..|os|] == os;
  }

  // ------------------------------------------------------------------ prefixes

  predicate Comparable(p: string, q: string) { p <= q || q <= p }

  ghost predicate Incomparable(prefixes: seq<string>)
  {
    forall i, j :: 0 <= i < j < |prefixes| ==> !Comparable(prefixes[i], prefixes[j])
  }

  lemma {:induction false} FilterKeepsDistinct(p: ObjectSummary -> bool, os: seq<ObjectSummary>)
    requires DistinctKeys(os)
    ensures DistinctKeys(Filter(p, os))
  {
    if os != [] {
      var front, last := os[..|os| - 1], os[|os| - 1];
      FilterKeepsDistinct(p, front);
      forall i | 0 <= i < |Filter(p, front)|
        ensures Filter(p, front)[i].key != last.key
      {
        FilterMembers(p, front, Filter(p, front)[i]);
        var k :| 0 <= k < |front| && front[k] == Filter(p, front)[i];
        assert os[k].key != os[|os| - 1].key;
      }
    }
  }

  lemma CommonExtension(p: string, q: string, s: string)
    requires p <= s && q <= s
    ensures Comparable(p, q)
  {
    if |p| <= |q| {
      assert q[..|p|] == s[..|p|] == p;
    } else {
      assert p[..|q|] == s[..|q|] == q;
    }
  }

  lemma {:induction false} IncomparableListsOnce(prefixes: seq<string>, store: seq<ObjectSummary>)
    requires Incomparable(prefixes) && DistinctKeys(store)
    ensures DistinctKeys(Listing(prefixes, store))
  {
    if prefixes != [] {
      var n := |prefixes| - 1;
      var front, last := prefixes[..n], prefixes[n];
      IncomparableListsOnce(front, store);
      FilterKeepsDistinct(Under(last), store);
      var a, b := Listing(front, store), Filter(Under(last), store);
      forall i, j | 0 <= i < |a| && 0 <= j < |b|
        ensures a[i].key != b[j].key
      {
        ListingMembers(front, store, a[i]);
        FilterMembers(Under(last), store, b[j]);
        var k :| 0 <= k < |front| && front[k] <= a[i].key;
        if a[i].key == b[j].key {
          CommonExtension(prefixes[k], last, a[i].key);
        }
      }
    }
  }

  lemma RepeatAcross(a: seq<ObjectSummary>, b: seq<ObjectSummary>, o: ObjectSummary)
    requires o in a && o in b
    ensures !DistinctKeys(a + b)
  {
    var x :| 0 <= x < |a| && a[x] == o;
    var y :| 0 <= y < |b| && b[y] == o;
    assert (a + b)[x].key == (a + b)[|a| + y].key;
  }

  lemma RepeatStays(a: seq<ObjectSummary>, b: seq<ObjectSummary>)
    requires !DistinctKeys(a)
    ensures !DistinctKeys(a + b)
  {
    var x, y :| 0 <= x < y < |a| && a[x].key == a[y].key;
    assert (a + b)[x].key == (a + b)[y].key;
  }

  lemma {:induction false} ListedAgain(prefixes: seq<string>, o: ObjectSummary, i: nat, j: nat)
    requires i < j < |prefixes| && prefixes[i] <= o.key && prefixes[j] <= o.key
    ensures !DistinctKeys(Listing(prefixes, [o]))
  {
    hide DistinctKeys, Filter;
    var n := |prefixes| - 1;
    var front, last := prefixes[..n], prefixes[n];
    var a, b := Listing(front, [o]), Filter(Under(last), [o]);
    if j < n {
      ListedAgain(front, o, i, j);
      RepeatStays(a, b);
    } else {
      assert front[i] <= o.key;
      ListingMembers(front, [o], o);
      FilterMembers(Under(last), [o], o);
      RepeatAcross(a, b, o);
    }
  }

  /** No bucket is ever listed twice over exactly when no configured prefix extends or repeats another. */
  lemma ListsOnceIff(prefixes: seq<string>)
    ensures Incomparable(prefixes) <==> forall store :: DistinctKeys(store) ==> DistinctKeys(Listing(prefixes, store))
  {
    if Incomparable(prefixes) {
      forall store | DistinctKeys(store)
        ensures DistinctKeys(Listing(prefixes, store))
      {
        IncomparableListsOnce(prefixes, store);
      }
    } else {
      var i, j :| 0 <= i < j < |prefixes| && Comparable(prefixes[i], prefixes[j]);
      var o := ObjectSummary(if prefixes[i] <= prefixes[j] then prefixes[j] else prefixes[i], 0, None);
      ListedAgain(prefixes, o, i, j);
      assert DistinctKeys([o]);
    }
  }

  const L0_PREFIXES: seq<string> := ["raw_market_event/", "source_health/", "symbol_health/", "gap_alert/", "runs/"]

  const L1_PREFIXES: seq<string> := [
    "normalized_market_slice/", "normalization_report/", "market_data_quality_summary/",
    "market_feature_delta/", "market_feature_delta_summary/", "market_regime_context/",
    "symbol_universe_snapshot/", "runs/", "l1_index/"]

  lemma DefaultPrefixesAreIncomparable()
    ensures Incomparable(L0_PREFIXES) && Incomparable(L1_PREFIXES)
  {
    hide Comparable;
    forall i, j | 0 <= i < j < |L0_PREFIXES|
      ensures !Comparable(L0_PREFIXES[i], L0_PREFIXES[j])
    {
      DifferAt(L0_PREFIXES[i], L0_PREFIXES[j], if L0_PREFIXES[i][0] == L0_PREFIXES[j][0] then 1 else 0);
    }
    forall i, j | 0 <= i < j < |L1_PREFIXES|
      ensures !Comparable(L1_PREFIXES[i], L1_PREFIXES[j])
    {
      DifferAt(L1_PREFIXES[i], L1_PREFIXES[j],
               if i == 0 && j == 1 then 8
               else if i == 3 && j == 4 then 20
               else if 2 <= i && j <= 5 then 7
               else 0);
    }
  }

  lemma DifferAt(p: string, q: string, k: nat)
    requires k < |p| && k < |q| && p[k] != q[k]
    ensures !Comparable(p, q)
  {
  }

  // -------------------------------------------------------------- bootstrap markers

  function Number(n: int): string { if n >= 0 then ObjectKeys.Decimal(n) else "-" + ObjectKeys.Decimal(-n) }

  function MarkerSegments(chunk: Bootstrap.Chunk, name: string): seq<string>
  {
    ["supervisor", "bootstrap", "venue=binance", "start_ms=" + Number(chunk.start), "end_ms=" + Number(chunk.end), name]
  }

  function MarkerKey(chunk: Bootstrap.Chunk, name: string): string { ObjectKeys.Join(MarkerSegments(chunk, name)) }

  lemma NumberInjective(m: int, n: int)
    ensures '/' !in Number(m)
    ensures Number(m) == Number(n) ==> m == n
  {
    ObjectKeys.DecimalRoundTrips(if m >= 0 then m else -m);
    ObjectKeys.DecimalRoundTrips(if n >= 0 then n else -n);
    if Number(m) == Number(n) && (m < 0 || n < 0) {
      assert Number(m)[0] == Number(n)[0];
      DecimalStarts(if m >= 0 then m else -m);
      DecimalStarts(if n >= 0 then n else -n);
      ObjectKeys.PrefixCancels("-", Number(m)[1..], Number(n)[1..]);
    }
  }

  lemma {:induction false} DecimalStarts(n: nat)
    ensures ObjectKeys.Decimal(n) != "" && ObjectKeys.Decimal(n)[0] != '-'
  {
    ObjectKeys.DecimalRoundTrips(n);
    assert n >= 10 ==> ObjectKeys.Decimal(n) == ObjectKeys.Decimal(n / 10) + [ObjectKeys.Digit(n % 10)];
    assert ObjectKeys.Decimal(n)[0] in ObjectKeys.Decimal(n);
  }

  /** A marker key names one chunk and one marker, so the set of marked chunks is what the bucket holds. */
  lemma MarkerKeysNameChunks(c: Bootstrap.Chunk, d: Bootstrap.Chunk, name: string, other: string)
    requires '/' !in name && '/' !in other && MarkerKey(c, name) == MarkerKey(d, other)
    ensures c == d && name == other
  {
    hide ObjectKeys.Join, Number;
    var s, t := MarkerSegments(c, name), MarkerSegments(d, other);
    NumberInjective(c.start, d.start);
    NumberInjective(d.start, c.start);
    NumberInjective(c.end, d.end);
    NumberInjective(d.end, c.end);
    MarkerLabelsSlashFree();
    ObjectKeys.JoinInjective(s, t);
    assert s[3] == t[3] && s[4] == t[4] && s[5] == t[5];
    ObjectKeys.PrefixCancels("start_ms=", Number(c.start), Number(d.start));
    ObjectKeys.PrefixCancels("end_ms=", Number(c.end), Number(d.end));
  }

  lemma MarkerLabelsSlashFree()
    ensures '/' !in "supervisor" && '/' !in "bootstrap" && '/' !in "venue=binance"
    ensures '/' !in "start_ms=" && '/' !in "end_ms="
  {
  }

  /** Retention of either layer never reaches a bootstrap marker. */
  lemma MarkersOutliveRetention(config: Config, now: int, store: seq<ObjectSummary>,
                                chunk: Bootstrap.Chunk, name: string)
    requires config.prefixes == L0_PREFIXES || config.prefixes == L1_PREFIXES
    ensures MarkerKey(chunk, name) !in KeysOf(Chosen(config, now, Listing(config.prefixes, store)))
  {
    hide Chosen, Listing, Decide;
    var key, listed := MarkerKey(chunk, name), Listing(config.prefixes, store);
    forall c | c in Chosen(config, now, listed)
      ensures c.key != key
    {
      ChosenMembers(config, now, listed, c);
      var p :| p in listed && Decide(config, now, p).Delete? && c == CandidateOf(config, now, p);
      ListingMembers(config.prefixes, store, p);
      MarkerIsUnreachable(chunk, name);
    }
  }

  lemma MarkerIsUnreachable(chunk: Bootstrap.Chunk, name: string)
    ensures !Reachable(L0_PREFIXES, MarkerKey(chunk, name)) && !Reachable(L1_PREFIXES, MarkerKey(chunk, name))
  {
    hide Number;
    var key := MarkerKey(chunk, name);
    ObjectKeys.JoinStartsWith(MarkerSegments(chunk, name));
    assert key[0] == 's' && key[1] == 'u';
  }
}
