/**
 What a publisher that nothing disturbs leaves behind: its outputs, report and
 manifest, and for a success or an empty run the pointers of exactly the windows
 of its range, through which a reader reads that run.
 */
module PublicationProgress {
  import opened Wrappers
  import opened Times
  import opened Publication

  lemma {:induction false} RunAppends(s: System, a: seq<Action>, b: seq<Action>)
    ensures Run(s, a + b) == Run(Run(s, a), b)
    decreases |b|
  {
    hide Next;
    if b == [] {
      assert a + b == a;
    } else {
      assert (a + b)[..|a + b| - 1] == a + b[..|b| - 1];
      RunAppends(s, a, b[..|b| - 1]);
    }
  }

  lemma RunOne(s: System, a: Action)
    ensures Run(s, [a]) == Next(s, a)
  {
    assert [a][..0] == [];
  }

  lemma RunSnoc(s: System, actions: seq<Action>, a: Action)
    ensures Run(s, actions + [a]) == Next(Run(s, actions), a)
  {
    RunAppends(s, actions, [a]);
    RunOne(Run(s, actions), a);
  }

  /** A publisher between two calls: alive, at this stage, and no request of anybody's number is taken ahead. */
  predicate Between(s: System, pid: nat, job: Job, p: Progress)
  {
    && pid in s.jobs && s.jobs[pid] == job && pid in s.progress && s.progress[pid] == p && !p.stopped
    && forall r :: r in s.acks ==> r < |s.requests|
  }

  /** One undisturbed call: it is acknowledged, its key holds its body, and nothing else in the store moved. */
  ghost predicate Called(s: System, t: System, id: CallId)
    requires id.pid in s.jobs
  {
    var job := s.jobs[id.pid];
    && t.jobs == s.jobs && t.progress == s.progress
    && t.store == s.store[KeyOf(job, id.target) := BodyOf(job, id.target)]
    && t.calls == s.calls[id := Call(1, Acked)]
    && forall r :: r in t.acks ==> r < |t.requests|
  }

  lemma Calls(s: System, pid: nat, job: Job, p: Progress, target: Target) returns (actions: seq<Action>)
    requires Between(s, pid, job, p) && CallId(pid, target) !in s.calls && MayStart(job, p, target)
    ensures Called(s, Run(s, actions), CallId(pid, target))
  {
    hide KeyOf, BodyOf, MayStart;
    var id := CallId(pid, target);
    actions := [Start(id)];
    RunOne(s, Start(id));
    var a := Next(s, Start(id));
    if target.Pointer? {
      RunSnoc(s, actions, Head(id));
      actions := actions + [Head(id)];
      a := Next(a, Head(id));
    }
    SendAndDeliver(s, a, id);
    var b := Next(a, Send(id));
    var c := Next(b, Deliver(|s.requests|));
    RunSnoc(s, actions, Send(id));
    RunSnoc(s, actions + [Send(id)], Deliver(|s.requests|));
    RunSnoc(s, actions + [Send(id)] + [Deliver(|s.requests|)], Receive(id));
    actions := actions + [Send(id)] + [Deliver(|s.requests|)] + [Receive(id)];
    assert Run(s, actions) == Next(c, Receive(id));
  }

  /** From an idle call whose sight is the store's own, sending, delivering and receiving completes it. */
  lemma SendAndDeliver(s: System, a: System, id: CallId)
    requires id.pid in s.jobs && a.jobs == s.jobs && a.progress == s.progress && a.store == s.store
    requires a.requests == s.requests && a.acks == s.acks && (forall r :: r in s.acks ==> r < |s.requests|)
    requires Live(a, id.pid) && a.calls == s.calls[id := Call(0, Idle)] && id in a.sights
    requires var key := KeyOf(s.jobs[id.pid], id.target);
             a.sights[id].expected == if id.target.Pointer? then Lookup(s.store, key) else None
    ensures Called(s, Next(Next(Next(a, Send(id)), Deliver(|s.requests|)), Receive(id)), id)
  {
    hide BodyOf;
    var key := KeyOf(s.jobs[id.pid], id.target);
    KeyKinds(s.jobs[id.pid], id.target);
    var b := Next(a, Send(id));
    var c := Next(b, Deliver(|s.requests|));
    assert c.store == s.store[key := BodyOf(s.jobs[id.pid], id.target)] && c.acks == s.acks[|s.requests| := true];
    var d := Next(c, Receive(id));
    assert d.calls == s.calls[id := Call(1, Acked)];
  }

  lemma KeyKinds(job: Job, target: Target)
    ensures KeyOf(job, target).PointerKey? <==> target.Pointer?
  {
  }

  // ---------------------------------------------------------- outputs, report, manifest

  /** No call of this process from the stage on, and no pointer call at all. */
  ghost predicate Uncalled(calls: map<CallId, Call>, pid: nat, stage: nat)
  {
    forall id :: id in calls && id.pid == pid ==> id.target.Put? && id.target.index < stage
  }

  /** What the job's first n puts leave in a store. */
  ghost predicate PutsDone(job: Job, n: nat, before: Store, after: Store)
  {
    && (forall k: nat :: k < n ==>
          KeyOf(job, Put(k)) in after && after[KeyOf(job, Put(k))] == BodyOf(job, Put(k)))
    && (forall key: Key :: key.PointerKey? ==> Lookup(after, key) == Lookup(before, key))
  }

  lemma PutsExtend(job: Job, n: nat, before: Store, middle: Store, after: Store)
    requires PutsDone(job, n, before, middle)
    requires after == middle[KeyOf(job, Put(n)) := BodyOf(job, Put(n))]
    ensures PutsDone(job, n + 1, before, after)
  {
    KeyKinds(job, Put(n));
    forall k: nat | k < n + 1
      ensures KeyOf(job, Put(k)) in after && after[KeyOf(job, Put(k))] == BodyOf(job, Put(k))
    {
      if KeyOf(job, Put(k)) == KeyOf(job, Put(n)) {
        SameKeySameBody(job, k, n);
      }
    }
  }

  lemma SameKeySameBody(job: Job, j: nat, k: nat)
    requires KeyOf(job, Put(j)) == KeyOf(job, Put(k))
    ensures BodyOf(job, Put(j)) == BodyOf(job, Put(k))
  {
  }

  /** Every put of the plan from a stage on, one after the other. */
  lemma {:induction false} PutsAll(s: System, pid: nat, job: Job, stage: nat, before: Store)
    returns (actions: seq<Action>)
    requires stage <= PlanLength(job) && Between(s, pid, job, Progress(stage, false, false))
    requires Uncalled(s.calls, pid, stage) && PutsDone(job, stage, before, s.store)
    ensures var t := Run(s, actions);
            && Between(t, pid, job, Progress(PlanLength(job), false, false))
            && Uncalled(t.calls, pid, PlanLength(job)) && PutsDone(job, PlanLength(job), before, t.store)
    decreases PlanLength(job) - stage
  {
    hide KeyOf, BodyOf, PutsDone, Next;
    actions := [];
    if stage < PlanLength(job) {
      var id := CallId(pid, Put(stage));
      var call := Calls(s, pid, job, Progress(stage, false, false), Put(stage));
      var a := Run(s, call);
      PutsExtend(job, stage, before, s.store, a.store);
      Advances(a, pid, job, stage);
      RunSnoc(s, call, Advance(pid));
      var rest := PutsAll(Next(a, Advance(pid)), pid, job, stage + 1, before);
      actions := call + [Advance(pid)] + rest;
      RunAppends(s, call + [Advance(pid)], rest);
    } else {
      assert Run(s, []) == s;
    }
  }

  lemma Advances(a: System, pid: nat, job: Job, stage: nat)
    requires Between(a, pid, job, Progress(stage, false, false))
    requires CallId(pid, Put(stage)) in a.calls && a.calls[CallId(pid, Put(stage))].phase.Acked?
    ensures var b := Next(a, Advance(pid));
            && Between(b, pid, job, Progress(stage + 1, false, false)) && b.calls == a.calls && b.store == a.store
  {
  }

  // --------------------------------------------------------------------- pointers

  /** No pointer call of this process from the window on. */
  ghost predicate Unpointed(calls: map<CallId, Call>, pid: nat, since: int)
  {
    forall id :: id in calls && id.pid == pid && id.target.Pointer? ==> id.target.windowStart < since
  }

  /** After indexing these windows their pointers hold the job's bodies, and every other key is as before. */
  ghost predicate PointersDone(job: Job, windows: seq<int>, before: Store, after: Store)
  {
    && (forall w :: w in windows ==>
          PointerKey(job.windowMs, w) in after && after[PointerKey(job.windowMs, w)] == BodyOf(job, Pointer(w)))
    && (forall key: Key :: !(key.PointerKey? && key.windowMs == job.windowMs && key.windowStart in windows) ==>
          Lookup(after, key) == Lookup(before, key))
  }

  lemma {:induction false} PointsAll(s: System, pid: nat, job: Job, start: int) returns (actions: seq<Action>)
    requires Between(s, pid, job, Progress(PlanLength(job), true, false)) && PublishesPointers(job.status)
    requires Unpointed(s.calls, pid, start)
    requires forall w :: w in IndexWindowStarts(start, job.range.end, job.windowMs) ==> Indexed(job, w)
    ensures PointersDone(job, IndexWindowStarts(start, job.range.end, job.windowMs), s.store, Run(s, actions).store)
    decreases job.range.end - start
  {
    hide KeyOf, BodyOf, Next, Indexed;
    actions := [];
    if job.windowMs > 0 && start < job.range.end {
      var p := Progress(PlanLength(job), true, false);
      var windows := IndexWindowStarts(start + job.windowMs, job.range.end, job.windowMs);
      assert IndexWindowStarts(start, job.range.end, job.windowMs) == [start] + windows;
      assert start in [start] + windows && forall w :: w in windows ==> w in [start] + windows;
      var call := Calls(s, pid, job, p, Pointer(start));
      var a := Run(s, call);
      var rest := PointsAll(a, pid, job, start + job.windowMs);
      actions := call + rest;
      RunAppends(s, call, rest);
      WindowsAreLater(start + job.windowMs, job.range.end, job.windowMs);
      PointersExtend(job, start, windows, s.store, a.store, Run(a, rest).store);
    } else {
      assert Run(s, []) == s;
    }
  }

  lemma {:induction false} WindowsAreLater(start: int, end: int, windowMs: int)
    ensures forall w :: w in IndexWindowStarts(start, end, windowMs) ==> start <= w
    decreases end - start
  {
    if windowMs > 0 && start < end {
      WindowsAreLater(start + windowMs, end, windowMs);
    }
  }

  lemma PointersExtend(job: Job, w: int, windows: seq<int>, before: Store, middle: Store, after: Store)
    requires middle == before[KeyOf(job, Pointer(w)) := BodyOf(job, Pointer(w))]
    requires PointersDone(job, windows, middle, after) && w !in windows
    ensures PointersDone(job, [w] + windows, before, after)
  {
    hide BodyOf;
    var key := PointerKey(job.windowMs, w);
    assert KeyOf(job, Pointer(w)) == key;
    assert Lookup(after, key) == Lookup(middle, key);
    forall k: Key | !(k.PointerKey? && k.windowMs == job.windowMs && k.windowStart in [w] + windows)
      ensures Lookup(after, k) == Lookup(before, k)
    {
      assert w in [w] + windows;
      assert Lookup(after, k) == Lookup(middle, k);
    }
  }

  // ----------------------------------------------------------------- the whole run

  lemma Verifies(s: System, pid: nat, job: Job)
    requires Between(s, pid, job, Progress(PlanLength(job), false, false))
    requires ManifestKey(job.run) in s.store && s.store[ManifestKey(job.run)].ManifestBody?
    ensures var t := Next(s, Verify(pid));
            Between(t, pid, job, Progress(PlanLength(job), true, false)) && t.calls == s.calls && t.store == s.store
  {
  }

  /** The window starts of the range, spelled out. */
  predicate IsWindow(job: Job, w: int)
  {
    job.windowMs > 0 && job.range.start <= w < job.range.end && (w - job.range.start) % job.windowMs == 0
  }

  /** What a finished publisher leaves, object by object. */
  ghost predicate Leaves(job: Job, before: Store, after: Store)
  {
    && (forall k :: 0 <= k < |job.uploads| ==>
          Lookup(after, OutputKey(job.uploads[k])) == Some(OutputBody(job.run, job.uploads[k])))
    && Lookup(after, ReportKey(job.run)) ==
         Some(ReportBody(job.run, job.status, job.range, ManifestKey(job.run), job.slices, job.extras))
    && Lookup(after, ManifestKey(job.run)) ==
         Some(ManifestBody(job.run, job.status, job.range, ReportKey(job.run), job.slices, job.extras))
    && forall ms, w ::
         Lookup(after, PointerKey(ms, w)) ==
         if (job.status == Success || job.status == Empty) && ms == job.windowMs && IsWindow(job, w)
         then Some(PointerBody(job.run, job.status, job.range, ManifestKey(job.run), w))
         else Lookup(before, PointerKey(ms, w))
  }

  /**
   Progress: from every reachable state, a newly spawned publisher can finish by
   its own steps alone. It then leaves its outputs, report and manifest; a
   success or an empty run also leaves the pointers of exactly the windows of
   its range, and no run touches any other pointer.
   */
  lemma UndisturbedPublisher(past: seq<Action>, pid: nat, job: Job) returns (actions: seq<Action>)
    requires WellFormed(job) && pid !in Run(Init, past).jobs
    ensures var s := Run(Init, past); Leaves(job, s.store, Run(s, actions).store)
  {
    hide Run, Next, KeyOf, BodyOf, IndexWindowStarts, WellFormed;
    var s := Run(Init, past);
    InitInv();
    RunKeepsInv(Init, past);
    Spawns(s, pid, job);
    var a := Next(s, Spawn(pid, job));
    RunOne(s, Spawn(pid, job));
    var puts := PutsAll(a, pid, job, 0, s.store);
    RunAppends(s, [Spawn(pid, job)], puts);
    var b := Run(a, puts);
    PutsMean(job, s.store, b.store);
    Verifies(b, pid, job);
    RunSnoc(s, [Spawn(pid, job)] + puts, Verify(pid));
    actions := [Spawn(pid, job)] + puts + [Verify(pid)];
    var c := Next(b, Verify(pid));
    if PublishesPointers(job.status) {
      WindowsAreIndexed(job);
      var points := PointsAll(c, pid, job, job.range.start);
      RunAppends(s, actions, points);
      actions := actions + points;
      PointersMean(job, s.store, c.store, Run(c, points).store);
    }
  }

  lemma WindowsAreIndexed(job: Job)
    ensures forall w :: w in IndexWindowStarts(job.range.start, job.range.end, job.windowMs) <==> Indexed(job, w)
  {
  }

  lemma Spawns(s: System, pid: nat, job: Job)
    requires Inv(s) && pid !in s.jobs && WellFormed(job)
    ensures var a := Next(s, Spawn(pid, job));
            && Between(a, pid, job, Progress(0, false, false)) && Uncalled(a.calls, pid, 0)
            && a.store == s.store && PutsDone(job, 0, s.store, a.store)
  {
    hide SightsOk, HeadingOk, RequestsOk, WaitsOk, StagesPresent, AckedPresent, ProvenanceOk, WritesOk, KeyOf, BodyOf,
         StoreAfter, IndexWindowStarts, WellFormed;
    forall id | id in s.calls
      ensures id.pid in s.jobs
    {
      assert Reached(s.jobs, s.progress, id);
    }
  }

  /** The puts of the plan, by name. */
  lemma PutsMean(job: Job, before: Store, after: Store)
    requires PutsDone(job, PlanLength(job), before, after)
    ensures forall k :: 0 <= k < |job.uploads| ==>
              Lookup(after, OutputKey(job.uploads[k])) == Some(OutputBody(job.run, job.uploads[k]))
    ensures Lookup(after, ReportKey(job.run)) ==
            Some(ReportBody(job.run, job.status, job.range, ManifestKey(job.run), job.slices, job.extras))
    ensures Lookup(after, ManifestKey(job.run)) ==
            Some(ManifestBody(job.run, job.status, job.range, ReportKey(job.run), job.slices, job.extras))
  {
    forall k | 0 <= k < |job.uploads|
      ensures Lookup(after, OutputKey(job.uploads[k])) == Some(OutputBody(job.run, job.uploads[k]))
    {
      assert KeyOf(job, Put(k)) == OutputKey(job.uploads[k]) && KeyOf(job, Put(k)) in after;
    }
    assert KeyOf(job, Put(|job.uploads|)) in after && KeyOf(job, Put(|job.uploads| + 1)) in after;
  }

  lemma PointersMean(job: Job, before: Store, middle: Store, after: Store)
    requires PutsDone(job, PlanLength(job), before, middle)
    requires PointersDone(job, IndexWindowStarts(job.range.start, job.range.end, job.windowMs), middle, after)
    requires job.status == Success || job.status == Empty
    ensures Leaves(job, before, after)
  {
    hide KeyOf, IndexWindowStarts;
    PutsMean(job, before, middle);
    forall ms: int, w: int
      ensures Lookup(after, PointerKey(ms, w)) ==
              if ms == job.windowMs && IsWindow(job, w)
              then Some(PointerBody(job.run, job.status, job.range, ManifestKey(job.run), w))
              else Lookup(before, PointerKey(ms, w))
    {
      IndexedIff(job.range.start, job.range.end, job.windowMs, w);
      assert BodyOf(job, Pointer(w)) == PointerBody(job.run, job.status, job.range, ManifestKey(job.run), w);
    }
    forall key: Key | !key.PointerKey?
      ensures Lookup(after, key) == Lookup(middle, key)
    {
    }
  }

  /** Any part of the range of a finished success can be read through any of its pointers. */
  lemma FinishedSuccessIsReadable(job: Job, before: Store, after: Store, w: int, wanted: Range)
    requires Leaves(job, before, after) && job.status == Success && job.slices != [] && IsWindow(job, w)
    requires job.range.start <= wanted.start && wanted.end <= job.range.end
    ensures var pointer := Lookup(after, PointerKey(job.windowMs, w));
            && pointer.Some? && pointer.value.PointerBody?
            && var manifest := Lookup(after, pointer.value.manifestKey);
            && manifest.Some? && manifest.value.ManifestBody?
            && var report := Lookup(after, manifest.value.reportKey);
            && report.Some? && report.value.ReportBody?
            && BuildReadPlan(pointer.value, manifest.value, report.value, wanted) == Admissible(job.run, job.slices)
  {
    assert Lookup(after, PointerKey(job.windowMs, w)).Some?;
  }

  // ------------------------------------------------------------------- retries

  function Sent(requests: seq<Request>, id: CallId): nat
  {
    if requests == [] then 0
    else Sent(requests[..|requests| - 1], id) + (if requests[|requests| - 1].id == id then 1 else 0)
  }

  /** The call counts its own requests, and has sent none before its HEAD is answered. */
  predicate CountsItsOwn(calls: map<CallId, Call>, requests: seq<Request>, id: CallId)
  {
    && Sent(requests, id) == (if id in calls then calls[id].attempts else 0)
    && (id in calls ==> calls[id].attempts <= 4 && (calls[id].phase.Heading? ==> calls[id].attempts == 0))
  }

  lemma SentSnoc(requests: seq<Request>, r: Request, id: CallId)
    ensures Sent(requests + [r], id) == Sent(requests, id) + (if r.id == id then 1 else 0)
  {
    assert (requests + [r])[..|requests|] == requests;
  }

  lemma SendCountsRequests(s: System, call: CallId, id: CallId)
    requires Enabled(s, Send(call)) && CountsItsOwn(s.calls, s.requests, id)
    ensures CountsItsOwn(Next(s, Send(call)).calls, Next(s, Send(call)).requests, id)
  {
    hide Sent, KeyOf, BodyOf, GuardFor, Live;
    SentSnoc(s.requests, Next(s, Send(call)).requests[|s.requests|], id);
  }

  lemma CallsStay(s: System, a: Action)
    requires a.Deliver? || a.Spawn? || a.Advance? || a.Verify? || a.Halt?
    ensures Next(s, a).calls == s.calls && Next(s, a).requests == s.requests
  {
    hide KeyOf, BodyOf, GuardFor, MayStart, WellFormed, Passes, Lookup, Live;
  }

  lemma NextCountsRequests(s: System, a: Action, id: CallId)
    requires CountsItsOwn(s.calls, s.requests, id)
    ensures CountsItsOwn(Next(s, a).calls, Next(s, a).requests, id)
  {
    hide Sent, KeyOf, BodyOf, GuardFor, MayStart, WellFormed, Passes, Lookup, Live;
    if Enabled(s, a) && a.Send? {
      SendCountsRequests(s, a.id, id);
    } else if a.Deliver? || a.Spawn? || a.Advance? || a.Verify? || a.Halt? {
      CallsStay(s, a);
    }
  }

  lemma {:induction false} RunCountsRequests(actions: seq<Action>, id: CallId)
    ensures CountsItsOwn(Run(Init, actions).calls, Run(Init, actions).requests, id)
  {
    hide Next;
    if actions != [] {
      RunCountsRequests(actions[..|actions| - 1], id);
      NextCountsRequests(Run(Init, actions[..|actions| - 1]), actions[|actions| - 1], id);
    }
  }

  /**
   However replies are lost, a call sends at most four requests, and after a lost reply it can send again exactly
   when it has sent fewer.
   */
  lemma RetriesAreBounded(actions: seq<Action>, id: CallId)
    ensures var s := Run(Init, actions);
            && Sent(s.requests, id) <= 4
            && (Enabled(s, Lose(id)) && id in s.sights ==>
                  (Enabled(Next(s, Lose(id)), Send(id)) <==> Sent(s.requests, id) < 4))
  {
    hide Run, Sent;
    RunCountsRequests(actions, id);
  }
}
