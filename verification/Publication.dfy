/**
 L1 publication: any number of normalizer processes put their outputs, report
 and manifest, then conditional index pointers, into one object store. Requests
 may be delivered late or never, answers may be lost, and a process may stop
 between any two steps. Steps interleave freely; an action that is not enabled
 leaves the state alone, so every action sequence is a run.
 */
module Publication {
  import opened Wrappers
  import opened Arithmetic
  import opened Times

  const MAX_PUT_OBJECT_ATTEMPTS := 4

  datatype Status = Success | Empty | Other

  /** Distinct constructors stand for the disjoint key prefixes of the bucket. */
  datatype Key =
    | OutputKey(name: nat)
    | ReportKey(run: nat)
    | ManifestKey(run: nat)
    | PointerKey(windowMs: int, windowStart: int)

  datatype Body =
    | OutputBody(run: nat, name: nat)
    | ReportBody(run: nat, status: Status, range: Range, manifestKey: Key, slices: seq<nat>, extras: seq<nat>)
    | ManifestBody(run: nat, status: Status, range: Range, reportKey: Key, slices: seq<nat>, extras: seq<nat>)
    | PointerBody(run: nat, status: Status, range: Range, manifestKey: Key, windowStart: int)

  /** The entity tag of a body; equal tags stand for equal bodies. */
  type ETag = Body

  /**
   What one process publishes: the output objects it puts, in order, and those
   its manifest names (slice objects and projection artifacts).
   */
  datatype Job = Job(run: nat, status: Status, range: Range, windowMs: int,
                     uploads: seq<nat>, slices: seq<nat>, extras: seq<nat>)

  predicate WellFormed(job: Job)
  {
    && (forall n :: n in job.slices + job.extras ==> n in job.uploads)
    && (job.status != Success ==> job.uploads == [])
  }

  datatype Target = Put(index: nat) | Pointer(windowStart: int)

  function PlanLength(job: Job): nat { |job.uploads| + 2 }

  predicate PublishesPointers(status: Status) { status == Success || status == Empty }

  /** The window starts a range is indexed under; none when the window is not positive or the range is empty. */
  function IndexWindowStarts(start: int, end: int, windowMs: int): seq<int>
    decreases end - start
  {
    if windowMs <= 0 || end <= start then []
    else [start] + IndexWindowStarts(start + windowMs, end, windowMs)
  }

  /** The cursor loop; an addition past the end of i64 ends it as reaching the range's end does. */
  method ListIndexWindowStarts(start: int, end: int, windowMs: int) returns (starts: seq<int>)
    requires end <= I64_MAX
    ensures starts == IndexWindowStarts(start, end, windowMs)
  {
    if windowMs <= 0 || end <= start {
      return [];
    }
    starts := [];
    var current := start;
    while current < end
      invariant IndexWindowStarts(start, end, windowMs) == starts + IndexWindowStarts(current, end, windowMs)
      decreases end - current
    {
      starts := starts + [current];
      if current + windowMs > I64_MAX {
        break;
      }
      current := current + windowMs;
    }
  }

  /** A range is indexed under exactly the window starts of its grid that lie in it. */
  lemma {:induction false} IndexedIff(start: int, end: int, windowMs: int, w: int)
    ensures w in IndexWindowStarts(start, end, windowMs) <==>
            windowMs > 0 && start <= w < end && (w - start) % windowMs == 0
    decreases end - start
  {
    if windowMs > 0 && start < end {
      IndexedIff(start + windowMs, end, windowMs, w);
      ModShift(w - start, windowMs);
      assert w - (start + windowMs) == w - start - windowMs;
      if start <= w < start + windowMs {
        DivUnique(w - start, windowMs, 0, w - start);
      }
    }
  }

  predicate Indexed(job: Job, windowStart: int)
  {
    windowStart in IndexWindowStarts(job.range.start, job.range.end, job.windowMs)
  }

  function KeyOf(job: Job, target: Target): Key
  {
    match target
    case Pointer(w) => PointerKey(job.windowMs, w)
    case Put(k) =>
      if k < |job.uploads| then OutputKey(job.uploads[k])
      else if k == |job.uploads| then ReportKey(job.run)
      else ManifestKey(job.run)
  }

  function BodyOf(job: Job, target: Target): Body
  {
    match target
    case Pointer(w) => PointerBody(job.run, job.status, job.range, ManifestKey(job.run), w)
    case Put(k) =>
      if k < |job.uploads| then OutputBody(job.run, job.uploads[k])
      else if k == |job.uploads| then
        ReportBody(job.run, job.status, job.range, ManifestKey(job.run), job.slices, job.extras)
      else
        ManifestBody(job.run, job.status, job.range, ReportKey(job.run), job.slices, job.extras)
  }

  datatype Guard = Unconditional | IfMatch(etag: ETag) | IfNoneMatch

  function GuardFor(key: Key, expected: Option<ETag>): Guard
  {
    match expected
    case Some(etag) => IfMatch(etag)
    case None => if key.PointerKey? then IfNoneMatch else Unconditional
  }

  type Store = map<Key, Body>

  function Lookup(store: Store, key: Key): Option<Body>
  {
    if key in store then Some(store[key]) else None
  }

  predicate Passes(guard: Guard, current: Option<Body>)
  {
    match guard
    case Unconditional => true
    case IfMatch(etag) => current == Some(etag)
    case IfNoneMatch => current == None
  }

  // ---------------------------------------------------------------- system

  datatype Progress = Progress(stage: nat, verified: bool, stopped: bool)

  datatype CallId = CallId(pid: nat, target: Target)

  datatype Phase = Heading | Idle | Waiting(request: nat) | Acked | Failed

  datatype Call = Call(attempts: nat, phase: Phase)

  /** What a call knows when it starts putting: the tag HEAD saw and when, as a length of the write log. */
  datatype Sight = Sight(expected: Option<ETag>, seenAt: nat)

  datatype Request = Request(id: CallId, key: Key, body: Body, guard: Guard)

  datatype Write = Write(id: CallId, key: Key, before: Option<Body>, after: Body)

  /** `acks` records each delivered request and whether its condition held; `log` each effective write. */
  datatype System = System(
    store: Store,
    jobs: map<nat, Job>,
    progress: map<nat, Progress>,
    calls: map<CallId, Call>,
    sights: map<CallId, Sight>,
    requests: seq<Request>,
    acks: map<nat, bool>,
    log: seq<Write>)

  const Init := System(map[], map[], map[], map[], map[], [], map[], [])

  datatype Action =
    | Spawn(pid: nat, job: Job)
    | Start(id: CallId)
    | Head(id: CallId)
    | Send(id: CallId)
    | Deliver(request: nat)
    | Receive(id: CallId)
    | Lose(id: CallId)
    | Abandon(id: CallId)
    | Advance(pid: nat)
    | Verify(pid: nat)
    | Halt(pid: nat)

  predicate Live(s: System, pid: nat)
  {
    pid in s.jobs && pid in s.progress && !s.progress[pid].stopped
  }

  predicate MayStart(job: Job, p: Progress, target: Target)
  {
    match target
    case Put(k) => k == p.stage && k < PlanLength(job)
    case Pointer(w) => p.stage == PlanLength(job) && p.verified && PublishesPointers(job.status) && Indexed(job, w)
  }

  predicate Enabled(s: System, a: Action)
  {
    match a
    case Spawn(pid, job) => pid !in s.jobs && WellFormed(job)
    case Start(id) =>
      id !in s.calls && Live(s, id.pid) && MayStart(s.jobs[id.pid], s.progress[id.pid], id.target)
    case Head(id) => id in s.calls && s.calls[id].phase.Heading? && Live(s, id.pid)
    case Send(id) =>
      && id in s.calls && id in s.sights && s.calls[id].phase.Idle? && Live(s, id.pid)
      && s.calls[id].attempts < MAX_PUT_OBJECT_ATTEMPTS
    case Deliver(r) => r < |s.requests| && r !in s.acks
    case Receive(id) =>
      id in s.calls && s.calls[id].phase.Waiting? && s.calls[id].phase.request in s.acks && Live(s, id.pid)
    case Lose(id) => id in s.calls && s.calls[id].phase.Waiting? && Live(s, id.pid)
    case Abandon(id) => id in s.calls && Live(s, id.pid)
    case Advance(pid) =>
      && Live(s, pid)
      && var id := CallId(pid, Put(s.progress[pid].stage));
         id in s.calls && s.calls[id].phase.Acked?
    case Verify(pid) =>
      && Live(s, pid) && s.progress[pid].stage == PlanLength(s.jobs[pid])
      && var key := ManifestKey(s.jobs[pid].run);
         key in s.store && s.store[key].ManifestBody?
    case Halt(pid) => pid in s.jobs && pid in s.progress
  }

  function Do(s: System, a: Action): System
    requires Enabled(s, a)
  {
    match a
    case Spawn(pid, job) =>
      s.(jobs := s.jobs[pid := job], progress := s.progress[pid := Progress(0, false, false)])
    case Start(id) =>
      if id.target.Pointer? then s.(calls := s.calls[id := Call(0, Heading)])
      else s.(calls := s.calls[id := Call(0, Idle)], sights := s.sights[id := Sight(None, 0)])
    case Head(id) =>
      var seen := Lookup(s.store, KeyOf(s.jobs[id.pid], id.target));
      s.(calls := s.calls[id := Call(0, Idle)], sights := s.sights[id := Sight(seen, |s.log|)])
    case Send(id) =>
      var job := s.jobs[id.pid];
      var key := KeyOf(job, id.target);
      s.(requests := s.requests + [Request(id, key, BodyOf(job, id.target), GuardFor(key, s.sights[id].expected))],
         calls := s.calls[id := Call(s.calls[id].attempts + 1, Waiting(|s.requests|))])
    case Deliver(r) =>
      var req := s.requests[r];
      var current := Lookup(s.store, req.key);
      if Passes(req.guard, current)
      then s.(store := s.store[req.key := req.body],
              acks := s.acks[r := true],
              log := s.log + [Write(req.id, req.key, current, req.body)])
      else s.(acks := s.acks[r := false])
    case Receive(id) =>
      var call := s.calls[id];
      s.(calls := s.calls[id := call.(phase := if s.acks[call.phase.request] then Acked else Failed)])
    case Lose(id) =>
      var call := s.calls[id];
      s.(calls := s.calls[id :=
        call.(phase := if call.attempts < MAX_PUT_OBJECT_ATTEMPTS then Idle else Failed)])
    case Abandon(id) => s.(calls := s.calls[id := s.calls[id].(phase := Failed)])
    case Advance(pid) =>
      s.(progress := s.progress[pid := s.progress[pid].(stage := s.progress[pid].stage + 1)])
    case Verify(pid) => s.(progress := s.progress[pid := s.progress[pid].(verified := true)])
    case Halt(pid) => s.(progress := s.progress[pid := s.progress[pid].(stopped := true)])
  }

  function Next(s: System, a: Action): System
  {
    if Enabled(s, a) then Do(s, a) else s
  }

  function Run(s: System, actions: seq<Action>): System
  {
    if actions == [] then s else Next(Run(s, actions[..|actions| - 1]), actions[|actions| - 1])
  }

  // ------------------------------------------------------------- invariant
  // Each clause takes only the components it speaks of, so that an action
  // leaves alone every clause about components it does not change.

  predicate StageOk(jobs: map<nat, Job>, pid: nat, p: Progress)
  {
    pid in jobs && WellFormed(jobs[pid]) && p.stage <= PlanLength(jobs[pid])
  }

  ghost predicate StagesOk(jobs: map<nat, Job>, progress: map<nat, Progress>)
  {
    jobs.Keys == progress.Keys && forall pid :: pid in progress ==> StageOk(jobs, pid, progress[pid])
  }

  predicate Reached(jobs: map<nat, Job>, progress: map<nat, Progress>, id: CallId)
  {
    && id.pid in jobs && id.pid in progress
    && match id.target
       case Put(k) => k <= progress[id.pid].stage && k < PlanLength(jobs[id.pid])
       case Pointer(w) =>
         && progress[id.pid].stage == PlanLength(jobs[id.pid])
         && PublishesPointers(jobs[id.pid].status) && Indexed(jobs[id.pid], w)
  }

  ghost predicate CallsOk(jobs: map<nat, Job>, progress: map<nat, Progress>, calls: map<CallId, Call>)
  {
    forall id :: id in calls ==> Reached(jobs, progress, id)
  }

  function StoreAfter(log: seq<Write>): Store
  {
    if log == [] then map[]
    else StoreAfter(log[..|log| - 1])[log[|log| - 1].key := log[|log| - 1].after]
  }

  /** A sight is true of the log's own past. */
  predicate SightOk(jobs: map<nat, Job>, log: seq<Write>, id: CallId, sight: Sight)
  {
    && id.pid in jobs && sight.seenAt <= |log|
    && (id.target.Put? ==> sight.expected == None)
    && (id.target.Pointer? ==>
          sight.expected == Lookup(StoreAfter(log[..sight.seenAt]), KeyOf(jobs[id.pid], id.target)))
  }

  ghost predicate SightsOk(jobs: map<nat, Job>, sights: map<CallId, Sight>, log: seq<Write>)
  {
    forall id :: id in sights ==> SightOk(jobs, log, id, sights[id])
  }

  /** A pointer call that is still heading has seen nothing yet; only started calls have seen anything. */
  ghost predicate HeadingOk(calls: map<CallId, Call>, sights: map<CallId, Sight>)
  {
    && (forall id :: id in calls && calls[id].phase.Heading? ==> id !in sights && id.target.Pointer?)
    && (forall id :: id in sights ==> id in calls)
  }

  predicate RequestOk(jobs: map<nat, Job>, sights: map<CallId, Sight>, req: Request)
  {
    && req.id in sights && req.id.pid in jobs
    && req.key == KeyOf(jobs[req.id.pid], req.id.target)
    && req.body == BodyOf(jobs[req.id.pid], req.id.target)
    && req.guard == GuardFor(req.key, sights[req.id].expected)
  }

  ghost predicate RequestsOk(jobs: map<nat, Job>, sights: map<CallId, Sight>, requests: seq<Request>)
  {
    forall r :: 0 <= r < |requests| ==> RequestOk(jobs, sights, requests[r])
  }

  ghost predicate WaitsOk(calls: map<CallId, Call>, requests: seq<Request>)
  {
    forall id :: id in calls && calls[id].phase.Waiting? ==>
      calls[id].phase.request < |requests| && requests[calls[id].phase.request].id == id
  }

  ghost predicate AcksOk(requests: seq<Request>, acks: map<nat, bool>, store: Store)
  {
    forall r :: r in acks ==> r < |requests| && (acks[r] ==> requests[r].key in store)
  }

  predicate Present(jobs: map<nat, Job>, store: Store, pid: nat, target: Target)
  {
    pid in jobs && KeyOf(jobs[pid], target) in store
  }

  /** Every step a process has behind it is in the store. */
  ghost predicate StagesPresent(jobs: map<nat, Job>, progress: map<nat, Progress>, store: Store)
  {
    forall pid, k: nat :: pid in progress && k < progress[pid].stage ==> Present(jobs, store, pid, Put(k))
  }

  ghost predicate AckedPresent(jobs: map<nat, Job>, calls: map<CallId, Call>, store: Store)
  {
    forall id :: id in calls && calls[id].phase.Acked? ==> Present(jobs, store, id.pid, id.target)
  }

  predicate WrittenBy(jobs: map<nat, Job>, sights: map<CallId, Sight>, store: Store, key: Key, id: CallId)
  {
    && id in sights && id.pid in jobs && key in store
    && key == KeyOf(jobs[id.pid], id.target)
    && store[key] == BodyOf(jobs[id.pid], id.target)
  }

  ghost predicate ProvenanceOk(jobs: map<nat, Job>, sights: map<CallId, Sight>, store: Store)
  {
    forall key :: key in store ==> exists id :: WrittenBy(jobs, sights, store, key, id)
  }

  predicate WriteOk(jobs: map<nat, Job>, sights: map<CallId, Sight>, log: seq<Write>, i: nat)
    requires i < |log|
  {
    var w := log[i];
    && w.id in sights && w.id.pid in jobs
    && w.key == KeyOf(jobs[w.id.pid], w.id.target)
    && w.after == BodyOf(jobs[w.id.pid], w.id.target)
    && w.before == Lookup(StoreAfter(log[..i]), w.key)
    && (w.key.PointerKey? ==> w.before == sights[w.id].expected && sights[w.id].seenAt <= i)
  }

  ghost predicate WritesOk(jobs: map<nat, Job>, sights: map<CallId, Sight>, log: seq<Write>)
  {
    forall i: nat :: i < |log| ==> WriteOk(jobs, sights, log, i)
  }

  ghost predicate Inv(s: System)
  {
    && StagesOk(s.jobs, s.progress)
    && CallsOk(s.jobs, s.progress, s.calls)
    && SightsOk(s.jobs, s.sights, s.log)
    && HeadingOk(s.calls, s.sights)
    && RequestsOk(s.jobs, s.sights, s.requests)
    && WaitsOk(s.calls, s.requests)
    && AcksOk(s.requests, s.acks, s.store)
    && StagesPresent(s.jobs, s.progress, s.store)
    && AckedPresent(s.jobs, s.calls, s.store)
    && ProvenanceOk(s.jobs, s.sights, s.store)
    && WritesOk(s.jobs, s.sights, s.log)
    && s.store == StoreAfter(s.log)
  }

  // Growth: more jobs, more sights or a longer log leave earlier clauses true.

  predicate MoreJobs(jobs: map<nat, Job>, jobs': map<nat, Job>)
  {
    forall pid :: pid in jobs ==> pid in jobs' && jobs'[pid] == jobs[pid]
  }

  predicate MoreSights(sights: map<CallId, Sight>, sights': map<CallId, Sight>)
  {
    forall id :: id in sights ==> id in sights' && sights'[id] == sights[id]
  }

  lemma RequestsGrow(jobs: map<nat, Job>, jobs': map<nat, Job>, sights: map<CallId, Sight>, sights': map<CallId, Sight>,
                     requests: seq<Request>)
    requires RequestsOk(jobs, sights, requests) && MoreJobs(jobs, jobs') && MoreSights(sights, sights')
    ensures RequestsOk(jobs', sights', requests)
  {
    forall r | 0 <= r < |requests|
      ensures RequestOk(jobs', sights', requests[r])
    {
      assert RequestOk(jobs, sights, requests[r]);
    }
  }

  lemma ProvenanceGrows(jobs: map<nat, Job>, jobs': map<nat, Job>,
                        sights: map<CallId, Sight>, sights': map<CallId, Sight>,
                        store: Store)
    requires ProvenanceOk(jobs, sights, store) && MoreJobs(jobs, jobs') && MoreSights(sights, sights')
    ensures ProvenanceOk(jobs', sights', store)
  {
    forall key | key in store
      ensures exists id :: WrittenBy(jobs', sights', store, key, id)
    {
      var id :| WrittenBy(jobs, sights, store, key, id);
      assert WrittenBy(jobs', sights', store, key, id);
    }
  }

  lemma WritesGrow(jobs: map<nat, Job>, jobs': map<nat, Job>, sights: map<CallId, Sight>, sights': map<CallId, Sight>,
                   log: seq<Write>)
    requires WritesOk(jobs, sights, log) && MoreJobs(jobs, jobs') && MoreSights(sights, sights')
    ensures WritesOk(jobs', sights', log)
  {
    forall i: nat | i < |log|
      ensures WriteOk(jobs', sights', log, i)
    {
      assert WriteOk(jobs, sights, log, i);
    }
  }

  lemma PresenceGrows(jobs: map<nat, Job>, jobs': map<nat, Job>, progress: map<nat, Progress>, calls: map<CallId, Call>,
                      store: Store, store': Store)
    requires StagesPresent(jobs, progress, store) && AckedPresent(jobs, calls, store)
    requires MoreJobs(jobs, jobs') && store.Keys <= store'.Keys
    ensures StagesPresent(jobs', progress, store') && AckedPresent(jobs', calls, store')
  {
    forall pid, k: nat | pid in progress && k < progress[pid].stage
      ensures Present(jobs', store', pid, Put(k))
    {
      assert Present(jobs, store, pid, Put(k));
    }
    forall id | id in calls && calls[id].phase.Acked?
      ensures Present(jobs', store', id.pid, id.target)
    {
      assert Present(jobs, store, id.pid, id.target);
    }
  }

  lemma SightsGrow(jobs: map<nat, Job>, jobs': map<nat, Job>, sights: map<CallId, Sight>,
                   log: seq<Write>, log': seq<Write>)
    requires SightsOk(jobs, sights, log) && MoreJobs(jobs, jobs') && log <= log'
    ensures SightsOk(jobs', sights, log')
  {
    forall id | id in sights
      ensures SightOk(jobs', log', id, sights[id])
    {
      assert SightOk(jobs, log, id, sights[id]);
      assert log'[..sights[id].seenAt] == log[..sights[id].seenAt];
    }
  }

  lemma CallsGrow(jobs: map<nat, Job>, progress: map<nat, Progress>, pid: nat, job: Job, calls: map<CallId, Call>)
    requires CallsOk(jobs, progress, calls) && pid !in jobs
    ensures CallsOk(jobs[pid := job], progress[pid := Progress(0, false, false)], calls)
  {
    hide Indexed, PublishesPointers;
    forall id | id in calls
      ensures Reached(jobs[pid := job], progress[pid := Progress(0, false, false)], id)
    {
      assert Reached(jobs, progress, id);
    }
  }

  lemma SpawnKeepsInv(s: System, pid: nat, job: Job)
    requires Inv(s) && pid !in s.jobs && WellFormed(job)
    ensures Inv(s.(jobs := s.jobs[pid := job], progress := s.progress[pid := Progress(0, false, false)]))
  {
    hide SightsOk, HeadingOk, RequestsOk, WaitsOk, AcksOk, AckedPresent, ProvenanceOk, WritesOk, KeyOf, BodyOf,
         StoreAfter, IndexWindowStarts, SightOk, WellFormed, Indexed, PublishesPointers, CallsOk;
    var t := s.(jobs := s.jobs[pid := job], progress := s.progress[pid := Progress(0, false, false)]);
    RequestsGrow(s.jobs, t.jobs, s.sights, s.sights, s.requests);
    ProvenanceGrows(s.jobs, t.jobs, s.sights, s.sights, s.store);
    WritesGrow(s.jobs, t.jobs, s.sights, s.sights, s.log);
    PresenceGrows(s.jobs, t.jobs, s.progress, s.calls, s.store, s.store);
    SightsGrow(s.jobs, t.jobs, s.sights, s.log, s.log);
    CallsGrow(s.jobs, s.progress, pid, job, s.calls);
    forall q | q in t.progress
      ensures StageOk(t.jobs, q, t.progress[q])
    {
      assert q != pid ==> StageOk(s.jobs, q, s.progress[q]);
    }
    assert t.jobs.Keys == t.progress.Keys;
  }

  lemma ProgressKeepsInv(s: System, pid: nat, p: Progress)
    requires Inv(s) && pid in s.jobs && pid in s.progress
    requires var q := s.progress[pid];
             p.stage == q.stage
             || (p.stage == q.stage + 1 && CallId(pid, Put(q.stage)) in s.calls
                 && s.calls[CallId(pid, Put(q.stage))].phase.Acked?)
    ensures Inv(s.(progress := s.progress[pid := p]))
  {
    hide SightsOk, HeadingOk, RequestsOk, WaitsOk, AcksOk, ProvenanceOk, WritesOk, KeyOf, BodyOf, StoreAfter,
         IndexWindowStarts, WellFormed, SightOk;
    var q, progress := s.progress[pid], s.progress[pid := p];
    assert StageOk(s.jobs, pid, q);
    if p.stage == q.stage + 1 {
      assert Reached(s.jobs, s.progress, CallId(pid, Put(q.stage)));
      assert Present(s.jobs, s.store, pid, CallId(pid, Put(q.stage)).target);
    }
    forall id | id in s.calls
      ensures Reached(s.jobs, progress, id)
    {
      assert Reached(s.jobs, s.progress, id);
    }
    forall r | r in progress
      ensures StageOk(s.jobs, r, progress[r])
    {
      assert StageOk(s.jobs, r, s.progress[r]);
    }
    assert s.jobs.Keys == progress.Keys;
    forall r, k: nat | r in progress && k < progress[r].stage
      ensures Present(s.jobs, s.store, r, Put(k))
    {
      assert k < s.progress[r].stage ==> Present(s.jobs, s.store, r, Put(k));
    }
  }

  /** A call changes its phase: it waits only for its own request, and is acknowledged only with its object there. */
  lemma CallKeepsInv(s: System, id: CallId, c: Call)
    requires Inv(s) && Reached(s.jobs, s.progress, id)
    requires c.phase.Heading? ==> id !in s.sights && id.target.Pointer?
    requires c.phase.Waiting? ==> c.phase.request < |s.requests| && s.requests[c.phase.request].id == id
    requires c.phase.Acked? ==> Present(s.jobs, s.store, id.pid, id.target)
    ensures Inv(s.(calls := s.calls[id := c]))
  {
    hide StagesOk, SightsOk, RequestsOk, AcksOk, StagesPresent, ProvenanceOk, WritesOk, KeyOf, BodyOf, StoreAfter,
         IndexWindowStarts, WellFormed, SightOk, Reached;
  }

  lemma SightKeepsInv(s: System, id: CallId, sight: Sight)
    requires Inv(s) && id !in s.sights && id in s.calls && !s.calls[id].phase.Heading?
    requires SightOk(s.jobs, s.log, id, sight)
    ensures Inv(s.(sights := s.sights[id := sight]))
  {
    hide StagesOk, CallsOk, RequestsOk, WaitsOk, AcksOk, StagesPresent, AckedPresent, ProvenanceOk, WritesOk,
         KeyOf, BodyOf, StoreAfter, IndexWindowStarts, WellFormed, SightOk;
    var sights := s.sights[id := sight];
    RequestsGrow(s.jobs, s.jobs, s.sights, sights, s.requests);
    ProvenanceGrows(s.jobs, s.jobs, s.sights, sights, s.store);
    WritesGrow(s.jobs, s.jobs, s.sights, sights, s.log);
  }

  lemma RequestKeepsInv(s: System, req: Request)
    requires Inv(s) && RequestOk(s.jobs, s.sights, req)
    ensures Inv(s.(requests := s.requests + [req]))
  {
    hide StagesOk, CallsOk, SightsOk, HeadingOk, StagesPresent, AckedPresent, ProvenanceOk, WritesOk, KeyOf,
         BodyOf, StoreAfter, IndexWindowStarts, WellFormed, SightOk, RequestOk;
  }

  lemma AppliedKeepsWrites(jobs: map<nat, Job>, sights: map<CallId, Sight>, log: seq<Write>, req: Request)
    requires WritesOk(jobs, sights, log) && SightsOk(jobs, sights, log) && RequestOk(jobs, sights, req)
    requires Passes(req.guard, Lookup(StoreAfter(log), req.key))
    ensures WritesOk(jobs, sights, log + [Write(req.id, req.key, Lookup(StoreAfter(log), req.key), req.body)])
  {
    var log' := log + [Write(req.id, req.key, Lookup(StoreAfter(log), req.key), req.body)];
    forall i: nat | i < |log'|
      ensures WriteOk(jobs, sights, log', i)
    {
      if i < |log| {
        assert WriteOk(jobs, sights, log, i);
        assert log'[..i] == log[..i];
      } else {
        assert log'[..i] == log;
        assert SightOk(jobs, log, req.id, sights[req.id]);
      }
    }
  }

  lemma AppliedKeepsInv(s: System, r: nat)
    requires Inv(s) && r < |s.requests| && Passes(s.requests[r].guard, Lookup(s.store, s.requests[r].key))
    ensures var req := s.requests[r];
            Inv(s.(store := s.store[req.key := req.body],
                   acks := s.acks[r := true],
                   log := s.log + [Write(req.id, req.key, Lookup(s.store, req.key), req.body)]))
  {
    hide StagesOk, CallsOk, SightsOk, HeadingOk, WaitsOk, StagesPresent, AckedPresent, WritesOk, KeyOf, BodyOf,
         IndexWindowStarts, WellFormed, SightOk, GuardFor, Passes;
    var req := s.requests[r];
    var store := s.store[req.key := req.body];
    var log := s.log + [Write(req.id, req.key, Lookup(s.store, req.key), req.body)];
    assert RequestOk(s.jobs, s.sights, req);
    AppliedKeepsWrites(s.jobs, s.sights, s.log, req);
    SightsGrow(s.jobs, s.jobs, s.sights, s.log, log);
    PresenceGrows(s.jobs, s.jobs, s.progress, s.calls, s.store, store);
    assert log[..|log| - 1] == s.log;
    forall key | key in store
      ensures exists id :: WrittenBy(s.jobs, s.sights, store, key, id)
    {
      if key == req.key {
        assert WrittenBy(s.jobs, s.sights, store, key, req.id);
      } else {
        var id :| WrittenBy(s.jobs, s.sights, s.store, key, id);
        assert WrittenBy(s.jobs, s.sights, store, key, id);
      }
    }
  }

  lemma RejectedKeepsInv(s: System, r: nat)
    requires Inv(s) && r < |s.requests|
    ensures Inv(s.(acks := s.acks[r := false]))
  {
    hide StagesOk, CallsOk, SightsOk, HeadingOk, RequestsOk, WaitsOk, StagesPresent, AckedPresent, ProvenanceOk,
         WritesOk, KeyOf, BodyOf, StoreAfter, IndexWindowStarts, WellFormed, SightOk;
  }

  lemma StartKeepsInv(s: System, id: CallId)
    requires Inv(s) && Enabled(s, Start(id))
    ensures Inv(Do(s, Start(id)))
  {
    hide SightsOk, RequestsOk, WaitsOk, AcksOk, StagesPresent, AckedPresent, ProvenanceOk, WritesOk, KeyOf, BodyOf,
         StoreAfter, IndexWindowStarts, WellFormed;
    assert StageOk(s.jobs, id.pid, s.progress[id.pid]);
    if id.target.Pointer? {
      CallKeepsInv(s, id, Call(0, Heading));
    } else {
      var u := s.(calls := s.calls[id := Call(0, Idle)]);
      CallKeepsInv(s, id, Call(0, Idle));
      SightKeepsInv(u, id, Sight(None, 0));
    }
  }

  lemma HeadKeepsInv(s: System, id: CallId)
    requires Inv(s) && Enabled(s, Head(id))
    ensures Inv(Do(s, Head(id)))
  {
    hide StagesOk, SightsOk, RequestsOk, WaitsOk, AcksOk, StagesPresent, AckedPresent, ProvenanceOk, WritesOk,
         BodyOf, IndexWindowStarts, WellFormed, KeyOf;
    assert Reached(s.jobs, s.progress, id);
    CallKeepsInv(s, id, Call(0, Idle));
    assert s.log[..|s.log|] == s.log;
    SightKeepsInv(s.(calls := s.calls[id := Call(0, Idle)]), id,
                  Sight(Lookup(s.store, KeyOf(s.jobs[id.pid], id.target)), |s.log|));
  }

  lemma SendKeepsInv(s: System, id: CallId)
    requires Inv(s) && Enabled(s, Send(id))
    ensures Inv(Do(s, Send(id)))
  {
    hide StagesOk, SightsOk, RequestsOk, WaitsOk, AcksOk, StagesPresent, AckedPresent, ProvenanceOk, WritesOk,
         KeyOf, BodyOf, StoreAfter, IndexWindowStarts, WellFormed, SightOk;
    var req := Do(s, Send(id)).requests[|s.requests|];
    RequestKeepsInv(s, req);
    var u := s.(requests := s.requests + [req]);
    assert Reached(u.jobs, u.progress, id);
    CallKeepsInv(u, id, Call(s.calls[id].attempts + 1, Waiting(|s.requests|)));
  }

  lemma AnswerKeepsInv(s: System, a: Action)
    requires Inv(s) && Enabled(s, a) && (a.Receive? || a.Lose? || a.Abandon?)
    ensures Inv(Do(s, a))
  {
    hide StagesOk, SightsOk, StagesPresent, ProvenanceOk, WritesOk, KeyOf, BodyOf, StoreAfter, IndexWindowStarts,
         WellFormed, SightOk, GuardFor;
    assert Reached(s.jobs, s.progress, a.id);
    if a.Receive? {
      assert RequestOk(s.jobs, s.sights, s.requests[s.calls[a.id].phase.request]);
    }
    CallKeepsInv(s, a.id, Do(s, a).calls[a.id]);
  }

  lemma DeliverKeepsInv(s: System, r: nat)
    requires Inv(s) && Enabled(s, Deliver(r))
    ensures Inv(Do(s, Deliver(r)))
  {
    hide Inv;
    if Passes(s.requests[r].guard, Lookup(s.store, s.requests[r].key)) {
      AppliedKeepsInv(s, r);
    } else {
      RejectedKeepsInv(s, r);
    }
  }

  lemma NextKeepsInv(s: System, a: Action)
    requires Inv(s)
    ensures Inv(Next(s, a))
  {
    hide Inv;
    if Enabled(s, a) {
      match a
      case Spawn(pid, job) => SpawnKeepsInv(s, pid, job);
      case Start(id) => StartKeepsInv(s, id);
      case Head(id) => HeadKeepsInv(s, id);
      case Send(id) => SendKeepsInv(s, id);
      case Deliver(r) => DeliverKeepsInv(s, r);
      case Receive(_) => AnswerKeepsInv(s, a);
      case Lose(_) => AnswerKeepsInv(s, a);
      case Abandon(_) => AnswerKeepsInv(s, a);
      case Advance(pid) => ProgressKeepsInv(s, pid, s.progress[pid].(stage := s.progress[pid].stage + 1));
      case Verify(pid) => ProgressKeepsInv(s, pid, s.progress[pid].(verified := true));
      case Halt(pid) => ProgressKeepsInv(s, pid, s.progress[pid].(stopped := true));
    }
  }

  lemma InitInv()
    ensures Inv(Init)
  {
  }

  lemma {:induction false} RunKeepsInv(s: System, actions: seq<Action>)
    requires Inv(s)
    ensures Inv(Run(s, actions))
  {
    hide Inv, Next;
    if actions != [] {
      RunKeepsInv(s, actions[..|actions| - 1]);
      NextKeepsInv(Run(s, actions[..|actions| - 1]), actions[|actions| - 1]);
    }
  }

  // ---------------------------------------------------------- main results

  /** Everything a pointer leads to: manifest, report and each named output. */
  ghost predicate NoDanglingLink(store: Store)
  {
    && (forall key :: key in store && key.PointerKey? ==>
          store[key].PointerBody? && store[key].manifestKey in store)
    && (forall key :: key in store && key.ManifestKey? ==>
          && store[key].ManifestBody?
          && store[key].reportKey in store
          && forall n :: n in store[key].slices + store[key].extras ==> OutputKey(n) in store)
  }

  lemma OutputsPresent(jobs: map<nat, Job>, progress: map<nat, Progress>, store: Store, pid: nat)
    requires StagesPresent(jobs, progress, store) && pid in progress && StageOk(jobs, pid, progress[pid])
    requires |jobs[pid].uploads| <= progress[pid].stage
    ensures forall n :: n in jobs[pid].slices + jobs[pid].extras ==> OutputKey(n) in store
  {
    var job := jobs[pid];
    forall n | n in job.slices + job.extras
      ensures OutputKey(n) in store
    {
      var i: nat :| i < |job.uploads| && job.uploads[i] == n;
      assert Present(jobs, store, pid, Put(i));
    }
  }

  lemma PointerAuthor(s: System, key: Key) returns (pid: nat)
    requires Inv(s) && key in s.store && key.PointerKey?
    ensures pid in s.jobs && s.store[key].PointerBody?
    ensures s.store[key] == BodyOf(s.jobs[pid], Pointer(s.store[key].windowStart))
    ensures ManifestKey(s.jobs[pid].run) in s.store && ReportKey(s.jobs[pid].run) in s.store
  {
    var id :| WrittenBy(s.jobs, s.sights, s.store, key, id);
    pid := id.pid;
    assert Reached(s.jobs, s.progress, id);
    assert Present(s.jobs, s.store, pid, Put(|s.jobs[pid].uploads|));
    assert Present(s.jobs, s.store, pid, Put(|s.jobs[pid].uploads| + 1));
  }

  lemma ManifestAuthor(s: System, run: nat) returns (pid: nat)
    requires Inv(s) && ManifestKey(run) in s.store
    ensures pid in s.jobs && s.jobs[pid].run == run
    ensures s.store[ManifestKey(run)] == BodyOf(s.jobs[pid], Put(|s.jobs[pid].uploads| + 1))
    ensures ReportKey(run) in s.store
    ensures forall n :: n in s.jobs[pid].slices + s.jobs[pid].extras ==> OutputKey(n) in s.store
  {
    var id :| WrittenBy(s.jobs, s.sights, s.store, ManifestKey(run), id);
    pid := id.pid;
    assert Reached(s.jobs, s.progress, id);
    assert Present(s.jobs, s.store, pid, Put(|s.jobs[pid].uploads|));
    assert StageOk(s.jobs, pid, s.progress[pid]);
    OutputsPresent(s.jobs, s.progress, s.store, pid);
  }

  lemma ReportAuthor(s: System, run: nat) returns (pid: nat)
    requires Inv(s) && ReportKey(run) in s.store
    ensures pid in s.jobs && s.jobs[pid].run == run
    ensures s.store[ReportKey(run)] == BodyOf(s.jobs[pid], Put(|s.jobs[pid].uploads|))
  {
    var id :| WrittenBy(s.jobs, s.sights, s.store, ReportKey(run), id);
    pid := id.pid;
    assert Reached(s.jobs, s.progress, id);
  }

  /** Publication safety: in every run, even with run ids reused, no link dangles. */
  lemma PublicationIsSafe(actions: seq<Action>)
    ensures NoDanglingLink(Run(Init, actions).store)
  {
    hide Run;
    InitInv();
    RunKeepsInv(Init, actions);
    var s := Run(Init, actions);
    forall key | key in s.store && key.PointerKey?
      ensures s.store[key].PointerBody? && s.store[key].manifestKey in s.store
    {
      var pid := PointerAuthor(s, key);
    }
    forall key | key in s.store && key.ManifestKey?
      ensures s.store[key].ManifestBody? && s.store[key].reportKey in s.store
      ensures forall n :: n in s.store[key].slices + s.store[key].extras ==> OutputKey(n) in s.store
    {
      var pid := ManifestAuthor(s, key.run);
    }
  }

  /**
   Compare-and-swap: every effective pointer write replaced exactly the value
   its own call had observed earlier (absence included), whatever was retried,
   delayed or lost in between.
   */
  lemma PointerWritesCompareAndSwap(actions: seq<Action>, i: nat)
    requires i < |Run(Init, actions).log| && Run(Init, actions).log[i].key.PointerKey?
    ensures var s := Run(Init, actions);
            var w := s.log[i];
            && w.id in s.sights
            && s.sights[w.id].seenAt <= i
            && w.before == Lookup(StoreAfter(s.log[..i]), w.key)
            && w.before == Lookup(StoreAfter(s.log[..s.sights[w.id].seenAt]), w.key)
  {
    hide Run;
    InitInv();
    RunKeepsInv(Init, actions);
    var s := Run(Init, actions);
    assert WriteOk(s.jobs, s.sights, s.log, i);
    assert SightOk(s.jobs, s.log, s.log[i].id, s.sights[s.log[i].id]);
  }

  lemma {:induction false} KeyStaysPresent(log: seq<Write>, i: nat, j: nat)
    requires i < j <= |log|
    ensures log[i].key in StoreAfter(log[..j])
    decreases j
  {
    assert log[..j][..j - 1] == log[..j - 1];
    if i < j - 1 {
      KeyStaysPresent(log, i, j - 1);
    }
  }

  /** The latest of the first n writes to a key that is present after them. */
  lemma {:induction false} LatestWrite(log: seq<Write>, n: nat, key: Key) returns (k: nat)
    requires n <= |log| && key in StoreAfter(log[..n])
    ensures k < n && log[k].key == key && log[k].after == StoreAfter(log[..n])[key]
    ensures forall j :: k < j < n ==> log[j].key != key
    decreases n
  {
    assert log[..n][..n - 1] == log[..n - 1];
    k := n - 1;
    if log[n - 1].key != key {
      k := LatestWrite(log, n - 1, key);
    }
  }

  /** With distinct runs, one body at one pointer key is the work of one call. */
  lemma SameBodySameCall(s: System, i: nat, j: nat)
    requires Inv(s) && DistinctRuns(s.jobs) && i < |s.log| && j < |s.log|
    requires s.log[i].key == s.log[j].key && s.log[i].key.PointerKey? && s.log[i].after == s.log[j].after
    ensures s.log[i].id == s.log[j].id && s.log[i].before == s.log[j].before
  {
    hide StagesOk, CallsOk, SightsOk, HeadingOk, RequestsOk, WaitsOk, AcksOk, StagesPresent, AckedPresent, ProvenanceOk,
         StoreAfter, IndexWindowStarts;
    assert WriteOk(s.jobs, s.sights, s.log, i);
    assert WriteOk(s.jobs, s.sights, s.log, j);
  }

  /** Two writes of one body to one pointer lead to two earlier such writes, without end. */
  lemma {:induction false} SameBodyOnce(s: System, i: nat, j: nat)
    requires Inv(s) && DistinctRuns(s.jobs) && i < j < |s.log|
    requires s.log[i].key == s.log[j].key && s.log[i].key.PointerKey?
    ensures s.log[i].after != s.log[j].after
    decreases i
  {
    hide Inv, DistinctRuns, StoreAfter, BodyOf, KeyOf;
    var log, key := s.log, s.log[i].key;
    if log[i].after == log[j].after {
      SameBodySameCall(s, i, j);
      BeforeIsStore(s, i);
      BeforeIsStore(s, j);
      KeyStaysPresent(log, i, j);
      var late := LatestWrite(log, j, key);
      var early := LatestWrite(log, i, key);
      SameBodyOnce(s, early, late);
    }
  }

  lemma BeforeIsStore(s: System, i: nat)
    requires Inv(s) && i < |s.log|
    ensures s.log[i].before == Lookup(StoreAfter(s.log[..i]), s.log[i].key)
  {
    assert WriteOk(s.jobs, s.sights, s.log, i);
  }

  /**
   What the guard buys: with distinct run ids, a pointer never takes the same
   body twice, so each pointer call takes effect at most once through all its
   retries and late deliveries, and a pointer once replaced never comes back.
   */
  lemma PointerWrittenOnce(actions: seq<Action>, i: nat, j: nat)
    requires var s := Run(Init, actions);
             && DistinctRuns(s.jobs) && i < j < |s.log|
             && s.log[i].key.PointerKey? && s.log[j].key.PointerKey?
    ensures var s := Run(Init, actions);
            s.log[i].id != s.log[j].id && (s.log[i].key == s.log[j].key ==> s.log[i].after != s.log[j].after)
  {
    hide Run;
    InitInv();
    RunKeepsInv(Init, actions);
    var s := Run(Init, actions);
    assert WriteOk(s.jobs, s.sights, s.log, i) && WriteOk(s.jobs, s.sights, s.log, j);
    if s.log[i].key == s.log[j].key {
      SameBodyOnce(s, i, j);
    }
  }

  // ---------------------------------------------------------------- reader

  datatype ReadError =
    | PointerNotSuccess | PointerTimeRangeMismatch
    | ManifestRunIdMismatch | ManifestNotSuccess | ManifestTimeRangeMismatch | ManifestHasNoOutputObjects
    | ReportRunIdMismatch | ReportStatusMismatch | ReportTimeRangeMismatch | ReportManifestKeyMismatch
    | ReportOutputObjectsMismatch | ReportProjectionObjectsMismatch

  datatype ReadPlan = Admissible(run: nat, slices: seq<nat>) | Refused(error: ReadError)

  predicate Covers(actual: Range, wanted: Range)
  {
    actual.start <= wanted.start && actual.end >= wanted.end
  }

  function BuildReadPlan(pointer: Body, manifest: Body, report: Body, wanted: Range): ReadPlan
    requires pointer.PointerBody? && manifest.ManifestBody? && report.ReportBody?
  {
    if pointer.status != Success then Refused(PointerNotSuccess)
    else if !Covers(pointer.range, wanted) then Refused(PointerTimeRangeMismatch)
    else if manifest.run != pointer.run then Refused(ManifestRunIdMismatch)
    else if manifest.status != Success then Refused(ManifestNotSuccess)
    else if !Covers(manifest.range, wanted) then Refused(ManifestTimeRangeMismatch)
    else if manifest.slices == [] then Refused(ManifestHasNoOutputObjects)
    else if report.run != manifest.run then Refused(ReportRunIdMismatch)
    else if report.status != manifest.status then Refused(ReportStatusMismatch)
    else if report.range != manifest.range then Refused(ReportTimeRangeMismatch)
    else if report.manifestKey != pointer.manifestKey then Refused(ReportManifestKeyMismatch)
    else if report.slices != manifest.slices then Refused(ReportOutputObjectsMismatch)
    else if report.extras != manifest.extras then Refused(ReportProjectionObjectsMismatch)
    else Admissible(manifest.run, manifest.slices)
  }

  ghost predicate DistinctRuns(jobs: map<nat, Job>)
  {
    forall p, q :: p in jobs && q in jobs && jobs[p].run == jobs[q].run ==> p == q
  }

  /** What every later state keeps. */
  ghost predicate Extends(s: System, t: System)
  {
    MoreJobs(s.jobs, t.jobs) && s.store.Keys <= t.store.Keys
  }

  lemma NextExtends(s: System, a: Action)
    ensures Extends(s, Next(s, a))
  {
  }

  lemma {:induction false} RunExtends(s: System, actions: seq<Action>)
    ensures Extends(s, Run(s, actions))
  {
    if actions != [] {
      RunExtends(s, actions[..|actions| - 1]);
      NextExtends(Run(s, actions[..|actions| - 1]), actions[|actions| - 1]);
    }
  }

  ghost predicate ReadsOneRun(pointer: Body, t: Store, u: Store, wanted: Range)
  {
    && pointer.PointerBody?
    && pointer.manifestKey in t && t[pointer.manifestKey].ManifestBody?
    && var manifest := t[pointer.manifestKey];
    && manifest.reportKey in u && u[manifest.reportKey].ReportBody?
    && (forall n :: n in manifest.slices + manifest.extras ==> OutputKey(n) in u)
    && BuildReadPlan(pointer, manifest, u[manifest.reportKey], wanted) ==
       (if pointer.status != Success then Refused(PointerNotSuccess)
        else if !Covers(pointer.range, wanted) then Refused(PointerTimeRangeMismatch)
        else if manifest.slices == [] then Refused(ManifestHasNoOutputObjects)
        else Admissible(pointer.run, manifest.slices))
  }

  lemma OneJobReads(job: Job, pointer: Body, t: Store, u: Store, wanted: Range)
    requires pointer.PointerBody? && pointer == BodyOf(job, Pointer(pointer.windowStart))
    requires ManifestKey(job.run) in t && t[ManifestKey(job.run)] == BodyOf(job, Put(|job.uploads| + 1))
    requires ReportKey(job.run) in u && u[ReportKey(job.run)] == BodyOf(job, Put(|job.uploads|))
    requires forall n :: n in job.slices + job.extras ==> OutputKey(n) in u
    ensures ReadsOneRun(pointer, t, u, wanted)
  {
  }

  lemma OneRunAcrossStates(s: System, t: System, u: System, key: Key, wanted: Range)
    requires Inv(s) && Inv(t) && Inv(u) && Extends(s, t) && Extends(t, u) && DistinctRuns(u.jobs)
    requires key.PointerKey? && key in s.store
    ensures ReadsOneRun(s.store[key], t.store, u.store, wanted)
  {
    hide Inv, ReadsOneRun, KeyOf, BodyOf;
    var p := PointerAuthor(s, key);
    var job := s.jobs[p];
    var m := ManifestAuthor(t, job.run);
    var r := ReportAuthor(u, job.run);
    assert p in u.jobs && m in u.jobs && p == m == r;
    OneJobReads(job, s.store[key], t.store, u.store, wanted);
  }

  /**
   A reader that fetches the pointer, then later the manifest, then later still
   the report, while publishers keep running: with distinct run ids it never
   meets a missing object or documents of different runs, and it is refused
   exactly when the run was not a success, does not cover the range asked for,
   or produced no slice.
   */
  lemma ReaderSeesOneRun(past: seq<Action>, between: seq<Action>, after: seq<Action>, key: Key, wanted: Range)
    requires key.PointerKey? && key in Run(Init, past).store
    requires DistinctRuns(Run(Run(Run(Init, past), between), after).jobs)
    ensures var s := Run(Init, past);
            var t := Run(s, between);
            ReadsOneRun(s.store[key], t.store, Run(t, after).store, wanted)
  {
    hide Inv, Next, ReadsOneRun, DistinctRuns, Extends;
    var s := Run(Init, past);
    var t := Run(s, between);
    InitInv();
    RunKeepsInv(Init, past);
    RunKeepsInv(s, between);
    RunKeepsInv(t, after);
    RunExtends(s, between);
    RunExtends(t, after);
    OneRunAcrossStates(s, t, Run(t, after), key, wanted);
  }
}
