/**
 The bootstrap scheduler and the supervisor phase that depends on it. The
 process may be signalled, fail or die at every interaction with the outside;
 what survives is the marker store.
 */
module BootstrapScheduler {
  import opened Wrappers
  import opened Bootstrap
  import opened Times

  /** An index pointer as the scheduler reads it; missing fields read as None. */
  datatype PointerDoc = PointerDoc(statusSuccess: bool, start: Option<int>, end: Option<int>)

  predicate Matches(doc: Option<PointerDoc>, sub: Chunk)
  {
    doc.Some? && doc.value.statusSuccess && doc.value.start == Some(sub.start) && doc.value.end == Some(sub.end)
  }

  /**
   What the outside does at one interaction: a shutdown signal may arrive, the
   process may die, the operation may report an error; a put that reports an
   error or dies may have been applied all the same; a child may exit well or
   badly; the pointer read is whatever other publishers have put there.
   */
  datatype Reply = Reply(signal: bool, dies: bool, error: bool, applied: bool, exitOk: bool,
                         pointer: Option<PointerDoc>, now: int)

  datatype Flow = Died | Error | Answer(yes: bool)

  datatype Selection = SelectionEnded(flow: Flow) | Missing(chunk: Chunk) | NoneMissing(now: int)

  datatype SchedulerEnd = ProcessDied | TaskError | ReturnedOk

  /** What an interaction is about: a marker or pointer read, a marker put, or a child run to its exit. */
  datatype Op =
    | ReadComplete(chunk: Chunk)
    | ReadL0(chunk: Chunk)
    | ReadPointer(chunk: Chunk)
    | PutL0(chunk: Chunk)
    | PutComplete(chunk: Chunk)
    | Backfill(chunk: Chunk)
    | Normalize(chunk: Chunk)

  predicate Succeeded(reply: Reply) { !reply.dies && !reply.error }

  /** This interaction showed the sub-chunk normalized: its success pointer was read, or its normalizer exited well. */
  predicate Shows(op: Op, reply: Reply, sub: Chunk)
  {
    && Succeeded(reply) && op.chunk == sub
    && ((op.ReadPointer? && Matches(reply.pointer, sub)) || (op.Normalize? && reply.exitOk))
  }

  ghost predicate ShownAt(trace: seq<Op>, env: nat -> Reply, k: nat, sub: Chunk)
  {
    k < |trace| && Shows(trace[k], env(k), sub)
  }

  ghost predicate Shown(trace: seq<Op>, env: nat -> Reply, sub: Chunk)
  {
    exists k: nat :: ShownAt(trace, env, k, sub)
  }

  ghost predicate BackfilledAt(trace: seq<Op>, env: nat -> Reply, k: nat, chunk: Chunk)
  {
    k < |trace| && trace[k] == Backfill(chunk) && Succeeded(env(k)) && env(k).exitOk && !env(k).signal
  }

  /** What was shown stays shown. */
  lemma StillShown(trace: seq<Op>, op: Op, env: nat -> Reply)
    ensures forall sub :: Shown(trace, env, sub) ==> Shown(trace + [op], env, sub)
    ensures forall k: nat, c ::
              BackfilledAt(trace, env, k, c) ==> BackfilledAt(trace + [op], env, k, c)
  {
    forall sub | Shown(trace, env, sub)
      ensures Shown(trace + [op], env, sub)
    {
      var k: nat :| ShownAt(trace, env, k, sub);
      assert ShownAt(trace + [op], env, k, sub);
    }
  }

  function Outcome(reply: Reply, yes: bool): Flow
  {
    if reply.dies then Died else if reply.error then Error else Answer(yes)
  }

  /** A start of an L0 backfill child or a selection, with the markers that existed then. */
  datatype Event = Event(chunk: Chunk, markersThen: set<Chunk>)

  class Supervisor {
    const args: Args
    const env: nat -> Reply
    var turn: nat
    var shutdownRequested: bool

    // Durable markers.
    var l0Done: set<Chunk>
    var complete: set<Chunk>

    // Supervisor phase.
    var bootstrapActive: bool
    var fullNormalize: bool

    // What has happened, for stating the properties.
    ghost var backfillStarts: seq<Event>
    ghost var selections: seq<Event>
    ghost var trace: seq<Op> // interaction k was about trace[k] and was answered by env(k)
    ghost var foundNoneMissing: Option<int>

    /** Some interaction read a matching success pointer, or saw a normalizer child exit successfully. */
    ghost predicate Evidenced(sub: Chunk)
      reads this`trace
    {
      Shown(trace, env, sub)
    }

    ghost predicate Normalized(chunk: Chunk)
      reads this`trace
    {
      forall sub :: sub in Subchunks(chunk, args.interval) ==> Evidenced(sub)
    }

    /** Some L0 backfill child of the chunk exited successfully, no shutdown having arrived meanwhile. */
    ghost predicate Backfilled(chunk: Chunk)
      reads this`trace
    {
      exists k: nat :: BackfilledAt(trace, env, k, chunk)
    }

    ghost predicate Valid()
      reads this
    {
      && Validated(args)
      && (forall k: nat :: FitsI64(args, env(k).now))
      && (forall c :: c in complete ==> c in l0Done && Normalized(c))
      && (forall c :: c in l0Done ==> Backfilled(c))
      && |trace| == turn
      && (forall i :: 0 <= i < |backfillStarts| ==>
            backfillStarts[i].chunk !in backfillStarts[i].markersThen && backfillStarts[i].markersThen <= l0Done)
      && (forall i :: 0 <= i < |selections| ==>
            selections[i].chunk !in selections[i].markersThen && selections[i].markersThen <= complete)
      && (foundNoneMissing.Some? ==>
            forall c :: c in BootstrapGrid(args, foundNoneMissing.value) ==> c in complete)
      && (args.enabled && (fullNormalize || !bootstrapActive) ==> foundNoneMissing.Some?)
    }

    /**
     Nothing durable is ever lost, no history is rewritten, and nothing that was
     marked is started or selected again.
     */
    twostate predicate Kept()
      reads this
    {
      && old(l0Done) <= l0Done && old(complete) <= complete
      && old(trace) <= trace
      && (forall sub :: old(Evidenced(sub)) ==> Evidenced(sub)) && (forall c :: old(Backfilled(c)) ==> Backfilled(c))
      && old(backfillStarts) <= backfillStarts && old(selections) <= selections
      && (forall i :: |old(backfillStarts)| <= i < |backfillStarts| ==> backfillStarts[i].chunk !in old(l0Done))
      && (forall i :: |old(selections)| <= i < |selections| ==> selections[i].chunk !in old(complete))
      && (old(shutdownRequested) ==> shutdownRequested)
      && (old(foundNoneMissing).Some? ==> foundNoneMissing.Some?)
      && old(turn) <= turn
    }

    /** Nothing was missing from the grid of a clock read at this turn or later. */
    ghost predicate FoundSince(since: nat)
      reads this
    {
      foundNoneMissing.Some? && exists k: nat :: since <= k <= turn && foundNoneMissing.value == env(k).now
    }

    /** Nothing fails, nobody signals, children exit well and the clock stays in one place. */
    ghost predicate Healthy()
    {
      forall k: nat ::
        !env(k).signal && !env(k).dies && !env(k).error && env(k).exitOk && env(k).now == env(0).now
    }

    /** The outside has been healthy and no shutdown is pending. */
    ghost predicate Undisturbed()
      reads this`shutdownRequested
    {
      Healthy() && !shutdownRequested
    }

    /** Chunks of the standing clock's grid without a complete marker. */
    ghost function Todo(): set<Chunk>
      reads this`complete
      requires Validated(args)
    {
      set c | c in BootstrapGrid(args, env(0).now) && c !in complete
    }

    /** One interaction has passed, and moved only time and the shutdown flag. */
    twostate predicate Waited()
      reads this
    {
      && l0Done == old(l0Done) && complete == old(complete)
      && backfillStarts == old(backfillStarts) && selections == old(selections)
      && bootstrapActive == old(bootstrapActive) && fullNormalize == old(fullNormalize)
      && foundNoneMissing == old(foundNoneMissing)
      && turn == old(turn) + 1 && shutdownRequested == (old(shutdownRequested) || env(old(turn)).signal)
    }

    constructor (args: Args, env: nat -> Reply)
      requires Validated(args) && forall k: nat :: FitsI64(args, env(k).now)
      ensures Valid() && l0Done == {} && complete == {} && this.args == args && this.env == env
      ensures bootstrapActive == args.enabled && fullNormalize == !args.enabled
    {
      this.args, this.env := args, env;
      turn, shutdownRequested, l0Done, complete := 0, false, {}, {};
      bootstrapActive, fullNormalize := args.enabled, !args.enabled;
      backfillStarts, selections, trace, foundNoneMissing := [], [], [], None;
    }

    method Interact(ghost op: Op) returns (reply: Reply)
      requires Valid()
      modifies this`turn, this`shutdownRequested, this`trace
      ensures Valid() && Waited() && Kept() && reply == env(old(turn)) && trace == old(trace) + [op]
      ensures old(Undisturbed()) ==> Undisturbed() && !reply.dies && !reply.error && reply.exitOk
    {
      hide Subchunks, BootstrapGrid, FitsI64, Shown, BackfilledAt, Validated;
      reply := env(turn);
      turn := turn + 1;
      if reply.signal {
        shutdownRequested := true;
      }
      trace := trace + [op];
      StillShown(old(trace), op, env);
    }

    method HasComplete(chunk: Chunk) returns (flow: Flow)
      requires Valid()
      modifies this`turn, this`shutdownRequested, this`trace
      ensures Valid() && Waited() && Kept() && trace == old(trace) + [ReadComplete(chunk)]
      ensures flow == Outcome(env(old(turn)), chunk in complete)
      ensures old(Undisturbed()) ==> Undisturbed() && flow.Answer?
    {
      var reply := Interact(ReadComplete(chunk));
      return Outcome(reply, chunk in complete);
    }

    method HasL0Success(chunk: Chunk) returns (flow: Flow)
      requires Valid()
      modifies this`turn, this`shutdownRequested, this`trace
      ensures Valid() && Waited() && Kept() && trace == old(trace) + [ReadL0(chunk)]
      ensures flow == Outcome(env(old(turn)), chunk in l0Done)
      ensures old(Undisturbed()) ==> Undisturbed() && flow.Answer?
    {
      var reply := Interact(ReadL0(chunk));
      return Outcome(reply, chunk in l0Done);
    }

    method HasL1Success(sub: Chunk) returns (flow: Flow)
      requires Valid()
      modifies this`turn, this`shutdownRequested, this`trace
      ensures Valid() && Waited() && Kept() && trace == old(trace) + [ReadPointer(sub)]
      ensures flow == Outcome(env(old(turn)), Matches(env(old(turn)).pointer, sub))
      ensures flow == Answer(true) ==> Evidenced(sub)
      ensures var pointer := env(old(turn)).pointer;
              flow == Answer(true) <==>
                && Succeeded(env(old(turn))) && pointer.Some? && pointer.value.statusSuccess
                && pointer.value.start == Some(sub.start) && pointer.value.end == Some(sub.end)
      ensures old(Undisturbed()) ==> Undisturbed() && flow.Answer?
    {
      var reply := Interact(ReadPointer(sub));
      assert Shows(ReadPointer(sub), reply, sub) ==> ShownAt(trace, env, old(turn), sub);
      return Outcome(reply, Matches(reply.pointer, sub));
    }

    /** The marker is there afterwards exactly if it was, or the put was applied. */
    method MarkL0Success(chunk: Chunk) returns (flow: Flow)
      requires Valid() && Backfilled(chunk)
      modifies this`turn, this`shutdownRequested, this`l0Done, this`trace
      ensures Valid() && Kept() && complete == old(complete) && trace == old(trace) + [PutL0(chunk)]
      ensures var reply := env(old(turn));
              && l0Done == old(l0Done) + (if Succeeded(reply) || reply.applied then {chunk} else {})
              && flow == Outcome(reply, true)
      ensures old(Undisturbed()) ==> Undisturbed() && flow.Answer?
    {
      hide Subchunks, BootstrapGrid, FitsI64, Shown, BackfilledAt, Validated;
      var reply := Interact(PutL0(chunk));
      if Succeeded(reply) || reply.applied {
        l0Done := l0Done + {chunk};
      }
      return Outcome(reply, true);
    }

    method MarkComplete(chunk: Chunk) returns (flow: Flow)
      requires Valid() && chunk in l0Done && Normalized(chunk)
      modifies this`turn, this`shutdownRequested, this`complete, this`trace
      ensures Valid() && Kept() && l0Done == old(l0Done) && trace == old(trace) + [PutComplete(chunk)]
      ensures var reply := env(old(turn));
              && complete == old(complete) + (if Succeeded(reply) || reply.applied then {chunk} else {})
              && flow == Outcome(reply, true)
      ensures old(Undisturbed()) ==> Undisturbed() && flow.Answer?
    {
      hide Subchunks, BootstrapGrid, FitsI64, Shown, BackfilledAt, Validated;
      var reply := Interact(PutComplete(chunk));
      if Succeeded(reply) || reply.applied {
        complete := complete + {chunk};
      }
      return Outcome(reply, true);
    }

    /** Spawns the backfill child and polls it: shutdown kills it, otherwise its exit status decides. */
    method RunBackfillChild(chunk: Chunk) returns (flow: Flow)
      requires Valid() && chunk !in l0Done
      modifies this`turn, this`shutdownRequested, this`backfillStarts, this`trace
      ensures Valid() && Kept() && l0Done == old(l0Done) && complete == old(complete)
      ensures trace == old(trace) + [Backfill(chunk)]
      ensures backfillStarts == old(backfillStarts) + [Event(chunk, l0Done)]
      ensures flow == Outcome(env(old(turn)), !shutdownRequested && env(old(turn)).exitOk)
      ensures flow == Answer(true) ==> Backfilled(chunk)
      ensures old(Undisturbed()) ==> Undisturbed() && flow == Answer(true)
    {
      hide Subchunks, BootstrapGrid, FitsI64, Shown, Validated;
      backfillStarts := backfillStarts + [Event(chunk, l0Done)];
      var reply := Interact(Backfill(chunk));
      if !Succeeded(reply) {
        return if reply.dies then Died else Error;
      }
      if shutdownRequested || !reply.exitOk {
        return Answer(false);
      }
      assert BackfilledAt(trace, env, old(turn), chunk);
      return Answer(true);
    }

    /** Runs the normalizer child of one sub-chunk the same way. */
    method RunNormalizeChild(sub: Chunk) returns (flow: Flow)
      requires Valid()
      modifies this`turn, this`shutdownRequested, this`trace
      ensures Valid() && Waited() && Kept() && trace == old(trace) + [Normalize(sub)]
      ensures flow == Outcome(env(old(turn)), !shutdownRequested && env(old(turn)).exitOk)
      ensures flow == Answer(true) ==> Evidenced(sub)
      ensures old(Undisturbed()) ==> Undisturbed() && flow == Answer(true)
    {
      var reply := Interact(Normalize(sub));
      if !Succeeded(reply) {
        return if reply.dies then Died else Error;
      }
      if shutdownRequested || !reply.exitOk {
        return Answer(false);
      }
      assert ShownAt(trace, env, old(turn), sub);
      return Answer(true);
    }

    method RunL1NormalizeChunk(chunk: Chunk) returns (flow: Flow)
      requires Valid() && IsTime(chunk.start) && IsTime(chunk.end)
      modifies this`turn, this`shutdownRequested, this`trace
      ensures Valid() && Kept() && l0Done == old(l0Done) && complete == old(complete)
      ensures backfillStarts == old(backfillStarts)
      ensures flow == Answer(true) ==> Normalized(chunk)
      ensures old(Undisturbed()) ==> Undisturbed() && flow == Answer(true)
    {
      hide Subchunks, BootstrapGrid, FitsI64, Shown, BackfilledAt, Validated;
      var subs := NormalizeSubchunks(args, chunk);
      for i := 0 to |subs|
        invariant Valid() && Kept() && l0Done == old(l0Done) && complete == old(complete)
        invariant backfillStarts == old(backfillStarts)
        invariant forall j :: 0 <= j < i ==> Evidenced(subs[j])
        invariant old(Undisturbed()) ==> Undisturbed()
      {
        var skip := HasL1Success(subs[i]);
        if !skip.Answer? {
          return skip;
        }
        if skip.yes {
          continue;
        }
        flow := RunNormalizeChild(subs[i]);
        if flow != Answer(true) {
          return;
        }
      }
      return Answer(true);
    }

    /** Runs the L0 backfill and marks it, unless its marker already exists. */
    method EnsureL0(chunk: Chunk) returns (flow: Flow)
      requires Valid()
      modifies this`turn, this`shutdownRequested, this`l0Done, this`trace, this`backfillStarts
      ensures Valid() && Kept() && complete == old(complete) && l0Done <= old(l0Done) + {chunk}
      ensures chunk in old(l0Done) ==> backfillStarts == old(backfillStarts)
      ensures flow == Answer(true) ==> chunk in l0Done
      ensures old(Undisturbed()) ==> Undisturbed() && flow == Answer(true)
    {
      hide Subchunks, BootstrapGrid, FitsI64, Shown, BackfilledAt, Validated;
      flow := HasL0Success(chunk);
      if flow == Answer(false) {
        flow := RunBackfillChild(chunk);
        if flow == Answer(true) {
          flow := MarkL0Success(chunk);
        }
      }
    }

    /** One chunk: L0 unless its marker exists, then every sub-chunk, then the complete marker. */
    method RunBackfillChunk(chunk: Chunk) returns (flow: Flow)
      requires Valid() && IsTime(chunk.start) && IsTime(chunk.end)
      modifies this`turn, this`shutdownRequested, this`l0Done, this`complete, this`trace,
               this`backfillStarts
      ensures Valid() && Kept()
      ensures chunk in old(l0Done) ==> backfillStarts == old(backfillStarts)
      ensures l0Done <= old(l0Done) + {chunk} && complete <= old(complete) + {chunk}
      ensures flow == Answer(true) ==> chunk in complete
      ensures old(Undisturbed()) ==> Undisturbed() && flow == Answer(true)
    {
      hide Subchunks, BootstrapGrid, FitsI64, Shown, BackfilledAt, Validated;
      var stored := EnsureL0(chunk);
      if stored != Answer(true) {
        return stored;
      }
      var normalized := RunL1NormalizeChunk(chunk);
      if normalized != Answer(true) {
        return normalized;
      }
      flow := MarkComplete(chunk);
    }

    /** The oldest chunk of the current grid without a complete marker. */
    method NextMissingBootstrapChunk() returns (found: Selection)
      requires Valid()
      modifies this`turn, this`shutdownRequested, this`selections, this`trace
      ensures Valid() && Kept() && complete == old(complete) && l0Done == old(l0Done)
      ensures found.Missing? ==>
                && found.chunk !in complete
                && IsTime(found.chunk.start) && IsTime(found.chunk.end)
                && var grid := BootstrapGrid(args, env(old(turn)).now);
                   exists k: nat ::
                     k < |grid| && grid[k] == found.chunk && forall j :: 0 <= j < k ==> grid[j] in complete
      ensures found.NoneMissing? ==>
                && found.now == env(old(turn)).now
                && forall c :: c in BootstrapGrid(args, found.now) ==> c in complete
      ensures old(Undisturbed()) ==> Undisturbed() && !found.SelectionEnded?
    {
      hide Subchunks, BootstrapGrid, FitsI64, Shown, BackfilledAt, Validated;
      var now := env(turn).now;
      var chunks := BootstrapChunks(args, now);
      for k := 0 to |chunks|
        invariant Valid() && Kept() && complete == old(complete) && l0Done == old(l0Done)
        invariant forall j :: 0 <= j < k ==> chunks[j] in complete
        invariant old(Undisturbed()) ==> Undisturbed()
      {
        var done := HasComplete(chunks[k]);
        if !done.Answer? {
          return SelectionEnded(done);
        }
        if !done.yes {
          selections := selections + [Event(chunks[k], complete)];
          GridChunkIsTime(args, now, k);
          return Missing(chunks[k]);
        }
      }
      return NoneMissing(now);
    }

    /**
     The scheduler task, for as many rounds as the process happens to live. It
     returns Ok only after shutdown was requested, or, when bootstrap is enabled,
     with no chunk of the grid missing.
     */
    method RunBackfillScheduler(rounds: nat) returns (end: SchedulerEnd)
      requires Valid()
      modifies this`turn, this`shutdownRequested, this`l0Done, this`complete, this`trace,
               this`backfillStarts, this`selections, this`foundNoneMissing
      ensures Valid() && Kept()
      ensures end.ReturnedOk? && !shutdownRequested ==> args.enabled && FoundSince(old(turn))
      ensures old(Undisturbed()) && args.enabled && rounds > |old(Todo())| ==>
                end.ReturnedOk? && Undisturbed() && Todo() == {}
    {
      hide Subchunks, BootstrapGrid, FitsI64, Shown, BackfilledAt, Validated;
      if !args.enabled {
        return if shutdownRequested then ReturnedOk else ProcessDied;
      }
      for i := 0 to rounds
        invariant Valid() && Kept()
        invariant old(Undisturbed()) ==> Undisturbed() && i + |Todo()| <= |old(Todo())|
      {
        if shutdownRequested {
          return ReturnedOk;
        }
        var found := NextMissingBootstrapChunk();
        match found {
          case SelectionEnded(flow) =>
            return if flow.Died? then ProcessDied else TaskError;
          case NoneMissing(now) =>
            foundNoneMissing := Some(now);
            return ReturnedOk;
          case Missing(chunk) =>
            ghost var todo := Todo();
            var flow := RunBackfillChunk(chunk);
            if old(Undisturbed()) {
              LessToDo(todo, Todo(), chunk);
            }
            if !flow.Answer? {
              return if flow.Died? then ProcessDied else TaskError;
            }
        }
      }
      return ProcessDied;
    }

    /**
     One process life of the supervisor: scheduler tasks follow one another
     until one returns Ok without shutdown, which is when the full normalizer
     takes over; an error only starts another one; shutdown or death end the life.
     */
    method RunSupervisor(tasks: nat, rounds: nat)
      requires Valid()
      modifies this`turn, this`shutdownRequested, this`l0Done, this`complete, this`trace,
               this`backfillStarts, this`selections, this`foundNoneMissing,
               this`bootstrapActive, this`fullNormalize
      ensures Valid() && Kept()
      ensures args.enabled && fullNormalize && !old(fullNormalize) ==>
                && FoundSince(old(turn))
                && forall c :: c in BootstrapGrid(args, foundNoneMissing.value) ==> c in complete
      ensures old(Undisturbed()) && args.enabled && tasks > 0 && rounds > |old(Todo())| ==> fullNormalize
    {
      for i := 0 to tasks
        invariant Valid() && Kept() && fullNormalize == old(fullNormalize)
        invariant old(Undisturbed()) && args.enabled && rounds > |old(Todo())| ==>
                    i == 0 && Undisturbed() && Todo() == old(Todo())
      {
        var end := RunBackfillScheduler(rounds);
        if end.ProcessDied? || shutdownRequested {
          return;
        }
        if end.ReturnedOk? {
          bootstrapActive := false;
          fullNormalize := true;
          return;
        }
      }
    }

    /** Crash and restart any number of times: a new process starts in the bootstrap phase over the same markers. */
    method LiveAndDie(lives: nat, tasks: nat, rounds: nat)
      requires Valid()
      modifies this
      ensures Valid()
      ensures old(l0Done) <= l0Done && old(complete) <= complete && old(backfillStarts) <= backfillStarts
      ensures forall i :: |old(backfillStarts)| <= i < |backfillStarts| ==> backfillStarts[i].chunk !in old(l0Done)
      ensures forall i :: |old(selections)| <= i < |selections| ==> selections[i].chunk !in old(complete)
      ensures forall c :: c in complete ==>
                c in l0Done && Backfilled(c) && forall sub :: sub in Subchunks(c, args.interval) ==> Evidenced(sub)
    {
      for i := 0 to lives
        invariant Valid() && old(selections) <= selections && old(trace) <= trace
        invariant old(l0Done) <= l0Done && old(complete) <= complete && old(backfillStarts) <= backfillStarts
        invariant forall i :: |old(backfillStarts)| <= i < |backfillStarts| ==> backfillStarts[i].chunk !in old(l0Done)
        invariant forall i :: |old(selections)| <= i < |selections| ==> selections[i].chunk !in old(complete)
      {
        shutdownRequested, bootstrapActive, fullNormalize := false, args.enabled, !args.enabled;
        RunSupervisor(tasks, rounds);
      }
    }
  }

  lemma LessToDo(before: set<Chunk>, after: set<Chunk>, chunk: Chunk)
    requires chunk in before && chunk !in after && after <= before
    ensures |after| < |before|
  {
    assert after <= before - {chunk};
    SubsetIsSmaller(after, before - {chunk});
  }

  lemma {:induction false} SubsetIsSmaller(a: set<Chunk>, b: set<Chunk>)
    requires a <= b
    ensures |a| <= |b|
  {
    if a != {} {
      var c :| c in a;
      SubsetIsSmaller(a - {c}, b - {c});
    }
  }

  lemma GridChunkIsTime(args: Args, now: int, k: nat)
    requires Validated(args) && FitsI64(args, now) && k < |BootstrapGrid(args, now)|
    ensures IsTime(BootstrapGrid(args, now)[k].start) && IsTime(BootstrapGrid(args, now)[k].end)
  {
    var start, d, n := EndBound(args, now) - LookbackMs(args), ChunkMs(args), ChunkCount(args);
    ChunkDividesLookback(args);
    GridLength(start, d, n);
    GridAt(start, d, n, k);
    BoundaryWithin(start, d, n, k);
    BoundaryWithin(start, d, n, k + 1);
    AlignDownMultiple(now - HOUR_MS, d);
  }
}
