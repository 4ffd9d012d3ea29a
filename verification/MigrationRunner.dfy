/**
 The parallel tenant migration runner (backend/alembic/run_multitenant_migrations.py): one batch with
 its continue=true retry, and the pool of workers, result loop and monitor as a transition system.
 */
module MigrationRunner {
  import opened Base
  import opened Text
  import opened AlembicEnv

  // ---- one batch ---------------------------------------------------------------------

  datatype BatchResult = BatchResult(schemas: seq<string>, success: bool)

  ghost predicate AllPlain(batch: seq<string>) {
    batch != [] && forall i :: 0 <= i < |batch| ==> PlainName(batch[i])
  }

  /** The two processes of a batch: up to the first failure, then once more with continue=true. */
  datatype Pass = UntilFailure | Continuing

  /** Before schema `i` of a pass, or finished with the result to report. */
  datatype Progress = At(pass: Pass, i: nat) | Done(ok: bool)

  ghost predicate Within(targets: seq<string>, p: Progress) {
    p.At? && p.i <= |targets|
  }

  /** One schema, or the end of a pass. A batch whose argument names no schema fails both passes. */
  function BatchStep(targets: seq<string>, migrates: string -> bool, p: Progress, head: set<string>)
    : (Progress, set<string>)
    requires Within(targets, p)
  {
    if targets == [] then (if p.pass.UntilFailure? then At(Continuing, 0) else Done(false), head)
    else if p.i == |targets| then (Done(p.pass.UntilFailure?), head)
    else if migrates(targets[p.i]) then (At(p.pass, p.i + 1), head + {targets[p.i]})
    else if p.pass.UntilFailure? then (At(Continuing, 0), head)
    else (At(p.pass, p.i + 1), head)
  }

  /** Steps left to a batch at most. */
  function WorkLeft(targets: seq<string>, p: Progress): nat {
    if p.Done? then 0
    else (if p.i <= |targets| then |targets| - p.i else 0) + if p.pass.UntilFailure? then |targets| + 2 else 1
  }

  /** A batch stepped to its end: its result and the schemas at head then. */
  function BatchRun(targets: seq<string>, migrates: string -> bool, p: Progress, head: set<string>): (bool, set<string>)
    requires p.Done? || Within(targets, p)
    decreases WorkLeft(targets, p)
  {
    if p.Done? then (p.ok, head)
    else
      var (next, after) := BatchStep(targets, migrates, p, head);
      BatchRun(targets, migrates, next, after)
  }

  predicate AllMigrate(targets: seq<string>, migrates: string -> bool) {
    targets != [] && forall x :: x in targets ==> migrates(x)
  }

  /** What has been reached when a batch stands at `p`. */
  ghost predicate BatchReached(targets: seq<string>, migrates: string -> bool, p: Progress, head: set<string>) {
    match p
    case At(pass, i) =>
      && i <= |targets| && Migratable(targets[..i], migrates) <= head
      && if pass.UntilFailure? then forall j :: 0 <= j < i ==> migrates(targets[j]) else !AllMigrate(targets, migrates)
    case Done(ok) => Migratable(targets, migrates) <= head && (ok <==> AllMigrate(targets, migrates))
  }

  lemma BatchStepKeeps(targets: seq<string>, migrates: string -> bool, p: Progress, head: set<string>)
    requires p.At? && BatchReached(targets, migrates, p, head)
    ensures var (next, after) := BatchStep(targets, migrates, p, head);
            && BatchReached(targets, migrates, next, after)
            && head <= after <= head + Migratable(targets, migrates)
  {
    if targets != [] && p.i < |targets| {
      assert targets[..p.i + 1] == targets[..p.i] + [targets[p.i]];
      assert targets[p.i] in targets;
    } else {
      assert targets[..|targets|] == targets;
    }
  }

  /** A batch reports success exactly when every schema migrates, and brings exactly those that can to head. */
  lemma {:induction false} BatchRunMeaning(targets: seq<string>, migrates: string -> bool, p: Progress, head: set<string>)
    requires BatchReached(targets, migrates, p, head)
    ensures var (ok, after) := BatchRun(targets, migrates, p, head);
            && (ok <==> AllMigrate(targets, migrates))
            && after == head + Migratable(targets, migrates)
    decreases WorkLeft(targets, p)
  {
    if p.At? {
      var (next, after) := BatchStep(targets, migrates, p, head);
      BatchStepKeeps(targets, migrates, p, head);
      hide BatchReached, Migratable, AllMigrate;
      BatchRunMeaning(targets, migrates, next, after);
    }
  }

  /**
   Stop-at-first-failure pass, then a continue=true pass over the same batch. Whatever the position
   of the failing schemas, every schema that can migrate ends at head.
   */
  method RunAlembicForBatch(db: Database, batch: seq<string>, parseInt: string -> Option<int>,
                            allTenants: seq<string>, migrates: string -> bool)
    returns (result: BatchResult)
    modifies db
    ensures result.schemas == batch
    ensures (result.success, db.atHead) == BatchRun(Targets(batch), migrates, At(UntilFailure, 0), old(db.atHead))
    ensures AllPlain(batch) ==> db.atHead == old(db.atHead) + Migratable(batch, migrates)
    ensures AllPlain(batch) ==> (result.success <==> forall s :: s in batch ==> migrates(s))
    ensures AllPlain(batch) && result.success ==> forall s :: s in batch ==> s in db.atHead
  {
    hide BatchRun, BatchStep, Targets, XArgs, OptionsOf, InRange;
    var args := ["schemas=" + Join(batch, ',')];
    ghost var targets := Targets(batch);
    ghost var k := FirstFailure(targets, migrates);
    BatchArguments(batch, false, parseInt);
    BatchArguments(batch, true, parseInt);
    assert args + [] == args;
    BatchRunMeaning(targets, migrates, At(UntilFailure, 0), db.atHead);
    if AllPlain(batch) {
      PlainTargets(batch);
    }
    var exitZero := AlembicUpgrade(db, args, parseInt, allTenants, migrates);
    if exitZero {
      assert targets[..|targets|] == targets;
      assert db.atHead == old(db.atHead) + Migratable(targets, migrates);
      return BatchResult(batch, true);
    }
    assert targets != [] ==> k < |targets| && targets[k] in targets;
    assert Migratable(targets[..k], migrates) <= Migratable(targets, migrates);
    assert targets == [] ==> Migratable(targets, migrates) == {};
    var _ := AlembicUpgrade(db, args + ["continue=true"], parseInt, allTenants, migrates);
    assert db.atHead == old(db.atHead) + Migratable(targets, migrates);
    result := BatchResult(batch, false);
  }

  // ---- batching --------------------------------------------------------------------------

  function Batches(schemas: seq<string>, size: nat): (b: seq<seq<string>>)
    requires size > 0
  {
    if |schemas| <= size then (if schemas == [] then [] else [schemas])
    else [schemas[..size]] + Batches(schemas[size..], size)
  }

  function Concat(parts: seq<seq<string>>): seq<string> {
    if parts == [] then [] else parts[0] + Concat(parts[1..])
  }

  /** The batches are non-empty, full except perhaps the last, and concatenate to the input. */
  lemma {:induction false} BatchesCover(schemas: seq<string>, size: nat)
    requires size > 0
    ensures var b := Batches(schemas, size);
            && Concat(b) == schemas
            && (forall i :: 0 <= i < |b| ==> 0 < |b[i]| <= size)
            && (forall i :: 0 <= i < |b| - 1 ==> |b[i]| == size)
  {
    if |schemas| > size {
      BatchesCover(schemas[size..], size);
      assert schemas[..size] + schemas[size..] == schemas;
    } else if schemas != [] {
      assert Concat([schemas]) == schemas + Concat([]);
    }
  }

  lemma {:induction false} ConcatMember(parts: seq<seq<string>>, s: string)
    requires s in Concat(parts)
    ensures exists i :: 0 <= i < |parts| && s in parts[i]
  {
    if s in parts[0] {
    } else {
      ConcatMember(parts[1..], s);
      var i :| 0 <= i < |parts[1..]| && s in parts[1..][i];
      assert s in parts[i + 1];
    }
  }

  // ---- the pool as a transition system ---------------------------------------------------------

  datatype Job = Job(batches: seq<seq<string>>, maxWorkers: nat, migrates: string -> bool)

  /** Where a pool thread stands inside `_run`. */
  datatype Worker =
    | Idle
    | Starting(b: nat)               // dequeued, not yet in the table
    | Running(b: nat, at: Progress)  // in the table, batch process running
    | Returning(b: nat, ok: bool)    // batch finished, still in the table
    | Returned(b: nat, ok: bool)     // out of the table, future unresolved

  datatype Outcome = Succeeded | Failed | Raised

  datatype State = State(
    submitted: nat, queue: seq<nat>, workers: seq<Worker>,
    inFlight: set<nat>, futures: map<nat, Outcome>,
    consumed: set<nat>, allSuccess: bool, stopped: bool,
    prevInFlight: set<nat>,
    started: seq<nat>,               // history: batches handed to run_alembic_for_batch
    atHead: set<string>)

  datatype Step =
    | Submit
    | Take(w: nat) | Enter(w: nat) | Work(w: nat) | Raise(w: nat)
    | Leave(w: nat) | Resolve(w: nat)
    | Consume(b: nat) | Return
    | Tick

  predicate Initial(c: Job, s: State) {
    && s.submitted == 0 && s.queue == [] && s.inFlight == {} && s.futures == map[]
    && |s.workers| == c.maxWorkers && (forall w :: 0 <= w < |s.workers| ==> s.workers[w] == Idle)
    && s.consumed == {} && s.allSuccess && !s.stopped && s.prevInFlight == {} && s.started == []
  }

  /** A worker whose batch stands at `p`. */
  function WorkerAt(b: nat, p: Progress): Worker {
    if p.Done? then Returning(b, p.ok) else Running(b, p)
  }

  function OutcomeOf(ok: bool): Outcome {
    if ok then Succeeded else Failed
  }

  /** `s'` follows `s` by `step`. Each lock-protected section is one step. */
  ghost predicate Next(c: Job, s: State, step: Step, s': State) {
    match step
    case Submit =>
      && s.submitted < |c.batches|
      && s' == s.(submitted := s.submitted + 1, queue := s.queue + [s.submitted])
    case Take(w) =>
      && w < |s.workers| && s.workers[w].Idle? && s.queue != []
      && s' == s.(queue := s.queue[1..], workers := s.workers[w := Starting(s.queue[0])])
    case Enter(w) =>
      && w < |s.workers| && s.workers[w].Starting?
      && var b := s.workers[w].b;
         s' == s.(inFlight := s.inFlight + {b}, started := s.started + [b], workers := s.workers[w := Running(b, At(UntilFailure, 0))])
    case Work(w) =>
      && w < |s.workers| && s.workers[w].Running? && s.workers[w].b < |c.batches|
      && var (b, p) := (s.workers[w].b, s.workers[w].at);
         && Within(Targets(c.batches[b]), p)
         && var (next, after) := BatchStep(Targets(c.batches[b]), c.migrates, p, s.atHead);
            s' == s.(atHead := after, workers := s.workers[w := WorkerAt(b, next)])
    case Raise(w) =>
      && w < |s.workers| && s.workers[w].Running?
      && s' == s.(workers := s.workers[w := Idle], futures := s.futures[s.workers[w].b := Raised])
    case Leave(w) =>
      && w < |s.workers| && s.workers[w].Returning?
      && var b := s.workers[w].b;
         s' == s.(inFlight := s.inFlight - {b}, workers := s.workers[w := Returned(b, s.workers[w].ok)])
    case Resolve(w) =>
      && w < |s.workers| && s.workers[w].Returned?
      && s' == s.(workers := s.workers[w := Idle],
                  futures := s.futures[s.workers[w].b := OutcomeOf(s.workers[w].ok)])
    case Consume(b) =>
      && s.submitted == |c.batches| && b in s.futures && b !in s.consumed
      && s' == s.(consumed := s.consumed + {b}, allSuccess := s.allSuccess && s.futures[b].Succeeded?)
    case Return =>
      && s.submitted == |c.batches| && !s.stopped && (forall b :: 0 <= b < |c.batches| ==> b in s.consumed)
      && s' == s.(stopped := true)
    case Tick =>
      s' == s.(prevInFlight := s.inFlight)
  }

  /** What the monitor prints at a tick. */
  function Reported(s: State): set<nat> {
    s.inFlight * s.prevInFlight
  }

  // ---- the invariant -----------------------------------------------------------------------------

  predicate Busy(s: State, w: int) {
    0 <= w < |s.workers| && !s.workers[w].Idle?
  }

  ghost predicate Held(s: State, b: nat) {
    exists w :: Busy(s, w) && s.workers[w].b == b
  }

  ghost predicate QueueDistinct(s: State) {
    forall i, j :: 0 <= i < j < |s.queue| ==> s.queue[i] != s.queue[j]
  }

  ghost predicate Somewhere(s: State, b: nat) {
    b in s.queue || b in s.futures || Held(s, b)
  }

  /** Each submitted batch is in exactly one place: the queue, one worker's hands, or the resolved futures. */
  ghost predicate OnePlace(c: Job, s: State) {
    && s.submitted <= |c.batches| && |s.workers| == c.maxWorkers
    && QueueDistinct(s)
    && (forall b :: b in s.queue ==> b < s.submitted && b !in s.futures)
    && (forall w :: Busy(s, w) ==>
          s.workers[w].b < s.submitted && s.workers[w].b !in s.futures && s.workers[w].b !in s.queue)
    && (forall w, v :: Busy(s, w) && Busy(s, v) && s.workers[w].b == s.workers[v].b ==> w == v)
    && (forall b :: b in s.futures ==> b < s.submitted)
    && (forall b :: 0 <= b < s.submitted ==> Somewhere(s, b))
  }

  /** The history lists exactly the batches past the table entry, none twice. */
  ghost predicate StartedOnce(s: State) {
    && (forall i, j :: 0 <= i < j < |s.started| ==> s.started[i] != s.started[j])
    && (forall b :: b in s.futures ==> b in s.started)
    && (forall w :: Busy(s, w) ==> (s.workers[w].b in s.started <==> !s.workers[w].Starting?))
    && (forall b :: b in s.started ==> b in s.futures || Held(s, b))
  }

  /** The table holds the running batches, plus for good those whose `_run` raised. */
  ghost predicate TableAccurate(s: State) {
    && (forall w :: Busy(s, w) ==>
          (s.workers[w].b in s.inFlight <==> s.workers[w].Running? || s.workers[w].Returning?))
    && (forall b :: b in s.futures ==> (b in s.inFlight <==> s.futures[b].Raised?))
    && (forall b :: b in s.inFlight ==> b in s.started)
  }

  /** Batch `b` has done what its progress says. */
  ghost predicate Reached(c: Job, s: State, b: nat, p: Progress) {
    b < |c.batches| && BatchReached(Targets(c.batches[b]), c.migrates, p, s.atHead)
  }

  function ProgressOf(w: Worker): Progress
    requires w.Running? || w.Returning? || w.Returned?
  {
    if w.Running? then w.at else Done(w.ok)
  }

  /** A worker past the table entry stands where the batch's own steps have brought it. */
  ghost predicate WorkersAccurate(c: Job, s: State) {
    forall w :: Busy(s, w) && !s.workers[w].Starting? ==>
      && (s.workers[w].Running? ==> s.workers[w].at.At?)
      && Reached(c, s, s.workers[w].b, ProgressOf(s.workers[w]))
  }

  /** A reported result is the batch's own. */
  ghost predicate FuturesAccurate(c: Job, s: State) {
    forall b :: b in s.futures && !s.futures[b].Raised? ==> Reached(c, s, b, Done(s.futures[b].Succeeded?))
  }

  /** The result loop has counted what it has seen, and stops only when it has seen all. */
  ghost predicate LoopAccurate(c: Job, s: State) {
    && (forall b :: b in s.consumed ==> b in s.futures)
    && (s.allSuccess <==> forall b :: b in s.consumed ==> b in s.futures && s.futures[b].Succeeded?)
    && (s.stopped ==> s.submitted == |c.batches| && forall b :: 0 <= b < |c.batches| ==> b in s.consumed)
  }

  ghost predicate Inv(c: Job, s: State) {
    && OnePlace(c, s) && StartedOnce(s) && TableAccurate(s)
    && WorkersAccurate(c, s) && FuturesAccurate(c, s) && LoopAccurate(c, s)
  }

  lemma InvInitial(c: Job, s: State)
    requires Initial(c, s)
    ensures Inv(c, s)
  {
  }

  /** The worker a step moves. */
  function Mover(step: Step): int {
    if step.Take? || step.Enter? || step.Work? || step.Raise? || step.Leave? || step.Resolve?
    then step.w else -1
  }

  lemma OthersStay(c: Job, s: State, step: Step, s': State)
    requires Next(c, s, step, s')
    ensures |s'.workers| == |s.workers|
    ensures forall v :: 0 <= v < |s.workers| && v != Mover(step) ==> s'.workers[v] == s.workers[v]
  {
  }

  /** A held batch stays held until its future resolves. */
  lemma HeldStays(c: Job, s: State, step: Step, s': State, b: nat)
    requires Next(c, s, step, s') && Held(s, b)
    ensures b in s'.futures || Held(s', b)
  {
    OthersStay(c, s, step, s');
    var w :| Busy(s, w) && s.workers[w].b == b;
    assert b in s'.futures || (Busy(s', w) && s'.workers[w].b == b);
  }

  lemma SomewhereKept(c: Job, s: State, step: Step, s': State, b: nat)
    requires Next(c, s, step, s') && b < s'.submitted
    requires b < s.submitted ==> Somewhere(s, b)
    ensures Somewhere(s', b)
  {
    if step.Submit? && b == s.submitted {
      assert s'.queue[|s.queue|] == b;
    } else if Held(s, b) {
      HeldStays(c, s, step, s', b);
    } else if step.Take? && b in s.queue {
      assert s.queue == [s.queue[0]] + s.queue[1..];
      assert b == s.queue[0] ==> Busy(s', step.w) && s'.workers[step.w].b == b;
    }
  }

  lemma QueueKept(c: Job, s: State, step: Step, s': State)
    requires OnePlace(c, s) && Next(c, s, step, s')
    ensures QueueDistinct(s')
    ensures forall b :: b in s'.queue ==> b < s'.submitted && b !in s'.futures
    ensures step.Take? ==> s.queue[0] in s.queue && s.queue[0] !in s'.queue
  {
    forall i | 0 <= i < |s.queue| ensures s.queue[i] < s.submitted {
      assert s.queue[i] in s.queue;
    }
    assert forall b :: b in s.queue[..] ==> b in s.queue;
    if step.Raise? || step.Resolve? {
      assert Busy(s, step.w);
    }
  }

  lemma OnePlaceKept(c: Job, s: State, step: Step, s': State)
    requires OnePlace(c, s) && Next(c, s, step, s')
    ensures OnePlace(c, s')
  {
    OthersStay(c, s, step, s');
    QueueKept(c, s, step, s');
    forall b | 0 <= b < s'.submitted ensures Somewhere(s', b) {
      SomewhereKept(c, s, step, s', b);
    }
    forall w | Busy(s', w) && !(step.Take? && w == step.w)
      ensures Busy(s, w) && s.workers[w].b == s'.workers[w].b
    {
    }
  }

  lemma StartedHeldKept(c: Job, s: State, step: Step, s': State, b: nat)
    requires StartedOnce(s) && Next(c, s, step, s') && b in s'.started
    ensures b in s'.futures || Held(s', b)
  {
    hide BatchStep, Targets;
    if b in s.started {
      if b !in s.futures {
        HeldStays(c, s, step, s', b);
      }
    } else {
      assert Busy(s', step.w) && s'.workers[step.w].b == b;
    }
  }

  lemma QueuedNotStarted(c: Job, s: State, i: nat)
    requires OnePlace(c, s) && StartedOnce(s) && i < |s.queue|
    ensures s.queue[i] in s.queue && s.queue[i] !in s.started
  {
    assert s.queue[i] in s.queue;
    assert s.queue[i] !in s.futures && !Held(s, s.queue[i]);
  }

  lemma StartedWorkersKept(c: Job, s: State, step: Step, s': State, w: int)
    requires OnePlace(c, s) && StartedOnce(s) && Next(c, s, step, s') && Busy(s', w)
    ensures s'.workers[w].b in s'.started <==> !s'.workers[w].Starting?
  {
    hide BatchStep, Targets;
    OthersStay(c, s, step, s');
    if w == Mover(step) {
      if step.Take? {
        QueuedNotStarted(c, s, 0);
      } else {
        assert Busy(s, w);
      }
    } else {
      assert Busy(s, w);
      assert step.Enter? ==> Busy(s, step.w);
    }
  }

  lemma StartedOnceKept(c: Job, s: State, step: Step, s': State)
    requires OnePlace(c, s) && StartedOnce(s) && Next(c, s, step, s')
    ensures StartedOnce(s')
  {
    forall b | b in s'.started ensures b in s'.futures || Held(s', b) {
      StartedHeldKept(c, s, step, s', b);
    }
    forall w | Busy(s', w) ensures s'.workers[w].b in s'.started <==> !s'.workers[w].Starting? {
      StartedWorkersKept(c, s, step, s', w);
    }
    hide BatchStep, Targets, Held, OnePlace;
    if step.Enter? || step.Raise? || step.Resolve? {
      assert Busy(s, step.w);
    }
  }

  lemma TableWorkersKept(c: Job, s: State, step: Step, s': State, w: int)
    requires OnePlace(c, s) && StartedOnce(s) && TableAccurate(s) && Next(c, s, step, s') && Busy(s', w)
    ensures s'.workers[w].b in s'.inFlight <==> s'.workers[w].Running? || s'.workers[w].Returning?
  {
    hide BatchStep, Targets;
    OthersStay(c, s, step, s');
    if w == Mover(step) && step.Take? {
      QueuedNotStarted(c, s, 0);
    } else {
      assert Busy(s, w);
      assert Mover(step) >= 0 && !step.Take? ==> Busy(s, step.w);
    }
  }

  lemma TableAccurateKept(c: Job, s: State, step: Step, s': State)
    requires OnePlace(c, s) && StartedOnce(s) && TableAccurate(s) && Next(c, s, step, s')
    ensures TableAccurate(s')
  {
    forall w | Busy(s', w)
      ensures s'.workers[w].b in s'.inFlight <==> s'.workers[w].Running? || s'.workers[w].Returning?
    {
      TableWorkersKept(c, s, step, s', w);
    }
    hide BatchStep, Targets, Held;
    if Mover(step) >= 0 && !step.Take? {
      assert Busy(s, step.w);
    }
  }

  lemma ReachedStays(c: Job, s: State, step: Step, s': State)
    requires WorkersAccurate(c, s) && Next(c, s, step, s')
    ensures s.atHead <= s'.atHead
    ensures forall b: nat, p :: Reached(c, s, b, p) ==> Reached(c, s', b, p)
  {
    if step.Work? {
      var w := step.w;
      assert Busy(s, w);
      BatchStepKeeps(Targets(c.batches[s.workers[w].b]), c.migrates, s.workers[w].at, s.atHead);
    }
    hide Next, WorkersAccurate;
    forall b: nat, p | Reached(c, s, b, p) ensures Reached(c, s', b, p) {
      ReachedGrows(Targets(c.batches[b]), c.migrates, p, s.atHead, s'.atHead);
    }
  }

  lemma ReachedGrows(targets: seq<string>, migrates: string -> bool, p: Progress, head: set<string>, more: set<string>)
    requires BatchReached(targets, migrates, p, head) && head <= more
    ensures BatchReached(targets, migrates, p, more)
  {
  }

  lemma WorkersAccurateKept(c: Job, s: State, step: Step, s': State)
    requires OnePlace(c, s) && WorkersAccurate(c, s) && Next(c, s, step, s')
    ensures WorkersAccurate(c, s')
  {
    OthersStay(c, s, step, s');
    ReachedStays(c, s, step, s');
    forall w | Busy(s', w) && !s'.workers[w].Starting?
      ensures s'.workers[w].Running? ==> s'.workers[w].at.At?
      ensures Reached(c, s', s'.workers[w].b, ProgressOf(s'.workers[w]))
    {
      if w == Mover(step) {
        MoverAccurate(c, s, step, s');
      } else {
        hide Next, Reached;
        assert s'.workers[w] == s.workers[w] && Busy(s, w);
      }
    }
  }

  lemma MoverAccurate(c: Job, s: State, step: Step, s': State)
    requires OnePlace(c, s) && WorkersAccurate(c, s) && Next(c, s, step, s') && Mover(step) >= 0
    requires !s'.workers[step.w].Idle? && !s'.workers[step.w].Starting?
    ensures var k := s'.workers[step.w];
            (k.Running? ==> k.at.At?) && Reached(c, s', k.b, ProgressOf(k))
  {
    var w := step.w;
    assert Busy(s, w);
    if step.Work? {
      BatchStepKeeps(Targets(c.batches[s.workers[w].b]), c.migrates, s.workers[w].at, s.atHead);
    }
  }

  lemma FuturesAccurateKept(c: Job, s: State, step: Step, s': State)
    requires WorkersAccurate(c, s) && FuturesAccurate(c, s) && Next(c, s, step, s')
    ensures FuturesAccurate(c, s')
  {
    ReachedStays(c, s, step, s');
    hide Reached;
    if step.Resolve? {
      assert Busy(s, step.w);
    }
  }

  lemma LoopAccurateKept(c: Job, s: State, step: Step, s': State)
    requires OnePlace(c, s) && LoopAccurate(c, s) && Next(c, s, step, s')
    ensures LoopAccurate(c, s')
  {
    hide BatchStep, Targets;
    if step.Raise? || step.Resolve? {
      assert Busy(s, step.w);
    }
  }

  /** Every step of every thread keeps the invariant. */
  lemma InvKept(c: Job, s: State, step: Step, s': State)
    requires Inv(c, s) && Next(c, s, step, s')
    ensures Inv(c, s')
  {
    OnePlaceKept(c, s, step, s');
    StartedOnceKept(c, s, step, s');
    TableAccurateKept(c, s, step, s');
    WorkersAccurateKept(c, s, step, s');
    FuturesAccurateKept(c, s, step, s');
    LoopAccurateKept(c, s, step, s');
  }

  // ---- whole runs -----------------------------------------------------------------------------------

  ghost predicate IsRun(c: Job, states: seq<State>, steps: seq<Step>) {
    && |states| == |steps| + 1
    && Initial(c, states[0])
    && forall i :: 0 <= i < |steps| ==> Next(c, states[i], steps[i], states[i + 1])
  }

  lemma {:induction false} InvAlways(c: Job, states: seq<State>, steps: seq<Step>, k: nat)
    requires IsRun(c, states, steps) && k < |states|
    ensures Inv(c, states[k])
  {
    if k == 0 {
      InvInitial(c, states[0]);
    } else {
      InvAlways(c, states, steps, k - 1);
      InvKept(c, states[k - 1], steps[k - 1], states[k]);
    }
  }

  /** Batches wait in the order they were submitted in: the queue holds the latest ones, oldest first. */
  lemma {:induction false} QueueInOrder(c: Job, states: seq<State>, steps: seq<Step>, k: nat)
    requires IsRun(c, states, steps) && k < |states|
    ensures var s := states[k];
            |s.queue| <= s.submitted && forall i :: 0 <= i < |s.queue| ==> s.queue[i] == s.submitted - |s.queue| + i
  {
    hide BatchStep, Targets, Within;
    if k > 0 {
      QueueInOrder(c, states, steps, k - 1);
      assert Next(c, states[k - 1], steps[k - 1], states[k]);
    }
  }

  ghost function RunningBatches(ws: seq<Worker>): set<nat> {
    set w | 0 <= w < |ws| && ws[w].Running? :: ws[w].b
  }

  lemma {:induction false} RunningBounded(ws: seq<Worker>)
    ensures |RunningBatches(ws)| <= |ws|
  {
    if ws != [] {
      var init, last := ws[..|ws| - 1], ws[|ws| - 1];
      RunningBounded(init);
      var rest := RunningBatches(init);
      if last.Running? {
        assert RunningBatches(ws) == rest + {last.b} by {
          forall b ensures b in RunningBatches(ws) <==> b in rest + {last.b} {
            if b in rest { var w :| 0 <= w < |init| && init[w].Running? && init[w].b == b; assert ws[w] == init[w]; }
            if b == last.b { assert ws[|ws| - 1].b == b; }
          }
        }
      } else {
        assert RunningBatches(ws) == rest by {
          forall b ensures b in RunningBatches(ws) <==> b in rest {
            if b in rest { var w :| 0 <= w < |init| && init[w].Running? && init[w].b == b; assert ws[w] == init[w]; }
          }
        }
      }
    }
  }

  /** At no point of any run are more batches running than there are workers, and the table shows them all. */
  lemma AtMostMaxWorkersRunning(c: Job, states: seq<State>, steps: seq<Step>, k: nat)
    requires IsRun(c, states, steps) && k < |states|
    ensures |RunningBatches(states[k].workers)| <= c.maxWorkers
    ensures RunningBatches(states[k].workers) <= states[k].inFlight
  {
    InvAlways(c, states, steps, k);
    RunningBounded(states[k].workers);
    forall w | 0 <= w < |states[k].workers| && states[k].workers[w].Running?
      ensures states[k].workers[w].b in states[k].inFlight
    {
      assert Busy(states[k], w);
    }
  }

  lemma HeadStep(c: Job, s: State, step: Step, s': State)
    requires WorkersAccurate(c, s) && Next(c, s, step, s')
    ensures s.atHead <= s'.atHead
    ensures forall x :: x in s'.atHead && x !in s.atHead ==>
              exists b :: 0 <= b < |c.batches| && x in Migratable(Targets(c.batches[b]), c.migrates)
  {
    if step.Work? {
      var w := step.w;
      assert Busy(s, w);
      BatchStepKeeps(Targets(c.batches[s.workers[w].b]), c.migrates, s.workers[w].at, s.atHead);
    }
  }

  lemma {:induction false} HeadGrows(c: Job, states: seq<State>, steps: seq<Step>, k: nat)
    requires IsRun(c, states, steps) && k < |states|
    ensures states[0].atHead <= states[k].atHead
    ensures forall x :: x in states[k].atHead && x !in states[0].atHead ==>
              exists b :: 0 <= b < |c.batches| && x in Migratable(Targets(c.batches[b]), c.migrates)
  {
    if k > 0 {
      HeadGrows(c, states, steps, k - 1);
      InvAlways(c, states, steps, k - 1);
      HeadStep(c, states[k - 1], steps[k - 1], states[k]);
    }
  }

  /**
   When the runner returns, every batch was started exactly once, and the result is True exactly when every
   batch succeeded without an exception. A batch that did not raise reports success exactly when every
   schema its argument names migrates, and has those that can at head. Nothing else gets there.
   */
  lemma RunnerOutcome(c: Job, states: seq<State>, steps: seq<Step>)
    requires IsRun(c, states, steps) && states[|steps|].stopped
    ensures var end := states[|steps|];
            && (forall b :: 0 <= b < |c.batches| <==> b in end.started)
            && (forall i, j :: 0 <= i < j < |end.started| ==> end.started[i] != end.started[j])
            && (forall b :: 0 <= b < |c.batches| ==> b in end.futures)
            && (end.allSuccess <==> forall b :: 0 <= b < |c.batches| ==> end.futures[b] == Succeeded)
            && (forall b :: 0 <= b < |c.batches| && end.futures[b] != Raised ==>
                  && Migratable(Targets(c.batches[b]), c.migrates) <= end.atHead
                  && (end.futures[b] == Succeeded <==> AllMigrate(Targets(c.batches[b]), c.migrates)))
            && (forall x :: x in end.atHead && x !in states[0].atHead ==>
                  exists b :: 0 <= b < |c.batches| && x in Migratable(Targets(c.batches[b]), c.migrates))
  {
    hide Next, Migratable, AllMigrate, Targets;
    var end := states[|steps|];
    InvAlways(c, states, steps, |steps|);
    HeadGrows(c, states, steps, |steps|);
    forall b | b in end.started ensures b < |c.batches| {
      assert b in end.futures || Held(end, b);
    }
    forall b | 0 <= b < |c.batches| && end.futures[b] != Raised
      ensures Reached(c, end, b, Done(end.futures[b].Succeeded?))
    {
    }
  }

  /** With plain names throughout, True means every schema is at head, and what did not raise is as far as it can be. */
  lemma RunnerResult(c: Job, schemas: seq<string>, size: nat, states: seq<State>, steps: seq<Step>)
    requires size > 0 && c.batches == Batches(schemas, size)
    requires forall x :: x in schemas ==> PlainName(x)
    requires IsRun(c, states, steps) && states[|steps|].stopped
    ensures var end := states[|steps|];
            && (end.allSuccess ==> forall x :: x in schemas ==> x in end.atHead)
            && (forall b, x :: 0 <= b < |c.batches| && b in end.futures && end.futures[b] != Raised && x in c.batches[b] ==>
                  (c.migrates(x) ==> x in end.atHead)
                  && (end.futures[b] == Succeeded ==> c.migrates(x)))
            && (forall x :: x in end.atHead && x !in states[0].atHead ==> x in schemas && c.migrates(x))
  {
    var end := states[|steps|];
    RunnerOutcome(c, states, steps);
    BatchesCover(schemas, size);
    forall b | 0 <= b < |c.batches| ensures Targets(c.batches[b]) == c.batches[b] {
      forall i | 0 <= i < |c.batches[b]| ensures PlainName(c.batches[b][i]) {
        MemberConcat(c.batches, b, c.batches[b][i]);
      }
      PlainTargets(c.batches[b]);
    }
    hide Next, Targets, IsRun, PlainName;
    forall b, x | 0 <= b < |c.batches| && x in c.batches[b] ensures x in schemas {
      MemberConcat(c.batches, b, x);
    }
    forall x | x in schemas ensures exists b :: 0 <= b < |c.batches| && x in c.batches[b] {
      ConcatMember(c.batches, x);
    }
  }

  lemma PlainTargets(batch: seq<string>)
    requires AllPlain(batch)
    ensures Targets(batch) == batch
  {
    SchemaNamesRoundTrip(batch);
  }

  lemma {:induction false} MemberConcat(parts: seq<seq<string>>, b: nat, x: string)
    requires b < |parts| && x in parts[b]
    ensures x in Concat(parts)
  {
    if b > 0 {
      MemberConcat(parts[1..], b - 1, x);
    }
  }

  // ---- the monitor -------------------------------------------------------------------------------------

  /** Out of the table after having been in it. */
  ghost predicate Gone(s: State, b: nat) {
    b in s.started && b !in s.inFlight
  }

  lemma GoneForGood(c: Job, s: State, step: Step, s': State, b: nat)
    requires Inv(c, s) && Next(c, s, step, s') && Gone(s, b)
    ensures Gone(s', b)
  {
  }

  lemma {:induction false} GoneUntil(c: Job, states: seq<State>, steps: seq<Step>, k: nat, j: nat, b: nat)
    requires IsRun(c, states, steps) && k <= j < |states| && Gone(states[k], b)
    ensures Gone(states[j], b)
    decreases j - k
  {
    if k < j {
      InvAlways(c, states, steps, k);
      GoneForGood(c, states[k], steps[k], states[k + 1], b);
      GoneUntil(c, states, steps, k + 1, j, b);
    }
  }

  lemma {:induction false} StartedGrows(c: Job, states: seq<State>, steps: seq<Step>, i: nat, k: nat, b: nat)
    requires IsRun(c, states, steps) && i <= k < |states| && b in states[i].started
    ensures b in states[k].started
    decreases k - i
  {
    if i < k {
      StartedGrows(c, states, steps, i + 1, k, b);
    }
  }

  lemma {:induction false} PrevUntilTick(c: Job, states: seq<State>, steps: seq<Step>, i: nat, j: nat)
    requires IsRun(c, states, steps) && i < j < |states| && steps[i] == Tick
    requires forall k :: i < k < j ==> steps[k] != Tick
    ensures states[j].prevInFlight == states[i].inFlight
    decreases j
  {
    if i + 1 < j {
      PrevUntilTick(c, states, steps, i, j - 1);
      assert Next(c, states[j - 1], steps[j - 1], states[j]);
    } else {
      assert Next(c, states[i], steps[i], states[j]);
    }
  }

  /** A batch is reported at a tick exactly when it was in the table the whole time since the tick before, without a gap. */
  lemma StuckMeansStayed(c: Job, states: seq<State>, steps: seq<Step>, i: nat, j: nat, b: nat)
    requires IsRun(c, states, steps) && i < j < |steps|
    requires steps[i] == Tick && steps[j] == Tick && forall k :: i < k < j ==> steps[k] != Tick
    ensures b in Reported(states[j]) <==> forall k :: i <= k <= j ==> b in states[k].inFlight
  {
    PrevUntilTick(c, states, steps, i, j);
    InvAlways(c, states, steps, i);
    if b in Reported(states[j]) {
      forall k | i <= k <= j ensures b in states[k].inFlight {
        StartedGrows(c, states, steps, i, k, b);
        if b !in states[k].inFlight {
          GoneUntil(c, states, steps, k, j, b);
        }
      }
    }
  }

  /** Nothing is reported at the first tick. */
  lemma {:induction false} FirstTickSilent(c: Job, states: seq<State>, steps: seq<Step>, j: nat)
    requires IsRun(c, states, steps) && j < |states|
    requires forall k :: 0 <= k < j ==> steps[k] != Tick
    ensures states[j].prevInFlight == {} && Reported(states[j]) == {}
  {
    if j > 0 {
      FirstTickSilent(c, states, steps, j - 1);
      assert Next(c, states[j - 1], steps[j - 1], states[j]);
    }
  }

  /** Some worker's process is at work on the batch, or has just come back. */
  ghost predicate AtWork(s: State, b: nat) {
    exists w :: Busy(s, w) && s.workers[w].b == b && (s.workers[w].Running? || s.workers[w].Returning?)
  }

  /** The monitor's "still running" is true of a reported batch exactly when its `_run` has not raised. */
  lemma ReportedMeaning(c: Job, s: State, b: nat)
    requires Inv(c, s) && b in Reported(s)
    ensures AtWork(s, b) <==> !(b in s.futures && s.futures[b].Raised?)
  {
    hide WorkersAccurate, FuturesAccurate, LoopAccurate;
    if b !in s.futures {
      assert Held(s, b);
      var w :| Busy(s, w) && s.workers[w].b == b;
    }
  }

  /** Once the runner has returned, the table holds exactly the batches that raised. */
  lemma TableAtEnd(c: Job, states: seq<State>, steps: seq<Step>, b: nat)
    requires IsRun(c, states, steps) && states[|steps|].stopped && b < |c.batches|
    ensures var end := states[|steps|];
            b in end.futures && (b in end.inFlight <==> end.futures[b].Raised?)
  {
    InvAlways(c, states, steps, |steps|);
    hide OnePlace, StartedOnce, WorkersAccurate, FuturesAccurate, Next;
  }

  /** One batch, one worker: the states of a run whose `_run` raises. */
  function RaisingState(k: nat): State {
    var s := State(0, [], [Idle], {}, map[], {}, true, false, {}, [], {});
    if k == 0 then s
    else if k == 1 then s.(submitted := 1, queue := [0])
    else if k == 2 then s.(submitted := 1, workers := [Starting(0)])
    else if k == 3 then s.(submitted := 1, workers := [Running(0, At(UntilFailure, 0))], inFlight := {0}, started := [0])
    else
      var t := s.(submitted := 1, inFlight := {0}, started := [0], futures := map[0 := Raised]);
      if k == 4 then t else t.(prevInFlight := {0})
  }

  /** A batch that raised long ago, reported as still running. */
  lemma RaisedIsReported(c: Job) returns (states: seq<State>, steps: seq<Step>)
    requires |c.batches| == 1 && c.maxWorkers == 1
    ensures IsRun(c, states, steps) && |steps| == 6 && steps[3] == Raise(0) && steps[4] == Tick == steps[5]
    ensures 0 in Reported(states[5]) && !AtWork(states[5], 0)
  {
    states := seq(7, k requires 0 <= k < 7 => RaisingState(k));
    steps := [Submit, Take(0), Enter(0), Raise(0), Tick, Tick];
    assert [] + [0] == [0] && [0][1..] == [] && {} + {0} == {0};
    assert [Idle][0 := Starting(0)] == [Starting(0)];
    assert [Starting(0)][0 := Running(0, At(UntilFailure, 0))] == [Running(0, At(UntilFailure, 0))];
    assert [Running(0, At(UntilFailure, 0))][0 := Idle] == [Idle];
    forall k | 0 <= k < 6 ensures Next(c, RaisingState(k), steps[k], RaisingState(k + 1)) {
    }
  }

  // ---- progress ----------------------------------------------------------------------------------------

  /** The runner cannot get stuck: until it returns, some thread other than the monitor can move. */
  lemma AlwaysCanMove(c: Job, s: State) returns (step: Step, s': State)
    requires Inv(c, s) && !s.stopped && c.maxWorkers > 0
    ensures Next(c, s, step, s') && step != Tick && !step.Raise?
  {
    if s.submitted < |c.batches| {
      step, s' := Submit, s.(submitted := s.submitted + 1, queue := s.queue + [s.submitted]);
    } else if w :| Busy(s, w) {
      var k := s.workers[w];
      match k {
        case Starting(b) =>
          step := Enter(w);
          s' := s.(inFlight := s.inFlight + {b}, started := s.started + [b],
                   workers := s.workers[w := Running(b, At(UntilFailure, 0))]);
        case Running(b, p) =>
          assert Reached(c, s, b, p);
          var (next, after) := BatchStep(Targets(c.batches[b]), c.migrates, p, s.atHead);
          step, s' := Work(w), s.(atHead := after, workers := s.workers[w := WorkerAt(b, next)]);
        case Returning(b, ok) =>
          step, s' := Leave(w), s.(inFlight := s.inFlight - {b}, workers := s.workers[w := Returned(b, ok)]);
        case Returned(b, ok) =>
          step, s' := Resolve(w), s.(workers := s.workers[w := Idle], futures := s.futures[b := OutcomeOf(ok)]);
      }
    } else if s.queue != [] {
      assert s.workers[0].Idle? by { assert !Busy(s, 0); }
      step, s' := Take(0), s.(queue := s.queue[1..], workers := s.workers[0 := Starting(s.queue[0])]);
    } else if b :| 0 <= b < |c.batches| && b !in s.consumed {
      assert Somewhere(s, b);
      step, s' := Consume(b), s.(consumed := s.consumed + {b}, allSuccess := s.allSuccess && s.futures[b].Succeeded?);
    } else {
      step, s' := Return, s.(stopped := true);
    }
  }

  /** Work steps a whole batch takes at most. */
  function Full(c: Job, b: nat): nat {
    if b < |c.batches| then WorkLeft(Targets(c.batches[b]), At(UntilFailure, 0)) else 0
  }

  function Weight(c: Job, w: Worker): nat {
    match w
    case Idle => 0
    case Starting(b) => 4 + Full(c, b)
    case Running(b, p) => 3 + if b < |c.batches| then WorkLeft(Targets(c.batches[b]), p) else 0
    case Returning(_, _) => 3
    case Returned(_, _) => 2
  }

  function Weights(c: Job, ws: seq<Worker>): nat {
    if ws == [] then 0 else Weight(c, ws[0]) + Weights(c, ws[1..])
  }

  lemma {:induction false} WeightsUpdate(c: Job, ws: seq<Worker>, w: nat, k: Worker)
    requires w < |ws|
    ensures Weights(c, ws[w := k]) + Weight(c, ws[w]) == Weights(c, ws) + Weight(c, k)
  {
    hide Weight;
    if w == 0 {
      assert ws[0 := k][1..] == ws[1..];
    } else {
      assert ws[w := k][1..] == ws[1..][w - 1 := k];
      WeightsUpdate(c, ws[1..], w - 1, k);
    }
  }

  function QueueWeight(c: Job, queue: seq<nat>): nat {
    if queue == [] then 0 else 5 + Full(c, queue[0]) + QueueWeight(c, queue[1..])
  }

  lemma {:induction false} QueueAppend(c: Job, queue: seq<nat>, b: nat)
    ensures QueueWeight(c, queue + [b]) == QueueWeight(c, queue) + 5 + Full(c, b)
  {
    hide Full;
    if queue == [] {
      assert ([] + [b])[1..] == [];
    } else {
      assert (queue + [b])[1..] == queue[1..] + [b];
      QueueAppend(c, queue[1..], b);
    }
  }

  /** Eight steps for each batch from `b` on, and two more for each schema it names. */
  function Unsubmitted(c: Job, b: nat): nat
    decreases |c.batches| - b
  {
    if b >= |c.batches| then 0 else 2 * |Targets(c.batches[b])| + 8 + Unsubmitted(c, b + 1)
  }

  /** Futures the result loop has not seen. */
  function Unconsumed(s: State): set<nat> {
    s.futures.Keys - s.consumed
  }

  /** Work left. */
  function Left(c: Job, s: State): nat {
    Unsubmitted(c, s.submitted) + QueueWeight(c, s.queue) + Weights(c, s.workers) + |Unconsumed(s)|
    + if s.stopped then 0 else 1
  }

  lemma ShrinkBy<T>(a: set<T>, b: set<T>, x: T)
    requires x in a && b == a - {x}
    ensures |b| == |a| - 1
  {
  }

  lemma BatchStepUsesUp(targets: seq<string>, migrates: string -> bool, p: Progress, head: set<string>)
    requires Within(targets, p)
    ensures WorkLeft(targets, BatchStep(targets, migrates, p, head).0) < WorkLeft(targets, p)
  {
  }

  /** A worker's step makes it lighter, by more than the future it may leave behind. */
  lemma MoverLighter(c: Job, s: State, step: Step, s': State)
    requires Next(c, s, step, s') && Mover(step) >= 0
    ensures Weight(c, s'.workers[step.w]) + (if step.Raise? || step.Resolve? then 1 else 0) + QueueWeight(c, s'.queue)
            < Weight(c, s.workers[step.w]) + QueueWeight(c, s.queue)
  {
    if step.Work? {
      BatchStepUsesUp(Targets(c.batches[s.workers[step.w].b]), c.migrates, s.workers[step.w].at, s.atHead);
    }
    hide BatchStep, Targets;
  }

  lemma MoverKeeps(c: Job, s: State, step: Step, s': State)
    requires Next(c, s, step, s') && Mover(step) >= 0
    ensures s'.submitted == s.submitted && s'.stopped == s.stopped && s'.consumed == s.consumed
    ensures step.w < |s.workers| && s'.workers == s.workers[step.w := s'.workers[step.w]]
    ensures !step.Take? ==> Busy(s, step.w)
    ensures s'.futures.Keys == s.futures.Keys + if step.Raise? || step.Resolve? then {s.workers[step.w].b} else {}
  {
    hide BatchStep, Targets;
  }

  lemma FuturesGrow(c: Job, s: State, step: Step, s': State)
    requires OnePlace(c, s) && LoopAccurate(c, s) && Next(c, s, step, s') && Mover(step) >= 0
    ensures |Unconsumed(s')| == |Unconsumed(s)| + if step.Raise? || step.Resolve? then 1 else 0
  {
    MoverKeeps(c, s, step, s');
    hide Next;
    if step.Raise? || step.Resolve? {
      OneMoreFuture(s, s.workers[step.w].b, s');
    } else {
      assert Unconsumed(s) == Unconsumed(s');
    }
  }

  lemma OneMoreFuture(s: State, b: nat, s': State)
    requires b !in s.futures && b !in s.consumed
    requires s'.consumed == s.consumed && s'.futures.Keys == s.futures.Keys + {b}
    ensures |Unconsumed(s')| == |Unconsumed(s)| + 1
  {
    ShrinkBy(Unconsumed(s'), Unconsumed(s), b);
  }

  lemma SubmitUsesUp(c: Job, s: State, s': State)
    requires Next(c, s, Submit, s')
    ensures Left(c, s') < Left(c, s)
  {
    hide Weights, Targets, QueueWeight;
    QueueAppend(c, s.queue, s.submitted);
    assert Unconsumed(s') == Unconsumed(s);
  }

  lemma ConsumeUsesUp(c: Job, s: State, b: nat, s': State)
    requires Next(c, s, Consume(b), s')
    ensures Left(c, s') < Left(c, s)
  {
    hide Weights, QueueWeight, Unsubmitted;
    ShrinkBy(Unconsumed(s), Unconsumed(s'), b);
  }

  /** Every step but a monitor tick uses up work. */
  lemma StepsUseUp(c: Job, s: State, step: Step, s': State)
    requires OnePlace(c, s) && LoopAccurate(c, s) && Next(c, s, step, s')
    ensures if step == Tick then Left(c, s') == Left(c, s) else Left(c, s') < Left(c, s)
  {
    hide Weights, Weight, QueueWeight, Unsubmitted, BatchStep, OnePlace, LoopAccurate;
    if Mover(step) >= 0 {
      MoverKeeps(c, s, step, s');
      FuturesGrow(c, s, step, s');
      MoverLighter(c, s, step, s');
      WeightsUpdate(c, s.workers, step.w, s'.workers[step.w]);
    } else if step.Submit? {
      SubmitUsesUp(c, s, s');
    } else if step.Consume? {
      ConsumeUsesUp(c, s, step.b, s');
    } else {
      assert Unconsumed(s') == Unconsumed(s);
    }
  }

  function NonTicks(steps: seq<Step>): nat {
    if steps == [] then 0 else NonTicks(steps[..|steps| - 1]) + (if steps[|steps| - 1] == Tick then 0 else 1)
  }

  lemma LeftAtStart(c: Job, s: State)
    requires Initial(c, s)
    ensures Left(c, s) == Unsubmitted(c, 0) + 1
  {
    IdleWeightless(c, s.workers);
    assert Unconsumed(s) == {};
  }

  /** No schedule is longer than eight steps a batch, two a schema it names, and one to return, ticks aside. */
  lemma {:induction false} RunsAreBounded(c: Job, states: seq<State>, steps: seq<Step>, k: nat)
    requires IsRun(c, states, steps) && k <= |steps|
    ensures NonTicks(steps[..k]) + Left(c, states[k]) <= Unsubmitted(c, 0) + 1
  {
    hide Left, Unsubmitted, OnePlace, LoopAccurate, Next;
    if k == 0 {
      LeftAtStart(c, states[0]);
    } else {
      RunsAreBounded(c, states, steps, k - 1);
      InvAlways(c, states, steps, k - 1);
      StepsUseUp(c, states[k - 1], steps[k - 1], states[k]);
      assert steps[..k][..k - 1] == steps[..k - 1];
    }
  }

  lemma {:induction false} IdleWeightless(c: Job, ws: seq<Worker>)
    requires forall w :: 0 <= w < |ws| ==> ws[w] == Idle
    ensures Weights(c, ws) == 0
  {
    if ws != [] {
      IdleWeightless(c, ws[1..]);
    }
  }
}
