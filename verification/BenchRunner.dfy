/**
 The resumable benchmark runner (backend/scripts/run_enterpriserag_bench_questions.py): async tasks with
 bounded retries sharing counters, a semaphore and two locks, and an answers file that later runs resume from.
 A run may be cut off after any step; requests time out, raise or answer as they please.
 */
module BenchRunner {
  import opened Base

  const MAX_QUESTION_ATTEMPTS := 3

  // ---- the answers file -----------------------------------------------------------------

  datatype Line = Record(id: string) | Unparsable

  /**
   Text after the last newline: nothing but blanks, one whole record, anything else, or bytes that stop inside
   a character. Those make the file unreadable, whatever is written after them.
   */
  datatype Tail = Blank | Whole(id: string) | Fragment | Torn

  /** Strict decoding fails anywhere in the file. */
  datatype Unreadable = InvalidUtf8

  datatype OutputFile = OutputFile(lines: seq<Line>, tail: Tail)

  /** `file.write(json.dumps(...))`: glued to whatever the last line already holds. */
  function WriteJson(f: OutputFile, id: string): OutputFile {
    if f.tail.Torn? then f else f.(tail := if f.tail.Blank? then Whole(id) else Fragment)
  }

  /** `file.write("\n")`. */
  function WriteNewline(f: OutputFile): OutputFile {
    match f.tail
    case Torn => f
    case Whole(id) => OutputFile(f.lines + [Record(id)], Blank)
    case _ => OutputFile(f.lines + [Unparsable], Blank)
  }

  function WriteRecord(f: OutputFile, id: string): OutputFile {
    WriteNewline(WriteJson(f, id))
  }

  function WriteRecords(f: OutputFile, ids: seq<string>): OutputFile {
    if ids == [] then f else WriteRecord(WriteRecords(f, ids[..|ids| - 1]), ids[|ids| - 1])
  }

  function LineIds(lines: seq<Line>): seq<string> {
    if lines == [] then []
    else LineIds(lines[..|lines| - 1]) + (if lines[|lines| - 1].Record? then [lines[|lines| - 1].id] else [])
  }

  /** Ids of the parsable records, the unterminated last line included. */
  function Ids(f: OutputFile): seq<string> {
    LineIds(f.lines) + (if f.tail.Whole? then [f.tail.id] else [])
  }

  method LoadCompletedQuestionIds(f: OutputFile) returns (r: Result<set<string>, Unreadable>)
    ensures r == if f.tail.Torn? then Err(InvalidUtf8) else Ok(set id | id in Ids(f))
  {
    if f.tail.Torn? {
      return Err(InvalidUtf8);
    }
    var completed: set<string> := {};
    for i := 0 to |f.lines|
      invariant completed == set id | id in LineIds(f.lines[..i])
    {
      match f.lines[i] {
        case Record(id) => completed := completed + {id};
        case Unparsable =>
      }
      assert f.lines[..i + 1][..i] == f.lines[..i];
    }
    assert f.lines[..|f.lines|] == f.lines;
    if f.tail.Whole? {
      completed := completed + {f.tail.id};
    }
    assert completed == set id | id in Ids(f);
    r := Ok(completed);
  }

  /** No two records with the same id. */
  ghost predicate RecordsDistinct(lines: seq<Line>) {
    forall i, j :: 0 <= i < j < |lines| && lines[i].Record? && lines[j].Record? ==> lines[i].id != lines[j].id
  }

  lemma RecordsDistinctAppend(init: seq<Line>, last: Line)
    ensures RecordsDistinct(init + [last]) <==> RecordsDistinct(init) && (last.Record? ==> last !in init)
  {
    var lines := init + [last];
    assert lines[|init|] == last && forall i :: 0 <= i < |init| ==> lines[i] == init[i];
    if last in init {
      var i :| 0 <= i < |init| && init[i] == last;
      assert lines[i] == last;
    }
  }

  lemma {:induction false} LineIdsMeaning(lines: seq<Line>)
    ensures forall id :: id in LineIds(lines) <==> Record(id) in lines
    ensures Distinct(LineIds(lines)) <==> RecordsDistinct(lines)
  {
    if lines != [] {
      var init, last := lines[..|lines| - 1], lines[|lines| - 1];
      assert lines == init + [last];
      LineIdsMeaning(init);
      RecordsDistinctAppend(init, last);
      hide RecordsDistinct, Distinct;
      if last.Record? {
        AppendDistinct(LineIds(init), last.id);
      } else {
        assert LineIds(lines) == LineIds(init) + [] == LineIds(init);
      }
    }
  }

  lemma AppendDistinct(ids: seq<string>, id: string)
    ensures Distinct(ids + [id]) <==> Distinct(ids) && id !in ids
  {
    var more := ids + [id];
    assert more[|ids|] == id && forall i :: 0 <= i < |ids| ==> more[i] == ids[i];
  }

  /** No id on file twice: no two records with it, and none beside the unterminated one. */
  lemma IdsMeaning(f: OutputFile)
    ensures forall id :: id in Ids(f) <==> Record(id) in f.lines || f.tail == Whole(id)
    ensures Distinct(Ids(f)) <==>
              RecordsDistinct(f.lines) && (f.tail.Whole? ==> Record(f.tail.id) !in f.lines)
  {
    LineIdsMeaning(f.lines);
    if f.tail.Whole? {
      AppendDistinct(LineIds(f.lines), f.tail.id);
    }
    hide Distinct, RecordsDistinct;
    assert LineIds(f.lines) + [] == LineIds(f.lines);
  }

  /** The questions a run still has to ask, after `--max-questions`. */
  function Remaining(questions: seq<string>, maxQuestions: Option<nat>, f: OutputFile): seq<string> {
    var asked := match maxQuestions
                 case None => questions
                 case Some(n) => if n < |questions| then questions[..n] else questions;
    var done := Ids(f);
    Filter(asked, q => q !in done)
  }

  // ---- one run as a transition system ----------------------------------------------------

  /** Where a `process_question` task stands; attempts count from 1. */
  datatype Task =
    | Waiting(attempt: nat)       // before the semaphore
    | Submitting(attempt: nat)    // request in flight
    | TimedOut(attempt: nat)      // before the progress lock
    | StuckLocked(attempt: nat)
    | Sleeping(attempt: nat)
    | Failing | FailLocked | FailCounted | FailListed | DoneFailed
    | Answered | WriteLocked | JsonWritten | LineWritten
    | Written | OkLocked | OkCounted | OkTallied | DoneOk

  datatype Reply = TimesOut | Raises | Answers

  datatype Run = Run(questions: seq<string>, parallelism: nat, initial: OutputFile)

  datatype State = State(
    tasks: seq<Task>, submissions: seq<nat>, free: nat,
    progressLock: Option<nat>, writeLock: Option<nat>,
    completed: nat, successful: nat, stuck: nat, failed: seq<string>,
    file: OutputFile,             // as written by the process
    flushed: OutputFile,          // as of the last flush
    log: seq<string>)             // history: ids flushed in this run

  function Start(c: Run): State {
    State(seq(|c.questions|, _ => Waiting(1)), seq(|c.questions|, _ => 0), c.parallelism,
          None, None, 0, 0, 0, [], c.initial, c.initial, [])
  }

  /** Task `i` goes on to its next await or lock boundary; None while it is blocked or done. */
  function Advance(c: Run, s: State, i: nat, reply: Reply): Option<State>
    requires i < |s.tasks| == |s.submissions| == |c.questions|
  {
    var id := c.questions[i];
    match s.tasks[i]
    case Waiting(a) =>
      if s.free == 0 then None
      else Some(s.(tasks := s.tasks[i := Submitting(a)], free := s.free - 1,
                   submissions := s.submissions[i := s.submissions[i] + 1]))
    case Submitting(a) =>
      var next := match reply case TimesOut => TimedOut(a) case Raises => Failing case Answers => Answered;
      Some(s.(tasks := s.tasks[i := next], free := s.free + 1))
    case TimedOut(a) =>
      if s.progressLock.Some? then None
      else Some(s.(tasks := s.tasks[i := StuckLocked(a)], progressLock := Some(i)))
    case StuckLocked(a) =>
      Some(s.(tasks := s.tasks[i := Sleeping(a)], stuck := s.stuck + 1, progressLock := None))
    case Sleeping(a) =>
      Some(s.(tasks := s.tasks[i := if a < MAX_QUESTION_ATTEMPTS then Waiting(a + 1) else Failing]))
    case Failing =>
      if s.progressLock.Some? then None
      else Some(s.(tasks := s.tasks[i := FailLocked], progressLock := Some(i)))
    case FailLocked =>
      Some(s.(tasks := s.tasks[i := FailCounted], completed := s.completed + 1))
    case FailCounted =>
      Some(s.(tasks := s.tasks[i := FailListed], failed := s.failed + [id]))
    case FailListed =>
      Some(s.(tasks := s.tasks[i := DoneFailed], progressLock := None))
    case Answered =>
      if s.writeLock.Some? then None
      else Some(s.(tasks := s.tasks[i := WriteLocked], writeLock := Some(i)))
    case WriteLocked =>
      Some(s.(tasks := s.tasks[i := JsonWritten], file := WriteJson(s.file, id)))
    case JsonWritten =>
      Some(s.(tasks := s.tasks[i := LineWritten], file := WriteNewline(s.file)))
    case LineWritten =>
      Some(s.(tasks := s.tasks[i := Written], writeLock := None, flushed := s.file, log := s.log + [id]))
    case Written =>
      if s.progressLock.Some? then None
      else Some(s.(tasks := s.tasks[i := OkLocked], progressLock := Some(i)))
    case OkLocked =>
      Some(s.(tasks := s.tasks[i := OkCounted], completed := s.completed + 1))
    case OkCounted =>
      Some(s.(tasks := s.tasks[i := OkTallied], successful := s.successful + 1))
    case OkTallied =>
      Some(s.(tasks := s.tasks[i := DoneOk], progressLock := None))
    case DoneFailed => None
    case DoneOk => None
  }

  // ---- counting tasks -----------------------------------------------------------------------

  function Count(tasks: seq<Task>, p: Task -> bool): nat {
    if tasks == [] then 0 else (if p(tasks[0]) then 1 else 0) + Count(tasks[1..], p)
  }

  lemma {:induction false} CountUpdate(tasks: seq<Task>, i: nat, t: Task, p: Task -> bool)
    requires i < |tasks|
    ensures Count(tasks[i := t], p) + (if p(tasks[i]) then 1 else 0) == Count(tasks, p) + (if p(t) then 1 else 0)
  {
    if i == 0 {
      assert tasks[0 := t][1..] == tasks[1..];
    } else {
      assert tasks[i := t][1..] == tasks[1..][i - 1 := t];
      CountUpdate(tasks[1..], i - 1, t, p);
    }
  }

  lemma {:induction false} CountSplit(tasks: seq<Task>, p: Task -> bool, q: Task -> bool, r: Task -> bool)
    requires forall t :: t in tasks ==> (p(t) <==> q(t) || r(t)) && !(q(t) && r(t))
    ensures Count(tasks, p) == Count(tasks, q) + Count(tasks, r) <= |tasks|
  {
    if tasks != [] {
      CountSplit(tasks[1..], p, q, r);
      assert tasks[0] in tasks;
    }
  }

  lemma {:induction false} CountAll(tasks: seq<Task>, p: Task -> bool)
    requires forall t :: t in tasks ==> p(t)
    ensures Count(tasks, p) == |tasks|
  {
    if tasks != [] {
      assert tasks[0] in tasks;
      CountAll(tasks[1..], p);
    }
  }

  predicate IsCounted(t: Task) {
    t.FailCounted? || t.FailListed? || t.DoneFailed? || t.OkCounted? || t.OkTallied? || t.DoneOk?
  }

  predicate IsTallied(t: Task) {
    t.OkTallied? || t.DoneOk?
  }

  predicate IsListed(t: Task) {
    t.FailListed? || t.DoneFailed?
  }

  /** Past the flush of its line. */
  predicate IsFlushed(t: Task) {
    t.Written? || t.OkLocked? || t.OkCounted? || t.OkTallied? || t.DoneOk?
  }

  predicate IsSubmitting(t: Task) {
    t.Submitting?
  }

  predicate HoldsProgress(t: Task) {
    || t.StuckLocked? || t.FailLocked? || t.FailCounted? || t.FailListed?
    || t.OkLocked? || t.OkCounted? || t.OkTallied?
  }

  predicate HoldsWrite(t: Task) {
    t.WriteLocked? || t.JsonWritten? || t.LineWritten?
  }

  predicate Attempting(t: Task) {
    t.Waiting? || t.Submitting? || t.TimedOut? || t.StuckLocked? || t.Sleeping?
  }

  // ---- the invariant -------------------------------------------------------------------------

  ghost predicate Shape(c: Run, s: State) {
    |s.tasks| == |s.submissions| == |c.questions|
  }

  ghost predicate LocksHeld(c: Run, s: State) {
    && Shape(c, s)
    && (forall i :: 0 <= i < |s.tasks| ==> (HoldsProgress(s.tasks[i]) <==> s.progressLock == Some(i)))
    && (forall i :: 0 <= i < |s.tasks| ==> (HoldsWrite(s.tasks[i]) <==> s.writeLock == Some(i)))
    && (s.progressLock.Some? ==> s.progressLock.value < |s.tasks|)
    && (s.writeLock.Some? ==> s.writeLock.value < |s.tasks|)
  }

  ghost predicate CountersAgree(c: Run, s: State) {
    && s.completed == Count(s.tasks, IsCounted)
    && s.successful == Count(s.tasks, IsTallied)
    && |s.failed| == Count(s.tasks, IsListed)
    && |s.log| == Count(s.tasks, IsFlushed)
    && s.free + Count(s.tasks, IsSubmitting) == c.parallelism
  }

  ghost predicate AttemptsBounded(c: Run, s: State) {
    && Shape(c, s)
    && forall i :: 0 <= i < |s.tasks| ==>
         var t := s.tasks[i];
         && s.submissions[i] <= MAX_QUESTION_ATTEMPTS
         && (Attempting(t) ==> 1 <= t.attempt <= MAX_QUESTION_ATTEMPTS
                               && s.submissions[i] == if t.Waiting? then t.attempt - 1 else t.attempt)
  }

  /** What the file holds, given what was flushed and where the writer stands. */
  ghost predicate FileAgrees(c: Run, s: State) {
    && Shape(c, s)
    && s.flushed == WriteRecords(c.initial, s.log)
    && (s.writeLock.None? ==> s.file == s.flushed)
    && (s.writeLock.Some? && s.writeLock.value < |s.tasks| ==>
          var i := s.writeLock.value;
          && (s.tasks[i].WriteLocked? ==> s.file == s.flushed)
          && (s.tasks[i].JsonWritten? ==> s.file == WriteJson(s.flushed, c.questions[i]))
          && (s.tasks[i].LineWritten? ==> s.file == WriteRecord(s.flushed, c.questions[i])))
  }

  ghost predicate LogAgrees(c: Run, s: State) {
    && Shape(c, s)
    && (Distinct(c.questions) ==> Distinct(s.log))
    && (forall id :: id in s.log || id in s.failed ==> id in c.questions)
    && (Distinct(c.questions) ==>
          forall i :: 0 <= i < |s.tasks| ==> (c.questions[i] in s.log <==> IsFlushed(s.tasks[i])))
    && (Distinct(c.questions) ==>
          forall i :: 0 <= i < |s.tasks| ==> (c.questions[i] in s.failed <==> IsListed(s.tasks[i])))
  }

  ghost predicate Inv(c: Run, s: State) {
    LocksHeld(c, s) && CountersAgree(c, s) && AttemptsBounded(c, s) && FileAgrees(c, s) && LogAgrees(c, s)
  }

  lemma {:induction false} CountNone(tasks: seq<Task>, p: Task -> bool)
    requires forall t :: t in tasks ==> !p(t)
    ensures Count(tasks, p) == 0
  {
    if tasks != [] {
      assert tasks[0] in tasks;
      CountNone(tasks[1..], p);
    }
  }

  lemma InvStart(c: Run)
    ensures Inv(c, Start(c))
  {
    var ts := Start(c).tasks;
    CountNone(ts, IsCounted);
    CountNone(ts, IsTallied);
    CountNone(ts, IsListed);
    CountNone(ts, IsFlushed);
    CountNone(ts, IsSubmitting);
  }

  function One(b: bool): nat {
    if b then 1 else 0
  }

  /** The lock `held` after task `i` goes from `before` to `after` holding it or not. */
  function LockAfter(held: Option<nat>, i: nat, before: bool, after: bool): Option<nat> {
    if after then Some(i) else if before then None else held
  }

  /** What one step does to the locks. */
  ghost predicate LockEffect(s: State, i: nat, s': State) {
    && i < |s.tasks| == |s'.tasks| && s'.tasks == s.tasks[i := s'.tasks[i]]
    && |s'.submissions| == |s.submissions|
    && (var (t, t') := (s.tasks[i], s'.tasks[i]);
        && s'.progressLock == LockAfter(s.progressLock, i, HoldsProgress(t), HoldsProgress(t'))
        && (HoldsProgress(t') && !HoldsProgress(t) ==> s.progressLock.None?)
        && s'.writeLock == LockAfter(s.writeLock, i, HoldsWrite(t), HoldsWrite(t'))
        && (HoldsWrite(t') && !HoldsWrite(t) ==> s.writeLock.None?))
  }

  /** Each counter moves exactly when task `i` passes the matching point. */
  ghost predicate CounterEffect(s: State, i: nat, s': State) {
    && i < |s.tasks| == |s'.tasks| && s'.tasks == s.tasks[i := s'.tasks[i]]
    && (var (t, t') := (s.tasks[i], s'.tasks[i]);
        && s'.completed == s.completed + One(IsCounted(t')) - One(IsCounted(t))
        && s'.successful == s.successful + One(IsTallied(t')) - One(IsTallied(t))
        && |s'.failed| == |s.failed| + One(IsListed(t')) - One(IsListed(t))
        && |s'.log| == |s.log| + One(IsFlushed(t')) - One(IsFlushed(t))
        && s'.free == s.free - One(IsSubmitting(t')) + One(IsSubmitting(t)))
  }

  lemma AdvanceLockEffect(c: Run, s: State, i: nat, reply: Reply)
    requires LocksHeld(c, s) && i < |s.tasks| && Advance(c, s, i, reply).Some?
    ensures LockEffect(s, i, Advance(c, s, i, reply).value)
  {
  }

  lemma AdvanceCounterEffect(c: Run, s: State, i: nat, reply: Reply)
    requires Shape(c, s) && i < |s.tasks| && Advance(c, s, i, reply).Some?
    ensures CounterEffect(s, i, Advance(c, s, i, reply).value)
  {
  }

  lemma LocksKept(c: Run, s: State, i: nat, s': State)
    requires LocksHeld(c, s) && LockEffect(s, i, s')
    ensures LocksHeld(c, s')
  {
  }

  lemma CountersKept(c: Run, s: State, i: nat, s': State)
    requires CountersAgree(c, s) && CounterEffect(s, i, s')
    ensures CountersAgree(c, s')
  {
    var t := s'.tasks[i];
    CountUpdate(s.tasks, i, t, IsCounted);
    CountUpdate(s.tasks, i, t, IsTallied);
    CountUpdate(s.tasks, i, t, IsListed);
    CountUpdate(s.tasks, i, t, IsFlushed);
    CountUpdate(s.tasks, i, t, IsSubmitting);
  }

  lemma AttemptsKept(c: Run, s: State, i: nat, reply: Reply)
    requires AttemptsBounded(c, s) && i < |s.tasks| && Advance(c, s, i, reply).Some?
    ensures AttemptsBounded(c, Advance(c, s, i, reply).value)
  {
  }

  lemma {:induction false} WriteRecordsAppend(f: OutputFile, ids: seq<string>, id: string)
    ensures WriteRecords(f, ids + [id]) == WriteRecord(WriteRecords(f, ids), id)
  {
  }

  lemma WriterKept(c: Run, s: State, i: nat, reply: Reply)
    requires LocksHeld(c, s) && FileAgrees(c, s) && i < |s.tasks| && HoldsWrite(s.tasks[i])
    requires Advance(c, s, i, reply).Some?
    ensures FileAgrees(c, Advance(c, s, i, reply).value)
  {
    hide WriteRecords, WriteJson, WriteNewline;
    WriteRecordsAppend(c.initial, s.log, c.questions[i]);
  }

  lemma FileKept(c: Run, s: State, i: nat, reply: Reply)
    requires LocksHeld(c, s) && FileAgrees(c, s) && i < |s.tasks| && Advance(c, s, i, reply).Some?
    ensures FileAgrees(c, Advance(c, s, i, reply).value)
  {
    hide WriteRecords, WriteJson, WriteNewline;
    var s' := Advance(c, s, i, reply).value;
    if HoldsWrite(s.tasks[i]) {
      WriterKept(c, s, i, reply);
    } else if s.tasks[i].Answered? {
      assert s'.file == s'.flushed;
    } else {
      assert s'.file == s.file && s'.flushed == s.flushed && s'.log == s.log && s'.writeLock == s.writeLock;
      assert s.writeLock.Some? && s.writeLock.value < |s.tasks| ==> s.writeLock.value != i;
    }
  }

  /** Exactly one step of a task logs its id, and exactly one lists it as failed. */
  ghost predicate LogEffect(c: Run, s: State, i: nat, s': State) {
    && i < |s.tasks| == |s'.tasks| == |c.questions| && |s'.submissions| == |s.submissions|
    && s'.tasks == s.tasks[i := s'.tasks[i]]
    && (var (t, t') := (s.tasks[i], s'.tasks[i]);
        && (IsFlushed(t) ==> IsFlushed(t')) && (IsListed(t) ==> IsListed(t'))
        && s'.log == s.log + (if IsFlushed(t') && !IsFlushed(t) then [c.questions[i]] else [])
        && s'.failed == s.failed + (if IsListed(t') && !IsListed(t) then [c.questions[i]] else []))
  }

  lemma AdvanceLogEffect(c: Run, s: State, i: nat, reply: Reply)
    requires Shape(c, s) && i < |s.tasks| && Advance(c, s, i, reply).Some?
    ensures LogEffect(c, s, i, Advance(c, s, i, reply).value)
  {
  }

  lemma LogKept(c: Run, s: State, i: nat, s': State)
    requires LogAgrees(c, s) && LogEffect(c, s, i, s')
    ensures LogAgrees(c, s')
  {
  }

  /** Any task's next step, in any order, keeps the invariant. */
  lemma InvKept(c: Run, s: State, i: nat, reply: Reply)
    requires Inv(c, s) && i < |s.tasks| && Advance(c, s, i, reply).Some?
    ensures Inv(c, Advance(c, s, i, reply).value)
  {
    AdvanceLockEffect(c, s, i, reply);
    AdvanceCounterEffect(c, s, i, reply);
    var s' := Advance(c, s, i, reply).value;
    LocksKept(c, s, i, s');
    CountersKept(c, s, i, s');
    AttemptsKept(c, s, i, reply);
    FileKept(c, s, i, reply);
    AdvanceLogEffect(c, s, i, reply);
    LogKept(c, s, i, s');
  }

  // ---- whole runs ----------------------------------------------------------------------------------

  /** A schedule: which task moved and what its request did. */
  ghost predicate IsRun(c: Run, states: seq<State>, moves: seq<(nat, Reply)>) {
    && |states| == |moves| + 1
    && states[0] == Start(c)
    && forall k :: 0 <= k < |moves| ==>
         && Shape(c, states[k]) && moves[k].0 < |c.questions|
         && Advance(c, states[k], moves[k].0, moves[k].1) == Some(states[k + 1])
  }

  lemma {:induction false} InvAlways(c: Run, states: seq<State>, moves: seq<(nat, Reply)>, k: nat)
    requires IsRun(c, states, moves) && k < |states|
    ensures Inv(c, states[k])
  {
    if k == 0 {
      InvStart(c);
    } else {
      InvAlways(c, states, moves, k - 1);
      assert Advance(c, states[k - 1], moves[k - 1].0, moves[k - 1].1) == Some(states[k]);
      InvKept(c, states[k - 1], moves[k - 1].0, moves[k - 1].1);
    }
  }

  predicate Finished(s: State) {
    forall i :: 0 <= i < |s.tasks| ==> s.tasks[i].DoneOk? || s.tasks[i].DoneFailed?
  }

  /**
   Whenever no task holds the progress lock, completed = successful + failed and at most the total. No
   question is ever submitted more than three times, nor more than `parallelism` of them at once.
   */
  lemma CountersConserved(c: Run, states: seq<State>, moves: seq<(nat, Reply)>, k: nat)
    requires IsRun(c, states, moves) && k < |states|
    ensures states[k].progressLock.None? ==>
              states[k].completed == states[k].successful + |states[k].failed| <= |c.questions|
    ensures forall i :: 0 <= i < |states[k].submissions| ==> states[k].submissions[i] <= MAX_QUESTION_ATTEMPTS
    ensures Count(states[k].tasks, IsSubmitting) <= c.parallelism
  {
    InvAlways(c, states, moves, k);
    var s := states[k];
    if s.progressLock.None? {
      forall t | t in s.tasks
        ensures (IsCounted(t) <==> IsTallied(t) || IsListed(t)) && !(IsTallied(t) && IsListed(t))
      {
        var i :| 0 <= i < |s.tasks| && s.tasks[i] == t;
        assert !HoldsProgress(t);
      }
      CountSplit(s.tasks, IsCounted, IsTallied, IsListed);
    }
  }

  /**
   At the end every question is accounted for: logged or among the failures, never both. On file are the
   old records and the log, but for what an unterminated start glues together; with a newline at the
   start and new questions, each is on file or failed.
   */
  lemma FinishedRun(c: Run, states: seq<State>, moves: seq<(nat, Reply)>)
    requires IsRun(c, states, moves) && Finished(states[|moves|])
    ensures var s := states[|moves|];
            && s.completed == |c.questions| && |s.log| == s.successful
            && s.successful + |s.failed| == |c.questions|
            && s.file == s.flushed == WriteRecords(c.initial, s.log)
            && Ids(s.file) == RecordIds(c.initial, s.log)
            && (Distinct(c.questions) ==>
                  forall id :: id in c.questions ==> (id in s.log <==> id !in s.failed))
            && (c.initial.tail.Blank? && Distinct(c.questions)
                && (forall id :: id in c.questions ==> id !in Ids(c.initial)) ==>
                  forall id :: id in c.questions ==> (id in Ids(s.file) <==> id !in s.failed))
  {
    var s := states[|moves|];
    InvAlways(c, states, moves, |moves|);
    assert s.progressLock.None? && s.writeLock.None?;
    CountersConserved(c, states, moves, |moves|);
    CountAll(s.tasks, IsCounted);
    SameCount(s.tasks, IsFlushed, IsTallied);
    RecordsOnFile(c.initial, s.log);
  }

  // ---- what the replies decide --------------------------------------------------------------------------

  /** Move `k` is the reply to a request for question `i`. */
  ghost predicate RepliesTo(states: seq<State>, moves: seq<(nat, Reply)>, k: nat, i: nat)
    requires k < |moves| && k < |states|
  {
    moves[k].0 == i && i < |states[k].tasks| && states[k].tasks[i].Submitting?
  }

  /** The replies to question `i` in the first `k` moves. */
  ghost function Replies(states: seq<State>, moves: seq<(nat, Reply)>, i: nat, k: nat): seq<Reply>
    requires k <= |moves| && k <= |states|
  {
    if k == 0 then []
    else Replies(states, moves, i, k - 1) + (if RepliesTo(states, moves, k - 1, i) then [moves[k - 1].1] else [])
  }

  /** Requests that timed out in the first `k` moves, whatever the question. */
  ghost function Timeouts(states: seq<State>, moves: seq<(nat, Reply)>, k: nat): nat
    requires k <= |moves| && k <= |states|
  {
    if k == 0 then 0
    else
      Timeouts(states, moves, k - 1)
      + (if moves[k - 1].1 == TimesOut && RepliesTo(states, moves, k - 1, moves[k - 1].0) then 1 else 0)
  }

  /** Replies after which a question stands at `t`: only timeouts before the last. */
  ghost predicate Explained(t: Task, replies: seq<Reply>, submissions: nat) {
    var n := |replies|;
    && submissions == (if t.Submitting? then n + 1 else n)
    && (forall j :: 0 <= j < n - 1 ==> replies[j] == TimesOut)
    && (Attempting(t) ==> (n > 0 ==> replies[n - 1] == TimesOut)
                          && n + (if t.Waiting? || t.Submitting? then 1 else 0) == t.attempt <= 3)
    && (!Attempting(t) ==>
          && 1 <= n <= 3
          && if t.Failing? || t.FailLocked? || t.FailCounted? || t.FailListed? || t.DoneFailed?
             then replies[n - 1] == Raises || (n == 3 && replies[n - 1] == TimesOut)
             else replies[n - 1] == Answers)
  }

  lemma OneMoreReply(c: Run, s: State, i: nat, reply: Reply, replies: seq<Reply>)
    requires Shape(c, s) && i < |s.tasks| && Advance(c, s, i, reply).Some?
    requires Explained(s.tasks[i], replies, s.submissions[i])
    ensures var s' := Advance(c, s, i, reply).value;
            && |s'.tasks| == |s'.submissions| == |s.tasks|
            && Explained(s'.tasks[i], replies + (if s.tasks[i].Submitting? then [reply] else []), s'.submissions[i])
  {
  }

  lemma OthersUntouched(c: Run, s: State, i: nat, reply: Reply, j: nat)
    requires Shape(c, s) && i < |s.tasks| && j < |s.tasks| && i != j && Advance(c, s, i, reply).Some?
    ensures var s' := Advance(c, s, i, reply).value;
            |s'.tasks| == |s'.submissions| == |s.tasks| && s'.tasks[j] == s.tasks[j] && s'.submissions[j] == s.submissions[j]
  {
  }

  lemma {:induction false} RepliesExplain(c: Run, states: seq<State>, moves: seq<(nat, Reply)>, i: nat, k: nat)
    requires IsRun(c, states, moves) && k < |states| && i < |c.questions|
    ensures Shape(c, states[k]) && Explained(states[k].tasks[i], Replies(states, moves, i, k), states[k].submissions[i])
  {
    hide Advance, Explained;
    if k == 0 {
      NothingReplied(c, i);
    } else {
      RepliesExplain(c, states, moves, i, k - 1);
      var s, rs := states[k - 1], Replies(states, moves, i, k - 1);
      var (m, reply) := moves[k - 1];
      assert Advance(c, s, m, reply) == Some(states[k]);
      if m == i {
        OneMoreReply(c, s, i, reply, rs);
      } else {
        OthersUntouched(c, s, m, reply, i);
      }
      assert rs + [] == rs;
    }
  }

  lemma NothingReplied(c: Run, i: nat)
    requires i < |c.questions|
    ensures Explained(Start(c).tasks[i], [], Start(c).submissions[i])
  {
  }

  /**
   What a finished run made of each question, from the replies alone: a timeout is tried again, up to three
   times; the first other exception fails the question, and an answer ends it.
   */
  lemma RepliesDecide(c: Run, states: seq<State>, moves: seq<(nat, Reply)>, i: nat)
    requires IsRun(c, states, moves) && Finished(states[|moves|]) && i < |c.questions|
    ensures var (s, rs) := (states[|moves|], Replies(states, moves, i, |moves|));
            && 1 <= |rs| <= 3 && (forall j :: 0 <= j < |rs| - 1 ==> rs[j] == TimesOut)
            && |s.tasks| == |s.submissions| == |c.questions| && s.submissions[i] == |rs|
            && (s.tasks[i].DoneFailed? <==> Raises in rs || rs == [TimesOut, TimesOut, TimesOut])
            && (s.tasks[i].DoneOk? <==> Answers in rs)
            && (Distinct(c.questions) ==>
                  && (c.questions[i] in s.failed <==> Raises in rs || rs == [TimesOut, TimesOut, TimesOut])
                  && (c.questions[i] in s.log <==> Answers in rs))
  {
    var s, rs := states[|moves|], Replies(states, moves, i, |moves|);
    InvAlways(c, states, moves, |moves|);
    RepliesExplain(c, states, moves, i, |moves|);
    hide Advance, IsRun, Replies, LocksHeld, CountersAgree, AttemptsBounded, FileAgrees, Distinct;
    assert rs == rs[..|rs| - 1] + [rs[|rs| - 1]];
    assert rs[|rs| - 1] in rs;
  }

  predicate PastTimeout(t: Task) {
    t.TimedOut? || t.StuckLocked?
  }

  /** `stuck` counts the timeouts, each once its task has had the progress lock. */
  lemma {:induction false} StuckCountsTimeouts(c: Run, states: seq<State>, moves: seq<(nat, Reply)>, k: nat)
    requires IsRun(c, states, moves) && k < |states|
    ensures states[k].stuck + Count(states[k].tasks, PastTimeout) == Timeouts(states, moves, k)
  {
    hide Advance;
    if k == 0 {
      CountNone(states[0].tasks, PastTimeout);
    } else {
      StuckCountsTimeouts(c, states, moves, k - 1);
      var (i, reply) := moves[k - 1];
      assert Advance(c, states[k - 1], i, reply) == Some(states[k]);
      TimeoutStep(c, states[k - 1], i, reply);
      CountUpdate(states[k - 1].tasks, i, states[k].tasks[i], PastTimeout);
    }
  }

  lemma TimeoutStep(c: Run, s: State, i: nat, reply: Reply)
    requires Shape(c, s) && i < |s.tasks| && Advance(c, s, i, reply).Some?
    ensures var s' := Advance(c, s, i, reply).value;
            && |s'.tasks| == |s.tasks| && s'.tasks == s.tasks[i := s'.tasks[i]]
            && s'.stuck + One(PastTimeout(s'.tasks[i]))
               == s.stuck + One(PastTimeout(s.tasks[i])) + One(s.tasks[i].Submitting? && reply == TimesOut)
  {
  }

  /** Ids on file once `ids` have been written after `f`: the first is lost if `f` ends without a newline. */
  function RecordIds(f: OutputFile, ids: seq<string>): seq<string> {
    if ids == [] || f.tail.Torn? then Ids(f) else LineIds(f.lines) + if f.tail.Blank? then ids else ids[1..]
  }

  lemma {:induction false} RecordsOnFile(f: OutputFile, ids: seq<string>)
    ensures Ids(WriteRecords(f, ids)) == RecordIds(f, ids)
    ensures f.tail.Torn? ==> WriteRecords(f, ids) == f
    ensures ids != [] && !f.tail.Torn? ==> WriteRecords(f, ids).tail.Blank?
  {
    if ids != [] {
      var init, last := ids[..|ids| - 1], ids[|ids| - 1];
      RecordsOnFile(f, init);
      var g := WriteRecords(f, init);
      var h := WriteRecord(g, last);
      assert !g.tail.Torn? ==> h.lines[..|h.lines| - 1] == g.lines;
      assert ids == init + [last];
      if init == [] {
        assert ids[1..] == [];
      } else {
        assert !f.tail.Torn? ==> Ids(h) == Ids(g) + [last];
        assert ids[1..] == init[1..] + [last];
        assert LineIds(f.lines) + (init + [last]) == LineIds(f.lines) + init + [last];
        assert LineIds(f.lines) + (init[1..] + [last]) == LineIds(f.lines) + init[1..] + [last];
      }
    }
  }

  lemma {:induction false} SameCount(tasks: seq<Task>, p: Task -> bool, q: Task -> bool)
    requires forall t :: t in tasks ==> (p(t) <==> q(t))
    ensures Count(tasks, p) == Count(tasks, q)
  {
    if tasks != [] {
      assert tasks[0] in tasks;
      SameCount(tasks[1..], p, q);
    }
  }

  /** No deadlock: while some task is unfinished, some task can move. */
  lemma AlwaysCanMove(c: Run, s: State) returns (i: nat)
    requires Inv(c, s) && !Finished(s) && c.parallelism > 0
    ensures i < |s.tasks| && forall reply :: Advance(c, s, i, reply).Some?
  {
    if s.progressLock.Some? {
      i := s.progressLock.value;
    } else if s.writeLock.Some? {
      i := s.writeLock.value;
    } else if j :| 0 <= j < |s.tasks| && IsSubmitting(s.tasks[j]) {
      i := j;
    } else {
      var j :| 0 <= j < |s.tasks| && !s.tasks[j].DoneOk? && !s.tasks[j].DoneFailed?;
      CountNone(s.tasks, IsSubmitting);
      assert !HoldsProgress(s.tasks[j]) && !HoldsWrite(s.tasks[j]);
      i := j;
    }
  }

  // ---- the end is reached ----------------------------------------------------------------------------------

  /** Steps a question can still take. */
  function StepsLeft(t: Task): nat {
    match t
    case Waiting(a) => 10 + RetriesLeft(a)
    case Submitting(a) => 9 + RetriesLeft(a)
    case TimedOut(a) => 8 + RetriesLeft(a)
    case StuckLocked(a) => 7 + RetriesLeft(a)
    case Sleeping(a) => 6 + RetriesLeft(a)
    case Failing => 4 case FailLocked => 3 case FailCounted => 2 case FailListed => 1
    case Answered => 8 case WriteLocked => 7 case JsonWritten => 6 case LineWritten => 5
    case Written => 4 case OkLocked => 3 case OkCounted => 2 case OkTallied => 1
    case DoneFailed => 0 case DoneOk => 0
  }

  function RetriesLeft(attempt: nat): nat {
    if attempt < MAX_QUESTION_ATTEMPTS then 5 * (MAX_QUESTION_ATTEMPTS - attempt) else 0
  }

  function AllStepsLeft(tasks: seq<Task>): nat {
    if tasks == [] then 0 else StepsLeft(tasks[0]) + AllStepsLeft(tasks[1..])
  }

  lemma {:induction false} StepsUpdate(tasks: seq<Task>, i: nat, t: Task)
    requires i < |tasks|
    ensures AllStepsLeft(tasks[i := t]) + StepsLeft(tasks[i]) == AllStepsLeft(tasks) + StepsLeft(t)
  {
    hide StepsLeft;
    if i == 0 {
      assert tasks[0 := t][1..] == tasks[1..];
    } else {
      assert tasks[i := t][1..] == tasks[1..][i - 1 := t];
      StepsUpdate(tasks[1..], i - 1, t);
    }
  }

  lemma AdvanceUsesUp(c: Run, s: State, i: nat, reply: Reply)
    requires Shape(c, s) && i < |s.tasks| && Advance(c, s, i, reply).Some?
    ensures AllStepsLeft(Advance(c, s, i, reply).value.tasks) < AllStepsLeft(s.tasks)
  {
    var t := Advance(c, s, i, reply).value.tasks[i];
    AdvanceLowers(c, s, i, reply);
    hide Advance, StepsLeft;
    StepsUpdate(s.tasks, i, t);
  }

  lemma AdvanceLowers(c: Run, s: State, i: nat, reply: Reply)
    requires Shape(c, s) && i < |s.tasks| && Advance(c, s, i, reply).Some?
    ensures var tasks := Advance(c, s, i, reply).value.tasks;
            |tasks| == |s.tasks| && tasks == s.tasks[i := tasks[i]] && StepsLeft(tasks[i]) < StepsLeft(s.tasks[i])
  {
  }

  lemma {:induction false} StepsAtStart(tasks: seq<Task>)
    requires forall i :: 0 <= i < |tasks| ==> tasks[i] == Waiting(1)
    ensures AllStepsLeft(tasks) == 20 * |tasks|
  {
    if tasks != [] {
      StepsAtStart(tasks[1..]);
    }
  }

  /** No schedule takes more than twenty steps a question; with the absence of deadlock, every run can be finished. */
  lemma {:induction false} RunsAreBounded(c: Run, states: seq<State>, moves: seq<(nat, Reply)>, k: nat)
    requires IsRun(c, states, moves) && k < |states|
    ensures k + AllStepsLeft(states[k].tasks) <= 20 * |c.questions|
  {
    hide AllStepsLeft, Advance;
    if k == 0 {
      StepsAtStart(states[0].tasks);
    } else {
      RunsAreBounded(c, states, moves, k - 1);
      assert Advance(c, states[k - 1], moves[k - 1].0, moves[k - 1].1) == Some(states[k]);
      AdvanceUsesUp(c, states[k - 1], moves[k - 1].0, moves[k - 1].1);
    }
  }

  // ---- resuming ----------------------------------------------------------------------------------------

  /** What can be on disk if the process dies in state `s`: unflushed output may be lost or torn. */
  ghost predicate OnDisk(c: Run, s: State, f: OutputFile) {
    || f == s.flushed
    || f == s.file
    || (s.writeLock.Some? && s.file != s.flushed && s.writeLock.value < |c.questions|
        && (f == s.flushed.(tail := Fragment) || f == s.flushed.(tail := Torn) || f == WriteJson(s.flushed, c.questions[s.writeLock.value])))
  }

  /** One more record: its id is new on file, or was lost with an unterminated line. */
  lemma RecordKeepsDistinct(f: OutputFile, id: string)
    requires Distinct(Ids(f)) && id !in Ids(f)
    ensures forall g :: g in {WriteRecord(f, id), WriteJson(f, id), f.(tail := Fragment), f.(tail := Torn)} ==>
              Distinct(Ids(g)) && forall x :: x in Ids(g) ==> x in Ids(f) || x == id
  {
    var w := WriteRecord(f, id);
    assert !f.tail.Torn? ==> w.lines[..|w.lines| - 1] == f.lines;
    assert Ids(f.(tail := Fragment)) == LineIds(f.lines) == Ids(f.(tail := Torn));
    assert LineIds(f.lines) == Ids(f)[..|LineIds(f.lines)|];
    DistinctAppend(LineIds(f.lines), id);
  }

  lemma {:induction false} RecordsKeepDistinct(f: OutputFile, ids: seq<string>)
    requires Distinct(Ids(f)) && Distinct(ids) && forall x :: x in ids ==> x !in Ids(f)
    ensures Distinct(Ids(WriteRecords(f, ids)))
    ensures forall x :: x in Ids(WriteRecords(f, ids)) ==> x in Ids(f) || x in ids
  {
    if ids != [] {
      var init, last := ids[..|ids| - 1], ids[|ids| - 1];
      assert ids == init + [last];
      RecordsKeepDistinct(f, init);
      assert last !in init;
      RecordKeepsDistinct(WriteRecords(f, init), last);
      assert WriteRecord(WriteRecords(f, init), last) in {WriteRecord(WriteRecords(f, init), last),
                                                          WriteJson(WriteRecords(f, init), last),
                                                          WriteRecords(f, init).(tail := Fragment),
                                                          WriteRecords(f, init).(tail := Torn)};
    }
  }

  /** Complete lines are never lost, and a file that ends with a newline only gains records. */
  lemma {:induction false} RecordsAppend(f: OutputFile, ids: seq<string>)
    ensures f.lines <= WriteRecords(f, ids).lines
    ensures f.tail.Blank? ==> WriteRecords(f, ids).tail.Blank? && Ids(WriteRecords(f, ids)) == Ids(f) + ids
  {
    if ids != [] {
      var init, last := ids[..|ids| - 1], ids[|ids| - 1];
      RecordsAppend(f, init);
      var g := WriteRecords(f, init);
      var h := WriteRecord(g, last);
      assert !g.tail.Torn? ==> h.lines[..|h.lines| - 1] == g.lines;
      assert ids == init + [last];
      assert f.tail.Blank? ==> Ids(h) == Ids(g) + [last] == Ids(f) + ids;
    }
  }

  /** One run, finished or cut off anywhere, leaves no id on two parsable lines. */
  lemma CutOffRunKeepsDistinct(c: Run, states: seq<State>, moves: seq<(nat, Reply)>, k: nat, f: OutputFile)
    requires IsRun(c, states, moves) && k < |states| && OnDisk(c, states[k], f)
    requires Distinct(c.questions) && Distinct(Ids(c.initial))
    requires forall id :: id in c.questions ==> id !in Ids(c.initial)
    ensures Distinct(Ids(f))
    ensures c.initial.lines <= f.lines
  {
    InvAlways(c, states, moves, k);
    var s := states[k];
    RecordsKeepDistinct(c.initial, s.log);
    RecordsAppend(c.initial, s.log);
    if s.writeLock.Some? {
      var i := s.writeLock.value;
      var id := c.questions[i];
      assert !IsFlushed(s.tasks[i]);
      assert id in c.questions && id !in s.log && id !in Ids(s.flushed);
      RecordKeepsDistinct(s.flushed, id);
      assert f == s.flushed || f in {WriteRecord(s.flushed, id), WriteJson(s.flushed, id),
                                     s.flushed.(tail := Fragment), s.flushed.(tail := Torn)};
    }
  }

  /** One invocation of the script: its questions, its cap, and how far it got. */
  datatype Session = Session(questions: seq<string>, maxQuestions: Option<nat>, parallelism: nat,
                             states: seq<State>, moves: seq<(nat, Reply)>)

  function RunOf(r: Session, f: OutputFile): Run {
    Run(Remaining(r.questions, r.maxQuestions, f), r.parallelism, f)
  }

  /** Each session starts from the file the one before left behind, if it can be read. */
  ghost predicate IsHistory(files: seq<OutputFile>, sessions: seq<Session>) {
    && |files| == |sessions| + 1
    && forall k :: 0 <= k < |sessions| ==>
         && Distinct(sessions[k].questions) && !files[k].tail.Torn?
         && IsRun(RunOf(sessions[k], files[k]), sessions[k].states, sessions[k].moves)
         && OnDisk(RunOf(sessions[k], files[k]), sessions[k].states[|sessions[k].moves|], files[k + 1])
  }

  /** The questions left are those asked within the cap and not on file, in their order. */
  lemma RemainingMeaning(questions: seq<string>, maxQuestions: Option<nat>, f: OutputFile)
    ensures forall q :: q in Remaining(questions, maxQuestions, f) <==>
              q !in Ids(f) && exists i :: 0 <= i < |questions| && (maxQuestions.None? || i < maxQuestions.value) && questions[i] == q
    ensures exists n :: 0 <= n <= |questions| && (n == |questions| || maxQuestions == Some(n))
                        && Remaining(questions, maxQuestions, f) == Filter(questions[..n], q => q !in Ids(f))
  {
    var n := if maxQuestions.Some? && maxQuestions.value < |questions| then maxQuestions.value else |questions|;
    var done := Ids(f);
    assert questions[..|questions|] == questions;
    FilterSame(questions[..n], q => q !in done, q => q !in Ids(f));
    forall q ensures q in Remaining(questions, maxQuestions, f) <==> q in questions[..n] && q !in done {
      FilterMember(questions[..n], x => x !in done, q);
    }
    forall i | 0 <= i < n ensures questions[i] in questions[..n] {
      assert questions[..n][i] == questions[i];
    }
  }

  lemma RemainingIsNew(questions: seq<string>, maxQuestions: Option<nat>, f: OutputFile)
    requires Distinct(questions)
    ensures Distinct(Remaining(questions, maxQuestions, f))
    ensures forall q :: q in Remaining(questions, maxQuestions, f) ==> q in questions && q !in Ids(f)
  {
    var asked := match maxQuestions
                 case None => questions
                 case Some(n) => if n < |questions| then questions[..n] else questions;
    var done := Ids(f);
    FilterDistinct(asked, q => q !in done);
    forall q ensures q in Remaining(questions, maxQuestions, f) ==> q in questions && q !in Ids(f) {
      FilterMember(asked, x => x !in done, q);
    }
  }

  /**
   Over any number of sessions, with any question lists and caps, each finished or killed at any point,
   the file never holds two parsable records with the same id, and complete lines stay.
   */
  lemma {:induction false} NeverTwoRecords(files: seq<OutputFile>, sessions: seq<Session>, k: nat)
    requires IsHistory(files, sessions) && k < |files| && Distinct(Ids(files[0]))
    ensures Distinct(Ids(files[k])) && files[0].lines <= files[k].lines
  {
    if k > 0 {
      NeverTwoRecords(files, sessions, k - 1);
      var r := sessions[k - 1];
      RemainingIsNew(r.questions, r.maxQuestions, files[k - 1]);
      CutOffRunKeepsDistinct(RunOf(r, files[k - 1]), r.states, r.moves, |r.moves|, files[k]);
    }
  }

  /** What a session put on file: its log, and if it was cut off perhaps the record in hand, written but not flushed. */
  ghost predicate IsWritten(r: Session, added: seq<string>) {
    && r.states != []
    && var end := r.states[|r.states| - 1];
       || added == end.log
       || (!Finished(end) && exists id :: id in r.questions && added == end.log + [id])
  }

  /** A session that leaves a newline-terminated file has appended exactly whole records of its own. */
  lemma CutOffSessionAppends(f: OutputFile, r: Session, g: OutputFile) returns (added: seq<string>)
    requires Distinct(r.questions) && IsRun(RunOf(r, f), r.states, r.moves)
    requires f.tail.Blank? && g.tail.Blank? && OnDisk(RunOf(r, f), r.states[|r.moves|], g)
    ensures Ids(g) == Ids(f) + added && IsWritten(r, added)
  {
    var c, s := RunOf(r, f), r.states[|r.moves|];
    InvAlways(c, r.states, r.moves, |r.moves|);
    RecordsAppend(f, s.log);
    added := s.log;
    if g != s.flushed {
      var i := s.writeLock.value;
      var id := c.questions[i];
      assert s.tasks[i].LineWritten? && g == WriteRecord(s.flushed, id);
      added := s.log + [id];
      WriteRecordsAppend(f, s.log, id);
      RecordsAppend(f, added);
      RemainingIsNew(r.questions, r.maxQuestions, f);
      assert id in r.questions;
    }
  }

  lemma {:induction false} Telescope(totals: seq<seq<string>>, parts: seq<seq<string>>, k: nat)
    requires |totals| == |parts| + 1 && k <= |parts|
    requires forall j :: 0 <= j < |parts| ==> totals[j + 1] == totals[j] + parts[j]
    ensures totals[k] == totals[0] + Flatten(parts[..k])
  {
    if k == 0 {
      assert totals[0] + [] == totals[0];
    } else {
      Telescope(totals, parts, k - 1);
      assert parts[..k][..k - 1] == parts[..k - 1];
      assert totals[k - 1 + 1] == totals[k - 1] + parts[k - 1];
    }
  }

  /**
   Over sessions cut off anywhere that leave a newline at the end, the file is its start followed by what
   each session wrote, and no id is written twice in all of them together.
   */
  lemma NoIdWrittenTwice(files: seq<OutputFile>, sessions: seq<Session>) returns (parts: seq<seq<string>>)
    requires IsHistory(files, sessions) && Distinct(Ids(files[0]))
    requires forall k :: 0 <= k < |files| ==> files[k].tail.Blank?
    ensures |parts| == |sessions| && forall k :: 0 <= k < |parts| ==> IsWritten(sessions[k], parts[k])
    ensures Ids(files[|sessions|]) == Ids(files[0]) + Flatten(parts)
    ensures Distinct(Ids(files[0]) + Flatten(parts))
  {
    hide IsWritten, OnDisk, Distinct, Ids;
    parts := [];
    for k := 0 to |sessions|
      invariant |parts| == k
      invariant forall j :: 0 <= j < k ==> IsWritten(sessions[j], parts[j]) && Ids(files[j + 1]) == Ids(files[j]) + parts[j]
    {
      var added := CutOffSessionAppends(files[k], sessions[k], files[k + 1]);
      parts := parts + [added];
    }
    var totals := seq(|files|, k requires 0 <= k < |files| => Ids(files[k]));
    Telescope(totals, parts, |sessions|);
    assert parts[..|sessions|] == parts;
    NeverTwoRecords(files, sessions, |sessions|);
  }

  /** The limit of that: a record is kept exactly if its newline reached the disk before the next write. */
  lemma UnterminatedRecordIsLost(f: OutputFile, next: string)
    requires Distinct(Ids(f))
    ensures (forall id :: id in Ids(f) ==> id in Ids(WriteRecord(f, next))) <==> !f.tail.Whole?
  {
    var w := WriteRecord(f, next);
    assert !f.tail.Torn? ==> w.lines[..|w.lines| - 1] == f.lines;
    if f.tail.Whole? {
      assert Ids(f)[|LineIds(f.lines)|] == f.tail.id;
      assert forall i :: 0 <= i < |LineIds(f.lines)| ==> Ids(f)[i] == LineIds(f.lines)[i];
      assert f.tail.id in Ids(f) && f.tail.id !in Ids(w);
    }
  }

  // ---- a record lost in two sessions -------------------------------------------------------------------

  /** The only question of a run after `k` steps of an answered request, up to past the flush. */
  function SoloState(f: OutputFile, id: string, k: nat): State
    requires k <= 6
  {
    var s := State([Waiting(1)], [0], 1, None, None, 0, 0, 0, [], f, f, []);
    if k == 0 then s
    else if k == 1 then s.(tasks := [Submitting(1)], submissions := [1], free := 0)
    else if k == 2 then s.(tasks := [Answered], submissions := [1])
    else if k == 3 then s.(tasks := [WriteLocked], submissions := [1], writeLock := Some(0))
    else if k == 4 then s.(tasks := [JsonWritten], submissions := [1], writeLock := Some(0), file := WriteJson(f, id))
    else if k == 5 then s.(tasks := [LineWritten], submissions := [1], writeLock := Some(0), file := WriteRecord(f, id))
    else s.(tasks := [Written], submissions := [1], file := WriteRecord(f, id), flushed := WriteRecord(f, id), log := [id])
  }

  function SoloStates(f: OutputFile, id: string, n: nat): seq<State>
    requires n <= 6
  {
    seq(n + 1, k requires 0 <= k < n + 1 => SoloState(f, id, k))
  }

  function SoloMoves(n: nat): seq<(nat, Reply)> {
    seq(n, _ => (0, Answers))
  }

  lemma SoloStep(f: OutputFile, id: string, k: nat)
    requires k < 6
    ensures Advance(Run([id], 1, f), SoloState(f, id, k), 0, Answers) == Some(SoloState(f, id, k + 1))
  {
    hide WriteJson, WriteNewline;
    var s, t := SoloState(f, id, k), SoloState(f, id, k + 1);
    assert s.tasks[0 := t.tasks[0]] == t.tasks;
    assert s.submissions[0 := 1] == t.submissions;
    assert [] + [id] == [id];
  }

  lemma SoloIsRun(f: OutputFile, id: string, n: nat)
    requires n <= 6
    ensures IsRun(Run([id], 1, f), SoloStates(f, id, n), SoloMoves(n))
  {
    var c := Run([id], 1, f);
    assert Start(c) == SoloState(f, id, 0) by {
      assert Start(c).tasks == [Waiting(1)] && Start(c).submissions == [0];
    }
    forall k | 0 <= k < n ensures Advance(c, SoloState(f, id, k), 0, Answers) == Some(SoloState(f, id, k + 1)) {
      SoloStep(f, id, k);
    }
    hide Advance, SoloState;
  }

  lemma SoloOnDisk(f: OutputFile, id: string)
    ensures OnDisk(Run([id], 1, f), SoloState(f, id, 4), WriteJson(f, id))
    ensures OnDisk(Run([id], 1, f), SoloState(f, id, 6), WriteRecord(f, id))
  {
  }

  /** A session killed inside a character of its record is the last: every later one fails to read the file. */
  lemma TornEndsHistory(files: seq<OutputFile>, sessions: seq<Session>, k: nat)
    requires IsHistory(files, sessions) && k < |files| && files[k].tail.Torn?
    ensures k == |sessions|
  {
    hide IsRun, OnDisk, Distinct;
  }

  /** And such a session exists. */
  lemma TornReachable(id: string) returns (files: seq<OutputFile>, sessions: seq<Session>)
    ensures IsHistory(files, sessions) && |sessions| == 1 && files[0] == OutputFile([], Blank) && files[1].tail.Torn?
  {
    var none := OutputFile([], Blank);
    assert Ids(none) == [];
    assert Remaining([id], None, none) == [id] by {
      var first := Ids(none);
      assert Filter([id], q => q !in first) == [id] + Filter([id][1..], q => q !in first) == [id];
    }
    SoloSessionRuns([id], none, id, 4);
    var r := SoloSession([id], none, id, 4);
    assert OnDisk(Run([id], 1, none), SoloState(none, id, 4), none.(tail := Torn));
    hide IsRun, OnDisk, Remaining, SoloState;
    files, sessions := [none, none.(tail := Torn)], [r];
  }

  lemma RemainingOf(a: string, b: string)
    requires a != b
    ensures Remaining([a], None, OutputFile([], Blank)) == [a]
    ensures Remaining([a, b], None, OutputFile([], Whole(a))) == [b]
  {
    var none, one: OutputFile := OutputFile([], Blank), OutputFile([], Whole(a));
    assert Ids(none) == [] && Ids(one) == [a];
    var first, resumed := Ids(none), Ids(one);
    assert Filter([a], q => q !in first) == [a] + Filter([a][1..], q => q !in first) == [a];
    assert [a, b][1..] == [b];
    assert Filter([b], q => q !in resumed) == [b] + Filter([b][1..], q => q !in resumed) == [b];
    assert Filter([a, b], q => q !in resumed) == Filter([b], q => q !in resumed);
  }

  function SoloSession(questions: seq<string>, f: OutputFile, id: string, n: nat): Session
    requires n <= 6
  {
    Session(questions, None, 1, SoloStates(f, id, n), SoloMoves(n))
  }

  lemma SoloSessionRuns(questions: seq<string>, f: OutputFile, id: string, n: nat)
    requires n <= 6 && Remaining(questions, None, f) == [id]
    ensures |SoloStates(f, id, n)| == n + 1
    ensures var r := SoloSession(questions, f, id, n);
            && IsRun(RunOf(r, f), r.states, r.moves)
            && |r.moves| == n && r.states[n] == SoloState(f, id, n)
            && (n == 4 ==> OnDisk(RunOf(r, f), r.states[n], WriteJson(f, id)))
            && (n == 6 ==> OnDisk(RunOf(r, f), r.states[n], WriteRecord(f, id)) && r.states[n].log == [id])
  {
    SoloIsRun(f, id, n);
    SoloOnDisk(f, id);
    hide IsRun, OnDisk, Remaining, WriteJson, WriteNewline;
  }

  lemma TwoSessions(f: OutputFile, g: OutputFile, h: OutputFile, r: Session, q: Session)
    requires Distinct(r.questions) && IsRun(RunOf(r, f), r.states, r.moves) && !f.tail.Torn? && !g.tail.Torn?
    requires OnDisk(RunOf(r, f), r.states[|r.moves|], g)
    requires Distinct(q.questions) && IsRun(RunOf(q, g), q.states, q.moves)
    requires OnDisk(RunOf(q, g), q.states[|q.moves|], h)
    ensures IsHistory([f, g, h], [r, q])
  {
    hide Distinct, OnDisk, RunOf;
  }

  lemma GluedIds()
    ensures var one := WriteJson(OutputFile([], Blank), "a");
            Ids(one) == ["a"] && Ids(WriteRecord(one, "b")) == []
  {
    assert LineIds([]) == [] && LineIds([Unparsable]) == LineIds([]) + [];
  }

  /**
   Killed between the answer to "a" and its newline, then resumed: the second session skips "a" as answered,
   and its own record and that of "a" run together into one unparsable line.
   */
  lemma RecordsRunTogether() returns (files: seq<OutputFile>, sessions: seq<Session>)
    ensures IsHistory(files, sessions) && |sessions| == 2 && |sessions[1].states| == 7
    ensures Ids(files[1]) == ["a"] && "b" in sessions[1].states[6].log
    ensures Ids(files[2]) == []
  {
    var none := OutputFile([], Blank);
    var one := WriteJson(none, "a");
    GluedIds();
    RemainingOf("a", "b");
    SoloSessionRuns(["a"], none, "a", 4);
    SoloSessionRuns(["a", "b"], one, "b", 6);
    TwoSessions(none, one, WriteRecord(one, "b"),
                SoloSession(["a"], none, "a", 4), SoloSession(["a", "b"], one, "b", 6));
    hide *;
    files := [none, one, WriteRecord(one, "b")];
    sessions := [SoloSession(["a"], none, "a", 4), SoloSession(["a", "b"], one, "b", 6)];
  }
}
