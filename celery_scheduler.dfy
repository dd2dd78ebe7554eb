/** The two tables of the periodic-task scheduler library that the backend
    writes: one-shot clock times and the tasks bound to them. */
module BeatModels {
  /** A `PeriodicTask` row; `clocked` is the key of its `ClockedSchedule` row. */
  datatype PeriodicTask = PeriodicTask(
    clocked: nat,
    name: string,
    task: string,
    oneOff: bool,
    args: string)

  /** `PeriodicTask.name` is a unique column of the library's schema. */
  ghost predicate UniqueTaskNames(tasks: seq<PeriodicTask>) {
    forall i, j :: 0 <= i < j < |tasks| ==> tasks[i].name != tasks[j].name
  }

  /** No two clocked rows hold the same time, so `get_or_create` by time never
      finds two. */
  ghost predicate UniqueClockTimes(clocked: seq<int>) {
    forall i, j :: 0 <= i < j < |clocked| ==> clocked[i] != clocked[j]
  }
}

/** `schedule_assignment_evaluation`: a guard against past deadlines, then a
    one-off task at the deadline under a name derived from the assignment. */
module CeleryScheduler {
  import opened Base
  import opened ClassroomModels
  import opened BeatModels
  import Store

  const EvaluationTask := "classroom.tasks.evaluate_assignment_after_deadline"

  /** `f"evaluate_assignment_{assignment.id}"`. */
  function TaskName(id: Uuid): (r: string)
    ensures |r| == 20 + |id| && r[20..] == id
  {
    "evaluate_assignment_" + id
  }

  /** `json.dumps([str(id)])`. A UUID's text holds no character that JSON
      escapes, so the id appears verbatim between the quotes. */
  function TaskArgs(id: Uuid): (r: string)
    ensures |r| == |id| + 4 && r[2..|r| - 2] == id
  {
    "[\"" + id + "\"]"
  }

  /** Distinct assignments get distinct task names and distinct arguments. */
  lemma TaskNameInjective(a: Uuid, b: Uuid)
    ensures TaskName(a) == TaskName(b) <==> a == b
    ensures TaskArgs(a) == TaskArgs(b) <==> a == b
  {
    if TaskName(a) == TaskName(b) { assert TaskName(a)[20..] == a; }
    if TaskArgs(a) == TaskArgs(b) { assert TaskArgs(a)[2..|a| + 2] == a; }
  }

  /** Key of the clocked row holding time `t`, if any. */
  function FindClocked(clocked: seq<Instant>, t: Instant): (r: Option<nat>)
    ensures r.Some? ==> r.value < |clocked| && clocked[r.value] == t
    ensures r.None? ==> t !in clocked
  {
    if clocked == [] then None
    else if clocked[|clocked| - 1] == t then Some(|clocked| - 1)
    else FindClocked(clocked[..|clocked| - 1], t)
  }

  /** `ClockedSchedule.objects.get_or_create(clocked_time=t)`: the key of the
      row for `t` and the table afterwards. */
  function GetOrCreateClocked(clocked: seq<Instant>, t: Instant): (r: (nat, seq<Instant>))
    ensures r.0 < |r.1| && r.1[r.0] == t
    ensures r.1 == clocked || r.1 == clocked + [t]
    ensures t in clocked <==> r.1 == clocked
  {
    match FindClocked(clocked, t)
    case Some(k) => (k, clocked)
    case None => (|clocked|, clocked + [t])
  }

  predicate NameTaken(tasks: seq<PeriodicTask>, name: string) {
    exists i :: 0 <= i < |tasks| && tasks[i].name == name
  }

  /** The two scheduler tables. */
  datatype Tables = Tables(clocked: seq<Instant>, tasks: seq<PeriodicTask>)

  /** `PeriodicTask.save()` runs `validate_unique()` before its insert, so a
      taken name is refused with a `ValidationError` on `name`. */
  const DuplicateTaskName := ValidationError("name", "Periodic task with this Name already exists.")

  /** What one call does to the tables and what it returns. */
  function Schedule(t: Tables, a: Assignment, now: Instant): (Result<()>, Tables)
  {
    if a.deadline <= now then (Err(ValueError("Deadline is in the past")), t)
    else
      var (key, clocked) := GetOrCreateClocked(t.clocked, a.deadline);
      var name := TaskName(a.id);
      if NameTaken(t.tasks, name) then
        (Err(DuplicateTaskName), Tables(clocked, t.tasks))
      else
        (Ok(()), Tables(clocked, t.tasks + [PeriodicTask(key, name, EvaluationTask, true, TaskArgs(a.id))]))
  }

  method ScheduleAssignmentEvaluation(db: Store.Database, a: Assignment, now: Instant) returns (r: Result<()>)
    modifies db`clocked, db`periodicTasks
    ensures (r, Tables(db.clocked, db.periodicTasks))
         == Schedule(Tables(old(db.clocked), old(db.periodicTasks)), a, now)
  {
    if a.deadline <= now {
      return Err(ValueError("Deadline is in the past"));
    }
    var got := GetOrCreateClocked(db.clocked, a.deadline);
    db.clocked := got.1;
    var name := TaskName(a.id);
    if NameTaken(db.periodicTasks, name) {
      return Err(DuplicateTaskName);
    }
    db.periodicTasks := db.periodicTasks + [PeriodicTask(got.0, name, EvaluationTask, true, TaskArgs(a.id))];
    r := Ok(());
  }

  /** A deadline at or before now is refused and nothing is written; a deadline
      equal to now counts as past. */
  lemma PastDeadlineRejected(t: Tables, a: Assignment, now: Instant)
    requires a.deadline <= now
    ensures Schedule(t, a, now) == (Err(ValueError("Deadline is in the past")), t)
    ensures a.deadline == now ==> !IsDeadlinePassed(a, now)
  {
  }

  /** A successful call appends exactly one one-off task for the evaluation
      job, bound to a clocked row at the deadline, with the id as its only
      argument; it adds at most one clocked row. */
  lemma ScheduleSuccess(t: Tables, a: Assignment, now: Instant)
    requires Schedule(t, a, now).0.Ok?
    ensures var t' := Schedule(t, a, now).1;
      |t'.tasks| == |t.tasks| + 1 && t'.tasks[..|t.tasks|] == t.tasks
      && var task := t'.tasks[|t.tasks|];
      task.name == TaskName(a.id) && task.task == EvaluationTask && task.oneOff
      && task.args == TaskArgs(a.id)
      && task.clocked < |t'.clocked| && t'.clocked[task.clocked] == a.deadline
      && t'.clocked[..|t.clocked|] == t.clocked && |t'.clocked| <= |t.clocked| + 1
    ensures a.deadline > now
  {
  }

  /** Scheduling keeps task names and clock times unique. */
  lemma ScheduleKeepsUnique(t: Tables, a: Assignment, now: Instant)
    requires UniqueTaskNames(t.tasks) && UniqueClockTimes(t.clocked)
    ensures UniqueTaskNames(Schedule(t, a, now).1.tasks)
    ensures UniqueClockTimes(Schedule(t, a, now).1.clocked)
  {
    var t' := Schedule(t, a, now).1;
    if a.deadline > now && a.deadline !in t.clocked {
      assert t'.clocked == t.clocked + [a.deadline];
    }
  }

  /** Two assignments with the same deadline share one clocked row. */
  lemma {:induction false} SameDeadlineSharesClock(t: Tables, a: Assignment, b: Assignment, now: Instant)
    requires a.deadline == b.deadline && a.id != b.id
    requires UniqueClockTimes(t.clocked)
    requires Schedule(t, a, now).0.Ok?
    ensures var t1 := Schedule(t, a, now).1;
      var t2 := Schedule(t1, b, now).1;
      Schedule(t1, b, now).0.Ok? ==>
        t2.clocked == t1.clocked && t2.tasks[|t1.tasks|].clocked == t1.tasks[|t.tasks|].clocked
  {
    var t1 := Schedule(t, a, now).1;
    var k := t1.tasks[|t.tasks|].clocked;
    ScheduleKeepsUnique(Tables(t.clocked, []), a, now);
    assert UniqueClockTimes(t1.clocked);
    FindClockedUnique(t1.clocked, k);
  }

  lemma {:induction false} FindClockedUnique(clocked: seq<Instant>, k: nat)
    requires k < |clocked| && UniqueClockTimes(clocked)
    ensures FindClocked(clocked, clocked[k]) == Some(k)
  {
    if k != |clocked| - 1 {
      FindClockedUnique(clocked[..|clocked| - 1], k);
    }
  }

  /** Scheduling the same assignment again, at any instant before the
      deadline, fails on the unique task name and leaves both
      tables as the first call left them. */
  lemma RescheduleFails(t: Tables, a: Assignment, now: Instant, later: Instant)
    requires Schedule(t, a, now).0.Ok?
    requires later < a.deadline
    ensures var t1 := Schedule(t, a, now).1;
      Schedule(t1, a, later).0 == Err(DuplicateTaskName) && Schedule(t1, a, later).1 == t1
  {
    var t1 := Schedule(t, a, now).1;
    assert t1.tasks[|t.tasks|].name == TaskName(a.id);
  }
}
