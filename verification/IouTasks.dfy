/** How exeq knows when to stop: the stop cursor taken on entry against what callbacks
    add meanwhile. */
module IouTasks {
  import opened Arith
  import opened QueueSpec
  import opened IouSpec

  // What a callback does to a task queue: nothing, or longer at the back.
  predicate QueueGrows(q: QView<Task>, q': QView<Task>)
  {
    q'.front == q.front && q.items <= q'.items
  }

  lemma ActGrows(s: Sys, a: Action, prep: bool)
    ensures QueueGrows(TaskQueue(s, prep), TaskQueue(Perform(s, a), prep))
  {
    hide Granted, GrownCap, MakeSqe, SubmitFlagsOk, SoonFlagsOk, ForNext, Occupancy, Accept;
  }

  lemma {:induction false} ActsGrow(s: Sys, acts: seq<Action>, prep: bool)
    ensures QueueGrows(TaskQueue(s, prep), TaskQueue(PerformAll(s, acts), prep))
    decreases |acts|
  {
    hide Perform;
    if acts != [] {
      ActGrows(s, acts[0], prep);
      ActsGrow(Perform(s, acts[0]), acts[1..], prep);
    }
  }

  // Two positions with the same chunk and offset are one position.
  lemma SameCursor(p: nat, r: nat, c: nat)
    requires c > 0
    ensures p / c == r / c && p % c == r % c <==> p == r
  {
    DivMod(p, c);
    DivMod(r, c);
  }

  /** With the stop cursor where the back of the queue was at first, and `left` of those
      queued then still queued, a pop reports the end exactly at the last of them: not earlier,
      whatever was added behind, and not later, even if nothing was added and the queue is
      reset. */
  lemma StopsAtSnapshot(start: QView<Task>, q: QView<Task>, left: nat)
    requires 0 < left <= |start.items| && left <= |q.items|
    requires q.front == start.front + |start.items| - left
    ensures var (q', t, code) := Pop(TASK_GEOMETRY, q, start.ChunkE(TASK_GEOMETRY), start.OsE(TASK_GEOMETRY));
            && t == Some(q.items[0])
            && code == (if left == 1 then 1 else 0)
            && (left > 1 ==> q'.front == q.front + 1 && q'.items == q.items[1..])
  {
    if |q.items| > 1 {
      SameCursor(q.front + 1, start.Back(), TASK_GEOMETRY.c);
    }
  }

  // The stop cursor decides the code only.
  lemma StopIsOnlyACode(s: Sys, prep: bool, chunkStop: nat, osStop: nat)
    ensures TakeTask(s, prep, chunkStop, osStop).0 == TakeTask(s, prep, 0, 0).0
    ensures TakeTask(s, prep, chunkStop, osStop).1 == TakeTask(s, prep, 0, 0).1
  {
  }

  /** One round of exeq. */
  lemma ExeqRound(start: QView<Task>, s: Sys, prep: bool, left: nat, script: Script)
    requires var q := TaskQueue(s, prep);
             0 < left <= |start.items| && left <= |q.items| && q.front == start.front + |start.items| - left
    ensures var (s1, t, code) := TakeTask(s, prep, start.ChunkE(TASK_GEOMETRY), start.OsE(TASK_GEOMETRY));
            var s' := Callback(s1, script);
            && t.Some? && code == (if left == 1 then 1 else 0)
            && RunTasks(s, prep, left, script) == RunTasks(s', prep, left - 1, script)
            && (left > 1 ==> left - 1 <= |TaskQueue(s', prep).items|)
            && (left > 1 ==> TaskQueue(s', prep).front == start.front + |start.items| - (left - 1))
  {
    hide PerformAll, Pop;
    var (s1, t, code) := TakeTask(s, prep, start.ChunkE(TASK_GEOMETRY), start.OsE(TASK_GEOMETRY));
    StopsAtSnapshot(start, TaskQueue(s, prep), left);
    StopIsOnlyACode(s, prep, start.ChunkE(TASK_GEOMETRY), start.OsE(TASK_GEOMETRY));
    ActsGrow(s1.(calls := s1.calls + 1), script(s1.calls), prep);
  }

  // exeq on an empty queue: the first pop says so.
  lemma EmptyRound(s: Sys, prep: bool, chunkStop: nat, osStop: nat, script: Script)
    requires TaskQueue(s, prep).items == []
    ensures TakeTask(s, prep, chunkStop, osStop) == (s, None, -1)
    ensures RunTasks(s, prep, 0, script) == s
  {
  }

  lemma NoneLeft(s: Sys, prep: bool, script: Script)
    ensures RunTasks(s, prep, 0, script) == s
  {
  }

  // -------------------------------------------------------------------------------------------
  // Only a drain strays

  lemma SubmitStray(s: Sys, r: Request, mapOk: bool, chunkOk: bool)
    ensures Submit(s, r, mapOk, chunkOk).0.log.stray == s.log.stray
  {
    hide Push, MakeSqe, SubmitFlagsOk, Occupancy, Ring, Accept;
    var x := MakeSqe(r, |s.log.accepted|);
    AcceptKeeps(s.log, x, s.ofq.items);
    AcceptKeeps(s.log, x, Ring(s));
  }

  lemma SoonStray(s: Sys, flags: bv64, task: Task, mapOk: bool, chunkOk: bool)
    ensures Soon(s, flags, task, mapOk, chunkOk).0.log.stray == s.log.stray
  {
    hide Push, SoonFlagsOk, ForNext;
  }

  lemma ActStray(s: Sys, a: Action)
    ensures Perform(s, a).log.stray == s.log.stray
  {
    hide Submit, Soon;
    match a
    case DoSubmit(r, mapOk, chunkOk) => SubmitStray(s, r, mapOk, chunkOk);
    case DoSoon(flags, task, mapOk, chunkOk) => SoonStray(s, flags, task, mapOk, chunkOk);
  }

  lemma {:induction false} ActsStray(s: Sys, acts: seq<Action>)
    ensures PerformAll(s, acts).log.stray == s.log.stray
    decreases |acts|
  {
    hide Perform;
    if acts != [] {
      ActStray(s, acts[0]);
      ActsStray(Perform(s, acts[0]), acts[1..]);
    }
  }

  lemma CallbackStray(s: Sys, script: Script)
    ensures Callback(s, script).log.stray == s.log.stray
  {
    hide PerformAll;
    ActsStray(s.(calls := s.calls + 1), script(s.calls));
  }

  lemma {:induction false} TasksStray(s: Sys, prep: bool, k: nat, script: Script)
    ensures RunTasks(s, prep, k, script).log.stray == s.log.stray
    decreases k
  {
    hide Callback, Pop;
    if k > 0 {
      CallbackStray(TakeTask(s, prep, 0, 0).0, script);
      TasksStray(RunTask(s, prep, script), prep, k - 1, script);
    }
  }

  lemma BeforeEnterStray(s: Sys, script: Script)
    ensures BeforeEnter(s, script).log.stray == s.log.stray
  {
    hide RunTasks;
    TasksStray(s, true, |TaskQueue(s, true).items|, script);
    var s1 := Exeq(s, true, script);
    TasksStray(s1, false, |TaskQueue(s1, false).items|, script);
  }

  lemma EnterStray(s: Sys, taken: bool)
    ensures Enter(s, taken).log.stray == s.log.stray
  {
  }

  lemma {:induction false} CompleteStray(s: Sys, comps: seq<Completion>, script: Script)
    requires comps != []
    ensures Complete(s, comps, script).log.stray == s.log.stray
    decreases |comps|
  {
    hide RunTasks, Callback;
    CallbackStray(s.(log := s.log.(delivered := s.log.delivered + [comps[0]])), script);
    if |comps| > 1 {
      var s1 := Complete1(s, comps[0], script);
      TasksStray(s1, false, |TaskQueue(s1, false).items|, script);
      CompleteStray(Exeq(s1, false, script), comps[1..], script);
    }
  }

  /** lrun1 has no result exactly when its drain's walk is about to leave the queue. */
  lemma Lrun1Stray(s: Sys, flags: bv64, env: Env, script: Script)
    requires !s.log.stray && env.comps != []
    ensures var (s', res) := Lrun1(s, flags, env, script); res.Overrun? <==> s'.log.stray
  {
    hide BeforeEnter, Enter, AfterEnter;
    BeforeEnterStray(s, script);
    EnterStray(BeforeEnter(s, script), env.taken);
  }

  // A run with no calls left, or past the point where it ends.
  lemma RunOver(s: Sys, calls: seq<Call>, script: Script)
    requires (forall c :: c in calls ==> CallOk(c)) && (calls == [] || s.log.stray)
    ensures Run(s, calls, script) == s
  {
  }
}
