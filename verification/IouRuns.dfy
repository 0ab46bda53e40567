/** What holds over every run of a client: conservation and order of the submissions, and the
    accounting of tasks. */
module IouRuns {
  import opened Outcomes
  import opened QueueSpec
  import opened IouSpec
  import opened IouRing
  import QueueRuns

  // -------------------------------------------------------------------------------------------
  // Orders of sequences

  // Two elements of a stand in the opposite order in p.
  ghost predicate Inverted<T>(a: seq<T>, p: seq<T>)
  {
    exists i, j, k, l :: 0 <= i < j < |a| && 0 <= k < l < |p| && a[i] == p[l] && a[j] == p[k]
  }

  ghost predicate NoDup<T>(a: seq<T>)
  {
    forall i, j :: 0 <= i < j < |a| ==> a[i] != a[j]
  }

  // p with x inserted at m.
  function Insert<T>(p: seq<T>, m: nat, x: T): seq<T>
    requires m <= |p|
  {
    p[..m] + [x] + p[m..]
  }

  lemma InvertedStays<T>(a: seq<T>, p: seq<T>, m: nat, x: T)
    requires Inverted(a, p) && m <= |p|
    ensures Inverted(a + [x], Insert(p, m, x))
  {
    var i, j, k, l :| 0 <= i < j < |a| && 0 <= k < l < |p| && a[i] == p[l] && a[j] == p[k];
    var k' := if k < m then k else k + 1;
    var l' := if l < m then l else l + 1;
    var a', p' := a + [x], Insert(p, m, x);
    assert a'[i] == p'[l'] && a'[j] == p'[k'];
  }

  lemma InsertInverts<T>(p: seq<T>, m: nat, x: T)
    requires m < |p|
    ensures Inverted(p + [x], Insert(p, m, x))
  {
    var a', p' := p + [x], Insert(p, m, x);
    assert a'[m] == p'[m + 1] && a'[|p|] == p'[m];
  }

  lemma InvertedDiffers<T>(a: seq<T>, p: seq<T>)
    requires Inverted(a, p) && NoDup(a)
    ensures a != p
  {
    var i, j, k, l :| 0 <= i < j < |a| && 0 <= k < l < |p| && a[i] == p[l] && a[j] == p[k];
  }

  lemma InsertCounts<T>(p: seq<T>, m: nat, x: T)
    requires m <= |p|
    ensures multiset(Insert(p, m, x)) == multiset(p) + multiset{x}
  {
    assert p == p[..m] + p[m..];
  }

  // -------------------------------------------------------------------------------------------
  // Submissions

  // Everything the kernel has taken, then the ring, then the overflow queue.
  function Pipeline(s: Sys): seq<Sqe>
  {
    Joined(s.log.batches) + Ring(s) + s.ofq.items
  }

  /** The submissions, in every reachable state. As long as no drain has lost anything the
      accepted submissions are exactly those in the pipeline, in order as long as none has
      overtaken the overflow queue; after a loss there are fewer written entries in the pipeline
      than were accepted. */
  ghost predicate Traffic(s: Sys)
  {
    && RingOk(s) && s.ofq.Valid(SQ_GEOMETRY) && Serial(s.log.accepted)
    && (s.log.lossy ==> s.literal)
    && (!s.log.lossy ==> s.log.unwritten == 0 && multiset(s.log.accepted) == multiset(Pipeline(s)))
    && (s.log.lossy ==> |s.log.accepted| > |Pipeline(s)| - s.log.unwritten)
    && (!s.log.lossy && !s.log.overtook ==> s.log.accepted == Pipeline(s))
    && (!s.log.lossy && s.log.overtook ==> Inverted(s.log.accepted, Pipeline(s)))
  }

  // Accepting x where it enters the pipeline at position m.
  lemma AcceptAt(s: Sys, s': Sys, m: nat, x: Sqe)
    requires Traffic(s) && RingOk(s') && s'.ofq.Valid(SQ_GEOMETRY)
    requires m <= |Pipeline(s)| && Pipeline(s') == Insert(Pipeline(s), m, x)
    requires s'.log.accepted == s.log.accepted + [x] && x.serial == |s.log.accepted|
    requires s'.log.lossy == s.log.lossy && s'.log.unwritten == s.log.unwritten && SameSetup(s, s')
    requires s'.log.overtook == (s.log.overtook || m < |Pipeline(s)|)
    ensures Traffic(s')
  {
    hide Pipeline, Inverted, Insert, Ring;
    var p := Pipeline(s);
    InsertCounts(p, m, x);
    InsertLength(p, m, x);
    if !s.log.lossy {
      if s.log.overtook {
        InvertedStays(s.log.accepted, p, m, x);
      } else if m < |p| {
        InsertInverts(p, m, x);
      }
    }
  }

  lemma InsertLength<T>(p: seq<T>, m: nat, x: T)
    requires m <= |p|
    ensures |Insert(p, m, x)| == |p| + 1
    ensures m == |p| ==> Insert(p, m, x) == p + [x]
  {
  }

  lemma PipelineGrows(c: seq<Sqe>, r: seq<Sqe>, q: seq<Sqe>, x: Sqe)
    ensures c + (r + [x]) + q == Insert(c + r + q, |c| + |r|, x)
    ensures c + r + (q + [x]) == Insert(c + r + q, |c| + |r| + |q|, x)
  {
  }

  lemma SubmitKeeps(s: Sys, r: Request, mapOk: bool, chunkOk: bool)
    requires Traffic(s)
    ensures Traffic(Submit(s, r, mapOk, chunkOk).0)
  {
    hide Ring, Inverted, Push, Joined, Tears, Trailing, MakeSqe, SubmitFlagsOk, Insert;
    var (s', ok) := Submit(s, r, mapOk, chunkOk);
    var x := MakeSqe(r, |s.log.accepted|);
    var c, g, q := Joined(s.log.batches), Ring(s), s.ofq.items;
    if !SubmitFlagsOk(r.flags) {
      SameRing(s, s');
    } else if Occupancy(s) == s.n {
      PushCases(s.ofq, x, mapOk, chunkOk);
      SameRing(s, s');
      if ok {
        PipelineGrows(c, g, q, x);
        MadeSerial(r, |s.log.accepted|);
        AcceptAt(s, s', |Pipeline(s)|, x);
      }
    } else {
      RingPush(s, x);
      RingLooksAt(s.(slots := s.slots[s.tail % s.n := x], tail := (s.tail + 1) % U32), s');
      PipelineGrows(c, g, q, x);
      MadeSerial(r, |s.log.accepted|);
      AcceptAt(s, s', |c| + |g|, x);
    }
  }

  lemma MadeSerial(r: Request, serial: nat)
    ensures MakeSqe(r, serial).serial == serial
  {
  }

  lemma SerialNoDup(accepted: seq<Sqe>)
    requires Serial(accepted)
    ensures NoDup(accepted)
  {
  }

  lemma PushCases(q: QView<Sqe>, x: Sqe, mapOk: bool, chunkOk: bool)
    requires q.Valid(SQ_GEOMETRY)
    ensures var (q', ok) := Push(SQ_GEOMETRY, q, x, mapOk, chunkOk);
            q'.Valid(SQ_GEOMETRY) && q'.items == if ok then q.items + [x] else q.items
  {
    QueueRuns.PushStep(SQ_GEOMETRY, q, x, mapOk, chunkOk);
  }

  // The ring depends on its counters and slots only.
  lemma RingLooksAt(s: Sys, s': Sys)
    requires s.n == s'.n && s.head == s'.head && s.tail == s'.tail && s.slots == s'.slots
    ensures Ring(s) == Ring(s') && Occupancy(s) == Occupancy(s')
  {
  }

  lemma SameRing(s: Sys, s': Sys)
    requires s.n == s'.n && s.head == s'.head && s.tail == s'.tail && s.slots == s'.slots
    requires s.published == s'.published
    ensures Ring(s) == Ring(s')
    ensures RingOk(s) ==> RingOk(s')
    ensures s.ofq.items == s'.ofq.items && s.log.batches == s'.log.batches ==> Pipeline(s) == Pipeline(s')
  {
    RingLooksAt(s, s');
  }

  // Steps that touch neither the ring, the overflow queue nor the submission part of the ledger.
  lemma TrafficFrame(s: Sys, s': Sys)
    requires Traffic(s)
    requires s.n == s'.n && s.head == s'.head && s.tail == s'.tail && s.slots == s'.slots
    requires s.published == s'.published && s.ofq == s'.ofq
    requires s.log.accepted == s'.log.accepted && s.log.batches == s'.log.batches
    requires s.log.unwritten == s'.log.unwritten
    requires s.log.lossy == s'.log.lossy && s.log.overtook == s'.log.overtook && s.literal == s'.literal
    ensures Traffic(s')
  {
    hide Ring, Inverted;
    SameRing(s, s');
  }

  lemma JoinedAppend(rows: seq<seq<Sqe>>, row: seq<Sqe>)
    ensures Joined(rows + [row]) == Joined(rows) + row
  {
    assert (rows + [row])[..|rows|] == rows;
  }

  lemma EnterKeeps(s: Sys, taken: bool)
    requires Traffic(s)
    ensures Traffic(Enter(s, taken))
    ensures taken ==> Ring(Enter(s, taken)) == []
  {
    hide Inverted, Joined, Trailing, EndsLinked, Ring, Pipeline;
    var s' := Enter(s, taken);
    RingEmpty(s.(published := s.tail, head := s.tail));
    if taken {
      EnterPipeline(s);
    } else {
      SamePipeline(s, s');
    }
  }

  lemma EnterPipeline(s: Sys)
    ensures var s' := Enter(s, true);
            Occupancy(s') == 0 && Ring(s') == [] && Pipeline(s') == Pipeline(s)
  {
    hide Joined, Trailing, EndsLinked;
    RingEmpty(Enter(s, true));
    JoinedAppend(s.log.batches, Ring(s));
    assert Joined(s.log.batches) + Ring(s) + [] + s.ofq.items == Pipeline(s);
  }

  lemma SamePipeline(s: Sys, s': Sys)
    requires s.n == s'.n && s.head == s'.head && s.tail == s'.tail && s.slots == s'.slots
    requires s.log.batches == s'.log.batches && s.ofq == s'.ofq
    ensures Pipeline(s) == Pipeline(s') && Occupancy(s) == Occupancy(s')
  {
    RingLooksAt(s, s');
  }

  lemma DrainValid(s: Sys, k: nat)
    requires s.ofq.Valid(SQ_GEOMETRY) && k <= s.n && k <= |s.ofq.items|
    ensures DrainBy(s, k).0.ofq.Valid(SQ_GEOMETRY)
  {
    hide PopTo, Overwrite;
    var b := s.tail % s.n;
    var first := Min(k, s.n - b);
    QueueRuns.PopToStep(SQ_GEOMETRY, s.ofq, first, s.literal);
    PopToSize(SQ_GEOMETRY, s.ofq, first, s.literal);
    var (q1, out1) := PopTo(SQ_GEOMETRY, s.ofq, first, s.literal);
    QueueRuns.PopToStep(SQ_GEOMETRY, q1, Min(b, k - |out1|), s.literal);
  }

  lemma DrainKeeps(s: Sys)
    requires Traffic(s) && s.head == s.tail && SafePop(s.ofq.items, s.n) > 0
    ensures Traffic(Drain(s))
  {
    hide DrainBy, Ring, Inverted, DrainExact, Joined;
    var k := SafePop(s.ofq.items, s.n);
    DrainLog(s, k);
    DrainShape(s, k);
    DrainValid(s, k);
    RingEmpty(s);
    DrainCounts(s, k);
    if DrainExact(s, k) {
      DrainMoves(s, k);
      Rejoin(Joined(s.log.batches), s.ofq.items, k);
    } else if !s.log.lossy {
      SameCount(s.log.accepted, Pipeline(s));
    }
  }

  lemma SameCount<T>(a: seq<T>, p: seq<T>)
    requires multiset(a) == multiset(p)
    ensures |a| == |p|
  {
    assert |multiset(a)| == |a| && |multiset(p)| == |p|;
  }

  lemma Rejoin(c: seq<Sqe>, items: seq<Sqe>, k: nat)
    requires k <= |items|
    ensures c + items[..k] + items[k..] == c + [] + items
  {
  }

  lemma DrainLog(s: Sys, k: nat)
    requires k <= s.n && k <= |s.ofq.items|
    ensures var (s', left) := DrainBy(s, k);
            s'.log == s.log.(lossy := s.log.lossy || !DrainExact(s, k), unwritten := s.log.unwritten + left)
    ensures !s.literal ==> DrainExact(s, k)
  {
  }

  // -------------------------------------------------------------------------------------------
  // Tasks

  /** Tasks run followed by tasks queued are those accepted, in order. */
  ghost predicate Accounted(s: Sys)
  {
    && s.soon.Valid(TASK_GEOMETRY) && s.prep.Valid(TASK_GEOMETRY)
    && s.log.soonRun + s.soon.items == s.log.soonIn
    && s.log.prepRun + s.prep.items == s.log.prepIn
  }

  // From s to s' no task ran, and new tasks only joined the ends of the queues.
  ghost predicate OnlyAdds(s: Sys, s': Sys)
  {
    && s'.log.soonRun == s.log.soonRun && s'.log.prepRun == s.log.prepRun
    && s.soon.items <= s'.soon.items && s.prep.items <= s'.prep.items
  }

  ghost predicate Inv(s: Sys)
  {
    Traffic(s) && Accounted(s)
  }

  lemma TaskPush(q: QView<Task>, t: Task, mapOk: bool, chunkOk: bool)
    requires q.Valid(TASK_GEOMETRY)
    ensures var (q', ok) := Push(TASK_GEOMETRY, q, t, mapOk, chunkOk);
            q'.Valid(TASK_GEOMETRY) && q'.items == if ok then q.items + [t] else q.items
  {
    QueueRuns.PushStep(TASK_GEOMETRY, q, t, mapOk, chunkOk);
  }

  lemma SoonKeeps(s: Sys, flags: bv64, task: Task, mapOk: bool, chunkOk: bool)
    requires Inv(s)
    ensures Inv(Soon(s, flags, task, mapOk, chunkOk).0)
    ensures OnlyAdds(s, Soon(s, flags, task, mapOk, chunkOk).0)
  {
    hide Traffic, Push;
    TaskPush(s.soon, task, mapOk, chunkOk);
    TaskPush(s.prep, task, mapOk, chunkOk);
    TrafficFrame(s, Soon(s, flags, task, mapOk, chunkOk).0);
  }

  lemma SubmitTasks(s: Sys, r: Request, mapOk: bool, chunkOk: bool)
    ensures var s' := Submit(s, r, mapOk, chunkOk).0;
            && s'.soon == s.soon && s'.prep == s.prep
            && s'.log.soonIn == s.log.soonIn && s'.log.soonRun == s.log.soonRun
            && s'.log.prepIn == s.log.prepIn && s'.log.prepRun == s.log.prepRun
  {
    hide Push, Accept, MakeSqe, Ring, SubmitFlagsOk, Occupancy;
    var x := MakeSqe(r, |s.log.accepted|);
    AcceptKeeps(s.log, x, s.ofq.items);
    AcceptKeeps(s.log, x, Ring(s));
  }

  lemma PerformKeeps(s: Sys, a: Action)
    requires Inv(s)
    ensures Inv(Perform(s, a)) && OnlyAdds(s, Perform(s, a))
  {
    hide Traffic, Submit, Soon;
    match a
    case DoSubmit(r, mapOk, chunkOk) =>
      SubmitKeeps(s, r, mapOk, chunkOk);
      SubmitTasks(s, r, mapOk, chunkOk);
    case DoSoon(flags, task, mapOk, chunkOk) => SoonKeeps(s, flags, task, mapOk, chunkOk);
  }

  lemma {:induction false} PerformAllKeeps(s: Sys, acts: seq<Action>)
    requires Inv(s)
    ensures Inv(PerformAll(s, acts)) && OnlyAdds(s, PerformAll(s, acts))
    decreases |acts|
  {
    hide Inv;
    if acts != [] {
      PerformKeeps(s, acts[0]);
      PerformAllKeeps(Perform(s, acts[0]), acts[1..]);
    }
  }

  lemma CallbackKeeps(s: Sys, script: Script)
    requires Inv(s)
    ensures Inv(Callback(s, script)) && OnlyAdds(s, Callback(s, script))
  {
    hide Traffic;
    var s1 := s.(calls := s.calls + 1);
    TrafficFrame(s, s1);
    PerformAllKeeps(s1, script(s.calls));
  }

  lemma PopTask(q: QView<Task>)
    requires q.Valid(TASK_GEOMETRY)
    ensures var (q', t, _) := Pop(TASK_GEOMETRY, q, 0, 0);
            && q'.Valid(TASK_GEOMETRY)
            && (if q.items == [] then t.None? else t == Some(q.items[0]) && q'.items == q.items[1..])
  {
    QueueRuns.PopStep(TASK_GEOMETRY, q, 0, 0);
  }

  function TasksRun(s: Sys, prep: bool): seq<Task>
  {
    if prep then s.log.prepRun else s.log.soonRun
  }

  // Running one task of a queue moves exactly its front task to the end of those run.
  lemma RunTaskKeeps(s: Sys, prep: bool, script: Script)
    requires Inv(s) && TaskQueue(s, prep).items != []
    ensures Inv(RunTask(s, prep, script))
    ensures TasksRun(RunTask(s, prep, script), prep) == TasksRun(s, prep) + [TaskQueue(s, prep).items[0]]
    ensures TaskQueue(s, prep).items[1..] <= TaskQueue(RunTask(s, prep, script), prep).items
    ensures TasksRun(RunTask(s, prep, script), !prep) == TasksRun(s, !prep)
    ensures TaskQueue(s, !prep).items <= TaskQueue(RunTask(s, prep, script), !prep).items
  {
    hide Traffic, Callback, Pop;
    var (q, t, _) := Pop(TASK_GEOMETRY, TaskQueue(s, prep), 0, 0);
    PopTask(TaskQueue(s, prep));
    var s1 := if prep then s.(prep := q, log := s.log.(prepRun := s.log.prepRun + [t.value]))
              else s.(soon := q, log := s.log.(soonRun := s.log.soonRun + [t.value]));
    TrafficFrame(s, s1);
    CallbackKeeps(s1, script);
  }

  /** exeq runs exactly what was queued on entry, each once and in order, whatever the callbacks
      enqueue; what they enqueue stays queued, and the other queue only grows. */
  lemma {:induction false} RunTasksIsSnapshot(s: Sys, prep: bool, k: nat, script: Script)
    requires Inv(s) && k <= |TaskQueue(s, prep).items|
    ensures Inv(RunTasks(s, prep, k, script))
    ensures TasksRun(RunTasks(s, prep, k, script), prep) == TasksRun(s, prep) + TaskQueue(s, prep).items[..k]
    ensures TaskQueue(s, prep).items[k..] <= TaskQueue(RunTasks(s, prep, k, script), prep).items
    ensures TasksRun(RunTasks(s, prep, k, script), !prep) == TasksRun(s, !prep)
    ensures TaskQueue(s, !prep).items <= TaskQueue(RunTasks(s, prep, k, script), !prep).items
    decreases k
  {
    hide Inv, RunTask, TaskQueue, TasksRun;
    if k > 0 {
      var items := TaskQueue(s, prep).items;
      var s1 := RunTask(s, prep, script);
      RunTaskKeeps(s, prep, script);
      RunTasksIsSnapshot(s1, prep, k - 1, script);
      var items1 := TaskQueue(s1, prep).items;
      assert items[1..][..k - 1] == items1[..k - 1];
      assert [items[0]] + items[1..][..k - 1] == items[..k];
      assert items[k..] == items[1..][k - 1..] <= items1[k - 1..];
    }
  }

  lemma ExeqKeeps(s: Sys, prep: bool, script: Script)
    requires Inv(s)
    ensures Inv(Exeq(s, prep, script))
    ensures TasksRun(Exeq(s, prep, script), prep) == TasksRun(s, prep) + TaskQueue(s, prep).items
    ensures TasksRun(Exeq(s, prep, script), !prep) == TasksRun(s, !prep)
    ensures TaskQueue(s, !prep).items <= TaskQueue(Exeq(s, prep, script), !prep).items
  {
    hide Inv;
    RunTasksIsSnapshot(s, prep, |TaskQueue(s, prep).items|, script);
  }

  // -------------------------------------------------------------------------------------------
  // lrun1

  // The soon tasks run by s are still the first run by s'; the prep tasks run are the same.
  ghost predicate SoonOnly(s: Sys, s': Sys)
  {
    s.log.soonRun <= s'.log.soonRun && s'.log.prepRun == s.log.prepRun
  }

  lemma Complete1Keeps(s: Sys, c: Completion, script: Script)
    requires Inv(s)
    ensures Inv(Complete1(s, c, script)) && SoonOnly(s, Complete1(s, c, script))
  {
    hide Traffic, Callback;
    var s1 := s.(log := s.log.(delivered := s.log.delivered + [c]));
    TrafficFrame(s, s1);
    CallbackKeeps(s1, script);
    var s2 := if c.userData != 0 then Callback(s1, script) else s1;
    TrafficFrame(s2, s2.(chead := (s2.chead + 1) % U32));
  }

  lemma {:induction false} CompleteKeeps(s: Sys, comps: seq<Completion>, script: Script)
    requires Inv(s) && comps != []
    ensures Inv(Complete(s, comps, script)) && SoonOnly(s, Complete(s, comps, script))
    decreases |comps|
  {
    hide Inv, Complete1, Exeq;
    Complete1Keeps(s, comps[0], script);
    if |comps| > 1 {
      var s1 := Complete1(s, comps[0], script);
      ExeqKeeps(s1, false, script);
      CompleteKeeps(Exeq(s1, false, script), comps[1..], script);
    }
  }

  lemma AfterEnterKeeps(s: Sys, env: Env, script: Script)
    requires Inv(s) && env.comps != [] && s.head == s.tail
    ensures !AfterEnter(s, env, script).log.stray ==>
              Inv(AfterEnter(s, env, script)) && SoonOnly(s, AfterEnter(s, env, script))
  {
    hide Traffic, Complete, DrainBy;
    var s1 := if s.ofq.items != [] then Drain(s) else s;
    if !s1.log.stray {
      if s.ofq.items != [] {
        DrainKeeps(s);
        DrainTasks(s);
      }
      CompleteKeeps(s1, env.comps, script);
    }
  }

  lemma DrainTasks(s: Sys)
    ensures var s' := Drain(s);
            && s'.soon == s.soon && s'.prep == s.prep
            && s'.log.soonIn == s.log.soonIn && s'.log.soonRun == s.log.soonRun
            && s'.log.prepIn == s.log.prepIn && s'.log.prepRun == s.log.prepRun
  {
  }

  lemma EnterKeepsAll(s: Sys, taken: bool)
    requires Inv(s)
    ensures Inv(Enter(s, taken)) && SoonOnly(s, Enter(s, taken))
    ensures Enter(s, taken).soon == s.soon && Enter(s, taken).prep == s.prep
  {
    hide Traffic;
    EnterKeeps(s, taken);
  }

  /** One lrun1 with valid flags whose drain, if there is one, finds a place to cut runs every
      task that was queued when it was called: the prep tasks run are exactly those, so a task
      scheduled with ESOON_NEXT during the call is still queued when it returns; the soon tasks
      run start with those. Both invariants are kept. */
  lemma Lrun1Tasks(s: Sys, env: Env, script: Script)
    requires Inv(s) && env.comps != []
    ensures var s' := Lrun1(s, 0, env, script).0;
            !s'.log.stray ==>
              && Inv(s')
              && s'.log.prepRun == s.log.prepRun + s.prep.items
              && s.log.soonRun + s.soon.items <= s'.log.soonRun
  {
    hide Inv, Exeq, Enter, AfterEnter;
    var s0 := Exeq(s, true, script);
    ExeqKeeps(s, true, script);
    ExeqKeeps(s0, false, script);
    var s1 := BeforeEnter(s, script);
    EnterKeepsAll(s1, env.taken);
    var s2 := Enter(s1, env.taken);
    if !Pending(s1) && env.taken {
      EnterTaken(s1);
      AfterEnterKeeps(s2, env, script);
    } else if !Pending(s1) {
      ErrnoFrame(s2, env.error);
    }
  }

  lemma EnterTaken(s: Sys)
    ensures Enter(s, true).head == Enter(s, true).tail
  {
  }

  lemma ErrnoFrame(s: Sys, e: nat)
    requires Inv(s)
    ensures Inv(s.(errno := e))
  {
    hide Traffic;
    TrafficFrame(s, s.(errno := e));
  }

  // -------------------------------------------------------------------------------------------
  // Whole runs

  lemma DoKeeps(s: Sys, c: Call, script: Script)
    requires Inv(s) && CallOk(c)
    ensures !Do(s, c, script).log.stray ==> Inv(Do(s, c, script))
  {
    hide Traffic, Lrun1, Submit, Soon;
    match c
    case CallSubmit(r, mapOk, chunkOk) => PerformKeeps(s, DoSubmit(r, mapOk, chunkOk));
    case CallSoon(flags, task, mapOk, chunkOk) => SoonKeeps(s, flags, task, mapOk, chunkOk);
    case CallLrun1(flags, env) =>
      if flags == 0 {
        Lrun1Tasks(s, env, script);
      } else {
        Lrun1Rejects(s, flags, env, script);
        ErrnoFrame(s, EINVAL);
      }
  }

  lemma Lrun1Rejects(s: Sys, flags: bv64, env: Env, script: Script)
    requires flags != 0 && env.comps != []
    ensures Lrun1(s, flags, env, script) == (s.(errno := EINVAL), Returned(-1))
  {
  }

  lemma {:induction false} RunKeeps(s: Sys, calls: seq<Call>, script: Script)
    requires (!s.log.stray ==> Inv(s)) && forall c :: c in calls ==> CallOk(c)
    ensures var s' := Run(s, calls, script); !s'.log.stray ==> Inv(s')
    decreases |calls|
  {
    hide Inv, Do;
    if calls != [] && !s.log.stray {
      DoKeeps(s, calls[0], script);
      RunKeeps(Do(s, calls[0], script), calls[1..], script);
    }
  }

  lemma InitialInv(s: Sys)
    requires Initial(s)
    ensures Inv(s)
  {
    RingEmpty(s);
    assert Pipeline(s) == [];
  }

  /** Conservation over whole runs. For every client, every behaviour of the callbacks, of the
      allocator and of the kernel, as long as no drain's walk leaves the queue: the accepted
      submissions are, each as often as it was accepted, those the kernel took, those in the ring
      and those in the overflow queue, and every ring entry was written, if and only if no drain
      of the run had a removal that drops entries. With the intended advance none has. */
  lemma Conservation(s: Sys, calls: seq<Call>, script: Script)
    requires Initial(s) && forall c :: c in calls ==> CallOk(c)
    ensures var s' := Run(s, calls, script);
            !s'.log.stray ==>
              && (multiset(s'.log.accepted) == multiset(Pipeline(s')) && s'.log.unwritten == 0
                  <==> !s'.log.lossy)
              && Occupancy(s') <= s'.n
              && (s'.log.lossy ==> s.literal)
  {
    hide Run, Inverted, Pipeline;
    InitialInv(s);
    RunKeeps(s, calls, script);
    var s' := Run(s, calls, script);
    if !s'.log.stray && multiset(s'.log.accepted) == multiset(Pipeline(s')) && s'.log.unwritten == 0 {
      SameCount(s'.log.accepted, Pipeline(s'));
    }
  }

  /** Order over whole runs in which no walk leaves the queue: while nothing is lost, submissions
      leave in the order in which they were accepted if and only if none went to the ring while
      others waited in the overflow queue, which a caller can see before each call. */
  lemma SubmissionOrder(s: Sys, calls: seq<Call>, script: Script)
    requires Initial(s) && forall c :: c in calls ==> CallOk(c)
    ensures var s' := Run(s, calls, script);
            !s'.log.stray && !s'.log.lossy ==>
              (s'.log.accepted == Pipeline(s') <==> !s'.log.overtook)
  {
    hide Run, Inverted, Pipeline;
    InitialInv(s);
    RunKeeps(s, calls, script);
    var s' := Run(s, calls, script);
    if !s'.log.stray && s'.log.overtook && !s'.log.lossy {
      SerialNoDup(s'.log.accepted);
      InvertedDiffers(s'.log.accepted, Pipeline(s'));
    }
  }

  /** Task accounting over whole runs in which no walk leaves the queue, for both queues. */
  lemma TaskAccounting(s: Sys, calls: seq<Call>, script: Script)
    requires Initial(s) && forall c :: c in calls ==> CallOk(c)
    ensures var s' := Run(s, calls, script);
            !s'.log.stray ==>
              && s'.log.soonRun + s'.soon.items == s'.log.soonIn
              && s'.log.prepRun + s'.prep.items == s'.log.prepIn
  {
    hide Run, Traffic;
    InitialInv(s);
    RunKeeps(s, calls, script);
  }
}
