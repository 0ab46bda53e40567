/** The elementary steps the loop context is changed by, and that every run is made of them. What
    each step keeps, every run keeps. */
module IouSteps {
  import opened Arith
  import opened QueueSpec
  import opened IouSpec
  import opened IouRing
  import opened IouRuns

  datatype Step =
    | StAct(a: Action)            // a submission or a scheduling call, of the client or a callback
    | StCall                      // a callback is called
    | StTake(prep: bool)          // the front task of a queue is taken
    | StDeliver(c: Completion)
    | StChead
    | StErrno(e: nat)
    | StEnter(taken: bool)
    | StDrain                     // a drain with a place to cut
    | StStray                     // a drain without one

  predicate Enabled(s: Sys, st: Step)
  {
    match st
    case StDrain => s.head == s.tail && SafePop(s.ofq.items, s.n) > 0
    case StStray => s.head == s.tail && SafePop(s.ofq.items, s.n) == 0 && s.ofq.items != []
    case _ => true
  }

  function Apply(s: Sys, st: Step): (next: Sys)
    ensures SameSetup(s, next)
  {
    match st
    case StAct(a) => Perform(s, a)
    case StCall => s.(calls := s.calls + 1)
    case StTake(prep) => TakeTask(s, prep, 0, 0).0
    case StDeliver(c) => s.(log := s.log.(delivered := s.log.delivered + [c]))
    case StChead => s.(chead := (s.chead + 1) % U32)
    case StErrno(e) => s.(errno := e)
    case StEnter(taken) => Enter(s, taken)
    case StDrain => Drain(s)
    case StStray => Drain(s)
  }

  predicate EnabledAll(s: Sys, steps: seq<Step>)
    decreases |steps|
  {
    steps == [] || (Enabled(s, steps[0]) && EnabledAll(Apply(s, steps[0]), steps[1..]))
  }

  function ApplyAll(s: Sys, steps: seq<Step>): (next: Sys)
    ensures SameSetup(s, next)
    decreases |steps|
  {
    if steps == [] then s else ApplyAll(Apply(s, steps[0]), steps[1..])
  }

  // Some steps lead from s to s'.
  ghost predicate Reach(s: Sys, s': Sys)
  {
    exists steps :: EnabledAll(s, steps) && ApplyAll(s, steps) == s'
  }

  lemma Here(s: Sys)
    ensures Reach(s, s)
  {
    assert EnabledAll(s, []) && ApplyAll(s, []) == s;
  }

  lemma One(s: Sys, st: Step)
    requires Enabled(s, st)
    ensures Reach(s, Apply(s, st))
  {
    hide Apply, Enabled;
    var steps, s1 := [st], Apply(s, st);
    assert EnabledAll(s1, []) && ApplyAll(s1, []) == s1;
    assert steps[0] == st && steps[1..] == [];
    assert EnabledAll(s, steps) && ApplyAll(s, steps) == s1;
  }

  lemma {:induction false} InTwo(s: Sys, first: seq<Step>, more: seq<Step>)
    requires EnabledAll(s, first) && EnabledAll(ApplyAll(s, first), more)
    ensures EnabledAll(s, first + more) && ApplyAll(s, first + more) == ApplyAll(ApplyAll(s, first), more)
    decreases |first|
  {
    hide Apply, Enabled;
    if first == [] {
      assert [] + more == more;
    } else {
      InTwo(Apply(s, first[0]), first[1..], more);
      assert (first + more)[1..] == first[1..] + more;
    }
  }

  lemma On(s: Sys, s1: Sys, s2: Sys)
    requires Reach(s, s1) && Reach(s1, s2)
    ensures Reach(s, s2)
  {
    var first :| EnabledAll(s, first) && ApplyAll(s, first) == s1;
    var more :| EnabledAll(s1, more) && ApplyAll(s1, more) == s2;
    InTwo(s, first, more);
  }

  // Steps that end a path.
  lemma OnOne(s: Sys, s1: Sys, st: Step)
    requires Reach(s, s1) && Enabled(s1, st)
    ensures Reach(s, Apply(s1, st))
  {
    One(s1, st);
    On(s, s1, Apply(s1, st));
  }

  // -------------------------------------------------------------------------------------------
  // Runs are made of steps

  lemma {:induction false} PerformAllReaches(s: Sys, acts: seq<Action>)
    ensures Reach(s, PerformAll(s, acts))
    decreases |acts|
  {
    hide Reach, Perform;
    Here(s);
    if acts != [] {
      One(s, StAct(acts[0]));
      PerformAllReaches(Perform(s, acts[0]), acts[1..]);
      On(s, Perform(s, acts[0]), PerformAll(s, acts));
    }
  }

  lemma CallbackReaches(s: Sys, script: Script)
    ensures Reach(s, Callback(s, script))
  {
    hide Reach, PerformAll;
    One(s, StCall);
    PerformAllReaches(Apply(s, StCall), script(s.calls));
    On(s, Apply(s, StCall), Callback(s, script));
  }

  lemma {:induction false} RunTasksReaches(s: Sys, prep: bool, k: nat, script: Script)
    ensures Reach(s, RunTasks(s, prep, k, script))
    decreases k
  {
    hide Reach, Callback, TakeTask;
    Here(s);
    if k > 0 {
      var s1 := TakeTask(s, prep, 0, 0).0;
      One(s, StTake(prep));
      CallbackReaches(s1, script);
      On(s, s1, Callback(s1, script));
      var s2 := RunTask(s, prep, script);
      RunTasksReaches(s2, prep, k - 1, script);
      On(s, s2, RunTasks(s2, prep, k - 1, script));
    }
  }

  lemma Complete1Reaches(s: Sys, c: Completion, script: Script)
    ensures Reach(s, Complete1(s, c, script))
  {
    hide Reach, Callback;
    var s1 := Apply(s, StDeliver(c));
    One(s, StDeliver(c));
    CallbackReaches(s1, script);
    On(s, s1, Callback(s1, script));
    OnOne(s, if c.userData != 0 then Callback(s1, script) else s1, StChead);
  }

  lemma {:induction false} CompleteReaches(s: Sys, comps: seq<Completion>, script: Script)
    requires comps != []
    ensures Reach(s, Complete(s, comps, script))
    decreases |comps|
  {
    hide Reach, Complete1, RunTasks;
    var s1 := Complete1(s, comps[0], script);
    Complete1Reaches(s, comps[0], script);
    if |comps| > 1 {
      var s2 := Exeq(s1, false, script);
      RunTasksReaches(s1, false, |TaskQueue(s1, false).items|, script);
      On(s, s1, s2);
      CompleteReaches(s2, comps[1..], script);
      On(s, s2, Complete(s, comps, script));
    }
  }

  lemma BeforeEnterReaches(s: Sys, script: Script)
    ensures Reach(s, BeforeEnter(s, script))
  {
    hide Reach, RunTasks;
    var s1 := Exeq(s, true, script);
    RunTasksReaches(s, true, |TaskQueue(s, true).items|, script);
    RunTasksReaches(s1, false, |TaskQueue(s1, false).items|, script);
    On(s, s1, BeforeEnter(s, script));
  }

  lemma AfterEnterReaches(s: Sys, env: Env, script: Script)
    requires env.comps != [] && s.head == s.tail
    ensures Reach(s, AfterEnter(s, env, script))
  {
    hide Reach, Complete, Drain, SafePop;
    var s1 := if s.ofq.items != [] then Drain(s) else s;
    Here(s);
    if s.ofq.items != [] {
      One(s, if SafePop(s.ofq.items, s.n) > 0 then StDrain else StStray);
    }
    CompleteReaches(s1, env.comps, script);
    On(s, s1, Complete(s1, env.comps, script));
  }

  lemma Lrun1Reaches(s: Sys, flags: bv64, env: Env, script: Script)
    requires env.comps != []
    ensures Reach(s, Lrun1(s, flags, env, script).0)
  {
    hide Reach, BeforeEnter, Enter, AfterEnter;
    One(s, StErrno(EINVAL));
    var s1 := BeforeEnter(s, script);
    BeforeEnterReaches(s, script);
    var s2 := Enter(s1, env.taken);
    OnOne(s, s1, StEnter(env.taken));
    OnOne(s, s2, StErrno(env.error));
    if env.taken {
      EnterTaken(s1);
      AfterEnterReaches(s2, env, script);
      On(s, s2, AfterEnter(s2, env, script));
    }
  }

  lemma DoReaches(s: Sys, c: Call, script: Script)
    requires CallOk(c)
    ensures Reach(s, Do(s, c, script))
  {
    hide Reach, Submit, Soon, Lrun1;
    match c
    case CallSubmit(r, mapOk, chunkOk) => One(s, StAct(DoSubmit(r, mapOk, chunkOk)));
    case CallSoon(flags, task, mapOk, chunkOk) => One(s, StAct(DoSoon(flags, task, mapOk, chunkOk)));
    case CallLrun1(flags, env) => Lrun1Reaches(s, flags, env, script);
  }

  /** Every run is a sequence of elementary steps. */
  lemma {:induction false} RunReaches(s: Sys, calls: seq<Call>, script: Script)
    requires forall c :: c in calls ==> CallOk(c)
    ensures Reach(s, Run(s, calls, script))
    decreases |calls|
  {
    hide Reach, Do;
    Here(s);
    if calls != [] && !s.log.stray {
      var s1 := Do(s, calls[0], script);
      DoReaches(s, calls[0], script);
      RunReaches(s1, calls[1..], script);
      On(s, s1, Run(s1, calls[1..], script));
    }
  }

  // -------------------------------------------------------------------------------------------
  // What every step keeps

  lemma StrayOnlyMarks(s: Sys)
    requires Enabled(s, StStray)
    ensures Apply(s, StStray) == s.(log := s.log.(stray := true))
  {
  }

  lemma DrainKeepsInv(s: Sys)
    requires Inv(s) && Enabled(s, StDrain)
    ensures Inv(Drain(s))
  {
    hide Traffic, Drain, SafePop;
    DrainKeeps(s);
    DrainTasks(s);
  }

  lemma TakeKeepsInv(s: Sys, prep: bool)
    requires Inv(s)
    ensures Inv(TakeTask(s, prep, 0, 0).0)
  {
    hide Traffic, Pop;
    PopTask(TaskQueue(s, prep));
    TrafficFrame(s, TakeTask(s, prep, 0, 0).0);
  }

  lemma StrayKeepsInv(s: Sys)
    requires Inv(s) && Enabled(s, StStray)
    ensures Inv(Apply(s, StStray))
  {
    hide Traffic, Drain, SafePop;
    StrayOnlyMarks(s);
    TrafficFrame(s, Apply(s, StStray));
  }

  lemma SmallStepKeepsInv(s: Sys, st: Step)
    requires Inv(s) && (st.StCall? || st.StDeliver? || st.StChead? || st.StErrno?)
    ensures Inv(Apply(s, st))
  {
    hide Traffic;
    TrafficFrame(s, Apply(s, st));
  }

  lemma StepKeepsInv(s: Sys, st: Step)
    requires Inv(s) && Enabled(s, st)
    ensures Inv(Apply(s, st))
  {
    hide Inv, Perform, TakeTask, Enter, Drain, SafePop;
    match st
    case StAct(a) => PerformKeeps(s, a);
    case StTake(prep) => TakeKeepsInv(s, prep);
    case StEnter(taken) => EnterKeepsAll(s, taken);
    case StDrain => DrainKeepsInv(s);
    case StStray => StrayKeepsInv(s);
    case _ => SmallStepKeepsInv(s, st);
  }

  lemma {:induction false} StepsKeepInv(s: Sys, steps: seq<Step>)
    requires Inv(s) && EnabledAll(s, steps)
    ensures Inv(ApplyAll(s, steps))
    decreases |steps|
  {
    hide Inv, Apply, Enabled;
    if steps != [] {
      StepKeepsInv(s, steps[0]);
      StepsKeepInv(Apply(s, steps[0]), steps[1..]);
    }
  }

  lemma ReachKeepsInv(s: Sys, s': Sys)
    requires Inv(s) && Reach(s, s')
    ensures Inv(s')
  {
    hide Inv;
    var steps :| EnabledAll(s, steps) && ApplyAll(s, steps) == s';
    StepsKeepInv(s, steps);
  }
}
