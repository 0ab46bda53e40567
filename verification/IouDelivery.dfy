/** That everything accepted reaches the kernel: how many turns of the loop empty the overflow
    queue of a client that has stopped submitting. */
module IouDelivery {
  import opened Arith
  import opened QueueSpec
  import opened IouSpec
  import opened IouRing
  import opened IouRuns
  import opened IouSteps
  import opened IouLinks

  // Callbacks that neither submit nor schedule anything.
  ghost predicate Quiet(script: Script)
  {
    forall i :: script(i) == []
  }

  // Nothing but tasks, completions and counters of callbacks changed.
  ghost predicate OnlyTasks(s: Sys, s': Sys)
  {
    && SameSetup(s, s') && s'.head == s.head && s'.tail == s.tail && s'.slots == s.slots && s'.ofq == s.ofq
    && s'.log.accepted == s.log.accepted && s'.log.batches == s.log.batches
    && s'.log.longChain == s.log.longChain && s'.log.cutOpen == s.log.cutOpen
    && s'.log.lossy == s.log.lossy && s'.log.stray == s.log.stray
  }

  lemma QuietTask(s: Sys, prep: bool, script: Script)
    requires Quiet(script) && TaskQueue(s, prep).items != []
    ensures var s' := RunTask(s, prep, script);
            && OnlyTasks(s, s')
            && TaskQueue(s', prep).items == TaskQueue(s, prep).items[1..]
            && TaskQueue(s', !prep) == TaskQueue(s, !prep)
  {
    assert script(s.calls) == [];
  }

  lemma {:induction false} QuietTasks(s: Sys, prep: bool, k: nat, script: Script)
    requires Quiet(script) && k <= |TaskQueue(s, prep).items|
    ensures var s' := RunTasks(s, prep, k, script);
            && OnlyTasks(s, s')
            && TaskQueue(s', prep).items == TaskQueue(s, prep).items[k..]
            && TaskQueue(s', !prep) == TaskQueue(s, !prep)
    decreases k
  {
    hide RunTask, TaskQueue, Quiet;
    var items := TaskQueue(s, prep).items;
    if k == 0 {
      assert items[0..] == items;
    } else {
      QuietTask(s, prep, script);
      QuietTasks(RunTask(s, prep, script), prep, k - 1, script);
      assert items[1..][k - 1..] == items[k..];
    }
  }

  lemma QuietBefore(s: Sys, script: Script)
    requires Quiet(script)
    ensures OnlyTasks(s, BeforeEnter(s, script)) && !Pending(BeforeEnter(s, script))
  {
    hide RunTasks, Quiet;
    QuietTasks(s, true, |TaskQueue(s, true).items|, script);
    var s1 := Exeq(s, true, script);
    QuietTasks(s1, false, |TaskQueue(s1, false).items|, script);
  }

  lemma {:induction false} QuietComplete(s: Sys, comps: seq<Completion>, script: Script)
    requires Quiet(script) && comps != []
    ensures OnlyTasks(s, Complete(s, comps, script))
    decreases |comps|
  {
    hide RunTasks, Quiet;
    QuietComplete1(s, comps[0], script);
    if |comps| > 1 {
      var s1 := Complete1(s, comps[0], script);
      QuietTasks(s1, false, |TaskQueue(s1, false).items|, script);
      QuietComplete(Exeq(s1, false, script), comps[1..], script);
    }
  }

  lemma QuietComplete1(s: Sys, c: Completion, script: Script)
    requires Quiet(script)
    ensures OnlyTasks(s, Complete1(s, c, script))
  {
    assert script(s.calls) == [];
  }

  // -------------------------------------------------------------------------------------------
  // One turn

  // The client has kept its discipline and has closed its last chain.
  predicate Settled(s: Sys)
  {
    Disciplined(s.log) && Trailing(s.log.accepted) == 0 && !s.log.stray
  }

  // A closed queue that fits the ring is moved as a whole.
  lemma ClosedFits(items: seq<Sqe>, n: nat)
    requires |items| <= n && Trailing(items) == 0
    ensures SafePop(items, n) == |items|
  {
    LastUnlinkedIsLongest(items, |items|);
    assert items[..|items|] == items;
  }

  lemma SettledDrain(s: Sys)
    requires Links(s) && RingOk(s) && Settled(s) && s.head == s.tail && s.ofq.items != []
    ensures Settled(Drain(s)) && Drain(s).log.accepted == s.log.accepted
    ensures |Drain(s).ofq.items| <= Max(0, |s.ofq.items| - (s.n - 7))
  {
    hide DrainBy, Ring, NoLong, Trailing, SafePop, DrainExact;
    var k := SafePop(s.ofq.items, s.n);
    DrainLinks(s);
    DisciplinedStop(s);
    DrainLog(s, k);
    var j := DrainSuffix(s, k);
    RingEmpty(s);
    if |s.ofq.items| <= s.n {
      ClosedFits(s.ofq.items, s.n);
    }
  }

  /** One turn of a quiet client in which the kernel takes the ring moves at least n - 7 entries
      out of the overflow queue, or all of them; the next enter takes what it moved. */
  lemma QuietTurn(s: Sys, env: Env, script: Script)
    requires Safe(s) && Settled(s) && Quiet(script) && env.taken && env.comps != []
    ensures var s' := Lrun1(s, 0, env, script).0;
            && Safe(s') && Settled(s') && s'.log.accepted == s.log.accepted
            && |s'.ofq.items| <= Max(0, |s.ofq.items| - (s.n - 7))
            && (s.ofq.items == [] ==> Ring(s') == [] && s'.ofq.items == [])
  {
    hide Inv, Links, BeforeEnter, Drain, Complete, Quiet, Ring, Trailing;
    var s1 := BeforeEnter(s, script);
    QuietBefore(s, script);
    BeforeEnterReaches(s, script);
    ReachSafe(s, s1);
    var s2 := Enter(s1, true);
    One(s1, StEnter(true));
    ReachSafe(s1, s2);
    InvRing(s2);
    RingEmpty(s2);
    if s2.ofq.items != [] {
      SettledDrain(s2);
    }
    var s3 := if s2.ofq.items != [] then Drain(s2) else s2;
    QuietComplete(s3, env.comps, script);
    Lrun1Reaches(s, 0, env, script);
    ReachSafe(s, Lrun1(s, 0, env, script).0);
    if s.ofq.items == [] {
      RingEmpty(Lrun1(s, 0, env, script).0);
    }
  }

  // -------------------------------------------------------------------------------------------
  // Many turns

  ghost predicate TurnsOk(envs: seq<Env>)
  {
    forall i :: 0 <= i < |envs| ==> envs[i].taken && envs[i].comps != []
  }

  function Turns(s: Sys, envs: seq<Env>, script: Script): (next: Sys)
    requires forall i :: 0 <= i < |envs| ==> envs[i].comps != []
    ensures SameSetup(s, next)
    decreases |envs|
  {
    if envs == [] then s else Turns(Lrun1(s, 0, envs[0], script).0, envs[1..], script)
  }

  lemma {:induction false} TurnsDeliver(s: Sys, envs: seq<Env>, script: Script)
    requires Safe(s) && Settled(s) && Quiet(script) && TurnsOk(envs)
    requires envs != [] && (|envs| - 1) * (s.n - 7) >= |s.ofq.items|
    ensures var s' := Turns(s, envs, script);
            && Safe(s') && Settled(s') && s'.log.accepted == s.log.accepted
            && Ring(s') == [] && s'.ofq.items == []
    decreases |envs|
  {
    hide Safe, Settled, Quiet, Lrun1, Ring;
    var s1 := Lrun1(s, 0, envs[0], script).0;
    QuietTurn(s, envs[0], script);
    if |envs| == 1 {
    } else {
      Distribute(|envs| - 1, 1, s.n - 7);
      SafeSize(s);
      MulLe(0, |envs| - 2, s.n - 7);
      TurnsDeliver(s1, envs[1..], script);
    }
  }

  lemma SafeSize(s: Sys)
    requires Safe(s)
    ensures s.n >= 8
  {
  }

  /** After any run of a client that has kept its chains short and closed, enough turns in which
      it stays quiet and the kernel takes the ring bring everything accepted to the kernel:
      t + 1 turns do if t * (n - 7) is at least what the overflow queue holds. No walk leaves
      the queue on the way, and if nothing was lost, as with the intended advance, what the
      kernel has taken is exactly what was accepted. */
  lemma EverythingIsDelivered(s0: Sys, calls: seq<Call>, script: Script, envs: seq<Env>, quiet: Script)
    requires Initial(s0) && forall c :: c in calls ==> CallOk(c)
    requires Quiet(quiet) && TurnsOk(envs) && envs != []
    ensures var s, s' := Run(s0, calls, script), Turns(Run(s0, calls, script), envs, quiet);
            Disciplined(s.log) && Trailing(s.log.accepted) == 0 && (|envs| - 1) * (s.n - 7) >= |s.ofq.items| ==>
              && !s'.log.stray && s'.log.accepted == s.log.accepted
              && Ring(s') == [] && s'.ofq.items == []
              && (!s'.log.lossy ==> multiset(Joined(s'.log.batches)) == multiset(s.log.accepted))
              && (s'.log.lossy ==> s0.literal)
  {
    hide Turns, Quiet, Initial, Run, Inv, Links, NoLong, Trailing, Ring, Disciplined, Joined;
    var s := Run(s0, calls, script);
    RunSafe(s0, calls, script);
    if Disciplined(s.log) && Trailing(s.log.accepted) == 0 && (|envs| - 1) * (s.n - 7) >= |s.ofq.items| {
      SettledRun(s);
      TurnsDeliver(s, envs, quiet);
      AllTaken(Turns(s, envs, quiet));
    }
  }

  lemma SettledRun(s: Sys)
    requires Links(s) && Disciplined(s.log) && Trailing(s.log.accepted) == 0
    ensures Settled(s)
  {
  }

  // With nothing in the ring and the overflow queue, the kernel has what was accepted.
  lemma AllTaken(s: Sys)
    requires Safe(s) && Settled(s) && Ring(s) == [] && s.ofq.items == []
    ensures !s.log.stray
    ensures !s.log.lossy ==> multiset(Joined(s.log.batches)) == multiset(s.log.accepted)
    ensures s.log.lossy ==> s.literal
  {
    hide Links, Accounted, Ring, Joined, Inverted;
    assert Pipeline(s) == Joined(s.log.batches);
  }
}
