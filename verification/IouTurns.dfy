/** What the calls of a client come to, stated by what it hands in and what it sees: the entry made
    of a request, the queue a callback goes to, and one turn of the loop: what is published, which
    completions are handled, which callbacks run between them, and when it polls. */
module IouTurns {
  import opened Arith
  import opened Outcomes
  import opened QueueSpec
  import opened IouSpec
  import opened IouRing
  import opened IouRuns
  import opened IouTasks
  import opened IouSteps
  import opened IouChains

  // -------------------------------------------------------------------------------------------
  // Submission

  // The entry asks the kernel for what the request asks for.
  predicate Carries(x: Sqe, r: Request)
  {
    && x.opcode == r.op && x.fd == r.fd && x.off == r.off % U64 && x.addr == r.addr && x.len == r.len
    && x.userData == r.userData
    && (x.fixedFile <==> r.flags & FLAG_NOREG_HANDLE == 0)
    && (x.link <==> r.flags & FLAG_REQLNK != 0)
    && (x.skipSuccess <==> r.flags & FLAG_REQLNK != 0)
  }

  // There is room for one more in the overflow queue.
  predicate OverflowRoom(s: Sys, mapOk: bool, chunkOk: bool)
  {
    s.ofq.Back() % 1024 != 0 || ((s.ofq.Back() / 1024 < s.ofq.cap || mapOk) && chunkOk)
  }

  /** A submission is refused with EINVAL exactly for flags other than the two, and with ENOMEM
      exactly when the ring is full and the overflow queue gets no memory; then nothing is
      submitted. An accepted one is the newest, carries its request, and joins the end of the
      ring if that is not full, and else the end of the overflow queue. */
  lemma SubmitEffect(s: Sys, r: Request, mapOk: bool, chunkOk: bool)
    requires RingOk(s)
    ensures var (s', ok) := Submit(s, r, mapOk, chunkOk);
            var badFlags := r.flags & !(FLAG_NOREG_HANDLE | FLAG_REQLNK) != 0;
            var full := Occupancy(s) == s.n;
            && (ok <==> !badFlags && (full ==> OverflowRoom(s, mapOk, chunkOk)))
            && s'.errno == (if badFlags then EINVAL else if ok then s.errno else ENOMEM)
            && (!ok ==> s'.log == s.log && Ring(s') == Ring(s) && s'.ofq.items == s.ofq.items)
            && (ok ==>
                  var k := |s.log.accepted|;
                  && |s'.log.accepted| == k + 1 && s'.log.accepted[..k] == s.log.accepted
                  && var x := s'.log.accepted[k];
                     && Carries(x, r) && x.serial == k
                     && Ring(s') == (if full then Ring(s) else Ring(s) + [x])
                     && s'.ofq.items == (if full then s.ofq.items + [x] else s.ofq.items))
  {
    hide Ring, Submit, OverflowRoom, Carries;
    SubmitAnswer(s, r, mapOk, chunkOk);
    if Submit(s, r, mapOk, chunkOk).1 {
      SubmitPlace(s, r, mapOk, chunkOk);
    } else {
      SubmitRefused(s, r, mapOk, chunkOk);
    }
  }

  lemma SubmitAnswer(s: Sys, r: Request, mapOk: bool, chunkOk: bool)
    ensures var (s', ok) := Submit(s, r, mapOk, chunkOk);
            var badFlags := r.flags & !(FLAG_NOREG_HANDLE | FLAG_REQLNK) != 0;
            && (ok <==> !badFlags && (Occupancy(s) == s.n ==> OverflowRoom(s, mapOk, chunkOk)))
            && s'.errno == (if badFlags then EINVAL else if ok then s.errno else ENOMEM)
  {
    hide Ring, Accept, MakeSqe, Push, OverflowRoom, Occupancy;
    OverflowPush(s, MakeSqe(r, |s.log.accepted|), mapOk, chunkOk);
  }

  lemma SubmitRefused(s: Sys, r: Request, mapOk: bool, chunkOk: bool)
    requires !Submit(s, r, mapOk, chunkOk).1
    ensures var s' := Submit(s, r, mapOk, chunkOk).0;
            s'.log == s.log && Ring(s') == Ring(s) && s'.ofq.items == s.ofq.items
  {
    hide Ring, Accept, MakeSqe, Push, SubmitFlagsOk, OverflowRoom;
    OverflowPush(s, MakeSqe(r, |s.log.accepted|), mapOk, chunkOk);
    RingLooksAt(s, Submit(s, r, mapOk, chunkOk).0);
  }

  lemma SubmitPlace(s: Sys, r: Request, mapOk: bool, chunkOk: bool)
    requires RingOk(s) && Submit(s, r, mapOk, chunkOk).1
    ensures var s' := Submit(s, r, mapOk, chunkOk).0;
            var k, full := |s.log.accepted|, Occupancy(s) == s.n;
            && |s'.log.accepted| == k + 1 && s'.log.accepted[..k] == s.log.accepted
            && var x := s'.log.accepted[k];
               && Carries(x, r) && x.serial == k
               && Ring(s') == (if full then Ring(s) else Ring(s) + [x])
               && s'.ofq.items == (if full then s.ofq.items + [x] else s.ofq.items)
  {
    hide Ring, Submit, MakeSqe, Carries, Occupancy;
    var x := MakeSqe(r, |s.log.accepted|);
    CarriesRequest(r, |s.log.accepted|);
    if Occupancy(s) == s.n {
      OverflowMoves(s, r, mapOk, chunkOk);
    } else {
      RingMoves(s, r, mapOk, chunkOk);
    }
  }

  lemma CarriesRequest(r: Request, serial: nat)
    ensures Carries(MakeSqe(r, serial), r) && MakeSqe(r, serial).serial == serial
  {
  }

  lemma OverflowPush(s: Sys, x: Sqe, mapOk: bool, chunkOk: bool)
    ensures var (q, ok) := Push(SQ_GEOMETRY, s.ofq, x, mapOk, chunkOk);
            && (ok <==> OverflowRoom(s, mapOk, chunkOk))
            && q.items == if ok then s.ofq.items + [x] else s.ofq.items
  {
  }

  // -------------------------------------------------------------------------------------------
  // Scheduling

  /** A callback scheduled with ESOON_NEXT joins prepque, one without it soonque, and the other
      queue stays as it is; other flags are refused. */
  lemma SoonEffect(s: Sys, flags: bv64, task: Task, mapOk: bool, chunkOk: bool)
    ensures var (s', ok) := Soon(s, flags, task, mapOk, chunkOk);
            var badFlags, next := flags & !FLAG_ESOON_NEXT != 0, flags & FLAG_ESOON_NEXT != 0;
            && (ok ==> !badFlags) && (!badFlags && mapOk && chunkOk ==> ok)
            && s'.errno == (if badFlags then EINVAL else if ok then s.errno else ENOMEM)
            && (ok && next ==>
                  && s'.prep.items == s.prep.items + [task] && s'.log.prepIn == s.log.prepIn + [task]
                  && s'.soon == s.soon && s'.log.soonIn == s.log.soonIn)
            && (ok && !next ==>
                  && s'.soon.items == s.soon.items + [task] && s'.log.soonIn == s.log.soonIn + [task]
                  && s'.prep == s.prep && s'.log.prepIn == s.log.prepIn)
            && (!ok ==> s'.prep.items == s.prep.items && s'.soon.items == s.soon.items && s'.log == s.log)
  {
  }

  /** Over one turn: what callbacks scheduled with ESOON_NEXT during the turn is exactly what is
      queued in prepque when it returns; none of it has run. */
  lemma NextTurnWaits(s: Sys, env: Env, script: Script)
    requires Inv(s) && env.comps != []
    ensures var s' := Lrun1(s, 0, env, script).0;
            !s'.log.stray ==>
              && s'.log.prepIn == s.log.prepIn + s'.prep.items
              && s'.log.prepRun == s.log.prepIn
  {
    hide Traffic, Lrun1;
    Lrun1Tasks(s, env, script);
  }

  // -------------------------------------------------------------------------------------------
  // Callbacks

  /** A callback makes all the calls of its script, in order. */
  lemma {:induction false} CallbackInOrder(s: Sys, acts: seq<Action>, a: Action)
    ensures PerformAll(s, []) == s
    ensures PerformAll(s, acts + [a]) == Perform(PerformAll(s, acts), a)
    decreases |acts|
  {
    hide Perform;
    if acts == [] {
      assert ([] + [a])[1..] == [] && ([] + [a])[0] == a;
    } else {
      CallbackInOrder(Perform(s, acts[0]), acts[1..], a);
      assert (acts + [a])[1..] == acts[1..] + [a];
    }
  }

  // The i-th callback of a run is given the i-th script.
  lemma CallbackScript(s: Sys, script: Script)
    ensures var s' := Callback(s, script);
            s' == PerformAll(s.(calls := s.calls + 1), script(s.calls)) && s'.calls == s.calls + 1
  {
    hide PerformAll;
    ActsKeepCompletions(s.(calls := s.calls + 1), script(s.calls));
  }

  // -------------------------------------------------------------------------------------------
  // Completions

  // What neither submitting nor scheduling touches.
  ghost predicate Untouched(s: Sys, s': Sys)
  {
    && SameSetup(s, s')
    && s'.log.delivered == s.log.delivered && s'.chead == s.chead && s'.acked == s.acked
    && s'.published == s.published && s'.head == s.head && s'.log.batches == s.log.batches
    && s'.calls == s.calls && s'.log.soonRun == s.log.soonRun && s'.log.prepRun == s.log.prepRun
  }

  lemma SubmitKeepsCompletions(s: Sys, r: Request, mapOk: bool, chunkOk: bool)
    ensures Untouched(s, Submit(s, r, mapOk, chunkOk).0)
  {
    hide Push, Accept, MakeSqe, Ring, SubmitFlagsOk, Occupancy;
    var x := MakeSqe(r, |s.log.accepted|);
    AcceptKeeps(s.log, x, s.ofq.items);
    AcceptKeeps(s.log, x, Ring(s));
  }

  lemma SoonKeepsCompletions(s: Sys, flags: bv64, task: Task, mapOk: bool, chunkOk: bool)
    ensures Untouched(s, Soon(s, flags, task, mapOk, chunkOk).0)
  {
    hide Push, SoonFlagsOk, ForNext, Untouched;
    var (p, _) := Push(TASK_GEOMETRY, s.prep, task, mapOk, chunkOk);
    var (q, _) := Push(TASK_GEOMETRY, s.soon, task, mapOk, chunkOk);
    var (soonIn, prepIn) := (s.log.soonIn, s.log.prepIn);
    QueuesOnly(s, s.soon, s.prep, soonIn, prepIn, EINVAL);
    QueuesOnly(s, s.soon, p, soonIn, prepIn + [task], s.errno);
    QueuesOnly(s, s.soon, p, soonIn, prepIn, ENOMEM);
    QueuesOnly(s, q, s.prep, soonIn + [task], prepIn, s.errno);
    QueuesOnly(s, q, s.prep, soonIn, prepIn, ENOMEM);
  }

  lemma QueuesOnly(s: Sys, soon: QView<Task>, prep: QView<Task>, soonIn: seq<Task>, prepIn: seq<Task>, e: nat)
    ensures Untouched(s, s.(soon := soon, prep := prep, errno := e,
                            log := s.log.(soonIn := soonIn, prepIn := prepIn)))
  {
  }

  lemma ActKeepsCompletions(s: Sys, a: Action)
    ensures Untouched(s, Perform(s, a))
  {
    hide Submit, Soon;
    match a
    case DoSubmit(r, mapOk, chunkOk) => SubmitKeepsCompletions(s, r, mapOk, chunkOk);
    case DoSoon(flags, task, mapOk, chunkOk) => SoonKeepsCompletions(s, flags, task, mapOk, chunkOk);
  }

  lemma {:induction false} ActsKeepCompletions(s: Sys, acts: seq<Action>)
    ensures Untouched(s, PerformAll(s, acts))
    decreases |acts|
  {
    hide Perform;
    if acts != [] {
      ActKeepsCompletions(s, acts[0]);
      ActsKeepCompletions(Perform(s, acts[0]), acts[1..]);
    }
  }

  // The number of callbacks run, as tasks and for completions with user data.
  function CalledFor(comps: seq<Completion>): nat
  {
    if comps == [] then 0
    else CalledFor(comps[..|comps| - 1]) + if comps[|comps| - 1].userData != 0 then 1 else 0
  }

  function CallsMade(log: Ledger): nat
  {
    |log.soonRun| + |log.prepRun| + CalledFor(log.delivered)
  }

  // From s to s' tasks ran: callbacks were counted, no completion was handled, and the kernel was
  // not entered.
  ghost predicate TasksRan(s: Sys, s': Sys)
  {
    && SameSetup(s, s')
    && s'.log.delivered == s.log.delivered && s'.chead == s.chead && s'.acked == s.acked
    && s'.published == s.published && s'.head == s.head && s'.log.batches == s.log.batches
    && s'.calls - CallsMade(s'.log) == s.calls - CallsMade(s.log)
  }

  lemma CallbackCounts(s: Sys, script: Script)
    ensures Untouched(s.(calls := s.calls + 1), Callback(s, script))
  {
    hide PerformAll;
    ActsKeepCompletions(s.(calls := s.calls + 1), script(s.calls));
  }

  lemma TaskCounts(s: Sys, prep: bool, script: Script)
    ensures TasksRan(s, RunTask(s, prep, script))
  {
    hide Callback, Pop, CalledFor;
    var (s1, t, _) := TakeTask(s, prep, 0, 0);
    if t.Some? {
      CallbackCounts(s1, script);
    }
  }

  lemma {:induction false} TasksCount(s: Sys, prep: bool, k: nat, script: Script)
    ensures TasksRan(s, RunTasks(s, prep, k, script))
    decreases k
  {
    hide RunTask, CallsMade;
    if k > 0 {
      TaskCounts(s, prep, script);
      TasksCount(RunTask(s, prep, script), prep, k - 1, script);
    }
  }

  // From s to s' the completions comps were handled, each once and in order.
  ghost predicate Handled(s: Sys, s': Sys, comps: seq<Completion>)
  {
    && SameSetup(s, s')
    && s'.log.delivered == s.log.delivered + comps && s'.chead == (s.chead + |comps|) % U32
    && s'.published == s.published && s'.acked == s.acked && s'.head == s.head
    && s'.log.batches == s.log.batches
    && s'.calls - CallsMade(s'.log) == s.calls - CallsMade(s.log)
  }

  lemma OneMoreCalled(log: Ledger, c: Completion)
    ensures CalledFor(log.delivered + [c]) == CalledFor(log.delivered) + if c.userData != 0 then 1 else 0
  {
    assert (log.delivered + [c])[..|log.delivered|] == log.delivered;
  }

  lemma Complete1Handles(s: Sys, c: Completion, script: Script)
    ensures Handled(s, Complete1(s, c, script), [c])
    ensures Complete1(s, c, script).log.soonRun == s.log.soonRun
  {
    hide Callback, CalledFor;
    OneMoreCalled(s.log, c);
    CallbackCounts(s.(log := s.log.(delivered := s.log.delivered + [c])), script);
  }

  lemma ExeqCounts(s: Sys, prep: bool, script: Script)
    ensures TasksRan(s, Exeq(s, prep, script))
  {
    hide RunTasks;
    TasksCount(s, prep, |TaskQueue(s, prep).items|, script);
  }

  /** The completion loop handles every completion it was given, each once and in order, calls the
      callback of each with user data, and moves its head past them. */
  lemma {:induction false} CompleteHandles(s: Sys, comps: seq<Completion>, script: Script)
    requires comps != []
    ensures Handled(s, Complete(s, comps, script), comps)
    decreases |comps|
  {
    hide Complete1, Exeq, CallsMade;
    var s1 := Complete1(s, comps[0], script);
    Complete1Handles(s, comps[0], script);
    if |comps| > 1 {
      var s2 := Exeq(s1, false, script);
      ExeqCounts(s1, false, script);
      CompleteHandles(s2, comps[1..], script);
      assert s.log.delivered + [comps[0]] + comps[1..] == s.log.delivered + comps;
      WrapOn(s.chead, 1, |comps| - 1);
    } else {
      assert comps == [comps[0]];
    }
  }

  lemma WrapOn(x: nat, a: nat, b: nat)
    ensures ((x + a) % U32 + b) % U32 == (x + (a + b)) % U32
  {
    SumSlot(x + a, b, U32);
  }

  // The last completion comes after the callbacks queued by the end of the one before.
  lemma {:induction false} CompleteLast(s: Sys, comps: seq<Completion>, c: Completion, script: Script)
    requires comps != []
    ensures Complete(s, comps + [c], script) == Complete1(Exeq(Complete(s, comps, script), false, script), c, script)
    decreases |comps|
  {
    hide Complete1, Exeq;
    assert (comps + [c])[1..] == comps[1..] + [c];
    if |comps| == 1 {
      assert comps[1..] + [c] == [c];
    } else {
      CompleteLast(Exeq(Complete1(s, comps[0], script), false, script), comps[1..], c, script);
    }
  }

  /** Between two completions everything scheduled without ESOON_NEXT by the end of the first has
      run before the second; after the last nothing runs any more. So when the loop ends, exactly
      what was scheduled by the end of the last completion but one has run, and what was
      scheduled since, by the callbacks run then and by the last completion, is queued. With a
      single completion none runs. */
  lemma SoonBetweenCompletions(s: Sys, comps: seq<Completion>, c: Completion, script: Script)
    requires Inv(s)
    ensures var s' := Complete(s, comps + [c], script);
            && s'.log.soonRun == (if comps == [] then s.log.soonRun else Complete(s, comps, script).log.soonIn)
            && s'.log.soonIn == s'.log.soonRun + s'.soon.items
  {
    hide Traffic, Complete1, Exeq, Complete;
    CompleteKeeps(s, comps + [c], script);
    if comps == [] {
      assert [] + [c] == [c];
      OnlyOne(s, c, script);
      Complete1Handles(s, c, script);
    } else {
      var s1 := Complete(s, comps, script);
      CompleteKeeps(s, comps, script);
      CompleteLast(s, comps, c, script);
      ExeqKeeps(s1, false, script);
      Complete1Handles(Exeq(s1, false, script), c, script);
    }
  }

  lemma OnlyOne(s: Sys, c: Completion, script: Script)
    ensures Complete(s, [c], script) == Complete1(s, c, script)
  {
  }

  // -------------------------------------------------------------------------------------------
  // One turn

  // Callbacks are still queued when the two queues have run: the turn polls.
  predicate Polls(s: Sys, script: Script)
  {
    var s1 := BeforeEnter(s, script);
    s1.soon.items != [] || s1.prep.items != []
  }

  // The overflow queue is not empty, and every entry that fits the ring is linked.
  predicate NoCut(s: Sys)
  {
    s.ofq.items != [] && forall j :: 0 <= j < Min(|s.ofq.items|, s.n) ==> s.ofq.items[j].link
  }

  // Where the completion loop of a turn starts.
  function AtCompletions(s: Sys, script: Script): Sys
  {
    var s2 := Enter(BeforeEnter(s, script), true);
    if s2.ofq.items != [] then Drain(s2) else s2
  }

  lemma BeforeEnterCounts(s: Sys, script: Script)
    ensures TasksRan(s, BeforeEnter(s, script))
  {
    hide Exeq, CallsMade;
    ExeqCounts(s, true, script);
    ExeqCounts(Exeq(s, true, script), false, script);
  }

  // What a drain does not touch, stray or not.
  lemma DrainCountsNothing(s: Sys)
    ensures var s' := Drain(s);
            && SameSetup(s, s') && s'.chead == s.chead && s'.acked == s.acked && s'.published == s.published
            && s'.head == s.head && s'.calls == s.calls && s'.log.delivered == s.log.delivered
            && s'.log.batches == s.log.batches && CallsMade(s'.log) == CallsMade(s.log)
            && s'.log.soonRun == s.log.soonRun && s'.log.soonIn == s.log.soonIn && s'.soon == s.soon
  {
    hide CopyPieces, DrainExact, CalledFor;
  }

  /** One turn, whatever its flags and whatever the kernel answers. With valid flags the tail and
      the completion head are published as they are when the kernel is entered; the kernel takes
      exactly the ring, or nothing. The turn polls exactly when callbacks are still queued after
      the two queues have run; then nothing is drained and no completion handled. If it does not
      poll and the kernel answers, every completion is handled, unless the drain has no place to
      cut. */
  lemma TurnOutcome(s: Sys, flags: bv64, env: Env, script: Script)
    requires !s.log.stray && env.comps != []
    ensures var (s', res) := Lrun1(s, flags, env, script);
            var s1 := BeforeEnter(s, script);
            var reaches := flags == 0 && !Polls(s, script) && env.taken;
            && (flags != 0 ==> res == Returned(-1) && s' == s.(errno := EINVAL))
            && (flags == 0 ==>
                  && s'.published == s1.tail && s'.acked == s.chead
                  && s'.head == (if env.taken then s1.tail else s.head)
                  && s'.log.batches == s.log.batches + if env.taken then [Ring(s1)] else [])
            && (flags == 0 && Polls(s, script) ==> res == Returned(0) && s'.ofq == s1.ofq)
            && (flags == 0 && !Polls(s, script) && !env.taken ==>
                  res == Returned(-1) && s'.errno == env.error && s'.ofq == s1.ofq)
            && (reaches ==> res == (if NoCut(s1) then Overrun else Returned(0)))
            && (reaches && !NoCut(s1) ==>
                  && s'.log.delivered == s.log.delivered + env.comps
                  && s'.chead == (s.chead + |env.comps|) % U32)
            && (!reaches || NoCut(s1) ==> s'.log.delivered == s.log.delivered && s'.chead == s.chead)
            && s'.calls - CallsMade(s'.log) == s.calls - CallsMade(s.log)
  {
    hide BeforeEnter, Drain, Complete, Ring, Trailing, EndsLinked, KernelTakes, CalledFor, Untouched;
    var s1 := BeforeEnter(s, script);
    BeforeEnterCounts(s, script);
    BeforeEnterStray(s, script);
    var s2 := Enter(s1, env.taken);
    EnterCounts(s1, env.taken);
    if flags == 0 && env.taken && !Pending(s1) {
      StraysAt(s2);
      DrainCountsNothing(s2);
      var s3 := if s2.ofq.items != [] then Drain(s2) else s2;
      CompleteHandles(s3, env.comps, script);
      CompleteStray(s3, env.comps, script);
    }
  }

  lemma EnterCounts(s: Sys, taken: bool)
    ensures var s' := Enter(s, taken);
            && SameSetup(s, s') && s'.ofq == s.ofq && s'.calls == s.calls && s'.chead == s.chead
            && s'.log.delivered == s.log.delivered && s'.log.stray == s.log.stray
            && s'.log.soonRun == s.log.soonRun && s'.log.prepRun == s.log.prepRun
  {
    hide Ring, Visible, Trailing, EndsLinked;
  }

  lemma {:induction false} AllLinked(items: seq<Sqe>, w: nat)
    requires w <= |items|
    ensures LastUnlinked(items, w) == 0 <==> forall j :: 0 <= j < w ==> items[j].link
    decreases w
  {
    if w > 0 && items[w - 1].link {
      AllLinked(items, w - 1);
    }
  }

  lemma StraysAt(s: Sys)
    requires !s.log.stray
    ensures s.ofq.items != [] ==> (Drain(s).log.stray <==> NoCut(s))
  {
    hide DrainBy;
    AllLinked(s.ofq.items, Min(|s.ofq.items|, s.n));
    if SafePop(s.ofq.items, s.n) > 0 {
      DrainLog(s, SafePop(s.ofq.items, s.n));
    }
  }

  /** Over a turn that handles completions: everything scheduled without ESOON_NEXT before the
      kernel was entered has run; of what was scheduled since, exactly that scheduled by the end
      of the last completion but one has run when the turn returns. */
  lemma TurnRunsSoon(s: Sys, comps: seq<Completion>, c: Completion, error: nat, script: Script)
    requires Inv(s) && !s.log.stray && !Polls(s, script) && !NoCut(BeforeEnter(s, script))
    ensures var s', s3 := Lrun1(s, 0, Env(true, error, comps + [c]), script).0, AtCompletions(s, script);
            && s3.log.soonRun == s3.log.soonIn
            && s'.log.soonRun == (if comps == [] then s3.log.soonIn else Complete(s3, comps, script).log.soonIn)
            && s'.log.soonIn == s'.log.soonRun + s'.soon.items
  {
    hide BeforeEnter, Drain, Complete, Traffic, KernelTakes, NoCut;
    var s1 := BeforeEnter(s, script);
    BeforeEnterStray(s, script);
    BeforeEnterReaches(s, script);
    ReachKeepsInv(s, s1);
    var s2 := Enter(s1, true);
    EnterCounts(s1, true);
    EnterKeepsAll(s1, true);
    SameCut(s1, s2);
    StraysAt(s2);
    var s3 := AtCompletions(s, script);
    DrainCountsNothing(s2);
    if s2.ofq.items != [] {
      StrayMeans(s2);
      InvOfDrain(s2);
    }
    SoonBetweenCompletions(s3, comps, c, script);
    CompleteStray(s3, comps + [c], script);
  }

  lemma SameCut(s: Sys, s': Sys)
    requires s.n == s'.n && s.ofq == s'.ofq
    ensures NoCut(s) == NoCut(s')
  {
  }

  lemma StrayMeans(s: Sys)
    ensures !Drain(s).log.stray ==> SafePop(s.ofq.items, s.n) > 0
  {
    hide DrainBy;
  }

  lemma InvOfDrain(s: Sys)
    requires Inv(s) && s.head == s.tail
    ensures SafePop(s.ofq.items, s.n) > 0 ==> Inv(Drain(s))
  {
    hide Inv, Drain, SafePop;
    if SafePop(s.ofq.items, s.n) > 0 {
      DrainKeepsInv(s);
    }
  }

  // -------------------------------------------------------------------------------------------
  // Whole runs

  // Completions and callbacks are counted: the completion head has moved past exactly the
  // completions handled, and there has been one callback for each task run and each completion
  // with user data.
  ghost predicate CountsAdvance(s: Sys, s': Sys)
  {
    && s.log.delivered <= s'.log.delivered
    && s'.chead == (s.chead + |s'.log.delivered| - |s.log.delivered|) % U32
    && s'.calls - CallsMade(s'.log) == s.calls - CallsMade(s.log)
  }

  lemma DoCounts(s: Sys, c: Call, script: Script)
    requires !s.log.stray && CallOk(c) && s.chead < U32
    ensures CountsAdvance(s, Do(s, c, script))
  {
    hide Submit, Soon, Lrun1, CalledFor;
    match c
    case CallSubmit(r, mapOk, chunkOk) => SubmitKeepsCompletions(s, r, mapOk, chunkOk);
    case CallSoon(flags, task, mapOk, chunkOk) => SoonKeepsCompletions(s, flags, task, mapOk, chunkOk);
    case CallLrun1(flags, env) => TurnOutcome(s, flags, env, script);
  }

  lemma {:induction false} RunCounts(s: Sys, calls: seq<Call>, script: Script)
    requires s.chead < U32 && forall c :: c in calls ==> CallOk(c)
    ensures CountsAdvance(s, Run(s, calls, script))
    decreases |calls|
  {
    hide Do, CallsMade;
    if calls != [] && !s.log.stray {
      var s1 := Do(s, calls[0], script);
      DoCounts(s, calls[0], script);
      RunCounts(s1, calls[1..], script);
      WrapOn(s.chead, |s1.log.delivered| - |s.log.delivered|,
             |Run(s1, calls[1..], script).log.delivered| - |s1.log.delivered|);
    }
  }

  /** Over every run of a new context: the completion head stands behind exactly the completions
      handled, and every task taken and every completion with user data has had its callback,
      once. */
  lemma CallbacksCounted(s: Sys, calls: seq<Call>, script: Script)
    requires Initial(s) && forall c :: c in calls ==> CallOk(c)
    ensures var s' := Run(s, calls, script);
            && s'.chead == (s.chead + |s'.log.delivered|) % U32
            && s'.calls == s.calls + |s'.log.soonRun| + |s'.log.prepRun| + CalledFor(s'.log.delivered)
  {
    hide Run;
    RunCounts(s, calls, script);
  }

  // The submissions accepted at one time are the first of those accepted later.
  lemma AcceptedStays(s: Sys, s': Sys)
    requires Inv(s) && Reach(s, s') && !s'.log.lossy
    ensures s.log.accepted <= s'.log.accepted
  {
    hide Inv, FlowOf;
    var ms := ReachMoves(s, s');
    AcceptedGrows(FlowOf(s), ms);
    AcceptedInFlow(s);
    AcceptedInFlow(s');
  }

  lemma AcceptedInFlow(s: Sys)
    ensures FlowOf(s).accepted == s.log.accepted
  {
  }

  // What the kernel has taken was accepted, and stands at its number.
  lemma TakenWasAccepted(s: Sys, x: Sqe)
    requires Inv(s) && !s.log.lossy && x in Joined(s.log.batches)
    ensures x.serial < |s.log.accepted| && s.log.accepted[x.serial] == x
  {
    hide Accounted, Inverted, Joined, Ring;
    assert x in Pipeline(s);
    assert x in multiset(Pipeline(s));
    assert x in multiset(s.log.accepted);
    var i :| 0 <= i < |s.log.accepted| && s.log.accepted[i] == x;
  }

  /** In every run that loses nothing and in which no walk leaves the queue, the entry the kernel
      takes for a submission carries the request that was made. */
  lemma RequestReachesKernel(s0: Sys, before: seq<Call>, r: Request, mapOk: bool, chunkOk: bool,
                             after: seq<Call>, script: Script, x: Sqe)
    requires Initial(s0) && (forall c :: c in before ==> CallOk(c)) && (forall c :: c in after ==> CallOk(c))
    ensures var s1 := Run(s0, before, script);
            var (s2, ok) := Submit(s1, r, mapOk, chunkOk);
            var s3 := Run(s2, after, script);
            var taken := x in Joined(s3.log.batches) && x.serial == |s1.log.accepted|;
            ok && !s3.log.stray && !s3.log.lossy && taken ==> Carries(x, r)
  {
    hide Run, Inv, Submit, Carries, Joined;
    var s1 := Run(s0, before, script);
    var (s2, ok) := Submit(s1, r, mapOk, chunkOk);
    var s3 := Run(s2, after, script);
    InitialInv(s0);
    RunReaches(s0, before, script);
    ReachKeepsInv(s0, s1);
    InvRingOk(s1);
    One(s1, StAct(DoSubmit(r, mapOk, chunkOk)));
    ReachKeepsInv(s1, s2);
    RunReaches(s2, after, script);
    ReachKeepsInv(s2, s3);
    SubmitEffect(s1, r, mapOk, chunkOk);
    if ok && !s3.log.lossy && x in Joined(s3.log.batches) && x.serial == |s1.log.accepted| {
      AcceptedStays(s2, s3);
      TakenWasAccepted(s3, x);
    }
  }

  lemma InvRingOk(s: Sys)
    requires Inv(s)
    ensures RingOk(s)
  {
  }
}
