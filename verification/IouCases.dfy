/** Runs from a new context in which a promise fails: what the conditions in the theorems about
    runs exclude does happen. */
module IouCases {
  import opened Arith
  import opened QueueSpec
  import opened IouSpec
  import opened IouRing
  import opened IouRuns
  import opened IouChains
  import opened IouBursts

  // A turn in which the kernel takes the ring and one completion without user data is found.
  const TURN := Env(true, 0, [Completion(0, 0)])

  // Request number i, linked or not; the number is its user data.
  function Numbered(i: nat, linked: bool): Request
  {
    Request(0, 0, 0, 0, 0, i + 1, if linked then FLAG_REQLNK else 0)
  }

  // Requests number from, from + 1 and so on, one of them linked.
  function Burst(from: nat, count: nat, linked: nat): (subs: seq<Submission>)
    ensures |subs| == count
    ensures forall i :: 0 <= i < count ==> subs[i] == Submission(Numbered(from + i, from + i == linked), true, true)
    decreases count
  {
    if count == 0 then []
    else [Submission(Numbered(from, from == linked), true, true)] + Burst(from + 1, count - 1, linked)
  }

  function Calls(subs: seq<Submission>): (calls: seq<Call>)
    ensures |calls| == |subs|
    ensures forall c :: c in calls ==> CallOk(c)
  {
    if subs == [] then [] else [CallSubmit(subs[0].r, subs[0].mapOk, subs[0].chunkOk)] + Calls(subs[1..])
  }

  // The calls of a client that makes count requests, one of them linked, lets the loop turn once,
  // and goes on with more calls.
  function Opening(count: nat, linked: nat, more: seq<Call>): (calls: seq<Call>)
    requires forall c :: c in more ==> CallOk(c)
    ensures forall c :: c in calls ==> CallOk(c)
  {
    Calls(Burst(0, count, linked)) + ([CallLrun1(0, TURN)] + more)
  }

  lemma NumberedIs(i: nat, linked: bool)
    ensures SubmitFlagsOk(Numbered(i, linked).flags)
    ensures forall k :: MakeSqe(Numbered(i, linked), k).link == linked
    ensures forall k :: MakeSqe(Numbered(i, linked), k).userData == i + 1
  {
  }

  lemma BurstMakes(count: nat, linked: nat)
    ensures var xs := Made(Burst(0, count, linked), 0);
            forall i :: 0 <= i < count ==> xs[i].link == (i == linked) && xs[i].userData == i + 1
  {
    hide Numbered, MakeSqe, Burst, Made;
    forall i | 0 <= i < count
      ensures Made(Burst(0, count, linked), 0)[i].link == (i == linked)
      ensures Made(Burst(0, count, linked), 0)[i].userData == i + 1
    {
      NumberedIs(i, i == linked);
    }
  }

  // -------------------------------------------------------------------------------------------
  // A burst and a turn

  lemma SubmitLog(s: Sys, sub: Submission)
    ensures var s' := Submit(s, sub.r, sub.mapOk, sub.chunkOk).0;
            && s'.log.stray == s.log.stray && s'.log.lossy == s.log.lossy
            && s'.log.batches == s.log.batches && s'.log.unwritten == s.log.unwritten
  {
    hide Push, Accept, MakeSqe, Ring, SubmitFlagsOk, Occupancy;
    var x := MakeSqe(sub.r, |s.log.accepted|);
    AcceptKeeps(s.log, x, s.ofq.items);
    AcceptKeeps(s.log, x, Ring(s));
  }

  lemma SubmitQueues(s: Sys, sub: Submission)
    ensures var s' := Submit(s, sub.r, sub.mapOk, sub.chunkOk).0;
            s'.head == s.head && s'.soon == s.soon && s'.prep == s.prep && s'.ofq.front == s.ofq.front
  {
    hide Push, Accept, MakeSqe, Ring, SubmitFlagsOk, Occupancy;
    PushFront(s.ofq, MakeSqe(sub.r, |s.log.accepted|), sub.mapOk, sub.chunkOk);
  }

  lemma SubmitRest(s: Sys, sub: Submission)
    ensures var s' := Submit(s, sub.r, sub.mapOk, sub.chunkOk).0;
            && s'.head == s.head && s'.soon == s.soon && s'.prep == s.prep && s'.ofq.front == s.ofq.front
            && s'.log.stray == s.log.stray && s'.log.lossy == s.log.lossy
            && s'.log.batches == s.log.batches && s'.log.unwritten == s.log.unwritten
  {
    hide Submit;
    SubmitLog(s, sub);
    SubmitQueues(s, sub);
  }

  lemma PushFront(q: QView<Sqe>, x: Sqe, mapOk: bool, chunkOk: bool)
    ensures Push(SQ_GEOMETRY, q, x, mapOk, chunkOk).0.front == q.front
  {
  }

  lemma {:induction false} BurstRest(s: Sys, subs: seq<Submission>)
    ensures var s' := SubmitAll(s, subs);
            && s'.head == s.head && s'.soon == s.soon && s'.prep == s.prep && s'.ofq.front == s.ofq.front
            && s'.log.stray == s.log.stray && s'.log.lossy == s.log.lossy
            && s'.log.batches == s.log.batches && s'.log.unwritten == s.log.unwritten
    decreases |subs|
  {
    hide Submit;
    if subs != [] {
      SubmitRest(s, subs[0]);
      BurstRest(Submit(s, subs[0].r, subs[0].mapOk, subs[0].chunkOk).0, subs[1..]);
    }
  }

  lemma RunOne(s: Sys, c: Call, more: seq<Call>, script: Script)
    requires !s.log.stray && CallOk(c) && forall c' :: c' in more ==> CallOk(c')
    ensures Run(s, [c] + more, script) == Run(Do(s, c, script), more, script)
  {
    hide Do;
    assert ([c] + more)[1..] == more;
  }

  lemma {:induction false} RunBurst(s: Sys, subs: seq<Submission>, more: seq<Call>, script: Script)
    requires !s.log.stray && forall c :: c in more ==> CallOk(c)
    ensures Run(s, Calls(subs) + more, script) == Run(SubmitAll(s, subs), more, script)
    decreases |subs|
  {
    hide Submit, Run;
    if subs == [] {
      assert [] + more == more;
    } else {
      var c := CallSubmit(subs[0].r, subs[0].mapOk, subs[0].chunkOk);
      SubmitRest(s, subs[0]);
      RunOne(s, c, Calls(subs[1..]) + more, script);
      RunBurst(Do(s, c, script), subs[1..], more, script);
      assert Calls(subs) + more == [c] + (Calls(subs[1..]) + more);
    }
  }

  // The state after count requests to a new context.
  lemma BurstState(s: Sys, count: nat, linked: nat)
    requires Initial(s) && count > s.n
    ensures var s1, xs := SubmitAll(s, Burst(0, count, linked)), Made(Burst(0, count, linked), 0);
            && RingOk(s1) && Ring(s1) == xs[..s.n] && s1.ofq.items == xs[s.n..] && s1.log.accepted == xs
            && s1.ofq.front == 0 && s1.soon.items == s1.prep.items == [] && s1.head == s.tail
            && !s1.log.stray && !s1.log.lossy && s1.log.batches == [] && s1.log.unwritten == 0
  {
    hide Ring, Numbered, SubmitFlagsOk, SubmitAll, Burst, Made;
    var subs := Burst(0, count, linked);
    RingEmpty(s);
    BurstRest(s, subs);
    forall i | 0 <= i < count ensures SubmitFlagsOk(subs[i].r.flags) {
      NumberedIs(i, i == linked);
    }
    BurstGranted(s, subs);
    BurstAccepted(s, subs);
    BurstFillsRingFirst(s, subs);
    assert [] + Made(subs, 0) == Made(subs, 0);
    assert Made(subs, 0)[0..] == Made(subs, 0);
  }

  lemma NoTasks(s: Sys, script: Script)
    requires s.soon.items == s.prep.items == []
    ensures BeforeEnter(s, script) == s && !Pending(s)
  {
  }

  // A turn with nothing to call: enter, drain, one completion.
  lemma PlainTurn(s: Sys, script: Script)
    requires s.soon.items == s.prep.items == [] && s.ofq.items != []
    ensures var s' := Drain(Enter(s, true));
            Lrun1(s, 0, TURN, script).0 ==
              if s'.log.stray then s'
              else s'.(chead := (s'.chead + 1) % U32,
                       log := s'.log.(delivered := s'.log.delivered + TURN.comps))
  {
    hide Drain, BeforeEnter, Pending, Ring;
    NoTasks(s, script);
    assert [TURN.comps[0]] == TURN.comps;
  }

  // From a new context: count requests and a turn.
  lemma BurstThenTurn(s: Sys, count: nat, linked: nat, more: seq<Call>, script: Script)
    requires Initial(s) && count > s.n && forall c :: c in more ==> CallOk(c)
    ensures var s1 := SubmitAll(s, Burst(0, count, linked));
            && s1.ofq.items != [] && s1.soon.items == s1.prep.items == []
            && Run(s, Opening(count, linked, more), script) == Run(Lrun1(s1, 0, TURN, script).0, more, script)
  {
    hide SubmitAll, Burst, Lrun1, Run, Made;
    BurstState(s, count, linked);
    RunBurst(s, Burst(0, count, linked), [CallLrun1(0, TURN)] + more, script);
    RunOne(SubmitAll(s, Burst(0, count, linked)), CallLrun1(0, TURN), more, script);
  }

  // -------------------------------------------------------------------------------------------
  // The runs

  // The same ring, overflow queue and record of submissions.
  predicate Alike(s: Sys, s': Sys)
  {
    && s.n == s'.n && s.head == s'.head && s.tail == s'.tail && s.published == s'.published
    && s.slots == s'.slots && s.ofq == s'.ofq
    && s.log.accepted == s'.log.accepted && s.log.batches == s'.log.batches
    && s.log.unwritten == s'.log.unwritten && s.log.lossy == s'.log.lossy && s.log.stray == s'.log.stray
    && s.log.torn == s'.log.torn && s.log.overtook == s'.log.overtook
  }

  // The state in which the drain of that turn starts, and the turn's end.
  lemma AtDrain(s: Sys, count: nat, linked: nat, script: Script)
    requires Initial(s) && count > s.n
    ensures var s1, xs := SubmitAll(s, Burst(0, count, linked)), Made(Burst(0, count, linked), 0);
            var s2, s3 := Enter(s1, true), Lrun1(s1, 0, TURN, script).0;
            && RingOk(s2) && s2.head == s2.tail == s1.tail && s2.ofq == s1.ofq
            && s2.ofq.items == xs[s.n..] && s2.ofq.front == 0
            && s2.log.batches == [xs[..s.n]] && s2.log.accepted == xs && !s2.log.lossy && !s2.log.stray
            && s2.log.unwritten == 0
            && (EndsLinked(xs[..s.n]) ==> s2.log.torn)
            && !Drain(s2).log.stray == (SafePop(s2.ofq.items, s2.n) > 0)
            && (SafePop(s2.ofq.items, s2.n) > 0 ==> Alike(s3, Drain(s2)))
  {
    hide SubmitAll, Burst, Ring, Made, Lrun1, SafePop, DrainBy, DrainExact;
    var s1 := SubmitAll(s, Burst(0, count, linked));
    var s2 := Enter(s1, true);
    BurstState(s, count, linked);
    RingEmpty(s2);
    PlainTurn(s1, script);
    if SafePop(s2.ofq.items, s2.n) > 0 {
      DrainLog(s2, SafePop(s2.ofq.items, s2.n));
    }
  }

  /** From every new context: n + 1 requests, the last of them linked, and one turn: the drain's
      walk is about to leave the overflow queue. */
  lemma OpenLinkStrays(s: Sys, script: Script)
    requires Initial(s)
    ensures Run(s, Opening(s.n + 1, s.n, []), script).log.stray
  {
    hide SubmitAll, Burst, Made, Lrun1, Initial, Opening;
    BurstThenTurn(s, s.n + 1, s.n, [], script);
    StrayState(s, script);
  }

  lemma StrayState(s: Sys, script: Script)
    requires Initial(s)
    ensures Lrun1(SubmitAll(s, Burst(0, s.n + 1, s.n)), 0, TURN, script).0.log.stray
  {
    hide SubmitAll, Burst, Ring, Made, Lrun1, SafePop, Drain, Enter;
    var s1 := SubmitAll(s, Burst(0, s.n + 1, s.n));
    BurstMakes(s.n + 1, s.n);
    BurstState(s, s.n + 1, s.n);
    AtDrain(s, s.n + 1, s.n, script);
    OneLinked(Enter(s1, true).ofq.items, s.n);
    PlainTurn(s1, script);
  }

  lemma OneLinked(items: seq<Sqe>, n: nat)
    requires |items| == 1 && items[0].link && n > 0
    ensures SafePop(items, n) == 0
  {
    assert LastUnlinked(items, 0) == 0;
  }

  /** From every new context: n requests of which the last is linked, its successor, and one turn:
      the kernel gets the link without the successor. */
  lemma SplitChain(s: Sys, script: Script)
    requires Initial(s)
    ensures var s' := Run(s, Opening(s.n + 1, s.n - 1, []), script);
            var xs := Made(Burst(0, s.n + 1, s.n - 1), 0);
            && s'.log.batches == [xs[..s.n]] && EndsLinked(s'.log.batches[0])
            && !s'.log.stray && s'.log.torn && !Whole(FlowOf(s'))
  {
    hide SubmitAll, Burst, Made, Lrun1, EndsLinked, Whole, FlowOf, Initial, Opening;
    RingRoomInitial(s);
    BurstThenTurn(s, s.n + 1, s.n - 1, [], script);
    SplitState(s, script);
    BadBatch(Lrun1(SubmitAll(s, Burst(0, s.n + 1, s.n - 1)), 0, TURN, script).0);
  }

  lemma SplitState(s: Sys, script: Script)
    requires Initial(s)
    ensures var s3, xs := Lrun1(SubmitAll(s, Burst(0, s.n + 1, s.n - 1)), 0, TURN, script).0,
                          Made(Burst(0, s.n + 1, s.n - 1), 0);
            && s3.log.batches == [xs[..s.n]] && EndsLinked(xs[..s.n]) && !s3.log.stray && s3.log.torn
  {
    hide SubmitAll, Burst, Ring, Made, Lrun1, SafePop, DrainBy, Enter, DrainExact;
    var xs := Made(Burst(0, s.n + 1, s.n - 1), 0);
    BurstMakes(s.n + 1, s.n - 1);
    AtDrain(s, s.n + 1, s.n - 1, script);
    var s2 := Enter(SubmitAll(s, Burst(0, s.n + 1, s.n - 1)), true);
    PlainEnd(s2.ofq.items, s.n);
    DrainLog(s2, 1);
    assert xs[..s.n][s.n - 1] == xs[s.n - 1];
  }

  lemma BadBatch(s: Sys)
    requires |s.log.batches| == 1 && EndsLinked(s.log.batches[0])
    ensures !Whole(FlowOf(s))
  {
    AcceptedOfFlow(s);
    assert EndsLinked(FlowOf(s).batches[0]);
  }

  // Where the last of at most n entries is not linked, all of them are moved; of more, n if the
  // n-th is not.
  lemma PlainEnd(items: seq<Sqe>, n: nat)
    requires items != [] && n > 0 && !items[Min(|items|, n) - 1].link
    ensures SafePop(items, n) == Min(|items|, n)
  {
  }

  // A callback that schedules another, every time.
  const AGAIN: Script := i => [DoSoon(0, 1, true, true)]

  /** From every new context, with either advance: n + 1 requests, a callback that schedules
      another, one turn, and one more request. The turn polls, so the kernel takes the ring and no
      drain follows; the last request is then in the ring while the one before it still waits. */
  lemma LateOvertakes(s: Sys)
    requires Initial(s)
    ensures var last := CallSubmit(Numbered(s.n + 1, false), true, true);
            var calls := Calls(Burst(0, s.n + 1, s.n + 1)) + [CallSoon(0, 1, true, true), CallLrun1(0, TURN), last];
            var s' := Run(s, calls, AGAIN);
            && !s'.log.stray && !s'.log.lossy && s'.log.overtook && s'.log.accepted != Pipeline(s')
            && |Ring(s')| == |s'.ofq.items| == 1
            && s'.ofq.items[0].userData == s.n + 1 && Ring(s')[0].userData == s.n + 2
  {
    hide SubmitAll, Burst, Ring, Made, Do, Pipeline, Numbered, Run, Initial, Soon, Submit, Lrun1;
    var last := CallSubmit(Numbered(s.n + 1, false), true, true);
    var more := [CallSoon(0, 1, true, true), CallLrun1(0, TURN), last];
    var s1 := SubmitAll(s, Burst(0, s.n + 1, s.n + 1));
    RingRoomInitial(s);
    BurstState(s, s.n + 1, s.n + 1);
    NotStray(s);
    RunBurst(s, Burst(0, s.n + 1, s.n + 1), more, AGAIN);
    var s2 := Do(s1, more[0], AGAIN);
    SoonPolls(s1);
    var s3 := Do(s2, more[1], AGAIN);
    RunThree(s1, more, AGAIN);
    BurstMakes(s.n + 1, s.n + 1);
    Overtakes(s3, s.n + 1);
    SubmissionOrder(s, Calls(Burst(0, s.n + 1, s.n + 1)) + more, AGAIN);
  }

  lemma NotStray(s: Sys)
    requires Initial(s)
    ensures !s.log.stray && s.n >= 8
  {
  }

  lemma RunThree(s: Sys, calls: seq<Call>, script: Script)
    requires |calls| == 3 && forall c :: c in calls ==> CallOk(c)
    requires !s.log.stray && !Do(s, calls[0], script).log.stray
    requires !Do(Do(s, calls[0], script), calls[1], script).log.stray
    ensures Run(s, calls, script) == Do(Do(Do(s, calls[0], script), calls[1], script), calls[2], script)
  {
    hide Do;
    var s1 := Do(s, calls[0], script);
    RunOne(s, calls[0], calls[1..], script);
    RunOne(s1, calls[1], calls[2..], script);
    RunLast(Do(s1, calls[1], script), calls[2], script);
    assert calls == [calls[0]] + calls[1..];
    assert calls[1..] == [calls[1]] + calls[2..];
    assert calls[2..] == [calls[2]];
  }

  // Scheduling the callback and turning the loop: the kernel has taken the ring, and nothing was
  // drained.
  lemma SoonPolls(s: Sys)
    requires RingOk(s) && s.soon.items == s.prep.items == [] && !s.log.stray
    ensures var s2 := Do(s, CallSoon(0, 1, true, true), AGAIN);
            var s3 := Do(s2, CallLrun1(0, TURN), AGAIN);
            && RingOk(s3) && s3.n == s.n && Occupancy(s3) == 0 && s3.ofq == s.ofq
            && s3.log.accepted == s.log.accepted && s3.log.lossy == s.log.lossy
            && !s2.log.stray && !s3.log.stray
  {
    hide Ring, EndsLinked, Trailing, BeforeEnter, Push;
    var s2 := Soon(s, 0, 1, true, true).0;
    SoonOnce(s);
    AgainPolls(s2);
    var s1 := BeforeEnter(s2, AGAIN);
    RingEmpty(Enter(s1, true));
  }

  lemma SoonOnce(s: Sys)
    ensures var s' := Soon(s, 0, 1, true, true).0;
            && Alike(s', s) && s'.prep == s.prep && s'.soon.items == s.soon.items + [1]
  {
    assert SoonFlagsOk(0) && !ForNext(0);
  }

  lemma AgainPolls(s: Sys)
    requires s.prep.items == [] && s.soon.items == [1]
    ensures var s' := BeforeEnter(s, AGAIN); Alike(s', s) && Pending(s')
  {
    hide Soon, Pop, ForNext, SoonFlagsOk;
    NoneQueued(s);
    var (s1, t, _) := TakeTask(s, false, 0, 0);
    TakesOne(s);
    var s2 := s1.(calls := s1.calls + 1);
    var acts := AGAIN(s1.calls);
    assert acts[1..] == [];
    assert PerformAll(s2, acts) == Perform(s2, acts[0]);
    SoonOnce(s2);
    OneTask(s, AGAIN);
  }

  lemma TakesOne(s: Sys)
    requires s.soon.items == [1]
    ensures var (s', t, _) := TakeTask(s, false, 0, 0);
            Alike(s', s) && t == Some(1) && s'.soon.items == [] && s'.prep == s.prep
  {
  }

  lemma NoneQueued(s: Sys)
    requires s.prep.items == []
    ensures Exeq(s, true, AGAIN) == s
  {
  }

  lemma OneTask(s: Sys, script: Script)
    requires |s.soon.items| == 1
    ensures Exeq(s, false, script) == RunTask(s, false, script)
  {
    hide RunTask;
    assert RunTasks(RunTask(s, false, script), false, 0, script) == RunTask(s, false, script);
  }

  lemma RingRoomInitial(s: Sys)
    requires Initial(s)
    ensures s.n >= 8
  {
  }

  lemma RunLast(s: Sys, c: Call, script: Script)
    requires !s.log.stray && CallOk(c)
    ensures Run(s, [c], script) == Do(s, c, script)
  {
    hide Do;
    assert [c][1..] == [];
  }

  // A submission to an empty ring while one waits in the overflow queue.
  lemma Overtakes(s: Sys, i: nat)
    requires RingOk(s) && Occupancy(s) == 0 && |s.ofq.items| == 1 && !s.log.stray
    ensures var s' := Do(s, CallSubmit(Numbered(i, false), true, true), AGAIN);
            && s'.log.overtook && s'.log.stray == s.log.stray && s'.log.lossy == s.log.lossy
            && s'.ofq == s.ofq && |Ring(s')| == 1 && Ring(s')[0].userData == i + 1
  {
    hide Ring, Tears, Trailing, Numbered, MakeSqe;
    var x := MakeSqe(Numbered(i, false), |s.log.accepted|);
    NumberedIs(i, false);
    RingPush(s, x);
    RingLength(s);
    RingLooksAt(s.(slots := s.slots[s.tail % s.n := x], tail := (s.tail + 1) % U32),
                Submit(s, Numbered(i, false), true, true).0);
  }

  /** From a new context with the advance of line 172, its counters at a multiple of n: 2n + 1
      requests, none linked, and one turn: one request is neither with the kernel nor in the ring
      nor in the overflow queue. */
  lemma LiteralRunLoses(s: Sys, script: Script)
    requires Initial(s) && s.literal && s.tail % s.n == 0 && s.n + 1 < SQ_GEOMETRY.c
    ensures var s' := Run(s, Opening(2 * s.n + 1, 2 * s.n + 1, []), script);
            && !s'.log.stray && s'.log.lossy && s'.log.unwritten == 0
            && |s'.log.accepted| == 2 * s.n + 1 && |Pipeline(s')| == 2 * s.n
  {
    hide SubmitAll, Burst, Made, Lrun1, Pipeline, Initial, Opening;
    BurstThenTurn(s, 2 * s.n + 1, 2 * s.n + 1, [], script);
    LossState(s, script);
    OneBatch(Lrun1(SubmitAll(s, Burst(0, 2 * s.n + 1, 2 * s.n + 1)), 0, TURN, script).0);
  }

  lemma LossState(s: Sys, script: Script)
    requires Initial(s) && s.literal && s.tail % s.n == 0 && s.n + 1 < SQ_GEOMETRY.c
    ensures var s3 := Lrun1(SubmitAll(s, Burst(0, 2 * s.n + 1, 2 * s.n + 1)), 0, TURN, script).0;
            && !s3.log.stray && s3.log.lossy && s3.log.unwritten == 0 && |s3.log.accepted| == 2 * s.n + 1
            && |s3.log.batches| == 1 && |s3.log.batches[0]| == s.n && Occupancy(s3) == s.n && s3.ofq.items == []
            && s3.n == s.n
  {
    hide SubmitAll, Burst, Ring, Made, Lrun1, SafePop, Drain, DrainBy, Enter, DrainExact, Initial;
    var count := 2 * s.n + 1;
    BurstMakes(count, count);
    AtDrain(s, count, count, script);
    RingAligned(s, count);
    var s2 := Enter(SubmitAll(s, Burst(0, count, count)), true);
    PlainEnd(s2.ofq.items, s.n);
    LiteralDrops(s2);
  }

  lemma OneBatch(s: Sys)
    requires |s.log.batches| == 1 && |s.log.batches[0]| == s.n && Occupancy(s) == s.n && s.ofq.items == []
    ensures |Pipeline(s)| == 2 * s.n
  {
    JoinedAppend([], s.log.batches[0]);
    assert [] + [s.log.batches[0]] == s.log.batches;
  }

  // A full ring's tail is where its head is.
  lemma RingAligned(s: Sys, count: nat)
    requires Initial(s) && count > s.n
    ensures SubmitAll(s, Burst(0, count, count)).tail % s.n == s.tail % s.n
  {
    hide SubmitAll, Burst, Made, Ring;
    var s1 := SubmitAll(s, Burst(0, count, count));
    BurstState(s, count, count);
    RingLength(s1);
    TailSlot(s1, 0);
    DivMod(s1.head, s.n);
    Succ(s1.head / s.n, s.n);
    DivModUnique(s1.head / s.n + 1, s.n, s1.head % s.n);
  }

  lemma LiteralDrops(s: Sys)
    requires s.literal && s.tail % s.n == 0 && s.ofq.front == 0 && |s.ofq.items| == s.n + 1 < SQ_GEOMETRY.c
    requires SafePop(s.ofq.items, s.n) == s.n && s.log.unwritten == 0
    requires RingOk(s) && s.head == s.tail
    ensures var s' := Drain(s);
            && s'.log == s.log.(lossy := true) && s'.ofq.items == [] && Occupancy(s') == s.n
  {
    hide SafePop;
    DrainShape(s, s.n);
    ModSmall(s.n, SQ_GEOMETRY.c);
    PopToSize(SQ_GEOMETRY, s.ofq, s.n, true);
    assert Landing(SQ_GEOMETRY, s.ofq, s.n, true) == s.n + 1;
  }
}
