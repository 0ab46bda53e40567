/** Linked submissions and the drain: where it cuts, when its walk leaves the queue, and that it
    always finds a place to cut for a client that keeps its chains short and closed. */
module IouLinks {
  import opened QueueSpec
  import opened IouSpec
  import opened IouRing
  import opened IouRuns
  import opened IouSteps
  import QueueRuns

  // -------------------------------------------------------------------------------------------
  // The cut

  /** SafePop is the longest prefix of at most n entries whose last entry is not linked; 0 when
      every entry of the window is linked. */
  lemma {:induction false} LastUnlinkedIsLongest(items: seq<Sqe>, w: nat)
    requires w <= |items|
    ensures var k := LastUnlinked(items, w);
            && (k > 0 ==> !items[k - 1].link)
            && (forall m :: k <= m < w ==> items[m].link)
    ensures LastUnlinked(items, w) == w - Trailing(items[..w])
    decreases w
  {
    if w > 0 && items[w - 1].link {
      LastUnlinkedIsLongest(items, w - 1);
      assert items[..w][..w - 1] == items[..w - 1];
    }
  }

  /** The walk stays inside the queue exactly when an entry that fits the ring is not linked; else
      the drain strays. A caller can see which before the call. */
  lemma WalkStaysInside(s: Sys)
    requires !s.log.stray
    ensures !Drain(s).log.stray <==> exists j :: 0 <= j < Min(|s.ofq.items|, s.n) && !s.ofq.items[j].link
  {
    hide DrainBy;
    var w, k := Min(|s.ofq.items|, s.n), SafePop(s.ofq.items, s.n);
    LastUnlinkedIsLongest(s.ofq.items, w);
    if k > 0 {
      DrainLog(s, k);
      assert !s.ofq.items[k - 1].link;
    }
  }

  /** Every linked entry a drain moves into the ring has its successor right behind it in the
      same batch. */
  lemma DrainIsLinkSafe(s: Sys)
    requires RingOk(s) && s.head == s.tail && SafePop(s.ofq.items, s.n) > 0 && DrainExact(s, SafePop(s.ofq.items, s.n))
    ensures var batch := Ring(Drain(s));
            && 0 < |batch| <= |s.ofq.items| && batch == s.ofq.items[..|batch|]
            && forall j :: 0 <= j < |batch| && batch[j].link ==> j + 1 < |batch| && batch[j + 1] == s.ofq.items[j + 1]
  {
    hide DrainBy, Ring, DrainExact;
    var k := SafePop(s.ofq.items, s.n);
    LastUnlinkedIsLongest(s.ofq.items, Min(|s.ofq.items|, s.n));
    DrainMoves(s, k);
  }

  // -------------------------------------------------------------------------------------------
  // A client that keeps its chains short and closed

  // No eight linked entries in a row: every chain has at most eight entries.
  ghost predicate NoLong(items: seq<Sqe>)
  {
    forall i :: 0 <= i <= |items| ==> Trailing(items[..i]) <= 7
  }

  // So far the client has kept to the limit of eight entries and has let the kernel take the
  // ring only between chains.
  predicate Disciplined(log: Ledger)
  {
    !log.longChain && !log.cutOpen
  }

  ghost predicate Links(s: Sys)
  {
    && 8 <= s.n
    && (Disciplined(s.log) ==>
          && NoLong(s.ofq.items)
          && Trailing(s.ofq.items) <= Trailing(s.log.accepted) <= 7
          && (Occupancy(s) < s.n ==> Trailing(s.ofq.items) == 0))
    && (Disciplined(s.log) ==> !s.log.stray)
  }

  lemma TrailingAppend(items: seq<Sqe>, x: Sqe)
    ensures Trailing(items + [x]) == if x.link then 1 + Trailing(items) else 0
  {
    assert (items + [x])[..|items|] == items;
  }

  lemma NoLongAppend(items: seq<Sqe>, x: Sqe)
    requires NoLong(items) && Trailing(items + [x]) <= 7
    ensures NoLong(items + [x])
  {
    forall i | 0 <= i <= |items| + 1 ensures Trailing((items + [x])[..i]) <= 7 {
      if i <= |items| {
        assert (items + [x])[..i] == items[..i];
      } else {
        assert (items + [x])[..i] == items + [x];
      }
    }
  }

  // A suffix has no more trailing links than the whole.
  lemma {:induction false} TrailingSuffix(items: seq<Sqe>, k: nat)
    requires k <= |items|
    ensures Trailing(items[k..]) <= Trailing(items)
    decreases |items| - k
  {
    if k < |items| && items[|items| - 1].link {
      var shorter := items[..|items| - 1];
      TrailingSuffix(shorter, k);
      assert items[k..][..|items| - k - 1] == shorter[k..];
    }
  }

  lemma NoLongSuffix(items: seq<Sqe>, k: nat)
    requires k <= |items| && NoLong(items)
    ensures NoLong(items[k..])
  {
    forall i | 0 <= i <= |items| - k ensures Trailing(items[k..][..i]) <= 7 {
      assert items[k..][..i] == items[..k + i][k..];
      TrailingSuffix(items[..k + i], k);
    }
  }

  /** With chains of at most eight entries, all closed, the walk finds a stop, and a drain of a
      non-empty overflow queue moves at least max(1, min(size, n) - 7) entries. */
  lemma DrainProgress(items: seq<Sqe>, n: nat)
    requires n >= 8 && items != [] && NoLong(items) && Trailing(items) == 0
    ensures SafePop(items, n) >= Max(1, Min(|items|, n) - 7)
  {
    var w := Min(|items|, n);
    LastUnlinkedIsLongest(items, w);
    assert items[..|items|] == items;
  }

  lemma SubmitLinks(s: Sys, r: Request, mapOk: bool, chunkOk: bool)
    requires Links(s) && RingOk(s)
    ensures Links(Submit(s, r, mapOk, chunkOk).0)
  {
    hide NoLong, Trailing, Granted, GrownCap, Links, Tears, Ring, MakeSqe;
    var x := MakeSqe(r, |s.log.accepted|);
    var s' := Submit(s, r, mapOk, chunkOk).0;
    if s'.log == s.log {
      LinksSameItems(s, s');
    } else if Occupancy(s) == s.n {
      OverflowLinks(s, s', x);
    } else {
      RingLinks(s, s', x);
    }
  }

  lemma LinksSameItems(s: Sys, s': Sys)
    requires Links(s) && SameSetup(s, s') && s'.log == s.log
    requires s'.head == s.head && s'.tail == s.tail && s'.ofq.items == s.ofq.items
    ensures Links(s')
  {
  }

  lemma OverflowLinks(s: Sys, s': Sys, x: Sqe)
    requires Links(s) && SameSetup(s, s') && Occupancy(s) == s.n && s'.log == Accept(s.log, x, s.ofq.items)
    requires s'.head == s.head && s'.tail == s.tail && s'.ofq.items == s.ofq.items + [x]
    ensures Links(s')
  {
    TrailingAppend(s.ofq.items, x);
    TrailingAppend(s.log.accepted, x);
    if Disciplined(s'.log) {
      NoLongAppend(s.ofq.items, x);
    }
  }

  lemma RingLinks(s: Sys, s': Sys, x: Sqe)
    requires Links(s) && SameSetup(s, s') && Occupancy(s) < s.n && s'.ofq.items == s.ofq.items
    requires s'.log == Accept(s.log, x, Ring(s)).(overtook := s'.log.overtook)
    ensures Links(s')
  {
  }

  // Steps that leave the ring, the overflow queue and the submission flags alone.
  lemma LinksFrame(s: Sys, s': Sys)
    requires Links(s) && SameSetup(s, s')
    requires s'.head == s.head && s'.tail == s.tail && s'.ofq == s.ofq
    requires s'.log.accepted == s.log.accepted && s'.log.stray == s.log.stray
    requires s'.log.longChain == s.log.longChain && s'.log.cutOpen == s.log.cutOpen
    ensures Links(s')
  {
  }

  lemma EnterLinks(s: Sys, taken: bool)
    requires Links(s)
    ensures Links(Enter(s, taken))
    ensures taken && Disciplined(Enter(s, taken).log) ==> Trailing(s.ofq.items) == 0
  {
    hide NoLong, Trailing, Ring;
  }

  // A bulk removal, with either advance, leaves the end of the queue.
  lemma PopToSuffix<T>(q: QView<T>, k: nat, literal: bool) returns (j: nat)
    ensures Min(k, |q.items|) <= j <= |q.items| && PopTo(SQ_GEOMETRY, q, k, literal).0.items == q.items[j..]
  {
    if k > |q.items| {
      j := |q.items|;
    } else {
      LandingBounds(SQ_GEOMETRY, q, k, literal);
      j := if k == 0 then 0 else Landing(SQ_GEOMETRY, q, k, literal) - q.front;
    }
  }

  lemma DrainSuffix(s: Sys, k: nat) returns (j: nat)
    requires k <= s.n && k <= |s.ofq.items|
    ensures k <= j <= |s.ofq.items| && DrainBy(s, k).0.ofq.items == s.ofq.items[j..]
  {
    hide PopTo, Overwrite;
    var b := s.tail % s.n;
    var first := Min(k, s.n - b);
    PopToSize(SQ_GEOMETRY, s.ofq, first, s.literal);
    var i := PopToSuffix(s.ofq, first, s.literal);
    var (q1, out1) := PopTo(SQ_GEOMETRY, s.ofq, first, s.literal);
    var second := Min(b, k - |out1|);
    var i' := PopToSuffix(q1, second, s.literal);
    j := i + i';
    assert s.ofq.items[i..][i'..] == s.ofq.items[j..];
  }

  // For a disciplined client the walk finds a stop with the entries the bound asks for.
  lemma DisciplinedStop(s: Sys)
    requires Links(s) && s.head == s.tail && s.ofq.items != [] && Disciplined(s.log)
    ensures SafePop(s.ofq.items, s.n) >= Max(1, Min(|s.ofq.items|, s.n) - 7)
  {
    hide NoLong, Ring, Trailing, SafePop;
    RingEmpty(s);
    DrainProgress(s.ofq.items, s.n);
  }

  /** A drain, with either advance, keeps what is known of the links; for a disciplined client it
      does not stray and moves the tail by at least max(1, min(size, n) - 7). */
  lemma DrainLinks(s: Sys)
    requires Links(s) && RingOk(s) && s.head == s.tail && s.ofq.items != []
    ensures Links(Drain(s))
    ensures Disciplined(s.log) ==>
              && !Drain(s).log.stray
              && Occupancy(Drain(s)) >= Max(1, Min(|s.ofq.items|, s.n) - 7)
  {
    hide NoLong, DrainBy, Ring, Trailing, DrainExact, SafePop;
    var k := SafePop(s.ofq.items, s.n);
    RingEmpty(s);
    if Disciplined(s.log) {
      DisciplinedStop(s);
    }
    if k > 0 {
      DrainLog(s, k);
      DrainShape(s, k);
      var j := DrainSuffix(s, k);
      if Disciplined(s.log) {
        NoLongSuffix(s.ofq.items, j);
        TrailingSuffix(s.ofq.items, j);
      }
    }
  }

  // -------------------------------------------------------------------------------------------
  // Whole runs

  ghost predicate Safe(s: Sys)
  {
    Inv(s) && Links(s)
  }

  lemma InvRing(s: Sys)
    requires Inv(s)
    ensures RingOk(s)
  {
  }

  lemma PopsFromSome(items: seq<Sqe>, n: nat)
    ensures SafePop(items, n) > 0 ==> items != []
  {
  }

  lemma ActLinks(s: Sys, a: Action)
    requires Links(s) && RingOk(s)
    ensures Links(Perform(s, a))
  {
    hide Links, Submit, Push;
    match a
    case DoSubmit(r, mapOk, chunkOk) => SubmitLinks(s, r, mapOk, chunkOk);
    case DoSoon(flags, task, mapOk, chunkOk) => LinksFrame(s, Soon(s, flags, task, mapOk, chunkOk).0);
  }

  lemma StepLinks(s: Sys, st: Step)
    requires Inv(s) && Links(s) && Enabled(s, st)
    ensures Links(Apply(s, st))
  {
    hide Links, Inv, Perform, Enter, Drain, SafePop, Pop;
    InvRing(s);
    match st
    case StAct(a) => ActLinks(s, a);
    case StEnter(taken) => EnterLinks(s, taken);
    case StDrain =>
      PopsFromSome(s.ofq.items, s.n);
      DrainLinks(s);
    case StStray => DrainLinks(s);
    case _ => LinksFrame(s, Apply(s, st));
  }

  lemma {:induction false} StepsSafe(s: Sys, steps: seq<Step>)
    requires Safe(s) && EnabledAll(s, steps)
    ensures Safe(ApplyAll(s, steps))
    decreases |steps|
  {
    hide Inv, Links, Apply, Enabled;
    if steps != [] {
      StepKeepsInv(s, steps[0]);
      StepLinks(s, steps[0]);
      StepsSafe(Apply(s, steps[0]), steps[1..]);
    }
  }

  lemma ReachSafe(s: Sys, s': Sys)
    requires Safe(s) && Reach(s, s')
    ensures Safe(s')
  {
    hide Safe;
    var steps :| EnabledAll(s, steps) && ApplyAll(s, steps) == s';
    StepsSafe(s, steps);
  }

  lemma RunSafe(s: Sys, calls: seq<Call>, script: Script)
    requires Initial(s) && forall c :: c in calls ==> CallOk(c)
    ensures Safe(Run(s, calls, script))
  {
    hide Run, Inv;
    InitialInv(s);
    RunReaches(s, calls, script);
    ReachSafe(s, Run(s, calls, script));
  }

  /** Over every run, with either advance: as long as the client's chains have at most eight
      entries and are closed whenever the kernel takes the ring, no drain ever walks out of the
      overflow queue. */
  lemma NeverStray(s: Sys, calls: seq<Call>, script: Script)
    requires Initial(s) && forall c :: c in calls ==> CallOk(c)
    ensures var log := Run(s, calls, script).log; Disciplined(log) ==> !log.stray
  {
    hide Run, Inv;
    RunSafe(s, calls, script);
  }

  /** The drain inside any later lrun1 of such a client moves the tail by at least
      max(1, min(size, n) - 7); with either advance. */
  lemma EveryDrainProgresses(s: Sys, calls: seq<Call>, script: Script)
    requires Initial(s) && forall c :: c in calls ==> CallOk(c)
    ensures var s1 := Enter(BeforeEnter(Run(s, calls, script), script), true);
            s1.ofq.items != [] && Disciplined(s1.log) ==>
              && !Drain(s1).log.stray
              && Occupancy(Drain(s1)) >= Max(1, Min(|s1.ofq.items|, s1.n) - 7)
  {
    hide Run, BeforeEnter, Enter, Drain, Links, Inv;
    RunSafe(s, calls, script);
    var s0 := BeforeEnter(Run(s, calls, script), script);
    var s1 := Enter(s0, true);
    BeforeEnterReaches(Run(s, calls, script), script);
    OnOne(Run(s, calls, script), s0, StEnter(true));
    ReachSafe(Run(s, calls, script), s1);
    EnterTaken(s0);
    InvRing(s1);
    if s1.ofq.items != [] {
      DrainLinks(s1);
    }
  }
}
