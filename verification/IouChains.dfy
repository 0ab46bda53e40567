/** Chains of linked submissions on their way to the kernel. What the steps of a run do to the
    places a submission can be in, and from it when a linked submission and its successor reach
    the kernel side by side in one batch. */
module IouChains {
  import opened QueueSpec
  import opened IouSpec
  import opened IouRing
  import opened IouRuns
  import opened IouSteps

  // -------------------------------------------------------------------------------------------
  // Places and moves

  datatype Flow = Flow(accepted: seq<Sqe>, batches: seq<seq<Sqe>>, ring: seq<Sqe>, ofq: seq<Sqe>, torn: bool)

  function FlowOf(s: Sys): Flow
  {
    Flow(s.log.accepted, s.log.batches, Ring(s), s.ofq.items, s.log.torn)
  }

  // The batches the kernel has taken, the ring, and the overflow queue.
  function Places(f: Flow): (rows: seq<seq<Sqe>>)
    ensures |rows| == |f.batches| + 2
  {
    f.batches + [f.ring, f.ofq]
  }

  datatype Move = Still | ToRing(x: Sqe) | ToOverflow(x: Sqe) | Publish | Drained(k: nat)

  // A submission carries its number; a drain goes to an empty ring and is cut behind an entry
  // that is not linked.
  predicate MoveOk(f: Flow, m: Move)
  {
    && (m.ToRing? || m.ToOverflow? ==> m.x.serial == |f.accepted|)
    && (m.Drained? ==> f.ring == [] && 0 < m.k <= |f.ofq| && !f.ofq[m.k - 1].link)
  }

  function Moved(f: Flow, m: Move): Flow
    requires MoveOk(f, m)
  {
    match m
    case Still => f
    case ToRing(x) =>
      f.(accepted := f.accepted + [x], ring := f.ring + [x], torn := f.torn || Tears(f.accepted, f.ring))
    case ToOverflow(x) =>
      f.(accepted := f.accepted + [x], ofq := f.ofq + [x], torn := f.torn || Tears(f.accepted, f.ofq))
    case Publish => f.(batches := f.batches + [f.ring], ring := [], torn := f.torn || EndsLinked(f.ring))
    case Drained(k) => f.(ring := f.ofq[..k], ofq := f.ofq[k..])
  }

  predicate MovesOk(f: Flow, ms: seq<Move>)
    decreases |ms|
  {
    ms == [] || (MoveOk(f, ms[0]) && MovesOk(Moved(f, ms[0]), ms[1..]))
  }

  function MovedAll(f: Flow, ms: seq<Move>): Flow
    requires MovesOk(f, ms)
    decreases |ms|
  {
    if ms == [] then f else MovedAll(Moved(f, ms[0]), ms[1..])
  }

  function MoveOf(s: Sys, st: Step): Move
  {
    match st
    case StAct(DoSubmit(r, mapOk, chunkOk)) =>
      if !Submit(s, r, mapOk, chunkOk).1 then Still
      else if Occupancy(s) == s.n then ToOverflow(MakeSqe(r, |s.log.accepted|))
      else ToRing(MakeSqe(r, |s.log.accepted|))
    case StEnter(true) => Publish
    case StDrain => Drained(SafePop(s.ofq.items, s.n))
    case _ => Still
  }

  // The flow depends on these parts of the context only.
  lemma FlowLooksAt(s: Sys, s': Sys)
    requires s.n == s'.n && s.head == s'.head && s.tail == s'.tail && s.slots == s'.slots
    requires s.ofq.items == s'.ofq.items && s.log.accepted == s'.log.accepted
    requires s.log.batches == s'.log.batches && s.log.torn == s'.log.torn
    ensures FlowOf(s) == FlowOf(s')
  {
    RingLooksAt(s, s');
  }

  lemma PushItems(q: QView<Sqe>, x: Sqe, mapOk: bool, chunkOk: bool)
    ensures var (q', ok) := Push(SQ_GEOMETRY, q, x, mapOk, chunkOk);
            q'.items == if ok then q.items + [x] else q.items
  {
  }

  lemma SubmitMoveOk(s: Sys, r: Request, mapOk: bool, chunkOk: bool)
    ensures MoveOk(FlowOf(s), MoveOf(s, StAct(DoSubmit(r, mapOk, chunkOk))))
  {
    hide Ring, Submit, MakeSqe;
    MadeSerial(r, |s.log.accepted|);
  }

  // An accepted submission, to the overflow queue and to the ring.
  lemma OverflowMoves(s: Sys, r: Request, mapOk: bool, chunkOk: bool)
    requires Occupancy(s) == s.n && Submit(s, r, mapOk, chunkOk).1
    ensures var (s', x) := (Submit(s, r, mapOk, chunkOk).0, MakeSqe(r, |s.log.accepted|));
            x.serial == |s.log.accepted| && FlowOf(s') == Moved(FlowOf(s), ToOverflow(x))
  {
    hide Ring, Push, Tears, MakeSqe, SubmitFlagsOk, Trailing;
    var x := MakeSqe(r, |s.log.accepted|);
    MadeSerial(r, |s.log.accepted|);
    PushItems(s.ofq, x, mapOk, chunkOk);
    RingLooksAt(s, Submit(s, r, mapOk, chunkOk).0);
  }

  lemma RingMoves(s: Sys, r: Request, mapOk: bool, chunkOk: bool)
    requires RingOk(s) && Occupancy(s) != s.n && Submit(s, r, mapOk, chunkOk).1
    ensures var (s', x) := (Submit(s, r, mapOk, chunkOk).0, MakeSqe(r, |s.log.accepted|));
            x.serial == |s.log.accepted| && FlowOf(s') == Moved(FlowOf(s), ToRing(x))
  {
    hide Ring, Push, Tears, MakeSqe, SubmitFlagsOk, Trailing;
    var x := MakeSqe(r, |s.log.accepted|);
    MadeSerial(r, |s.log.accepted|);
    RingPush(s, x);
    RingLooksAt(s.(slots := s.slots[s.tail % s.n := x], tail := (s.tail + 1) % U32), Submit(s, r, mapOk, chunkOk).0);
  }

  lemma RefusedMoves(s: Sys, r: Request, mapOk: bool, chunkOk: bool)
    requires !Submit(s, r, mapOk, chunkOk).1
    ensures FlowOf(Submit(s, r, mapOk, chunkOk).0) == FlowOf(s)
  {
    hide Ring, Push, MakeSqe, SubmitFlagsOk, FlowOf;
    PushItems(s.ofq, MakeSqe(r, |s.log.accepted|), mapOk, chunkOk);
    FlowLooksAt(s, Submit(s, r, mapOk, chunkOk).0);
  }

  lemma SubmitMoves(s: Sys, r: Request, mapOk: bool, chunkOk: bool)
    requires RingOk(s)
    ensures MoveOk(FlowOf(s), MoveOf(s, StAct(DoSubmit(r, mapOk, chunkOk))))
    ensures FlowOf(Submit(s, r, mapOk, chunkOk).0) == Moved(FlowOf(s), MoveOf(s, StAct(DoSubmit(r, mapOk, chunkOk))))
  {
    hide Ring, Submit, MakeSqe, FlowOf, Occupancy, RingOk, Tears;
    SubmitMoveOk(s, r, mapOk, chunkOk);
    if !Submit(s, r, mapOk, chunkOk).1 {
      RefusedMoves(s, r, mapOk, chunkOk);
    } else if Occupancy(s) == s.n {
      OverflowMoves(s, r, mapOk, chunkOk);
    } else {
      RingMoves(s, r, mapOk, chunkOk);
    }
  }

  lemma SoonMoves(s: Sys, flags: bv64, task: Task, mapOk: bool, chunkOk: bool)
    ensures FlowOf(Soon(s, flags, task, mapOk, chunkOk).0) == FlowOf(s)
  {
    hide Ring, Push;
    FlowLooksAt(s, Soon(s, flags, task, mapOk, chunkOk).0);
  }

  lemma DrainIsMove(s: Sys)
    requires RingOk(s) && Enabled(s, StDrain) && !Drain(s).log.lossy
    ensures MoveOk(FlowOf(s), MoveOf(s, StDrain)) && FlowOf(Drain(s)) == Moved(FlowOf(s), MoveOf(s, StDrain))
  {
    hide DrainBy, Ring, DrainExact;
    var k := SafePop(s.ofq.items, s.n);
    DrainLog(s, k);
    DrainMoves(s, k);
    RingEmpty(s);
    LastUnlinkedStops(s.ofq.items, Min(|s.ofq.items|, s.n));
  }

  lemma {:induction false} LastUnlinkedStops(items: seq<Sqe>, w: nat)
    requires w <= |items| && LastUnlinked(items, w) > 0
    ensures !items[LastUnlinked(items, w) - 1].link
    decreases w
  {
    if items[w - 1].link {
      LastUnlinkedStops(items, w - 1);
    }
  }

  // Every step of a run without loss is a move.
  lemma StepMoves(s: Sys, st: Step)
    requires RingOk(s) && Enabled(s, st) && !Apply(s, st).log.lossy
    ensures MoveOk(FlowOf(s), MoveOf(s, st)) && FlowOf(Apply(s, st)) == Moved(FlowOf(s), MoveOf(s, st))
  {
    hide Ring, Submit, Soon, Drain, SafePop, EndsLinked, Pop, FlowOf;
    match st
    case StAct(DoSubmit(r, mapOk, chunkOk)) => SubmitMoves(s, r, mapOk, chunkOk);
    case StAct(DoSoon(flags, task, mapOk, chunkOk)) => SoonMoves(s, flags, task, mapOk, chunkOk);
    case StDrain => DrainIsMove(s);
    case StEnter(taken) => EnterMoves(s, taken);
    case StStray =>
      StrayOnlyMarks(s);
      FlowLooksAt(s, Apply(s, st));
    case _ => FlowLooksAt(s, Apply(s, st));
  }

  lemma EnterMoves(s: Sys, taken: bool)
    ensures FlowOf(Enter(s, taken)) == Moved(FlowOf(s), MoveOf(s, StEnter(taken)))
  {
    if taken {
      RingEmpty(Enter(s, taken));
    }
  }

  lemma SubmitLossy(s: Sys, r: Request, mapOk: bool, chunkOk: bool)
    ensures Submit(s, r, mapOk, chunkOk).0.log.lossy == s.log.lossy
  {
    hide Ring, Push, Accept, MakeSqe, SubmitFlagsOk, Occupancy;
    var x := MakeSqe(r, |s.log.accepted|);
    AcceptKeeps(s.log, x, s.ofq.items);
    AcceptKeeps(s.log, x, Ring(s));
  }

  lemma SoonLossy(s: Sys, flags: bv64, task: Task, mapOk: bool, chunkOk: bool)
    ensures Soon(s, flags, task, mapOk, chunkOk).0.log.lossy == s.log.lossy
  {
    hide Push, SoonFlagsOk, ForNext;
  }

  lemma DrainLossy(s: Sys)
    ensures s.log.lossy ==> Drain(s).log.lossy
  {
    hide CopyPieces, DrainExact;
  }

  lemma LossyStays(s: Sys, st: Step)
    ensures s.log.lossy ==> Apply(s, st).log.lossy
  {
    hide Submit, Soon, Drain, Ring, Pop, Trailing, EndsLinked;
    match st
    case StAct(DoSubmit(r, mapOk, chunkOk)) => SubmitLossy(s, r, mapOk, chunkOk);
    case StAct(DoSoon(flags, task, mapOk, chunkOk)) => SoonLossy(s, flags, task, mapOk, chunkOk);
    case StDrain => DrainLossy(s);
    case StStray => DrainLossy(s);
    case _ =>
  }

  lemma {:induction false} LossyStaysAll(s: Sys, steps: seq<Step>)
    ensures s.log.lossy ==> ApplyAll(s, steps).log.lossy
    decreases |steps|
  {
    hide Apply;
    if steps != [] {
      LossyStays(s, steps[0]);
      LossyStaysAll(Apply(s, steps[0]), steps[1..]);
    }
  }

  lemma {:induction false} StepsMove(s: Sys, steps: seq<Step>) returns (ms: seq<Move>)
    requires Inv(s) && EnabledAll(s, steps) && !ApplyAll(s, steps).log.lossy
    ensures MovesOk(FlowOf(s), ms) && MovedAll(FlowOf(s), ms) == FlowOf(ApplyAll(s, steps))
    decreases |steps|
  {
    hide Traffic, Accounted, Apply, Enabled, FlowOf, MoveOf, Moved, MoveOk;
    if steps == [] {
      ms := [];
    } else {
      var s1 := Apply(s, steps[0]);
      LossyStaysAll(s1, steps[1..]);
      StepKeepsInv(s, steps[0]);
      TrafficRing(s);
      StepMoves(s, steps[0]);
      var rest := StepsMove(s1, steps[1..]);
      ms := [MoveOf(s, steps[0])] + rest;
      assert ms[1..] == rest;
    }
  }

  lemma TrafficRing(s: Sys)
    requires Traffic(s)
    ensures RingOk(s)
  {
  }

  lemma ReachMoves(s: Sys, s': Sys) returns (ms: seq<Move>)
    requires Inv(s) && Reach(s, s') && !s'.log.lossy
    ensures MovesOk(FlowOf(s), ms) && MovedAll(FlowOf(s), ms) == FlowOf(s')
  {
    hide Inv, FlowOf;
    var steps :| EnabledAll(s, steps) && ApplyAll(s, steps) == s';
    ms := StepsMove(s, steps);
  }

  // -------------------------------------------------------------------------------------------
  // Every accepted submission is in one place

  ghost predicate Counted(f: Flow)
  {
    Serial(f.accepted) && multiset(f.accepted) == multiset(Joined(Places(f)))
  }

  lemma PlacesJoined(f: Flow)
    ensures Joined(Places(f)) == Joined(f.batches) + f.ring + f.ofq
  {
    assert Places(f)[..|f.batches| + 1] == f.batches + [f.ring];
    JoinedAppend(f.batches, f.ring);
  }

  lemma AddOne(s: seq<Sqe>, x: Sqe)
    ensures multiset(s + [x]) == multiset(s) + multiset{x}
  {
  }

  lemma SplitCounts(s: seq<Sqe>, k: nat)
    requires k <= |s|
    ensures multiset(s[..k]) + multiset(s[k..]) == multiset(s)
  {
    assert s == s[..k] + s[k..];
  }

  // The submissions of the places, place by place.
  lemma PlacesCount(f: Flow)
    ensures multiset(Joined(Places(f))) == multiset(Joined(f.batches)) + multiset(f.ring) + multiset(f.ofq)
  {
    hide Places, Joined;
    PlacesJoined(f);
  }

  lemma BringCounts(f: Flow, m: Move)
    requires Counted(f) && MoveOk(f, m) && (m.ToRing? || m.ToOverflow?)
    ensures Counted(Moved(f, m))
  {
    hide Places, Tears, Joined;
    PlacesCount(f);
    PlacesCount(Moved(f, m));
    AddOne(f.accepted, m.x);
    AddOne(if m.ToRing? then f.ring else f.ofq, m.x);
  }

  lemma MoveCounts(f: Flow, m: Move)
    requires MoveOk(f, m) && Counted(f)
    ensures Counted(Moved(f, m))
  {
    hide Places, Tears, EndsLinked, Joined;
    PlacesCount(f);
    match m
    case Still =>
    case ToRing(x) => BringCounts(f, m);
    case ToOverflow(x) => BringCounts(f, m);
    case Publish =>
      PlacesCount(Moved(f, m));
      JoinedAppend(f.batches, f.ring);
    case Drained(k) =>
      PlacesCount(Moved(f, m));
      SplitCounts(f.ofq, k);
  }

  lemma {:induction false} JoinedHolds(rows: seq<seq<Sqe>>, p: nat, x: Sqe)
    requires p < |rows| && x in rows[p]
    ensures multiset(Joined(rows))[x] >= 1
    decreases |rows|
  {
    var last := |rows| - 1;
    assert multiset(Joined(rows)) == multiset(Joined(rows[..last])) + multiset(rows[last]);
    if p == last {
      assert x in multiset(rows[last]);
    } else {
      JoinedHolds(rows[..last], p, x);
    }
  }

  lemma {:induction false} InTwoRows(rows: seq<seq<Sqe>>, p: nat, q: nat, x: Sqe)
    requires p < q < |rows| && x in rows[p] && x in rows[q]
    ensures multiset(Joined(rows))[x] >= 2
    decreases |rows|
  {
    var last := |rows| - 1;
    assert multiset(Joined(rows)) == multiset(Joined(rows[..last])) + multiset(rows[last]);
    if q == last {
      JoinedHolds(rows[..last], p, x);
      assert x in multiset(rows[last]);
    } else {
      InTwoRows(rows[..last], p, q, x);
    }
  }

  lemma {:induction false} NoDupCount(a: seq<Sqe>, x: Sqe)
    requires NoDup(a)
    ensures multiset(a)[x] <= 1
    decreases |a|
  {
    if a != [] {
      var last := |a| - 1;
      assert a == a[..last] + [a[last]];
      NoDupCount(a[..last], x);
      if a[last] == x {
        assert x !in a[..last];
        assert x !in multiset(a[..last]);
      }
    }
  }

  // No submission is in two places, and none but those accepted is in any.
  lemma OnePlace(f: Flow, p: nat, q: nat, x: Sqe)
    requires Counted(f) && p < |Places(f)| && q < |Places(f)|
    requires x in Places(f)[p] && x in Places(f)[q]
    ensures p == q
  {
    SerialNoDup(f.accepted);
    NoDupCount(f.accepted, x);
    if p < q {
      InTwoRows(Places(f), p, q, x);
    } else if q < p {
      InTwoRows(Places(f), q, p, x);
    }
  }

  lemma NewIsNowhere(f: Flow, x: Sqe, p: nat)
    requires Counted(f) && x.serial == |f.accepted| && p < |Places(f)|
    ensures x !in Places(f)[p]
  {
    assert x !in multiset(f.accepted);
    if x in Places(f)[p] {
      JoinedHolds(Places(f), p, x);
    }
  }

  // -------------------------------------------------------------------------------------------
  // Side by side

  // xs stands at index j of row p.
  ghost predicate BlockAt(rows: seq<seq<Sqe>>, p: int, j: int, xs: seq<Sqe>)
  {
    0 <= p < |rows| && 0 <= j && j + |xs| <= |rows[p]| && rows[p][j..j + |xs|] == xs
  }

  // xs stands in one piece in one row.
  ghost predicate Block(rows: seq<seq<Sqe>>, xs: seq<Sqe>)
  {
    exists p, j :: BlockAt(rows, p, j, xs)
  }

  // All but the last of xs are linked.
  predicate Joint(xs: seq<Sqe>)
  {
    xs != [] && forall i :: 0 <= i < |xs| - 1 ==> xs[i].link
  }

  lemma PieceOf(s: seq<Sqe>, t: seq<Sqe>, from: nat, j: int, xs: seq<Sqe>)
    requires 0 <= j && j + |xs| <= |s| && s[j..j + |xs|] == xs
    requires from + |s| <= |t| && t[from..from + |s|] == s
    ensures t[from + j..from + j + |xs|] == xs
  {
    forall i | 0 <= i < |xs| ensures t[from + j..from + j + |xs|][i] == xs[i] {
      assert t[from..from + |s|][j + i] == s[j..j + |xs|][i];
    }
  }

  /** No move parts linked submissions that stand side by side. */
  lemma BlockStays(f: Flow, m: Move, xs: seq<Sqe>)
    requires MoveOk(f, m) && Joint(xs) && Block(Places(f), xs)
    ensures Block(Places(Moved(f, m)), xs)
  {
    hide Tears, EndsLinked;
    var p, j :| BlockAt(Places(f), p, j, xs);
    var rows, b := Places(Moved(f, m)), |f.batches|;
    if m.Drained? && p == b + 1 {
      BlockDrained(f.ofq, m.k, j, xs);
      if j < m.k {
        assert BlockAt(rows, b, j, xs);
      } else {
        assert BlockAt(rows, p, j - m.k, xs);
      }
    } else if m.Publish? && p == b + 1 {
      assert BlockAt(rows, p + 1, j, xs);
    } else {
      PieceOf(Places(f)[p], rows[p], 0, j, xs);
      assert BlockAt(rows, p, j, xs);
    }
  }

  // The cut behind an entry that is not linked does not go through a block.
  lemma BlockDrained(s: seq<Sqe>, k: nat, j: int, xs: seq<Sqe>)
    requires 0 < k <= |s| && !s[k - 1].link && Joint(xs)
    requires 0 <= j && j + |xs| <= |s| && s[j..j + |xs|] == xs
    ensures if j < k then j + |xs| <= k && s[..k][j..j + |xs|] == xs else s[k..][j - k..j - k + |xs|] == xs
  {
    if j < k <= j + |xs| {
      assert s[k - 1] == s[j..j + |xs|][k - 1 - j] == xs[k - 1 - j];
    }
  }

  lemma {:induction false} BlockStaysAll(f: Flow, ms: seq<Move>, xs: seq<Sqe>)
    requires MovesOk(f, ms) && Joint(xs) && Block(Places(f), xs)
    ensures Block(Places(MovedAll(f, ms)), xs)
    decreases |ms|
  {
    hide Moved, MoveOk, Block, Places, Joint;
    if ms != [] {
      BlockStays(f, ms[0], xs);
      BlockStaysAll(Moved(f, ms[0]), ms[1..], xs);
    }
  }

  predicate Brings(m: Move, x: Sqe)
  {
    (m.ToRing? || m.ToOverflow?) && m.x == x
  }

  /** Two submissions come to stand side by side only when the second is accepted. */
  lemma PairAppears(f: Flow, m: Move, a: Sqe, b: Sqe)
    requires MoveOk(f, m) && Block(Places(Moved(f, m)), [a, b]) && !Brings(m, b)
    ensures Block(Places(f), [a, b])
  {
    hide Tears, EndsLinked;
    var rows, n := Places(Moved(f, m)), |f.batches|;
    var p, j :| BlockAt(rows, p, j, [a, b]);
    assert rows[p][j..j + 2][0] == rows[p][j] && rows[p][j..j + 2][1] == rows[p][j + 1];
    if m.Drained? && p == n {
      assert BlockAt(Places(f), n + 1, j, [a, b]);
    } else if m.Drained? && p == n + 1 {
      assert f.ofq[m.k..][j..j + 2] == f.ofq[m.k + j..m.k + j + 2];
      assert BlockAt(Places(f), n + 1, m.k + j, [a, b]);
    } else if m.Publish? && p == n + 2 {
      assert BlockAt(Places(f), n + 1, j, [a, b]);
    } else {
      assert Places(f)[p][j..j + 2] == [a, b];
      assert BlockAt(Places(f), p, j, [a, b]);
    }
  }

  // -------------------------------------------------------------------------------------------
  // Whole runs

  /** Every linked submission has its successor, once that is accepted, right behind it in the
      same place; and no batch the kernel has taken ends in a linked one. */
  ghost predicate Whole(f: Flow)
  {
    && (forall i :: 0 <= i < |f.accepted| - 1 && f.accepted[i].link
          ==> Block(Places(f), [f.accepted[i], f.accepted[i + 1]]))
    && (forall p :: 0 <= p < |f.batches| ==> !EndsLinked(f.batches[p]))
  }

  // A submission that joins its linked predecessor stands beside it.
  lemma JoinsPredecessor(f: Flow, m: Move)
    requires MoveOk(f, m) && (m.ToRing? || m.ToOverflow?) && EndsLinked(f.accepted) && !Moved(f, m).torn
    ensures Block(Places(Moved(f, m)), [f.accepted[|f.accepted| - 1], m.x])
  {
    var p := if m.ToRing? then |f.batches| else |f.batches| + 1;
    var place := if m.ToRing? then f.ring else f.ofq;
    var row := Places(Moved(f, m))[p];
    assert row == place + [m.x];
    assert row[|place| - 1..|place| + 1] == [f.accepted[|f.accepted| - 1], m.x];
    assert BlockAt(Places(Moved(f, m)), p, |place| - 1, [f.accepted[|f.accepted| - 1], m.x]);
  }

  lemma MoveWhole(f: Flow, m: Move)
    requires MoveOk(f, m) && Whole(f) && !Moved(f, m).torn
    ensures Whole(Moved(f, m))
  {
    hide Block, Places, Tears;
    var f' := Moved(f, m);
    forall i | 0 <= i < |f'.accepted| - 1 && f'.accepted[i].link
      ensures Block(Places(f'), [f'.accepted[i], f'.accepted[i + 1]])
    {
      if i < |f.accepted| - 1 {
        BlockStays(f, m, [f.accepted[i], f.accepted[i + 1]]);
      } else {
        JoinsPredecessor(f, m);
      }
    }
  }

  // A submission that does not join its linked predecessor does not stand beside it.
  lemma MissesPredecessor(f: Flow, m: Move)
    requires Counted(f) && MoveOk(f, m) && (m.ToRing? || m.ToOverflow?)
    requires Tears(f.accepted, if m.ToRing? then f.ring else f.ofq)
    ensures !Block(Places(Moved(f, m)), [f.accepted[|f.accepted| - 1], m.x])
  {
    var y, place, rows := f.accepted[|f.accepted| - 1], if m.ToRing? then f.ring else f.ofq, Places(Moved(f, m));
    forall p, j | 0 <= p < |rows| && 0 <= j < |rows[p]| - 1 ensures !BlockAt(rows, p, j, [y, m.x]) {
      NewIsNowhere(f, m.x, p);
      assert rows[p] == place + [m.x] || rows[p] == Places(f)[p];
      assert rows[p][j..j + 2] == [rows[p][j], rows[p][j + 1]];
    }
  }

  // Submissions once parted stay parted.
  lemma PartedStays(f: Flow, m: Move, a: Sqe, i: nat)
    requires MoveOk(f, m) && Counted(f) && i < |f.accepted|
    requires !Block(Places(f), [a, f.accepted[i]])
    ensures !Block(Places(Moved(f, m)), [a, f.accepted[i]])
  {
    hide Places, Tears, EndsLinked;
    if Block(Places(Moved(f, m)), [a, f.accepted[i]]) && !Brings(m, f.accepted[i]) {
      PairAppears(f, m, a, f.accepted[i]);
    }
  }

  lemma MoveTorn(f: Flow, m: Move)
    requires MoveOk(f, m) && Counted(f)
    requires f.torn ==> !Whole(f)
    ensures Moved(f, m).torn ==> !Whole(Moved(f, m))
  {
    hide Block, Places;
    var f' := Moved(f, m);
    if f.torn {
      if p :| 0 <= p < |f.batches| && EndsLinked(f.batches[p]) {
        assert f'.batches[p] == f.batches[p];
      } else {
        var i :| 0 <= i < |f.accepted| - 1 && f.accepted[i].link
                 && !Block(Places(f), [f.accepted[i], f.accepted[i + 1]]);
        PartedStays(f, m, f.accepted[i], i + 1);
        assert f'.accepted[i] == f.accepted[i] && f'.accepted[i + 1] == f.accepted[i + 1];
      }
    } else if f'.torn {
      if m.Publish? {
        assert EndsLinked(f'.batches[|f.batches|]);
      } else {
        MissesPredecessor(f, m);
        assert f'.accepted[|f.accepted| - 1].link && f'.accepted[|f.accepted|] == m.x;
      }
    }
  }

  lemma {:induction false} AcceptedGrows(f: Flow, ms: seq<Move>)
    requires MovesOk(f, ms)
    ensures f.accepted <= MovedAll(f, ms).accepted
    ensures f.torn ==> MovedAll(f, ms).torn
    decreases |ms|
  {
    hide Tears, EndsLinked;
    if ms != [] {
      AcceptedGrows(Moved(f, ms[0]), ms[1..]);
    }
  }

  lemma {:induction false} MovesWhole(f: Flow, ms: seq<Move>)
    requires MovesOk(f, ms) && Counted(f)
    requires Whole(f) <==> !f.torn
    ensures Whole(MovedAll(f, ms)) <==> !MovedAll(f, ms).torn
    decreases |ms|
  {
    hide Moved, MoveOk, Whole, Counted;
    if ms != [] {
      var f1 := Moved(f, ms[0]);
      MoveCounts(f, ms[0]);
      MoveTorn(f, ms[0]);
      if !f1.torn {
        TornStays(f, ms[0]);
        MoveWhole(f, ms[0]);
      }
      MovesWhole(f1, ms[1..]);
    }
  }

  lemma TornStays(f: Flow, m: Move)
    requires MoveOk(f, m)
    ensures f.torn ==> Moved(f, m).torn
  {
  }

  lemma InitialFlow(s: Sys)
    requires Initial(s)
    ensures FlowOf(s) == Flow([], [], [], [], false)
    ensures Counted(FlowOf(s)) && Whole(FlowOf(s))
  {
    RingEmpty(s);
    PlacesJoined(FlowOf(s));
  }

  /** Over every run that loses no submission and in which no walk leaves the queue: every linked
      submission has its successor right behind it in the batch the kernel takes, in the ring or
      in the overflow queue, and no batch ends in a linked one, if and only if no submission was
      parted from its linked predecessor and the kernel never took a ring whose last entry was
      linked. A client can see both before the call. */
  lemma LinkedReachKernelTogether(s: Sys, calls: seq<Call>, script: Script)
    requires Initial(s) && forall c :: c in calls ==> CallOk(c)
    ensures var s' := Run(s, calls, script);
            !s'.log.stray && !s'.log.lossy ==>
              (Whole(FlowOf(s')) <==> !s'.log.torn)
  {
    hide Run, Inv, Whole, Counted;
    var s' := Run(s, calls, script);
    InitialInv(s);
    InitialFlow(s);
    RunReaches(s, calls, script);
    if !s'.log.lossy {
      var ms := ReachMoves(s, s');
      MovesWhole(FlowOf(s), ms);
    }
  }
}
