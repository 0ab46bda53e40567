/** Submitting without entering the kernel: how a burst is divided between ring and overflow queue,
    and when a chain submitted at any time of any run reaches the kernel in one piece. */
module IouBursts {
  import opened QueueSpec
  import opened IouSpec
  import opened IouRing
  import opened IouRuns
  import opened IouSteps
  import opened IouChains

  datatype Submission = Submission(r: Request, mapOk: bool, chunkOk: bool)

  function SubmitAll(s: Sys, subs: seq<Submission>): (next: Sys)
    ensures SameSetup(s, next)
    decreases |subs|
  {
    if subs == [] then s
    else SubmitAll(Submit(s, subs[0].r, subs[0].mapOk, subs[0].chunkOk).0, subs[1..])
  }

  // No call of the burst is refused.
  predicate AllAccepted(s: Sys, subs: seq<Submission>)
    decreases |subs|
  {
    subs == [] ||
    (var (s', ok) := Submit(s, subs[0].r, subs[0].mapOk, subs[0].chunkOk); ok && AllAccepted(s', subs[1..]))
  }

  // The entries of a burst whose first submission has the number given.
  function Made(subs: seq<Submission>, serial: nat): (xs: seq<Sqe>)
    ensures |xs| == |subs|
    ensures forall i :: 0 <= i < |subs| ==> xs[i] == MakeSqe(subs[i].r, serial + i)
  {
    if subs == [] then [] else [MakeSqe(subs[0].r, serial)] + Made(subs[1..], serial + 1)
  }

  lemma SubmitOne(s: Sys, sub: Submission)
    requires RingOk(s)
    ensures var (s', ok) := Submit(s, sub.r, sub.mapOk, sub.chunkOk);
            var x := MakeSqe(sub.r, |s.log.accepted|);
            && RingOk(s')
            && s'.log.accepted == (if ok then s.log.accepted + [x] else s.log.accepted)
            && Ring(s') == (if ok && Occupancy(s) < s.n then Ring(s) + [x] else Ring(s))
            && s'.ofq.items == (if ok && Occupancy(s) == s.n then s.ofq.items + [x] else s.ofq.items)
            && (SubmitFlagsOk(sub.r.flags) && sub.mapOk && sub.chunkOk ==> ok)
  {
    hide Ring, Tears, Trailing;
    var (s', ok) := Submit(s, sub.r, sub.mapOk, sub.chunkOk);
    var x := MakeSqe(sub.r, |s.log.accepted|);
    if !ok || Occupancy(s) == s.n {
      RingLooksAt(s, s');
    } else {
      RingPush(s, x);
      RingLooksAt(s.(slots := s.slots[s.tail % s.n := x], tail := (s.tail + 1) % U32), s');
    }
  }

  lemma RingLength(s: Sys)
    ensures |Ring(s)| == Occupancy(s)
  {
  }

  /** Until the kernel takes the ring a full ring stays full: of the submissions of a burst that
      are accepted, whichever those are, the first fill the ring and the others join the overflow
      queue, each in order. */
  lemma {:induction false} BurstFillsRingFirst(s: Sys, subs: seq<Submission>)
    requires RingOk(s)
    ensures var s' := SubmitAll(s, subs);
            && RingOk(s') && s.log.accepted <= s'.log.accepted
            && var added := s'.log.accepted[|s.log.accepted|..];
               var room := Min(|added|, s.n - Occupancy(s));
               && Ring(s') == Ring(s) + added[..room]
               && s'.ofq.items == s.ofq.items + added[room..]
    decreases |subs|
  {
    hide Ring, Submit, RingOk, Occupancy, MakeSqe, SubmitFlagsOk;
    RingLength(s);
    RingRoom(s);
    if subs == [] {
      assert s.log.accepted[|s.log.accepted|..] == [];
    } else {
      var (s1, ok) := Submit(s, subs[0].r, subs[0].mapOk, subs[0].chunkOk);
      SubmitOne(s, subs[0]);
      RingLength(s1);
      BurstFillsRingFirst(s1, subs[1..]);
      if ok {
        var acc, acc' := s.log.accepted, SubmitAll(s, subs).log.accepted;
        var x := MakeSqe(subs[0].r, |acc|);
        var more := acc'[|acc| + 1..];
        OneAdded(acc, x, acc');
        assert s1.log.accepted == acc + [x] && acc'[|s1.log.accepted|..] == more;
        if Occupancy(s) == s.n {
          NoneThenRest(Ring(s), s.ofq.items, x, more);
        } else {
          FirstThenRest(Ring(s), x, more, Min(|more|, s.n - Occupancy(s) - 1));
        }
      }
    }
  }

  lemma RingRoom(s: Sys)
    requires RingOk(s)
    ensures Occupancy(s) <= s.n
  {
  }

  lemma OneAdded<T>(acc: seq<T>, x: T, acc': seq<T>)
    requires acc + [x] <= acc'
    ensures acc <= acc' && acc'[|acc|..] == [x] + acc'[|acc| + 1..]
  {
    assert (acc + [x])[|acc|] == x;
  }

  lemma FirstThenRest<T>(s: seq<T>, x: T, more: seq<T>, k: nat)
    requires k <= |more|
    ensures s + [x] + more[..k] == s + ([x] + more)[..k + 1]
    ensures ([x] + more)[k + 1..] == more[k..]
  {
  }

  lemma NoneThenRest<T>(s: seq<T>, q: seq<T>, x: T, more: seq<T>)
    ensures s + more[..0] == s == s + ([x] + more)[..0]
    ensures q + [x] + more[0..] == q + ([x] + more)[0..]
  {
  }

  /** A burst with valid flags and memory available is accepted as a whole. */
  lemma {:induction false} BurstGranted(s: Sys, subs: seq<Submission>)
    requires RingOk(s)
    requires forall i :: 0 <= i < |subs| ==> SubmitFlagsOk(subs[i].r.flags) && subs[i].mapOk && subs[i].chunkOk
    ensures AllAccepted(s, subs)
    decreases |subs|
  {
    hide Submit, SubmitFlagsOk, RingOk;
    if subs != [] {
      SubmitOne(s, subs[0]);
      BurstGranted(Submit(s, subs[0].r, subs[0].mapOk, subs[0].chunkOk).0, subs[1..]);
    }
  }

  lemma {:induction false} MadeOn(acc: seq<Sqe>, subs: seq<Submission>)
    requires subs != []
    ensures acc + [MakeSqe(subs[0].r, |acc|)] + Made(subs[1..], |acc| + 1) == acc + Made(subs, |acc|)
  {
    hide MakeSqe;
    var x, rest := MakeSqe(subs[0].r, |acc|), Made(subs[1..], |acc| + 1);
    assert Made(subs, |acc|) == [x] + rest;
    assert acc + [x] + rest == acc + ([x] + rest);
  }

  // What is accepted of a burst accepted as a whole is what was submitted.
  lemma {:induction false} BurstAccepted(s: Sys, subs: seq<Submission>)
    requires RingOk(s) && AllAccepted(s, subs)
    ensures SubmitAll(s, subs).log.accepted == s.log.accepted + Made(subs, |s.log.accepted|)
    decreases |subs|
  {
    hide Submit, RingOk, MakeSqe, Ring, Made, SubmitFlagsOk, Occupancy;
    if subs != [] {
      SubmitOne(s, subs[0]);
      BurstAccepted(Submit(s, subs[0].r, subs[0].mapOk, subs[0].chunkOk).0, subs[1..]);
      MadeOn(s.log.accepted, subs);
    }
  }

  lemma {:induction false} BurstReaches(s: Sys, subs: seq<Submission>)
    ensures Reach(s, SubmitAll(s, subs))
    decreases |subs|
  {
    hide Reach, Submit;
    Here(s);
    if subs != [] {
      var st := StAct(DoSubmit(subs[0].r, subs[0].mapOk, subs[0].chunkOk));
      One(s, st);
      BurstReaches(Apply(s, st), subs[1..]);
      On(s, Apply(s, st), SubmitAll(s, subs));
    }
  }

  // -------------------------------------------------------------------------------------------
  // One chain in any run

  predicate Chain(subs: seq<Submission>)
  {
    subs != [] && forall i :: 0 <= i < |subs| ==> (subs[i].r.flags & FLAG_REQLNK != 0) == (i < |subs| - 1)
  }

  // All of the chain fits the ring, or none of it does.
  predicate Undivided(s: Sys, chain: seq<Submission>)
  {
    Occupancy(s) + |chain| <= s.n || Occupancy(s) == s.n
  }

  lemma ChainJoint(chain: seq<Submission>, serial: nat)
    requires Chain(chain)
    ensures Joint(Made(chain, serial))
  {
  }

  // Where a burst accepted as a whole goes.
  lemma BurstPlaces(s: Sys, subs: seq<Submission>)
    requires RingOk(s) && AllAccepted(s, subs)
    ensures var (s', xs) := (SubmitAll(s, subs), Made(subs, |s.log.accepted|));
            var room := Min(|xs|, s.n - Occupancy(s));
            0 <= room && Ring(s') == Ring(s) + xs[..room] && s'.ofq.items == s.ofq.items + xs[room..]
  {
    hide Ring, Made, AllAccepted, SubmitAll, MakeSqe;
    BurstFillsRingFirst(s, subs);
    BurstAccepted(s, subs);
    var xs := Made(subs, |s.log.accepted|);
    assert (s.log.accepted + xs)[|s.log.accepted|..] == xs;
  }

  lemma BlockAtEnd(f: Flow, ring: seq<Sqe>, ofq: seq<Sqe>, xs: seq<Sqe>)
    requires f.ring == ring + xs || f.ofq == ofq + xs
    ensures Block(Places(f), xs)
  {
    if f.ring == ring + xs {
      assert BlockAt(Places(f), |f.batches|, |ring|, xs);
    } else {
      assert BlockAt(Places(f), |f.batches| + 1, |ofq|, xs);
    }
  }

  // The chain right after it was submitted.
  lemma ChainSubmitted(s: Sys, chain: seq<Submission>)
    requires RingOk(s) && Chain(chain) && AllAccepted(s, chain)
    ensures var f, xs, room := FlowOf(SubmitAll(s, chain)), Made(chain, |s.log.accepted|), s.n - Occupancy(s);
            if Undivided(s, chain) then Block(Places(f), xs)
            else 0 < room < |xs| && xs[room - 1] in f.ring && xs[room] in f.ofq
  {
    hide Ring, Made, AllAccepted, SubmitAll, MakeSqe, Block, Places;
    var xs, room := Made(chain, |s.log.accepted|), s.n - Occupancy(s);
    BurstPlaces(s, chain);
    if Occupancy(s) + |chain| <= s.n {
      assert xs[..|xs|] == xs;
      BlockAtEnd(FlowOf(SubmitAll(s, chain)), Ring(s), s.ofq.items, xs);
    } else if Occupancy(s) == s.n {
      assert xs[0..] == xs;
      BlockAtEnd(FlowOf(SubmitAll(s, chain)), Ring(s), s.ofq.items, xs);
    } else {
      assert xs[..room][room - 1] == xs[room - 1] && xs[room..][0] == xs[room];
    }
  }

  // Submissions in ring and overflow queue do not stand side by side.
  lemma ApartInPlaces(f: Flow, a: Sqe, b: Sqe)
    requires Counted(f) && a in f.ring && b in f.ofq
    ensures !Block(Places(f), [a, b])
  {
    hide Counted;
    var rows, n := Places(f), |f.batches|;
    forall p, j | 0 <= p < |rows| && 0 <= j < |rows[p]| - 1 ensures !BlockAt(rows, p, j, [a, b]) {
      assert rows[p][j..j + 2] == [rows[p][j], rows[p][j + 1]];
      if rows[p][j] == a {
        OnePlace(f, p, n, a);
      }
      if rows[p][j + 1] == b {
        OnePlace(f, p, n + 1, b);
      }
    }
  }

  lemma {:induction false} PartedStaysAll(f: Flow, ms: seq<Move>, a: Sqe, i: nat)
    requires MovesOk(f, ms) && Counted(f) && i < |f.accepted|
    requires !Block(Places(f), [a, f.accepted[i]])
    ensures !Block(Places(MovedAll(f, ms)), [a, f.accepted[i]])
    decreases |ms|
  {
    hide Block, Places, Tears, EndsLinked, Counted, Serial;
    if ms != [] {
      var f1 := Moved(f, ms[0]);
      MoveCounts(f, ms[0]);
      PartedStays(f, ms[0], a, i);
      PartedStaysAll(f1, ms[1..], a, i);
    }
  }

  lemma PairInBlock(rows: seq<seq<Sqe>>, xs: seq<Sqe>, i: nat)
    requires Block(rows, xs) && i + 1 < |xs|
    ensures Block(rows, [xs[i], xs[i + 1]])
  {
    var p, j :| BlockAt(rows, p, j, xs);
    assert rows[p][j..j + |xs|][i] == rows[p][j + i] && rows[p][j..j + |xs|][i + 1] == rows[p][j + i + 1];
    assert BlockAt(rows, p, j + i, [xs[i], xs[i + 1]]);
  }

  lemma {:induction false} MovesCount(f: Flow, ms: seq<Move>)
    requires MovesOk(f, ms) && Counted(f)
    ensures Counted(MovedAll(f, ms))
    decreases |ms|
  {
    hide Moved, MoveOk, Counted;
    if ms != [] {
      MoveCounts(f, ms[0]);
      MovesCount(Moved(f, ms[0]), ms[1..]);
    }
  }

  // What becomes of a chain on the way from s1, where it is submitted, to f.
  lemma ChainOnTheWay(s1: Sys, chain: seq<Submission>, ms: seq<Move>)
    requires RingOk(s1) && Chain(chain) && AllAccepted(s1, chain)
    requires var f := FlowOf(SubmitAll(s1, chain));
             Counted(f) && MovesOk(f, ms)
    ensures var end, xs := MovedAll(FlowOf(SubmitAll(s1, chain)), ms), Made(chain, |s1.log.accepted|);
            Block(Places(end), xs) <==> Undivided(s1, chain)
  {
    hide Counted, Block, Places, FlowOf;
    var s2, xs, room := SubmitAll(s1, chain), Made(chain, |s1.log.accepted|), s1.n - Occupancy(s1);
    var f := FlowOf(s2);
    ChainSubmitted(s1, chain);
    if Undivided(s1, chain) {
      ChainJoint(chain, |s1.log.accepted|);
      BlockStaysAll(f, ms, xs);
    } else {
      ApartInPlaces(f, xs[room - 1], xs[room]);
      BurstAccepted(s1, chain);
      AcceptedOfFlow(s2);
      var i := |s1.log.accepted| + room;
      assert f.accepted[i] == xs[room];
      PartedStaysAll(f, ms, xs[room - 1], i);
      if Block(Places(MovedAll(f, ms)), xs) {
        PairInBlock(Places(MovedAll(f, ms)), xs, room - 1);
      }
    }
  }

  lemma AcceptedOfFlow(s: Sys)
    ensures FlowOf(s).accepted == s.log.accepted && FlowOf(s).batches == s.log.batches
  {
  }

  lemma {:induction false} InSomeRow(rows: seq<seq<Sqe>>, x: Sqe) returns (p: nat)
    requires x in Joined(rows)
    ensures p < |rows| && x in rows[p]
    decreases |rows|
  {
    var last := |rows| - 1;
    if x in rows[last] {
      p := last;
    } else {
      p := InSomeRow(rows[..last], x);
    }
  }

  // A block whose first entry the kernel has taken is in the batch with it.
  lemma BlockInBatch(f: Flow, xs: seq<Sqe>)
    requires Counted(f) && xs != [] && xs[0] in Joined(f.batches)
    ensures Block(f.batches, xs) <==> Block(Places(f), xs)
  {
    hide Counted;
    if Block(Places(f), xs) {
      var p, j :| BlockAt(Places(f), p, j, xs);
      assert Places(f)[p][j..j + |xs|][0] == Places(f)[p][j];
      var q := InSomeRow(f.batches, xs[0]);
      OnePlace(f, p, q, xs[0]);
      assert BlockAt(f.batches, q, j, xs);
    }
    if Block(f.batches, xs) {
      var p, j :| BlockAt(f.batches, p, j, xs);
      assert BlockAt(Places(f), p, j, xs);
    }
  }

  lemma LossyReach(s: Sys, s': Sys)
    requires Reach(s, s')
    ensures s.log.lossy ==> s'.log.lossy
  {
    var steps :| EnabledAll(s, steps) && ApplyAll(s, steps) == s';
    LossyStaysAll(s, steps);
  }

  /** Only the drain looks at links; submission does not. In any run that loses nothing and in
      which no walk leaves the queue, a chain submitted at some point stands in one piece in one
      place ever after, and once the kernel has taken its first entry it has taken the whole chain
      in that batch, if and only if, when it was submitted, all of it fitted the ring or none of
      it did. */
  lemma ChainStaysWhole(s0: Sys, before: seq<Call>, chain: seq<Submission>, after: seq<Call>, script: Script)
    requires Initial(s0) && (forall c :: c in before ==> CallOk(c)) && (forall c :: c in after ==> CallOk(c))
    requires Chain(chain)
    ensures var s1 := Run(s0, before, script);
            var s3, xs := Run(SubmitAll(s1, chain), after, script), Made(chain, |s1.log.accepted|);
            AllAccepted(s1, chain) && !s3.log.stray && !s3.log.lossy ==>
              && (Block(Places(FlowOf(s3)), xs) <==> Undivided(s1, chain))
              && (xs[0] in Joined(s3.log.batches) ==> (Block(s3.log.batches, xs) <==> Undivided(s1, chain)))
  {
    hide Run, Inv, Counted, Block, Places, FlowOf, SubmitAll, AllAccepted, Undivided, Chain;
    var s1 := Run(s0, before, script);
    var s2 := SubmitAll(s1, chain);
    var s3 := Run(s2, after, script);
    RunReaches(s0, before, script);
    BurstReaches(s1, chain);
    RunReaches(s2, after, script);
    InitialInv(s0);
    ReachKeepsInv(s0, s1);
    ReachKeepsInv(s1, s2);
    On(s0, s1, s2);
    LossyReach(s2, s3);
    if AllAccepted(s1, chain) && !s3.log.lossy {
      ChainInRun(s0, s1, s2, s3, chain);
    }
  }

  lemma ChainInRun(s0: Sys, s1: Sys, s2: Sys, s3: Sys, chain: seq<Submission>)
    requires Initial(s0) && Inv(s0) && Inv(s1) && Inv(s2) && Reach(s0, s2) && Reach(s2, s3)
    requires Chain(chain) && AllAccepted(s1, chain) && s2 == SubmitAll(s1, chain)
    requires !s2.log.lossy && !s3.log.lossy
    ensures var xs := Made(chain, |s1.log.accepted|);
            && (Block(Places(FlowOf(s3)), xs) <==> Undivided(s1, chain))
            && (xs[0] in Joined(s3.log.batches) ==> (Block(s3.log.batches, xs) <==> Undivided(s1, chain)))
  {
    hide Traffic, Accounted, Counted, Block, Places, FlowOf, SubmitAll, AllAccepted, Undivided, Initial;
    InitialFlow(s0);
    var to2 := ReachMoves(s0, s2);
    MovesCount(FlowOf(s0), to2);
    var to3 := ReachMoves(s2, s3);
    MovesCount(FlowOf(s2), to3);
    TrafficRing(s1);
    AcceptedOfFlow(s3);
    ChainOnTheWay(s1, chain, to3);
    if Made(chain, |s1.log.accepted|)[0] in Joined(s3.log.batches) {
      BlockInBatch(FlowOf(s3), Made(chain, |s1.log.accepted|));
    }
  }
}
