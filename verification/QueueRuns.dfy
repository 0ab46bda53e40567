/** What holds of the chunked queue over every run of its operations. */
module QueueRuns {
  import opened Arith
  import opened QueueSpec

  datatype Op<T> =
    | OpPush(v: T, mapOk: bool, chunkOk: bool)
    | OpPop(chunkStop: nat, osStop: nat)
    | OpPopTo(n: nat)
    | OpTrim(ok: bool)
    | OpQTrim(ok: bool)

  // What an operation returns; Moved: how far the cursors moved towards the start of the map.
  datatype Out<T> = Accepted(ok: bool) | Popped(v: Option<T>, code: int) | Block(s: seq<T>) | Moved(down: int)

  // One operation of the queue; literal: bulk removal advances as line 172 of the header does.
  function Step<T>(g: Geometry, q: QView<T>, op: Op<T>, literal: bool): (QView<T>, Out<T>)
    requires g.Valid()
  {
    match op
    case OpPush(v, mapOk, chunkOk) => var (q', ok) := Push(g, q, v, mapOk, chunkOk); (q', Accepted(ok))
    case OpPop(chunkStop, osStop) => var (q', v, code) := Pop(g, q, chunkStop, osStop); (q', Popped(v, code))
    case OpPopTo(n) => var (q', s) := PopTo(g, q, n, literal); (q', Block(s))
    case OpTrim(ok) => var q' := Trim(g, q, ok); (q', Moved(q.front - q'.front))
    case OpQTrim(ok) => var q' := QTrim(g, q, ok); (q', Moved(q.front - q'.front))
  }

  function Run<T>(g: Geometry, q: QView<T>, ops: seq<Op<T>>, literal: bool): (QView<T>, seq<Out<T>>)
    requires g.Valid()
    decreases |ops|
  {
    if ops == [] then (q, [])
    else
      var (q1, out) := Step(g, q, ops[0], literal);
      var (q2, outs) := Run(g, q1, ops[1..], literal);
      (q2, [out] + outs)
  }

  // Whether an operation keeps every element it does not hand out: all but the bulk removals
  // that line 172 gets wrong.
  predicate Keeps<T>(g: Geometry, q: QView<T>, op: Op<T>, literal: bool)
    requires g.Valid()
  {
    op.OpPopTo? && literal ==> op.n == 0 || op.n >= |q.items| || (q.front + op.n) % g.c == 0
  }

  // Every operation of the run does; a caller can check it before each call.
  predicate Lossless<T>(g: Geometry, q: QView<T>, ops: seq<Op<T>>, literal: bool)
    requires g.Valid()
    decreases |ops|
  {
    ops == [] || (Keeps(g, q, ops[0], literal) && Lossless(g, Step(g, q, ops[0], literal).0, ops[1..], literal))
  }

  // -------------------------------------------------------------------------------------------
  // Refinement of a plain FIFO

  // A sequence, and the position of its front: the number of elements taken since positions
  // last started from 0. Stop cursors are positions.
  datatype Fifo<T> = Fifo(at: int, s: seq<T>)

  function AsFifo<T>(q: QView<T>): Fifo<T>
  {
    Fifo(q.front, q.items)
  }

  // Position p is the cursor (chunk, os), with c elements to a chunk.
  predicate Reached(p: int, chunk: nat, os: nat, c: nat)
  {
    os < c && p == chunk * c + os
  }

  // How far trimming moves the positions down: to the first chunk, or to 0 when empty.
  function Shift<T>(f: Fifo<T>, c: nat): int
    requires c > 0
  {
    if f.s == [] then f.at else f.at - f.at % c
  }

  // The outputs the FIFO may give. A push is refused only where a chunk begins, and then if the
  // chunk is not to be had. The code of a pop is 1 exactly for the last element and for the one
  // before the stop cursor.
  ghost predicate FifoAllows<T>(f: Fifo<T>, op: Op<T>, out: Out<T>, c: nat)
    requires c > 0
  {
    match op
    case OpPush(_, mapOk, chunkOk) =>
      var begins := (f.at + |f.s|) % c == 0;
      && out.Accepted?
      && (!begins || (mapOk && chunkOk) ==> out.ok)
      && (begins && !chunkOk ==> !out.ok)
    case OpPop(chunkStop, osStop) =>
      if f.s == [] then out == Popped(None, -1)
      else out == Popped(Some(f.s[0]), if |f.s| == 1 || Reached(f.at + 1, chunkStop, osStop, c) then 1 else 0)
    case OpPopTo(n) => out == Block(f.s[..Min(n, |f.s|)])
    case OpTrim(_) => out == Moved(Shift(f, c))
    case OpQTrim(_) => out == Moved(0) || out == Moved(Shift(f, c))
  }

  ghost function FifoNext<T>(f: Fifo<T>, op: Op<T>, out: Out<T>): Fifo<T>
  {
    match op
    case OpPush(v, _, _) => if out.Accepted? && out.ok then f.(s := f.s + [v]) else f
    case OpPop(_, _) =>
      if f.s == [] then f else if |f.s| == 1 then Fifo(0, []) else Fifo(f.at + 1, f.s[1..])
    case OpPopTo(n) => if n > |f.s| then Fifo(0, []) else Fifo(f.at + n, f.s[n..])
    case OpTrim(_) => if out.Moved? then f.(at := f.at - out.down) else f
    case OpQTrim(_) => if out.Moved? then f.(at := f.at - out.down) else f
  }

  ghost predicate FifoRun<T>(f: Fifo<T>, ops: seq<Op<T>>, outs: seq<Out<T>>, end: Fifo<T>, c: nat)
    requires |ops| == |outs| && c > 0
    decreases |ops|
  {
    if ops == [] then end == f
    else FifoAllows(f, ops[0], outs[0], c) && FifoRun(FifoNext(f, ops[0], outs[0]), ops[1..], outs[1..], end, c)
  }

  /** A new queue is empty and has room for the chunks asked for, and no more than that or
      MinChunks. */
  lemma InitHasRoom<T>(g: Geometry, initcap: nat)
    requires g.Valid()
    ensures var q := Init<T>(g, initcap);
            && q.Valid(g) && q.items == [] && q.front == 0
            && initcap <= q.cap && g.m <= q.cap && (q.cap == initcap || q.cap == g.m)
  {
    ValidIsBound(g, Init<T>(g, initcap));
    MulLe(0, Init<T>(g, initcap).cap, g.c);
  }

  lemma PositionBound(p: nat, cap: nat, c: nat)
    requires c > 0 && p <= cap * c
    ensures (p + 1) <= cap * c || (p % c == 0 && p / c >= cap)
    ensures p + 1 <= 2 * cap * c || cap == 0
  {
    DivMod(p, c);
    if p == cap * c {
      MultipleMod(cap, c);
    }
    MulAssoc(2, cap, c);
    if cap > 0 {
      MulLe(1, cap, c);
    }
  }

  lemma PushStep<T>(g: Geometry, q: QView<T>, v: T, mapOk: bool, chunkOk: bool)
    requires q.Valid(g)
    ensures Push(g, q, v, mapOk, chunkOk).0.Valid(g)
    ensures mapOk && chunkOk ==> Granted(g, q, mapOk, chunkOk)
  {
    var q' := Push(g, q, v, mapOk, chunkOk).0;
    ValidIsBound(g, q);
    ValidIsBound(g, q');
    PositionBound(q.Back(), q.cap, g.c);
    MulLe(q.cap, q'.cap, g.c);
  }

  lemma PopStep<T>(g: Geometry, q: QView<T>, chunkStop: nat, osStop: nat)
    requires q.Valid(g)
    ensures Pop(g, q, chunkStop, osStop).0.Valid(g)
  {
    ValidIsBound(g, q);
    ValidIsBound(g, Pop(g, q, chunkStop, osStop).0);
  }

  lemma PopToStep<T>(g: Geometry, q: QView<T>, n: nat, literal: bool)
    requires q.Valid(g)
    ensures PopTo(g, q, n, literal).0.Valid(g)
  {
    ValidIsBound(g, q);
    ValidIsBound(g, PopTo(g, q, n, literal).0);
    LandingBounds(g, q, Min(n, |q.items|), literal);
  }

  // The number of live chunks is what the shifted cursors need of the map.
  lemma LiveCovers<T>(g: Geometry, q: QView<T>)
    requires g.Valid()
    ensures 0 <= q.Live(g)
    ensures q.OsS(g) + |q.items| <= q.Live(g) * g.c
    ensures q.items != [] ==> q.Live(g) >= 1
    ensures q.Live(g) <= q.ChunkE(g) + 1 - q.ChunkS(g)
  {
    BackIsCursor(g, q);
    Distribute(q.ChunkE(g), q.ChunkS(g), g.c);
    Distribute(q.ChunkE(g) - q.ChunkS(g), 1, g.c);
    if q.Live(g) == 0 {
      assert q.ChunkE(g) == q.ChunkS(g);
    }
  }

  lemma TrimStep<T>(g: Geometry, q: QView<T>, ok: bool)
    requires q.Valid(g)
    ensures Trim(g, q, ok).Valid(g)
  {
    var q' := Trim(g, q, ok);
    LiveCovers(g, q);
    ValidIsBound(g, q);
    ValidIsBound(g, q');
    BackIsCursor(g, q);
    MulLe(0, q.ChunkS(g), g.c);
    if q.items == [] {
      MulLe(0, q'.cap, g.c);
    } else if ok {
      MulLe(q.Live(g), q'.cap, g.c);
    }
  }

  // The last live chunk is needed.
  lemma LiveNeeded<T>(g: Geometry, q: QView<T>)
    requires g.Valid() && q.items != []
    ensures (q.Live(g) - 1) * g.c < q.OsS(g) + |q.items|
  {
    BackIsCursor(g, q);
    Distribute(q.ChunkE(g), q.ChunkS(g), g.c);
    Distribute(q.ChunkE(g) - q.ChunkS(g), 1, g.c);
  }

  /** Trimming keeps the elements, moves the front into the first chunk, and, when the realloc
      works, leaves the smallest map of at least MinChunks entries that holds them; otherwise the
      map keeps its size. */
  lemma TrimIsTight<T>(g: Geometry, q: QView<T>, ok: bool)
    requires q.Valid(g)
    ensures var q' := Trim(g, q, ok);
            && q'.items == q.items && q'.ChunkS(g) == 0 && (q.items == [] ==> q'.front == 0)
            && (q.items != [] ==> q'.OsS(g) == q.OsS(g))
            && q'.Valid(g)
            && (ok ==> forall cap: nat :: q'.(cap := cap).Valid(g) ==> q'.cap <= cap)
            && (!ok ==> q'.cap == q.cap)
  {
    var q' := Trim(g, q, ok);
    TrimStep(g, q, ok);
    BackIsCursor(g, q);
    ModSmall(q'.front, g.c);
    if ok {
      forall cap: nat | q'.(cap := cap).Valid(g) ensures q'.cap <= cap {
        ValidIsBound(g, q'.(cap := cap));
        if q.items != [] {
          LiveNeeded(g, q);
          if cap <= q.Live(g) - 1 {
            MulLe(cap, q.Live(g) - 1, g.c);
          }
        }
      }
    }
  }

  lemma StepValid<T>(g: Geometry, q: QView<T>, op: Op<T>, literal: bool)
    requires q.Valid(g)
    ensures Step(g, q, op, literal).0.Valid(g)
  {
    match op
    case OpPush(v, mapOk, chunkOk) => PushStep(g, q, v, mapOk, chunkOk);
    case OpPop(chunkStop, osStop) => PopStep(g, q, chunkStop, osStop);
    case OpPopTo(n) => PopToStep(g, q, n, literal);
    case OpTrim(ok) => TrimStep(g, q, ok);
    case OpQTrim(ok) => TrimStep(g, q, ok);
  }

  // Comparing a position's chunk and offset with a cursor is comparing positions.
  lemma CursorReached(p: nat, chunk: nat, os: nat, c: nat)
    requires c > 0
    ensures p / c == chunk && p % c == os <==> Reached(p, chunk, os, c)
  {
    DivMod(p, c);
    if os < c {
      DivModUnique(chunk, c, os);
    }
  }

  /** One operation: its output is one the FIFO gives, and the contents and front position
      afterwards are the FIFO's exactly when it keeps what it does not hand out. */
  lemma StepIsFifo<T>(g: Geometry, q: QView<T>, op: Op<T>, literal: bool)
    requires q.Valid(g)
    ensures FifoAllows(AsFifo(q), op, Step(g, q, op, literal).1, g.c)
    ensures FifoNext(AsFifo(q), op, Step(g, q, op, literal).1) == AsFifo(Step(g, q, op, literal).0)
       <==> Keeps(g, q, op, literal)
  {
    match op
    case OpPush(v, mapOk, chunkOk) =>
    case OpPop(chunkStop, osStop) => CursorReached(q.front + 1, chunkStop, osStop, g.c);
    case OpPopTo(n) => LandingBounds(g, q, Min(n, |q.items|), literal);
    case OpTrim(ok) =>
    case OpQTrim(ok) =>
  }

  /** Every run from every valid state, with either advance: the cursors still fit the map, and
      outputs, contents and front position are those of a plain FIFO exactly when no bulk removal
      of the run drops elements. With the intended advance none does. A refused push leaves
      the contents as they were even if the map had already been grown. */
  lemma {:induction false} QueueRefinesFifo<T>(g: Geometry, q: QView<T>, ops: seq<Op<T>>, literal: bool)
    requires q.Valid(g)
    ensures |Run(g, q, ops, literal).1| == |ops|
    ensures var (q', outs) := Run(g, q, ops, literal);
            && q'.Valid(g)
            && (FifoRun(AsFifo(q), ops, outs, AsFifo(q'), g.c) <==> Lossless(g, q, ops, literal))
    ensures !literal ==> Lossless(g, q, ops, literal)
    decreases |ops|
  {
    if ops != [] {
      var q1, out := Step(g, q, ops[0], literal).0, Step(g, q, ops[0], literal).1;
      StepValid(g, q, ops[0], literal);
      StepIsFifo(g, q, ops[0], literal);
      QueueRefinesFifo(g, q1, ops[1..], literal);
      var (q', outs) := Run(g, q, ops, literal);
      assert outs[1..] == Run(g, q1, ops[1..], literal).1;
      if !Keeps(g, q, ops[0], literal) && FifoRun(AsFifo(q), ops, outs, AsFifo(q'), g.c) {
        FifoBalance(AsFifo(q), ops, outs, AsFifo(q'), g.c);
        QueueConserves(g, q, ops, literal);
        SameLength(Taken(outs) + q'.items, q.items + Given(ops, outs));
      }
    }
  }

  lemma SameLength<T>(a: seq<T>, b: seq<T>)
    ensures a == b ==> |a| == |b|
  {
  }

  function TakenBy<T>(out: Out<T>): seq<T>
  {
    match out
    case Popped(Some(v), _) => [v]
    case Block(s) => s
    case _ => []
  }

  function Taken<T>(outs: seq<Out<T>>): seq<T>
  {
    if outs == [] then [] else TakenBy(outs[0]) + Taken(outs[1..])
  }

  function GivenBy<T>(op: Op<T>, out: Out<T>): seq<T>
  {
    if op.OpPush? && out.Accepted? && out.ok then [op.v] else []
  }

  function Given<T>(ops: seq<Op<T>>, outs: seq<Out<T>>): seq<T>
    requires |ops| == |outs|
  {
    if ops == [] then [] else GivenBy(ops[0], outs[0]) + Given(ops[1..], outs[1..])
  }

  /** Over every run, with either advance: what was taken out, followed by what is left, is what
      was there followed by what was accepted, exactly when no bulk removal of the run drops
      elements; otherwise there is less of it. */
  lemma {:induction false} QueueConserves<T>(g: Geometry, q: QView<T>, ops: seq<Op<T>>, literal: bool)
    requires q.Valid(g)
    ensures |Run(g, q, ops, literal).1| == |ops|
    ensures var (q', outs) := Run(g, q, ops, literal);
            && (Taken(outs) + q'.items == q.items + Given(ops, outs) <==> Lossless(g, q, ops, literal))
            && (Lossless(g, q, ops, literal) || |Taken(outs) + q'.items| < |q.items + Given(ops, outs)|)
    decreases |ops|
  {
    if ops != [] {
      StepValid(g, q, ops[0], literal);
      StepConserves(g, q, ops[0], literal);
      var (q1, out) := Step(g, q, ops[0], literal);
      QueueConserves(g, q1, ops[1..], literal);
      var (q', outs) := Run(g, q, ops, literal);
      assert outs[1..] == Run(g, q1, ops[1..], literal).1;
      Glue(TakenBy(out), q1.items, q.items, GivenBy(ops[0], out),
           Taken(outs[1..]), q'.items, Given(ops[1..], outs[1..]));
    }
  }

  lemma StepConserves<T>(g: Geometry, q: QView<T>, op: Op<T>, literal: bool)
    requires q.Valid(g)
    ensures var (q', out) := Step(g, q, op, literal);
            && (Keeps(g, q, op, literal) ==> TakenBy(out) + q'.items == q.items + GivenBy(op, out))
            && (Keeps(g, q, op, literal) || |TakenBy(out) + q'.items| < |q.items + GivenBy(op, out)|)
  {
    hide Landing, Trim, QTrim, Push;
    match op
    case OpPopTo(n) => PopToConserves(g, q, n, literal);
    case _ => StepIsFifo(g, q, op, literal);
  }

  lemma PopToConserves<T>(g: Geometry, q: QView<T>, n: nat, literal: bool)
    requires g.Valid()
    ensures var (q', out) := PopTo(g, q, n, literal);
            var keeps := Keeps(g, q, OpPopTo(n), literal);
            && (keeps ==> out + q'.items == q.items)
            && (keeps || |out + q'.items| < |q.items|)
  {
    hide Landing;
    LandingBounds(g, q, Min(n, |q.items|), literal);
  }

  // What a FIFO run takes out and leaves is as much as was there and was accepted.
  lemma {:induction false} FifoBalance<T>(f: Fifo<T>, ops: seq<Op<T>>, outs: seq<Out<T>>, end: Fifo<T>, c: nat)
    requires |ops| == |outs| && c > 0 && FifoRun(f, ops, outs, end, c)
    ensures |Taken(outs) + end.s| == |f.s + Given(ops, outs)|
    decreases |ops|
  {
    if ops != [] {
      FifoBalance(FifoNext(f, ops[0], outs[0]), ops[1..], outs[1..], end, c);
    }
  }

  // Two stretches of a run, one after the other.
  lemma Glue<T>(t: seq<T>, mid: seq<T>, start: seq<T>, b: seq<T>, t': seq<T>, end: seq<T>, b': seq<T>)
    ensures |t + t' + end| - |start + (b + b')| == (|t + mid| - |start + b|) + (|t' + end| - |mid + b'|)
    ensures t + mid == start + b && t' + end == mid + b' ==> t + t' + end == start + (b + b')
  {
    if t + mid == start + b && t' + end == mid + b' {
      assert t + t' + end == t + (t' + end);
      assert t + (mid + b') == t + mid + b';
      assert start + b + b' == start + (b + b');
    }
  }

  // -------------------------------------------------------------------------------------------
  // Bulk removal and single removal

  function PopMany<T>(g: Geometry, q: QView<T>, n: nat): (QView<T>, seq<T>)
    requires g.Valid()
    decreases n
  {
    if n == 0 || q.items == [] then (q, [])
    else
      var (q1, v, _) := Pop(g, q, 0, 0);
      var (q2, s) := PopMany(g, q1, n - 1);
      (q2, [v.value] + s)
  }

  /** pop_to(n) takes the same elements as n single pops, leaves the same elements behind, and
      takes min(n, size) of them. */
  lemma {:induction false} BulkEqualsSingle<T>(g: Geometry, q: QView<T>, n: nat)
    requires g.Valid()
    ensures PopTo(g, q, n, false).1 == PopMany(g, q, n).1
    ensures PopTo(g, q, n, false).0.items == PopMany(g, q, n).0.items
    ensures |PopTo(g, q, n, false).1| == Min(n, |q.items|)
    decreases n
  {
    if n != 0 && q.items != [] {
      var q1 := Pop(g, q, 0, 0).0;
      assert q1.items == q.items[1..];
      BulkEqualsSingle(g, q1, n - 1);
    }
  }

  /** The advance as line 172 writes it still copies the right elements, and it keeps the
      elements not copied exactly when the request empties the queue, or ends at the end of a
      chunk. A caller can check this before the call. */
  lemma LiteralAdvanceConserves<T>(g: Geometry, q: QView<T>, n: nat)
    requires g.Valid()
    ensures PopTo(g, q, n, true).1 == PopTo(g, q, n, false).1
    ensures var (q', out) := PopTo(g, q, n, true);
            out + q'.items == q.items <==> n == 0 || n >= |q.items| || (q.front + n) % g.c == 0
    ensures n == 0 || n >= |q.items| || (q.front + n) % g.c == 0
       <==> PopTo(g, q, n, true) == PopTo(g, q, n, false)
  {
    if 0 < n <= |q.items| {
      LandingBounds(g, q, n, true);
      var (q', out) := PopTo(g, q, n, true);
      assert |out + q'.items| == |q.items| - (Landing(g, q, n, true) - q.front - n);
    }
  }

  // One element popped from a chunk of two loses the other: 7 is copied out and 8 is gone.
  lemma LiteralAdvanceLoses()
    ensures PopTo(Geometry(2, 1), QView(1, 0, [7, 8]), 1, true) == (QView(1, 2, []), [7])
    ensures PopTo(Geometry(2, 1), QView(1, 0, [7, 8]), 1, false) == (QView(1, 1, [8]), [7])
  {
    var g, q := Geometry(2, 1), QView(1, 0, [7, 8]);
    assert Landing(g, q, 1, true) == 2 && Landing(g, q, 1, false) == 1;
    assert q.items[2..] == [] && q.items[1..] == [8] && q.items[..1] == [7];
  }

  // -------------------------------------------------------------------------------------------
  // Map space

  // A removal is followed by qtrim; `ok` is the outcome of the realloc in it.
  function TidyStep<T>(g: Geometry, q: QView<T>, op: Op<T>, ok: bool, literal: bool): QView<T>
    requires g.Valid()
  {
    var q' := Step(g, q, op, literal).0;
    if op.OpPop? || op.OpPopTo? then QTrim(g, q', ok) else q'
  }

  function TidyRun<T>(g: Geometry, q: QView<T>, ops: seq<(Op<T>, bool)>, literal: bool): QView<T>
    requires g.Valid()
    decreases |ops|
  {
    if ops == [] then q else TidyRun(g, TidyStep(g, q, ops[0].0, ops[0].1, literal), ops[1..], literal)
  }

  // The largest number of live chunks in the states the run passes through.
  function PeakLive<T>(g: Geometry, q: QView<T>, ops: seq<(Op<T>, bool)>, literal: bool): int
    requires g.Valid()
    decreases |ops|
  {
    if ops == [] then q.Live(g)
    else Max(q.Live(g), PeakLive(g, TidyStep(g, q, ops[0].0, ops[0].1, literal), ops[1..], literal))
  }

  // The front cursor is in the first eighth of the map.
  predicate Tidy<T>(g: Geometry, q: QView<T>)
  {
    q.Valid(g) && q.ChunkS(g) <= q.cap / 8
  }

  lemma QTrimTidies<T>(g: Geometry, q: QView<T>, ok: bool)
    requires q.Valid(g)
    ensures Tidy(g, QTrim(g, q, ok)) && QTrim(g, q, ok).ChunkS(g) <= 4096
    ensures q.ChunkS(g) <= 4096 && q.ChunkS(g) <= q.cap / 8 ==> QTrim(g, q, ok) == q
    ensures QTrim(g, q, ok).cap <= Max(q.cap, g.m)
  {
    var q' := QTrim(g, q, ok);
    if q' != q {
      TrimStep(g, q, ok);
      BackIsCursor(g, q);
      ModSmall(q'.front, g.c);
      LiveAtMostCap(g, q);
    }
  }

  lemma LiveAtMostCap<T>(g: Geometry, q: QView<T>)
    requires q.Valid(g)
    ensures q.Live(g) <= q.cap - q.ChunkS(g)
  {
  }

  lemma TidyStepKeeps<T>(g: Geometry, q: QView<T>, op: Op<T>, ok: bool, literal: bool)
    requires Tidy(g, q)
    ensures Tidy(g, TidyStep(g, q, op, ok, literal))
    ensures var cap := TidyStep(g, q, op, ok, literal).cap;
            cap <= q.cap || cap <= g.m || 7 * cap <= 16 * q.Live(g)
  {
    StepValid(g, q, op, literal);
    var q' := Step(g, q, op, literal).0;
    match op
    case OpPush(v, mapOk, chunkOk) =>
    case OpPop(_, _) => QTrimTidies(g, q', ok);
    case OpPopTo(_) => QTrimTidies(g, q', ok);
    case OpTrim(t) =>
      BackIsCursor(g, q);
      ModSmall(q'.front, g.c);
      LiveAtMostCap(g, q);
    case OpQTrim(t) => QTrimTidies(g, q, t);
  }

  /** If qtrim follows every removal, the front cursor stays in the first eighth of the map, and
      the map never holds more than the initial capacity, MinChunks, or 16/7 of the peak number
      of live chunks, whichever is largest; with either advance. Shrinking reallocs may fail at
      will. */
  lemma {:induction false} MapSpaceBound<T>(g: Geometry, q: QView<T>, ops: seq<(Op<T>, bool)>, literal: bool)
    requires Tidy(g, q)
    ensures Tidy(g, TidyRun(g, q, ops, literal))
    ensures 7 * TidyRun(g, q, ops, literal).cap <= Max(7 * Max(q.cap, g.m), 16 * PeakLive(g, q, ops, literal))
    decreases |ops|
  {
    if ops != [] {
      var q' := TidyStep(g, q, ops[0].0, ops[0].1, literal);
      TidyStepKeeps(g, q, ops[0].0, ops[0].1, literal);
      MapSpaceBound(g, q', ops[1..], literal);
    }
  }
}
