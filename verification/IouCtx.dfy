/** The event loop context as it runs: the ring arrays shared with the kernel, the counters and
    the three chunked queues are changed in place. Every method is proved against the function
    of the same step in IouSpec. */
module IouContext {
  import opened Arith
  import opened Outcomes
  import opened QueueSpec
  import opened ChunkedQueue
  import opened IouSpec
  import opened IouRing
  import opened IouTasks

  class IouCtx {
    const n: nat           // sring_mask + 1
    const literal: bool    // bulk removal advances as line 172 of que.tpl.h is written
    // Shared with the kernel, which moves sringHead and reads the rest; cringHead too.
    var sringHead: nat
    var sringTail: nat
    const sringArray: array<nat>
    const sqes: array<Sqe>

    var lclStail: nat
    var lclChead: nat
    var cringHead: nat
    const soonque: ChunkQueue<Task>
    const prepque: ChunkQueue<Task>
    const sqofq: ChunkQueue<Sqe>
    var errno: nat
    // Callbacks run so far, submissions accepted so far, and what has happened so far.
    var calls: nat
    var accepted: nat
    ghost var log: Ledger

    ghost const Repr: set<object> := {this, sringArray, sqes, soonque, prepque, sqofq}

    /** A new context over an empty ring of n entries whose counters stand at c. */
    constructor (n: nat, literal: bool, c: nat, chead: nat)
      requires 8 <= n < U32 && U32 % n == 0 && c < U32 && chead < U32
      ensures Valid() && fresh(Repr)
      ensures Initial(View()) && View().n == n && View().literal == literal
    {
      hide ChunkQueue.Valid, ChunkQueue.View;
      this.n, this.literal := n, literal;
      sringHead, sringTail, lclStail, lclChead, cringHead := c, c, c, chead, chead;
      sringArray := new nat[n];
      sqes := new Sqe[n];
      soonque := new ChunkQueue(TASK_GEOMETRY, 0);
      prepque := new ChunkQueue(TASK_GEOMETRY, 0);
      sqofq := new ChunkQueue(SQ_GEOMETRY, 0);
      errno, calls, accepted, log := 0, 0, 0, EMPTY_LEDGER;
      new;
      RingEmpty(View());
    }

    // The index array sends every live position to its own slot.
    ghost predicate Indexed(from: nat, count: nat)
      requires n == sringArray.Length > 0
      reads sringArray
    {
      forall j: nat :: j < count ==> sringArray[Slot(from, j)] == Slot(from, j)
    }

    function Slot(from: nat, j: nat): (i: nat)
      requires n > 0
      ensures i < n
    {
      (from + j) % n
    }

    ghost predicate Distinct()
    {
      var a: object, e: object := sringArray, sqes;
      var q: object, p: object, o: object := soonque, prepque, sqofq;
      && a != e && a != q && a != p && a != o && a != this
      && e != q && e != p && e != o && e != this
      && q != p && q != o && q != this && p != o && p != this && o != this
    }

    ghost predicate Arrays()
      ensures Arrays() ==> n == sringArray.Length == sqes.Length > 0
    {
      Distinct() && n == sringArray.Length == sqes.Length > 0
    }

    ghost predicate Queues()
      reads soonque, prepque, sqofq
    {
      && soonque.Valid() && soonque.g == TASK_GEOMETRY
      && prepque.Valid() && prepque.g == TASK_GEOMETRY
      && sqofq.Valid() && sqofq.g == SQ_GEOMETRY
    }

    ghost predicate Valid()
      reads Repr
      ensures Valid() ==> n == sringArray.Length == sqes.Length > 0
    {
      && Arrays() && Queues()
      && RingOk(View()) && accepted == |log.accepted|
      && Indexed(sringHead, Occupancy(View()))
    }

    ghost function View(): Sys
      requires n == sqes.Length > 0
      reads Repr
    {
      SysData(n, literal, sringHead, sringTail, lclStail, sqes[..],
              sqofq.View(), soonque.View(), prepque.View(), lclChead, cringHead, errno, calls, log)
    }

    /** What the kernel reads from one counter up to another: through the index array. */
    ghost function ReadsFrom(head: nat, tail: nat): seq<Sqe>
      requires n == sringArray.Length == sqes.Length > 0
      reads sringArray, sqes
    {
      seq((tail - head) % U32,
          j requires 0 <= j < (tail - head) % U32 reads sringArray, sqes =>
            var i := sringArray[Slot(head, j)]; if i < n then sqes[i] else BLANK)
    }

    // From its head up to the published tail.
    ghost function KernelReads(): seq<Sqe>
      requires Valid()
      reads Repr
    {
      ReadsFrom(sringHead, sringTail)
    }

    // Once the tail is published, that is the ring.
    lemma KernelReadsRing()
      requires Valid() && sringTail == lclStail
      ensures KernelReads() == Visible(View()) == Ring(View())
    {
      hide ChunkQueue.Valid, RingOk;
      forall j: nat | j < Occupancy(View()) ensures KernelReads()[j] == Ring(View())[j] {
        assert sringArray[Slot(sringHead, j)] == Slot(sringHead, j);
      }
    }

    /** submit_to_sq. The result is the user data of an accepted request, and NULL otherwise. */
    method SubmitToSq(r: Request, mapOk: bool, chunkOk: bool) returns (ret: nat)
      requires Valid()
      modifies Repr
      ensures Valid()
      ensures View() == Submit(old(View()), r, mapOk, chunkOk).0
      ensures ret == if Submit(old(View()), r, mapOk, chunkOk).1 then r.userData else 0
    {
      hide Valid, MakeSqe, Accept, QueueSpec.Push, ChunkQueue.View, SubmitFlagsOk;
      ValidFacts();
      var tail := lclStail;
      var sqEnts := (tail - sringHead) % U32;
      if !SubmitFlagsOk(r.flags) {
        SetErrno(EINVAL);
        return 0;
      }
      var sqe := MakeSqe(r, accepted);
      if sqEnts == n {
        var ok := PushOverflow(sqe, mapOk, chunkOk);
        if !ok {
          return 0;
        }
      } else {
        WriteSlot(sqe);
      }
      ret := r.userData;
    }

    lemma ValidFacts()
      requires Valid()
      ensures Arrays() && Queues() && Distinct()
      ensures accepted == |log.accepted|
      ensures RingOk(View()) && sqofq.g == SQ_GEOMETRY && soonque.g == prepque.g == TASK_GEOMETRY
      ensures sqofq.Valid() && soonque.Valid() && prepque.Valid()
      ensures Indexed(sringHead, Occupancy(View()))
    {
    }

    method SetErrno(e: nat)
      requires Valid()
      modifies this`errno
      ensures Valid() && View() == old(View()).(errno := e)
    {
      hide ChunkQueue.Valid;
      errno := e;
    }

    // The ring is full: the entry goes to the overflow queue.
    method PushOverflow(sqe: Sqe, mapOk: bool, chunkOk: bool) returns (ok: bool)
      requires Valid()
      modifies this`errno, this`accepted, this`log, sqofq
      ensures Valid()
      ensures ok == QueueSpec.Push(SQ_GEOMETRY, old(View()).ofq, sqe, mapOk, chunkOk).1
      ensures var q := QueueSpec.Push(SQ_GEOMETRY, old(View()).ofq, sqe, mapOk, chunkOk).0;
              View() == if ok then old(View()).(ofq := q, log := Accept(old(log), sqe, old(View()).ofq.items))
                        else old(View()).(ofq := q, errno := ENOMEM)
    {
      hide ChunkQueue.Valid, ChunkQueue.View, QueueSpec.Push, Accept;
      ghost var place := sqofq.contents;
      ok := sqofq.Push(sqe, mapOk, chunkOk);
      if ok {
        log := Accept(log, sqe, place);
        accepted := accepted + 1;
        AcceptsOne(old(log), sqe, place);
      } else {
        errno := ENOMEM;
      }
    }

    // Write the entry at the local tail and move the tail.
    method WriteSlot(sqe: Sqe)
      requires Valid() && Occupancy(View()) < n
      modifies this`lclStail, this`accepted, this`log, sringArray, sqes
      ensures Valid()
      ensures var s := old(View());
              var entered := Accept(s.log, sqe, Ring(s));
              View() == s.(slots := s.slots[s.tail % n := sqe], tail := (s.tail + 1) % U32,
                           log := entered.(overtook := entered.overtook || s.ofq.items != []))
    {
      hide Valid, Arrays, Queues, ChunkQueue.View, Ring, Accept, Indexed, RingOk, Occupancy;
      ValidFacts();
      ghost var s := View();
      PutEntry(lclStail % n, sqe);
      MoveTail(s, sqe);
    }

    // The tail moves past the entry just put there.
    method MoveTail(ghost s: Sys, sqe: Sqe)
      requires Arrays() && Queues() && RingOk(s) && Occupancy(s) < n && s.n == n
      requires View() == s.(slots := s.slots[s.tail % n := sqe]) && Indexed(sringHead, Occupancy(s) + 1)
      requires accepted == |log.accepted|
      modifies this`lclStail, this`accepted, this`log
      ensures Valid()
      ensures var entered := Accept(s.log, sqe, Ring(s));
              View() == s.(slots := s.slots[s.tail % n := sqe], tail := (s.tail + 1) % U32,
                           log := entered.(overtook := entered.overtook || s.ofq.items != []))
    {
      hide Valid, Arrays, Queues, ChunkQueue.View, Ring, Accept, Indexed, RingOk, Occupancy;
      lclStail := (lclStail + 1) % U32;
      ghost var entered := Accept(log, sqe, Ring(s));
      AcceptsOne(log, sqe, Ring(s));
      log := entered.(overtook := entered.overtook || sqofq.contents != []);
      accepted := accepted + 1;
      RingPushed(s, sqe, View());
      assert RingOk(View()) && Indexed(sringHead, Occupancy(View())) && accepted == |log.accepted|;
      ValidIs();
    }

    // Fill a slot and its index.
    method PutEntry(index: nat, sqe: Sqe)
      requires Valid() && index == lclStail % n && Occupancy(View()) < n
      modifies sringArray, sqes
      ensures sqes[..] == old(sqes[..])[index := sqe]
      ensures Indexed(sringHead, old(Occupancy(View())) + 1)
    {
      hide Valid, Queues, ChunkQueue.View, RingOk;
      ValidFacts();
      TailSlot(View(), 0);
      ghost var occ := Occupancy(View());
      IndexOneMore(occ);
      assert index == Slot(sringHead, occ);
      sqes[index] := sqe;
      sringArray[index] := index;
    }

    // The slots of the live entries are not the slot after them.
    lemma IndexOneMore(occ: nat)
      requires n == sringArray.Length > 0 && occ < n && Indexed(sringHead, occ)
      ensures forall j: nat :: j < occ ==> Slot(sringHead, j) != Slot(sringHead, occ)
    {
      forall j: nat | j < occ ensures Slot(sringHead, j) != Slot(sringHead, occ) {
        SlotsDistinct(sringHead, j, occ, n);
      }
    }

    /** esoon. The result is what was handed in, or NULL. */
    method Esoon(flags: bv64, task: Task, mapOk: bool, chunkOk: bool) returns (ret: Task)
      requires Valid()
      modifies Repr
      ensures Valid()
      ensures View() == Soon(old(View()), flags, task, mapOk, chunkOk).0
      ensures ret == if Soon(old(View()), flags, task, mapOk, chunkOk).1 then task else 0
    {
      hide Valid, QueueSpec.Push, ChunkQueue.View, SoonFlagsOk, ForNext;
      ValidFacts();
      if !SoonFlagsOk(flags) {
        SetErrno(EINVAL);
        return 0;
      }
      var ok;
      if ForNext(flags) {
        ok := PushPrep(task, mapOk, chunkOk);
      } else {
        ok := PushSoon(task, mapOk, chunkOk);
      }
      ret := if ok then task else 0;
    }

    method PushPrep(task: Task, mapOk: bool, chunkOk: bool) returns (ok: bool)
      requires Valid()
      modifies this`errno, this`log, prepque
      ensures Valid()
      ensures ok == QueueSpec.Push(TASK_GEOMETRY, old(View()).prep, task, mapOk, chunkOk).1
      ensures var q := QueueSpec.Push(TASK_GEOMETRY, old(View()).prep, task, mapOk, chunkOk).0;
              View() == if ok then old(View()).(prep := q, log := old(log).(prepIn := old(log).prepIn + [task]))
                        else old(View()).(prep := q, errno := ENOMEM)
    {
      hide ChunkQueue.Valid, ChunkQueue.View, QueueSpec.Push;
      ok := prepque.Push(task, mapOk, chunkOk);
      if ok {
        log := log.(prepIn := log.prepIn + [task]);
      } else {
        errno := ENOMEM;
      }
    }

    method PushSoon(task: Task, mapOk: bool, chunkOk: bool) returns (ok: bool)
      requires Valid()
      modifies this`errno, this`log, soonque
      ensures Valid()
      ensures ok == QueueSpec.Push(TASK_GEOMETRY, old(View()).soon, task, mapOk, chunkOk).1
      ensures var q := QueueSpec.Push(TASK_GEOMETRY, old(View()).soon, task, mapOk, chunkOk).0;
              View() == if ok then old(View()).(soon := q, log := old(log).(soonIn := old(log).soonIn + [task]))
                        else old(View()).(soon := q, errno := ENOMEM)
    {
      hide ChunkQueue.Valid, ChunkQueue.View, QueueSpec.Push;
      ok := soonque.Push(task, mapOk, chunkOk);
      if ok {
        log := log.(soonIn := log.soonIn + [task]);
      } else {
        errno := ENOMEM;
      }
    }

    // -----------------------------------------------------------------------------------------
    // Callbacks and task execution

    method Act(a: Action)
      requires Valid()
      modifies Repr
      ensures Valid() && View() == Perform(old(View()), a)
    {
      hide Valid, Submit, Soon;
      match a
      case DoSubmit(r, mapOk, chunkOk) => var _ := SubmitToSq(r, mapOk, chunkOk);
      case DoSoon(flags, task, mapOk, chunkOk) => var _ := Esoon(flags, task, mapOk, chunkOk);
    }

    // Call a user callback: it does what the script says the next callback of the run does.
    method CallBack(script: Script)
      requires Valid()
      modifies Repr
      ensures Valid() && View() == Callback(old(View()), script)
    {
      hide Valid, Perform;
      ghost var start := View();
      var acts := script(calls);
      BumpCalls();
      var i := 0;
      while i < |acts|
        invariant Valid() && i <= |acts|
        invariant PerformAll(View(), acts[i..]) == Callback(start, script)
      {
        assert acts[i..][0] == acts[i] && acts[i..][1..] == acts[i + 1..];
        Act(acts[i]);
        i := i + 1;
      }
    }

    method BumpCalls()
      requires Valid()
      modifies this`calls
      ensures Valid() && View() == old(View()).(calls := old(calls) + 1) && calls == old(calls) + 1
    {
      hide ChunkQueue.Valid;
      calls := calls + 1;
    }

    // Take the front task of a queue; -1: there is none. What is taken is entered in the ledger.
    method PopTask(prep: bool, chunkStop: nat, osStop: nat) returns (task: Option<Task>, res: int)
      requires Valid()
      modifies soonque, prepque, this`log
      ensures Valid()
      ensures (View(), task, res) == TakeTask(old(View()), prep, chunkStop, osStop)
    {
      hide ChunkQueue.Valid, ChunkQueue.View;
      if prep {
        task, res := prepque.Pop1(chunkStop, osStop);
        if task.Some? {
          log := log.(prepRun := log.prepRun + [task.value]);
        }
      } else {
        task, res := soonque.Pop1(chunkStop, osStop);
        if task.Some? {
          log := log.(soonRun := log.soonRun + [task.value]);
        }
      }
    }

    // The cursor one past the last queued task.
    method StopCursor(prep: bool) returns (chunkStop: nat, osStop: nat)
      requires Valid()
      ensures chunkStop == TaskQueue(View(), prep).ChunkE(TASK_GEOMETRY)
      ensures osStop == TaskQueue(View(), prep).OsE(TASK_GEOMETRY)
    {
      var que := if prep then prepque else soonque;
      que.ViewCursors();
      chunkStop, osStop := que.chunkE, que.osE;
    }

    /** exeq: run tasks until the cursor reaches where the back of the queue was on entry. */
    method RunQueue(prep: bool, script: Script)
      requires Valid()
      modifies Repr
      ensures Valid() && View() == Exeq(old(View()), prep, script)
    {
      hide Valid, Callback, RunTasks, TakeTask, QView.ChunkE, QView.OsE;
      ghost var start, queue := View(), TaskQueue(View(), prep);
      var chunkStop, osStop := StopCursor(prep);
      ghost var left: nat := |queue.items|;
      while true
        invariant Valid() && left <= |queue.items|
        invariant queue.items == [] ==> View() == start
        invariant queue.items != [] ==> 0 < left <= |TaskQueue(View(), prep).items|
        invariant queue.items != [] ==> TaskQueue(View(), prep).front == queue.front + |queue.items| - left
        invariant RunTasks(View(), prep, left, script) == Exeq(start, prep, script)
        decreases left
      {
        ghost var s := View();
        var task, res := PopTask(prep, chunkStop, osStop);
        if queue.items == [] {
          EmptyRound(s, prep, chunkStop, osStop, script);
        } else {
          ExeqRound(queue, s, prep, left, script);
        }
        if res < 0 {
          break;
        }
        CallBack(script);
        left := left - 1;
        if res > 0 {
          NoneLeft(View(), prep, script);
          break;
        }
      }
    }

    // -----------------------------------------------------------------------------------------
    // Entering the kernel and draining the overflow queue

    // The stores before the enter call.
    method StoreCounters()
      requires Valid()
      modifies this`sringTail, this`cringHead
      ensures Valid() && View() == Publish(old(View()))
      ensures sringTail == lclStail && cringHead == lclChead
    {
      hide ChunkQueue.Valid, ChunkQueue.View;
      sringTail := lclStail;
      cringHead := lclChead;
    }

    // The kernel reads what it is shown through the index array and moves its head.
    method KernelTurn()
      requires Valid() && sringTail == lclStail
      modifies this`sringHead, this`log
      ensures Valid() && View() == KernelTakes(old(View()))
      ensures sringHead == sringTail
      ensures log.batches == old(log).batches + [ReadsFrom(old(sringHead), sringTail)]
    {
      hide ChunkQueue.Valid, ChunkQueue.View, Ring, Trailing, EndsLinked, Visible;
      KernelReadsRing();
      ghost var seen := KernelReads();
      log := log.(batches := log.batches + [seen],
                  cutOpen := log.cutOpen || Trailing(log.accepted) > 0,
                  torn := log.torn || EndsLinked(seen));
      sringHead := sringTail;
      RingEmpty(View());
    }

    /** Publish the private counters and call io_uring_enter; taken: the call succeeds, and the
        kernel has read through the index array every entry up to the tail published, and moved
        its head there. */
    method EnterKernel(taken: bool)
      requires Valid()
      modifies this`sringTail, this`cringHead, this`sringHead, this`log
      ensures Valid() && View() == Enter(old(View()), taken)
      ensures sringTail == old(lclStail) && cringHead == old(lclChead)
      ensures taken ==> sringHead == sringTail
      ensures taken ==> log.batches == old(log).batches + [ReadsFrom(old(sringHead), sringTail)]
    {
      hide Valid, KernelTakes;
      StoreCounters();
      if taken {
        KernelTurn();
      }
    }

    // What the walk stands on: entry k of the overflow queue, at its chunk and offset.
    ghost predicate StandsOn(k: nat, chunkTail: nat, osTail: nat, currentChunk: nat)
      reads sqofq
    {
      && k < |sqofq.contents|
      && chunkTail == sqofq.chunkS + (sqofq.osS + k) / 1024 < |sqofq.chunkMap|
      && osTail == (sqofq.osS + k) % 1024
      && currentChunk == sqofq.chunkMap[chunkTail]
      && currentChunk in sqofq.mem && osTail < |sqofq.mem[currentChunk]|
      && sqofq.mem[currentChunk][osTail] == sqofq.contents[k]
    }

    lemma StandsOnEntry(k: nat)
      requires sqofq.Valid() && sqofq.g == SQ_GEOMETRY && k < |sqofq.contents|
      ensures var chunkTail := sqofq.chunkS + (sqofq.osS + k) / 1024;
              0 <= chunkTail < |sqofq.chunkMap|
              && StandsOn(k, chunkTail, (sqofq.osS + k) % 1024, sqofq.chunkMap[chunkTail])
    {
      hide ChunkQueue.Valid;
      sqofq.ElementAt(k);
    }

    // Where the walk starts: the last entry that fits the ring.
    method WalkStart() returns (chunkTail: nat, osTail: nat, currentChunk: nat, ghost k: nat)
      requires sqofq.Valid() && sqofq.g == SQ_GEOMETRY && sqofq.contents != [] && n > 0
      ensures k + 1 == Min(|sqofq.contents|, n) && StandsOn(k, chunkTail, osTail, currentChunk)
    {
      hide ChunkQueue.Valid;
      var xsqSz := sqofq.Size();
      var popMaxidx := xsqSz - 1;
      if n - 1 < popMaxidx {
        popMaxidx := n - 1;
      }
      k := popMaxidx;
      StandsOnEntry(k);
      osTail := sqofq.osS + popMaxidx;
      chunkTail := sqofq.chunkS + osTail / 1024;
      osTail := osTail % 1024;
      currentChunk := sqofq.chunkMap[chunkTail];
    }

    // One entry back.
    method WalkBack(chunk: nat, os: nat, current: nat, ghost k: nat)
      returns (chunkTail: nat, osTail: nat, currentChunk: nat)
      requires sqofq.Valid() && sqofq.g == SQ_GEOMETRY && StandsOn(k, chunk, os, current) && k > 0
      ensures StandsOn(k - 1, chunkTail, osTail, currentChunk)
    {
      hide ChunkQueue.Valid;
      StandsOnEntry(k - 1);
      chunkTail, osTail, currentChunk := chunk, os, current;
      if osTail == 0 {
        chunkTail := chunkTail - 1;
        osTail := 1023;
        currentChunk := sqofq.chunkMap[chunkTail];
      } else {
        osTail := osTail - 1;
      }
    }

    /** The backward walk over the overflow queue, chunk by chunk, from the last entry that fits
        the ring to the last one without a link. The code has no test for the front of the queue;
        where the walk would go on below it the method stops (inside is false). */
    method Walk() returns (safe: nat, inside: bool)
      requires Valid() && sqofq.contents != []
      ensures inside <==> SafePop(sqofq.contents, n) > 0
      ensures inside ==> safe == SafePop(sqofq.contents, n)
    {
      hide Valid, ChunkQueue.Valid, StandsOn;
      ValidFacts();
      ghost var items := sqofq.contents;
      var chunkTail: nat, osTail: nat, currentChunk: nat;
      ghost var k: nat;
      chunkTail, osTail, currentChunk, k := WalkStart();
      OnEntry(k, chunkTail, osTail, currentChunk);
      while sqofq.mem[currentChunk][osTail].link
        invariant k < |items| && LastUnlinked(items, k + 1) == SafePop(items, n)
        invariant StandsOn(k, chunkTail, osTail, currentChunk)
        invariant currentChunk in sqofq.mem && osTail < |sqofq.mem[currentChunk]|
        invariant sqofq.mem[currentChunk][osTail] == items[k]
        decreases k
      {
        FrontEntry(k, chunkTail, osTail, currentChunk);
        if chunkTail == sqofq.chunkS && osTail == sqofq.osS {
          return 0, false;
        }
        chunkTail, osTail, currentChunk := WalkBack(chunkTail, osTail, currentChunk, k);
        k := k - 1;
        OnEntry(k, chunkTail, osTail, currentChunk);
      }
      Index(k, chunkTail, osTail, currentChunk);
      safe := (chunkTail - sqofq.chunkS) * 1024 + osTail - sqofq.osS + 1;
      inside := true;
    }

    lemma OnEntry(k: nat, chunkTail: nat, osTail: nat, currentChunk: nat)
      requires StandsOn(k, chunkTail, osTail, currentChunk)
      ensures k < |sqofq.contents| && currentChunk in sqofq.mem && osTail < |sqofq.mem[currentChunk]|
      ensures sqofq.mem[currentChunk][osTail] == sqofq.contents[k]
    {
    }

    // The index of an entry from its chunk and offset; the front entry is where the cursor is.
    lemma Index(k: nat, chunkTail: nat, osTail: nat, currentChunk: nat)
      requires StandsOn(k, chunkTail, osTail, currentChunk)
      ensures (chunkTail - sqofq.chunkS) * 1024 + osTail - sqofq.osS == k
    {
    }

    lemma FrontEntry(k: nat, chunkTail: nat, osTail: nat, currentChunk: nat)
      requires StandsOn(k, chunkTail, osTail, currentChunk) && sqofq.Valid() && sqofq.g == SQ_GEOMETRY
      ensures chunkTail == sqofq.chunkS && osTail == sqofq.osS <==> k == 0
    {
      assert sqofq.osS < 1024;
    }

    // Point the index array of the next k slots at the slots themselves.
    method FillIndex(k: nat)
      requires n == sringArray.Length > 0 && 0 < k <= n && lclStail < U32 && U32 % n == 0 && n < U32
      modifies sringArray
      ensures Indexed(lclStail, k)
    {
      var idx, loopEnd := lclStail, (lclStail + k) % U32;
      ghost var done: nat := 0;
      while true
        invariant done < k && idx == (lclStail + done) % U32
        invariant forall j: nat :: j < done ==> sringArray[Slot(lclStail, j)] == Slot(lclStail, j)
        decreases k - done
      {
        var arrIdx := idx % n;
        WrapKeepsSlot(lclStail + done, n);
        forall j: nat | j < done ensures Slot(lclStail, j) != Slot(lclStail, done) {
          SlotsDistinct(lclStail, j, done, n);
        }
        sringArray[arrIdx] := arrIdx;
        NextIndex(lclStail, done, k);
        idx, done := (idx + 1) % U32, done + 1;
        if idx == loopEnd {
          break;
        }
      }
    }

    // The wrapped counter meets its end after exactly k steps.
    lemma NextIndex(from: nat, done: nat, k: nat)
      requires from < U32 && done < k < U32
      ensures ((from + done) % U32 + 1) % U32 == (from + (done + 1)) % U32
      ensures (from + (done + 1)) % U32 == (from + k) % U32 <==> done + 1 == k
    {
    }

    lemma ValidIs()
      requires Arrays() && Queues()
      requires RingOk(View()) && Indexed(sringHead, Occupancy(View())) && accepted == |log.accepted|
      ensures Valid()
    {
    }

    // The two copies, up to the end of the entry array and from its start.
    method CopyOut(idxBegin: nat, k: nat) returns (left: int)
      requires n == sqes.Length > 0 && Distinct() && sqofq.Valid() && sqofq.g == SQ_GEOMETRY
      requires k <= n && idxBegin < n
      modifies sqofq, sqes
      ensures sqofq.Valid()
      ensures (sqes[..], sqofq.View(), left) == CopyPieces(old(sqes[..]), idxBegin, old(sqofq.View()), k, literal)
    {
      hide ChunkQueue.Valid, ChunkQueue.View, QueueSpec.PopTo, Overwrite;
      var safePopsz := k;
      var arrSz := n - idxBegin;
      if arrSz > safePopsz {
        arrSz := safePopsz;
      }
      PopToSize(SQ_GEOMETRY, sqofq.View(), arrSz, literal);
      var got := sqofq.PopTo(sqes, idxBegin, arrSz, literal);
      safePopsz := safePopsz - got;
      arrSz := if idxBegin < safePopsz then idxBegin else safePopsz;
      PopToSize(SQ_GEOMETRY, sqofq.View(), arrSz, literal);
      got := sqofq.PopTo(sqes, 0, arrSz, literal);
      left := safePopsz - got;
    }

    /** Move the k entries the walk allows into the ring: fill the index array, move the tail,
        copy. */
    method MoveOverflow(k: nat) returns (left: int)
      requires Valid() && sringHead == lclStail && 0 < k <= n && k <= |sqofq.contents|
      modifies Repr
      ensures Valid() && (View(), left) == DrainBy(old(View()), k)
    {
      hide Valid, ChunkQueue.Valid, ChunkQueue.View, CopyPieces, Ring, DrainExact, Indexed, RingOk;
      ValidFacts();
      ghost var s := View();
      RingSizes(s);
      FillIndex(k);
      var idxBegin := lclStail % n;
      lclStail := (lclStail + k) % U32;
      left := CopyOut(idxBegin, k);
      EnterMove(s, k, left);
    }

    // The move in the ledger.
    ghost method EnterMove(s: Sys, k: nat, left: int)
      requires Arrays() && Queues() && RingOk(s) && s.head == s.tail && s.n == n && s.literal == literal
      requires 0 < k <= n && k <= |s.ofq.items| && Indexed(s.head, k) && accepted == |s.log.accepted|
      requires var (slots, q, rest) := CopyPieces(s.slots, s.tail % n, s.ofq, k, literal);
               left == rest && View() == s.(slots := slots, tail := (s.tail + k) % U32, ofq := q)
      modifies this`log
      ensures Valid() && (View(), left) == DrainBy(s, k)
    {
      hide Valid, Arrays, Queues, ChunkQueue.View, CopyPieces, Ring, DrainExact, Indexed, RingOk, Occupancy;
      log := log.(lossy := log.lossy || !DrainExact(s, k), unwritten := log.unwritten + left);
      DrainShape(s, k);
      ValidIs();
    }

    lemma RingSizes(s: Sys)
      requires RingOk(s)
      ensures s.n < U32 && U32 % s.n == 0 && s.tail < U32
    {
    }

    /** The drain block of lrun1, for a non-empty overflow queue. Not inside: the walk is about to
        leave the queue. */
    method DrainOverflow() returns (inside: bool)
      requires Valid() && sringHead == lclStail && sqofq.contents != []
      modifies Repr
      ensures Valid() && View() == Drain(old(View()))
      ensures inside == (SafePop(old(sqofq.contents), n) > 0)
    {
      hide Valid, ChunkQueue.View, SafePop, DrainBy;
      var safe;
      safe, inside := Walk();
      if inside {
        var _ := MoveOverflow(safe);
      } else {
        MarkStray();
      }
    }

    ghost method MarkStray()
      requires Valid()
      modifies this`log
      ensures Valid() && View() == old(View()).(log := old(log).(stray := true))
    {
      hide ChunkQueue.Valid;
      log := log.(stray := true);
    }

    // -----------------------------------------------------------------------------------------
    // One turn of the loop

    method HandleCompletion(c: Completion, script: Script)
      requires Valid()
      modifies Repr
      ensures Valid() && View() == Complete1(old(View()), c, script)
    {
      hide Valid, Callback;
      Deliver(c);
      if c.userData != 0 {
        CallBack(script);
      }
      BumpChead();
    }

    ghost method Deliver(c: Completion)
      requires Valid()
      modifies this`log
      ensures Valid() && View() == old(View()).(log := old(log).(delivered := old(log).delivered + [c]))
    {
      hide ChunkQueue.Valid;
      log := log.(delivered := log.delivered + [c]);
    }

    method BumpChead()
      requires Valid()
      modifies this`lclChead
      ensures Valid() && View() == old(View()).(chead := (old(lclChead) + 1) % U32)
    {
      hide ChunkQueue.Valid;
      lclChead := (lclChead + 1) % U32;
    }

    // The completion loop.
    method HandleAll(comps: seq<Completion>, script: Script)
      requires Valid() && comps != []
      modifies Repr
      ensures Valid() && View() == Complete(old(View()), comps, script)
    {
      hide Valid, Complete1, Exeq;
      ghost var start := View();
      var i := 0;
      while true
        invariant Valid() && i < |comps|
        invariant Complete(View(), comps[i..], script) == Complete(start, comps, script)
        decreases |comps| - i
      {
        assert comps[i..][0] == comps[i] && comps[i..][1..] == comps[i + 1..];
        HandleCompletion(comps[i], script);
        i := i + 1;
        if i == |comps| {
          break;
        }
        RunQueue(false, script);
      }
    }

    /** One turn of the loop; Overrun: the drain's walk is about to leave the queue. */
    method Lrun1(flags: bv64, env: Env, script: Script) returns (res: Outcome)
      requires Valid() && env.comps != [] && !log.stray
      modifies Repr
      ensures Valid() && (View(), res) == IouSpec.Lrun1(old(View()), flags, env, script)
    {
      hide Valid, Exeq, Enter, Drain, Complete, ChunkQueue.View;
      if flags != 0 {
        SetErrno(EINVAL);
        return Returned(-1);
      }
      BeforeEnterStray(View(), script);
      RunQueue(true, script);
      RunQueue(false, script);
      var pending := TasksPending();
      EnterStray(View(), env.taken);
      EnterKernel(env.taken);
      if pending {
        return Returned(0);
      }
      if !env.taken {
        SetErrno(env.error);
        return Returned(-1);
      }
      var xsqSz := OverflowSize();
      if xsqSz != 0 {
        DrainFinds(View());
        var inside := DrainOverflow();
        if !inside {
          return Overrun;
        }
      }
      CompleteStray(View(), env.comps, script);
      HandleAll(env.comps, script);
      res := Returned(0);
    }

    /** A client's calls, one after the other, up to where a drain's walk is about to leave the
        queue: what is proved of runs holds of the context in place. */
    method PerformCalls(calls: seq<Call>, script: Script)
      requires Valid() && !log.stray && forall c :: c in calls ==> CallOk(c)
      modifies Repr
      ensures Valid() && View() == Run(old(View()), calls, script)
    {
      hide Valid, Do;
      ghost var start := View();
      var i := 0;
      var inside := true;
      while i < |calls| && inside
        invariant Valid() && i <= |calls| && inside == !View().log.stray
        invariant Run(View(), calls[i..], script) == Run(start, calls, script)
        decreases |calls| - i
      {
        assert calls[i..][0] == calls[i] && calls[i..][1..] == calls[i + 1..];
        inside := PerformCall(calls[i], script);
        i := i + 1;
      }
      RunOver(View(), calls[i..], script);
    }

    method PerformCall(c: Call, script: Script) returns (inside: bool)
      requires Valid() && !log.stray && CallOk(c)
      modifies Repr
      ensures Valid() && View() == Do(old(View()), c, script)
      ensures inside == !View().log.stray
    {
      hide Valid, Submit, Soon, IouSpec.Lrun1;
      inside := true;
      match c
      case CallSubmit(r, mapOk, chunkOk) =>
        SubmitStray(View(), r, mapOk, chunkOk);
        var _ := SubmitToSq(r, mapOk, chunkOk);
      case CallSoon(flags, task, mapOk, chunkOk) =>
        SoonStray(View(), flags, task, mapOk, chunkOk);
        var _ := Esoon(flags, task, mapOk, chunkOk);
      case CallLrun1(flags, env) =>
        Lrun1Stray(View(), flags, env, script);
        var res := Lrun1(flags, env, script);
        inside := res.Returned?;
    }

    method TasksPending() returns (pending: bool)
      requires Valid()
      ensures pending == Pending(View())
    {
      var soon := soonque.Size();
      var prep := prepque.Size();
      pending := soon != 0 || prep != 0;
    }

    method OverflowSize() returns (size: int)
      requires Valid()
      ensures size == |View().ofq.items| && View().ofq.items == sqofq.contents
    {
      size := sqofq.Size();
    }
  }

  lemma AcceptsOne(log: Ledger, x: Sqe, place: seq<Sqe>)
    ensures Accept(log, x, place).accepted == log.accepted + [x]
  {
  }

  // The ring part of what WriteSlot does.
  lemma RingPushed(s: Sys, x: Sqe, s': Sys)
    requires RingOk(s) && Occupancy(s) < s.n && s'.n == s.n && s'.head == s.head && s'.published == s.published
    requires s'.slots == s.slots[s.tail % s.n := x] && s'.tail == (s.tail + 1) % U32
    ensures RingOk(s') && Occupancy(s') == Occupancy(s) + 1
  {
    TailAhead(s, 1);
  }

  // A drain strays exactly when it finds no place to cut.
  lemma DrainFinds(s: Sys)
    ensures Drain(s).log.stray <==> s.log.stray || SafePop(s.ofq.items, s.n) == 0
  {
    hide CopyPieces;
  }
}
