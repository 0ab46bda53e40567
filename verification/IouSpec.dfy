/** The event loop context of src/backends/iou.c as a value: the submission ring with its 32-bit
    counters, the overflow queue behind it, the two task queues, and one call of lrun1.

    The kernel is an environment that, when it enters successfully, takes every published
    submission. Callbacks are arbitrary: a script says which submissions and tasks the i-th
    callback of the run makes. */
module IouSpec {
  import opened Arith
  import opened Outcomes
  import opened QueueSpec

  const U32: nat := 0x1_0000_0000
  const U64: nat := 0x1_0000_0000_0000_0000

  const EINVAL: nat := 22
  const ENOMEM: nat := 12

  const FLAG_ESOON_NEXT: bv64 := 0x8000_0000_0000_0000
  const FLAG_REQLNK: bv64 := 0x4000_0000_0000_0000
  const FLAG_NOREG_HANDLE: bv64 := 0x2000_0000_0000_0000

  // SQOFQ_CHUNK_SZ_BIT is 10; both queues of tasks have 1 << 7 pointers to a chunk.
  const SQ_GEOMETRY := Geometry(1024, 8)
  const TASK_GEOMETRY := Geometry(128, 16)

  // A submission queue entry; the flag bits are IOSQE_FIXED_FILE, IOSQE_IO_LINK and
  // IOSQE_CQE_SKIP_SUCCESS. Fields that are always written 0 are left out. `serial` is not in the
  // code: it numbers the accepted submissions, so that equal requests are told apart.
  datatype Sqe = Sqe(opcode: nat, fixedFile: bool, link: bool, skipSuccess: bool,
                     fd: int, off: nat, addr: nat, len: nat, userData: nat, serial: nat)

  datatype Request = Request(op: nat, fd: int, off: int, addr: nat, len: nat, userData: nat, flags: bv64)

  // A task is the word handed to esoon: a pointer, possibly tagged.
  type Task = nat

  datatype Completion = Completion(userData: nat, res: int)

  // What a callback may do to the context.
  datatype Action =
    | DoSubmit(r: Request, mapOk: bool, chunkOk: bool)
    | DoSoon(flags: bv64, task: Task, mapOk: bool, chunkOk: bool)

  type Script = nat -> seq<Action>

  /** What the run has done so far. accepted: submissions, in order; batches: what the kernel has
      taken, one batch an enter. soonIn, prepIn: tasks accepted; soonRun, prepRun: tasks run.
      delivered: completions handled.
      unwritten: ring entries published without having been written.
      overtook: a submission went to the ring while others waited in the overflow queue.
      lossy: a drain ran whose bulk removals dropped entries.
      longChain: eight linked submissions were accepted in a row.
      cutOpen: the kernel took the ring while the last accepted submission was linked.
      torn: a submission did not join its linked predecessor, or the kernel took a ring whose
      last entry was linked.
      stray: a drain found no entry to stop at, and its walk is about to leave the queue. */
  datatype Ledger = Ledger(
    accepted: seq<Sqe>, batches: seq<seq<Sqe>>, unwritten: nat,
    soonIn: seq<Task>, soonRun: seq<Task>, prepIn: seq<Task>, prepRun: seq<Task>,
    delivered: seq<Completion>,
    overtook: bool, lossy: bool, longChain: bool, cutOpen: bool, torn: bool, stray: bool)

  const EMPTY_LEDGER := Ledger([], [], 0, [], [], [], [], [], false, false, false, false, false, false)

  // Rows one after the other: what the kernel has taken, in order.
  function Joined(rows: seq<seq<Sqe>>): seq<Sqe>
  {
    if rows == [] then [] else Joined(rows[..|rows| - 1]) + rows[|rows| - 1]
  }

  /** n is the number of ring entries, sring_mask + 1; `x & sring_mask` is x % n. head, published:
      the ring's counters shared with the kernel; tail: the private one. chead: completions taken
      out; acked: what the kernel has been told of them.
      literal: bulk removal advances as line 172 of que.tpl.h is written. */
  datatype SysData = SysData(
    n: nat, literal: bool,
    head: nat, published: nat, tail: nat, slots: seq<Sqe>,
    ofq: QView<Sqe>, soon: QView<Task>, prep: QView<Task>,
    chead: nat, acked: nat, errno: nat, calls: nat, log: Ledger)

  const BLANK := Sqe(0, false, false, false, 0, 0, 0, 0, 0, 0)

  type Sys = s: SysData | 0 < s.n && |s.slots| == s.n
    witness SysData(1, false, 0, 0, 0, [BLANK], QView(1, 0, []), QView(1, 0, []), QView(1, 0, []),
                    0, 0, 0, 0, EMPTY_LEDGER)

  // Nothing changes the size of the ring or the variant.
  predicate SameSetup(s: Sys, s': Sys)
  {
    s'.n == s.n && s'.literal == s.literal
  }

  // -------------------------------------------------------------------------------------------
  // The ring

  // `(unsigned)(tail - head)`
  function Occupancy(s: Sys): nat
  {
    (s.tail - s.head) % U32
  }

  // The entries the kernel has not taken, in order.
  function Ring(s: Sys): (r: seq<Sqe>)
    ensures |r| == Occupancy(s)
  {
    seq(Occupancy(s), j requires 0 <= j => s.slots[(s.head + j) % s.n])
  }

  function MakeSqe(r: Request, serial: nat): Sqe
  {
    var link := r.flags & FLAG_REQLNK != 0;
    Sqe(r.op, r.flags & FLAG_NOREG_HANDLE == 0, link, link, r.fd, r.off % U64, r.addr, r.len, r.userData, serial)
  }

  // Number of linked entries at the end.
  function Trailing(s: seq<Sqe>): nat
  {
    if s == [] || !s[|s| - 1].link then 0 else 1 + Trailing(s[..|s| - 1])
  }

  // The accepted submissions are numbered from 0.
  ghost predicate Serial(accepted: seq<Sqe>)
  {
    forall i :: 0 <= i < |accepted| ==> accepted[i].serial == i
  }

  predicate EndsLinked(s: seq<Sqe>)
  {
    s != [] && s[|s| - 1].link
  }

  // Whether the next submission is parted from a linked predecessor: the last one accepted is
  // linked and is not the last entry of the place the next one goes to.
  predicate Tears(accepted: seq<Sqe>, place: seq<Sqe>)
  {
    EndsLinked(accepted) && (place == [] || place[|place| - 1] != accepted[|accepted| - 1])
  }

  // Submission x is accepted and goes to the end of `place`, the ring or the overflow queue.
  function Accept(log: Ledger, x: Sqe, place: seq<Sqe>): Ledger
  {
    log.(accepted := log.accepted + [x],
         longChain := log.longChain || Trailing(log.accepted + [x]) > 7,
         torn := log.torn || Tears(log.accepted, place))
  }

  // Accepting changes nothing else in the ledger.
  lemma AcceptKeeps(log: Ledger, x: Sqe, place: seq<Sqe>)
    ensures var log' := Accept(log, x, place);
            log' == log.(accepted := log.accepted + [x], longChain := log'.longChain, torn := log'.torn)
  {
    hide Trailing, Tears;
  }

  predicate SubmitFlagsOk(flags: bv64)
  {
    flags & !(FLAG_NOREG_HANDLE | FLAG_REQLNK) == 0
  }

  predicate SoonFlagsOk(flags: bv64)
  {
    flags & !FLAG_ESOON_NEXT == 0
  }

  // Whether esoon's flags ask for the next turn of the loop.
  predicate ForNext(flags: bv64)
  {
    flags & FLAG_ESOON_NEXT != 0
  }

  /** submit_to_sq: into the ring, or into the overflow queue when the ring is full. */
  function Submit(s: Sys, r: Request, mapOk: bool, chunkOk: bool): (res: (Sys, bool))
    ensures SameSetup(s, res.0)
  {
    var x := MakeSqe(r, |s.log.accepted|);
    if !SubmitFlagsOk(r.flags) then
      (s.(errno := EINVAL), false)
    else if Occupancy(s) == s.n then
      var (q, ok) := Push(SQ_GEOMETRY, s.ofq, x, mapOk, chunkOk);
      if ok then (s.(ofq := q, log := Accept(s.log, x, s.ofq.items)), true)
      else (s.(ofq := q, errno := ENOMEM), false)
    else
      var log := Accept(s.log, x, Ring(s));
      (s.(slots := s.slots[s.tail % s.n := x], tail := (s.tail + 1) % U32,
          log := log.(overtook := log.overtook || s.ofq.items != [])), true)
  }

  /** esoon: into prepque with ESOON_NEXT, else into soonque. */
  function Soon(s: Sys, flags: bv64, task: Task, mapOk: bool, chunkOk: bool): (res: (Sys, bool))
    ensures SameSetup(s, res.0)
  {
    if !SoonFlagsOk(flags) then
      (s.(errno := EINVAL), false)
    else if ForNext(flags) then
      var (q, ok) := Push(TASK_GEOMETRY, s.prep, task, mapOk, chunkOk);
      if ok then (s.(prep := q, log := s.log.(prepIn := s.log.prepIn + [task])), true)
      else (s.(prep := q, errno := ENOMEM), false)
    else
      var (q, ok) := Push(TASK_GEOMETRY, s.soon, task, mapOk, chunkOk);
      if ok then (s.(soon := q, log := s.log.(soonIn := s.log.soonIn + [task])), true)
      else (s.(soon := q, errno := ENOMEM), false)
  }

  function Perform(s: Sys, a: Action): (next: Sys)
    ensures SameSetup(s, next)
  {
    match a
    case DoSubmit(r, mapOk, chunkOk) => Submit(s, r, mapOk, chunkOk).0
    case DoSoon(flags, task, mapOk, chunkOk) => Soon(s, flags, task, mapOk, chunkOk).0
  }

  function PerformAll(s: Sys, acts: seq<Action>): (next: Sys)
    ensures SameSetup(s, next)
    decreases |acts|
  {
    if acts == [] then s else PerformAll(Perform(s, acts[0]), acts[1..])
  }

  function Callback(s: Sys, script: Script): (next: Sys)
    ensures SameSetup(s, next)
  {
    PerformAll(s.(calls := s.calls + 1), script(s.calls))
  }

  // -------------------------------------------------------------------------------------------
  // Task execution

  function TaskQueue(s: Sys, prep: bool): QView<Task>
  {
    if prep then s.prep else s.soon
  }

  // Take the front task out of a queue and enter it in the ledger; the code is pop1's.
  function TakeTask(s: Sys, prep: bool, chunkStop: nat, osStop: nat): (res: (Sys, Option<Task>, int))
    ensures SameSetup(s, res.0)
  {
    var (q, t, code) := Pop(TASK_GEOMETRY, TaskQueue(s, prep), chunkStop, osStop);
    var s' := if t.None? then s
              else if prep then s.(prep := q, log := s.log.(prepRun := s.log.prepRun + [t.value]))
              else s.(soon := q, log := s.log.(soonRun := s.log.soonRun + [t.value]));
    (s', t, code)
  }

  // Take the front task and call it.
  function RunTask(s: Sys, prep: bool, script: Script): (next: Sys)
    ensures SameSetup(s, next)
  {
    var (s1, t, _) := TakeTask(s, prep, 0, 0);
    if t.None? then s else Callback(s1, script)
  }

  function RunTasks(s: Sys, prep: bool, k: nat, script: Script): (next: Sys)
    ensures SameSetup(s, next)
    decreases k
  {
    if k == 0 then s else RunTasks(RunTask(s, prep, script), prep, k - 1, script)
  }

  /** exeq: as many tasks as the queue holds on entry. */
  function Exeq(s: Sys, prep: bool, script: Script): (next: Sys)
    ensures SameSetup(s, next)
  {
    RunTasks(s, prep, |TaskQueue(s, prep).items|, script)
  }

  // -------------------------------------------------------------------------------------------
  // Entering the kernel and draining the overflow queue

  // Store the private counters where the kernel sees them.
  function Publish(s: Sys): (next: Sys)
    ensures SameSetup(s, next)
  {
    s.(published := s.tail, acked := s.chead)
  }

  // The entries the kernel sees: from its head up to the published tail.
  function Visible(s: Sys): (r: seq<Sqe>)
    ensures |r| == (s.published - s.head) % U32
  {
    seq((s.published - s.head) % U32, j requires 0 <= j => s.slots[(s.head + j) % s.n])
  }

  // The kernel takes all it sees.
  function KernelTakes(s: Sys): (next: Sys)
    ensures SameSetup(s, next)
  {
    s.(head := s.published,
       log := s.log.(batches := s.log.batches + [Visible(s)],
                     cutOpen := s.log.cutOpen || Trailing(s.log.accepted) > 0,
                     torn := s.log.torn || EndsLinked(Visible(s))))
  }

  lemma AllVisible(s: Sys)
    ensures Visible(Publish(s)) == Ring(s)
  {
  }

  /** Publish the counters and enter; taken: the kernel reports success, and has then taken every
      entry it saw. */
  function Enter(s: Sys, taken: bool): (next: Sys)
    ensures SameSetup(s, next)
    ensures next == Publish(s).(head := next.head, log := next.log)
    ensures taken ==> next.head == s.tail && next.log.batches == s.log.batches + [Ring(s)]
    ensures taken ==> next.log.torn == (s.log.torn || EndsLinked(Ring(s)))
    ensures !taken ==> next.head == s.head && next.log == s.log
  {
    AllVisible(s);
    if taken then KernelTakes(Publish(s)) else Publish(s)
  }

  // Length of the longest prefix of items, of at most k entries, whose last entry is not linked.
  function LastUnlinked(items: seq<Sqe>, k: nat): (r: nat)
    requires k <= |items|
    ensures r <= k
  {
    if k == 0 then 0 else if !items[k - 1].link then k else LastUnlinked(items, k - 1)
  }

  function SafePop(items: seq<Sqe>, n: nat): (r: nat)
    ensures r <= |items| && r <= n
  {
    LastUnlinked(items, Min(|items|, n))
  }

  // A bulk removal of k elements from position front of a queue of that size keeps the rest.
  predicate PopExact(front: nat, size: nat, k: nat)
  {
    k == 0 || k >= size || (front + k) % SQ_GEOMETRY.c == 0
  }

  // Both bulk removals of a drain of k entries keep what they do not copy; the first fills the
  // n - b slots from slot b on.
  predicate PiecesExact(n: nat, b: nat, ofq: QView<Sqe>, k: nat)
    requires b < n
  {
    var first := Min(k, n - b);
    && PopExact(ofq.front, |ofq.items|, first)
    && (first <= |ofq.items| ==> PopExact(ofq.front + first, |ofq.items| - first, k - first))
  }

  predicate DrainExact(s: Sys, k: nat)
    requires k <= s.n && k <= |s.ofq.items|
  {
    !s.literal || PiecesExact(s.n, s.tail % s.n, s.ofq, k)
  }

  // Copy k entries out of the overflow queue, up to the end of the entry array and on from its
  // start: the entry array and overflow queue afterwards, and the remaining count.
  function CopyPieces(slots: seq<Sqe>, b: nat, ofq: QView<Sqe>, k: nat, literal: bool)
    : (res: (seq<Sqe>, QView<Sqe>, int))
    requires b < |slots| && k <= |slots|
    ensures |res.0| == |slots| && 0 <= res.2 <= k
  {
    var first := Min(k, |slots| - b);
    PopToSize(SQ_GEOMETRY, ofq, first, literal);
    var (q1, out1) := PopTo(SQ_GEOMETRY, ofq, first, literal);
    var second := Min(b, k - |out1|);
    PopToSize(SQ_GEOMETRY, q1, second, literal);
    var (q2, out2) := PopTo(SQ_GEOMETRY, q1, second, literal);
    (Overwrite(Overwrite(slots, b, out1), 0, out2), q2, k - |out1| - |out2|)
  }

  // Move k entries from the overflow queue into the ring; the second result is the remaining
  // count.
  function DrainBy(s: Sys, k: nat): (res: (Sys, int))
    requires k <= s.n && k <= |s.ofq.items|
    ensures SameSetup(s, res.0)
  {
    var (slots, q, left) := CopyPieces(s.slots, s.tail % s.n, s.ofq, k, s.literal);
    (s.(slots := slots, tail := (s.tail + k) % U32, ofq := q,
        log := s.log.(lossy := s.log.lossy || !DrainExact(s, k), unwritten := s.log.unwritten + left)),
     left)
  }

  lemma PopToSize<T>(g: Geometry, q: QView<T>, n: nat, literal: bool)
    requires g.Valid()
    ensures |PopTo(g, q, n, literal).1| == Min(n, |q.items|)
    ensures PopTo(g, q, n, literal).1 == q.items[..Min(n, |q.items|)]
  {
  }

  /** The drain of a non-empty overflow queue. When every entry of the window is linked the walk
      reaches the front and goes on below it, into memory that is not the queue's. The model stops
      there: it marks the state, in which nothing has been written yet, and no run goes on. */
  function Drain(s: Sys): (next: Sys)
    ensures SameSetup(s, next)
  {
    var k := SafePop(s.ofq.items, s.n);
    if k == 0 then s.(log := s.log.(stray := true)) else DrainBy(s, k).0
  }

  // -------------------------------------------------------------------------------------------
  // lrun1

  // Handle one completion: the callback runs unless the request carried no user data.
  function Complete1(s: Sys, c: Completion, script: Script): (next: Sys)
    ensures SameSetup(s, next)
  {
    var s1 := s.(log := s.log.(delivered := s.log.delivered + [c]));
    var s2 := if c.userData != 0 then Callback(s1, script) else s1;
    s2.(chead := (s2.chead + 1) % U32)
  }

  // The completion loop: the soon queue runs between completions, not after the last.
  function Complete(s: Sys, comps: seq<Completion>, script: Script): (next: Sys)
    requires comps != []
    ensures SameSetup(s, next)
    decreases |comps|
  {
    var s1 := Complete1(s, comps[0], script);
    if |comps| == 1 then s1 else Complete(Exeq(s1, false, script), comps[1..], script)
  }

  // The kernel's side of one lrun1: whether the enter call succeeds (with the error to report if
  // not) and the completions found, of which there is at least one.
  datatype Env = Env(taken: bool, error: nat, comps: seq<Completion>)

  // Up to the enter call.
  function BeforeEnter(s: Sys, script: Script): (next: Sys)
    ensures SameSetup(s, next)
  {
    Exeq(Exeq(s, true, script), false, script)
  }

  predicate Pending(s: Sys)
  {
    s.soon.items != [] || s.prep.items != []
  }

  // After the enter call.
  function AfterEnter(s: Sys, env: Env, script: Script): (next: Sys)
    requires env.comps != []
    ensures SameSetup(s, next)
  {
    var s1 := if s.ofq.items != [] then Drain(s) else s;
    if s1.log.stray then s1 else Complete(s1, env.comps, script)
  }

  /** One turn of the loop and its outcome; Overrun: the drain's walk is about to leave the queue.
      With tasks pending the call polls and returns at once. */
  function Lrun1(s: Sys, flags: bv64, env: Env, script: Script): (res: (Sys, Outcome))
    requires env.comps != []
    ensures SameSetup(s, res.0)
  {
    if flags != 0 then (s.(errno := EINVAL), Returned(-1))
    else
      var s1 := BeforeEnter(s, script);
      var s2 := Enter(s1, env.taken);
      if Pending(s1) then (s2, Returned(0))
      else if !env.taken then (s2.(errno := env.error), Returned(-1))
      else
        var s3 := AfterEnter(s2, env, script);
        (s3, if s3.log.stray then Overrun else Returned(0))
  }

  // A client's calls.
  datatype Call =
    | CallSubmit(r: Request, mapOk: bool, chunkOk: bool)
    | CallSoon(flags: bv64, task: Task, mapOk: bool, chunkOk: bool)
    | CallLrun1(lflags: bv64, env: Env)

  predicate CallOk(c: Call)
  {
    c.CallLrun1? ==> c.env.comps != []
  }

  function Do(s: Sys, c: Call, script: Script): (next: Sys)
    requires CallOk(c)
    ensures SameSetup(s, next)
  {
    match c
    case CallSubmit(r, mapOk, chunkOk) => Submit(s, r, mapOk, chunkOk).0
    case CallSoon(flags, task, mapOk, chunkOk) => Soon(s, flags, task, mapOk, chunkOk).0
    case CallLrun1(flags, env) => Lrun1(s, flags, env, script).0
  }

  /** The calls one after the other; the run ends where a drain's walk is about to leave the
      overflow queue. */
  function Run(s: Sys, calls: seq<Call>, script: Script): (next: Sys)
    requires forall c :: c in calls ==> CallOk(c)
    ensures SameSetup(s, next)
    decreases |calls|
  {
    if calls == [] || s.log.stray then s else Run(Do(s, calls[0], script), calls[1..], script)
  }

  // The context lnew sets up: an empty ring whose counters may stand anywhere.
  predicate Initial(s: Sys)
  {
    && 8 <= s.n < U32 && U32 % s.n == 0
    && s.head == s.published == s.tail < U32
    && s.chead == s.acked < U32
    && s.ofq == Init<Sqe>(SQ_GEOMETRY, 0) && s.soon == s.prep == Init<Task>(TASK_GEOMETRY, 0)
    && s.log == EMPTY_LEDGER
  }
}
