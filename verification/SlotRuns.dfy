/** The slot allocator over whole runs of registrations and deregistrations. */
module SlotRuns {
  import opened Arith
  import opened Bits
  import opened Outcomes
  import opened SlotSpec

  // -------------------------------------------------------------------------------------------
  // One registration

  lemma {:induction false} StoreFirstAt(files: seq<int>, slots: seq<nat>, raws: seq<int>, i: nat, k: nat)
    requires k < i <= |slots| && i <= |raws|
    requires forall j :: 0 <= j < |slots| ==> slots[j] < |files|
    requires forall j, l :: 0 <= j < l < |slots| ==> slots[j] != slots[l]
    ensures StoreFirst(files, slots, raws, i)[slots[k]] == raws[k]
  {
    if k < i - 1 {
      StoreFirstAt(files, slots, raws, i - 1, k);
    }
  }

  /** What a registration of n files does, n > 0, on a table with slots. With n words that still
      have a free slot it hands out n distinct free slots and stores file k in slot k. A report
      of success with fewer slots than files happens exactly when there are fewer such words and
      the last word is one of them; otherwise the call reports failure and changes nothing. */
  lemma RegisterOutcome(t: Table, raws: seq<int>)
    requires t.Valid() && t.files != [] && raws != []
    ensures var (t', res, slots) := Register(t, raws);
            var words := |NonZero(t.bm, 0)|;
            && (words >= |raws| ==> res == |raws| == |slots|)
            && (res == |raws| ==> |slots| == if words >= |raws| then |raws| else words)
            && (res == |raws| && |slots| < |raws| <==> words < |raws| && t.bm[|t.bm| - 1] != 0)
            && (words < |raws| && t.bm[|t.bm| - 1] == 0 ==> res == 0 && slots == [] && t' == t)
            && (forall i, j :: 0 <= i < j < |slots| ==> slots[i] < slots[j])
            && (forall k :: 0 <= k < |slots| ==> slots[k] < |t.files| && IsFree(t.bm, slots[k]))
            && (forall k :: 0 <= k < |slots| ==> t'.files[slots[k]] == raws[k])
            && (forall slot :: 0 <= slot < |t.files| && slot !in slots ==> t'.files[slot] == t.files[slot])
  {
    var (t', res, slots) := Register(t, raws);
    HandedDistinct(t.bm, |raws|);
    HandedInTable(t, |raws|);
    if res == |raws| {
      TakenFiles(t, raws);
    }
  }

  lemma TakenFiles(t: Table, raws: seq<int>)
    requires t.Valid()
    ensures var t', slots := Taken(t, raws), Handed(t.bm, |raws|);
            && (forall k :: 0 <= k < |slots| ==> slots[k] < |t.files| && t'.files[slots[k]] == raws[k])
            && (forall slot :: 0 <= slot < |t.files| && slot !in slots ==> t'.files[slot] == t.files[slot])
  {
    var t', slots := Taken(t, raws), Handed(t.bm, |raws|);
    HandedInTable(t, |raws|);
    HandedDistinct(t.bm, |raws|);
    forall k | 0 <= k < |slots| ensures t'.files[slots[k]] == raws[k] {
      StoreFirstAt(t.files, slots, raws, |slots|, k);
    }
    forall slot: nat | slot < |t.files| && slot !in slots ensures t'.files[slot] == t.files[slot] {
      assert slots[..|slots|] == slots;
      StoreFirstKeeps(t.files, slots, raws, |slots|, slot);
    }
  }

  // Two files for a new table of 64 slots: both are reported registered, one has a slot.
  lemma OneSlotToAWord()
    ensures NewTable(64).Valid() && Register(NewTable(64), [10, 11]).1 == 2
    ensures Register(NewTable(64), [10, 11]).2 == [0]
  {
    var t := NewTable(64);
    NewTableValid(64);
    FirstBits();
    assert NonZero(t.bm, 0) == [0] + NonZero(t.bm, 1);
    assert NonZero(t.bm, 1) == [];
    assert SlotsIn(t.bm, [0]) == [0];
  }

  // The two lowest bits of a word with all bits set.
  lemma FirstBits()
    ensures LowestBit(WORD - 1) == 0 && Blsr(WORD - 1) == WORD - 2 && LowestBit(WORD - 2) == 1
  {
    BlsrHalf(WORD - 1);
    BlsrHalf(WORD - 2);
    BlsrHalf((WORD - 2) / 2);
  }

  // A new table of one slot: one file takes the slot, and the next is given a slot that is not
  // in the table.
  lemma SlotPastTheEnd()
    ensures var bm := NewTable(1).bm;
            && Handed(bm, 1) == [0]
            && Handed(ClearFirst(bm, NonZero(bm, 0), 1), 1) == [1]
            && |NewTable(1).files| == 1
  {
    var bm := NewTable(1).bm;
    FirstBits();
    assert NonZero(bm, 0) == [0] + NonZero(bm, 1);
    assert NonZero(bm, 1) == [];
    assert SlotsIn(bm, [0]) == [0];
    var bm' := ClearFirst(bm, [0], 1);
    assert bm' == [WORD - 2];
    assert NonZero(bm', 0) == [0] + NonZero(bm', 1);
    assert NonZero(bm', 1) == [];
    assert SlotsIn(bm', [0]) == [1];
  }

  // -------------------------------------------------------------------------------------------
  // Whole runs

  // updateOk: the kernel accepts the new table; behind: the slot named by the entry of the results
  // behind those placed.
  datatype SlotOp = OpRegister(raws: seq<int>, updateOk: bool, behind: int) | OpRelease(slot: nat, updateOk: bool)

  // The table and the slots handed out and not yet given back, with the file the slot was handed
  // out for (-1 after a refused deregistration).
  datatype Ledger = Ledger(t: Table, held: map<nat, int>)

  // The slots held after the first k of a batch are handed out.
  function HandOut(held: map<nat, int>, slots: seq<nat>, raws: seq<int>, k: nat): map<nat, int>
    requires k <= |slots| && k <= |raws|
  {
    if k == 0 then held else HandOut(held, slots, raws, k - 1)[slots[k - 1] := raws[k - 1]]
  }

  lemma {:induction false} HandOutAt(held: map<nat, int>, slots: seq<nat>, raws: seq<int>, k: nat)
    requires k <= |slots| && k <= |raws|
    requires forall i, j :: 0 <= i < j < |slots| ==> slots[i] != slots[j]
    ensures var held' := HandOut(held, slots, raws, k);
            && (forall slot :: slot in held' <==> slot in held || slot in slots[..k])
            && (forall j :: 0 <= j < k ==> slots[j] in held' && held'[slots[j]] == raws[j])
            && (forall slot :: slot in held && slot !in slots[..k] ==> held'[slot] == held[slot])
  {
    if k > 0 {
      HandOutAt(held, slots, raws, k - 1);
      assert slots[..k] == slots[..k - 1] + [slots[k - 1]];
    }
  }

  predicate OpOk(l: Ledger, op: SlotOp)
  {
    op.OpRelease? ==> op.slot < |l.t.files|
  }

  /** Exact bookkeeping: a slot is free in the bitmap exactly when nobody holds it, and then no
      file is stored in it; a slot somebody holds has the file it was handed out for. */
  ghost predicate Exact(l: Ledger)
  {
    && l.t.Valid()
    && (forall slot: nat :: slot < |l.t.files| ==> (IsFree(l.t.bm, slot) <==> slot !in l.held))
    && (forall slot :: slot in l.held ==> slot < |l.t.files| && l.t.files[slot] == l.held[slot])
  }

  function Step(l: Ledger, op: SlotOp): (l': Ledger)
    requires l.t.Valid() && OpOk(l, op)
    ensures l'.t.Valid() && |l'.t.files| == |l.t.files|
  {
    match op
    case OpRegister(raws, updateOk, behind) =>
      var (t', _, slots) := RegisterWith(l.t, raws, updateOk, behind);
      Ledger(t', HandOut(l.held, slots, raws, |slots|))
    case OpRelease(slot, updateOk) =>
      if updateOk then Ledger(Release(l.t, slot), l.held - {slot})
      else Ledger(Unfiled(l.t, slot), if slot in l.held then l.held[slot := -1] else l.held)
  }

  // A refused update finds an entry behind those placed, with a slot of the table nobody holds.
  predicate Harmless(l: Ledger, op: SlotOp)
    requires l.t.Valid()
  {
    op.OpRegister? && !op.updateOk && Register(l.t, op.raws).1 != 0 ==>
      0 <= op.behind < |l.t.files| && op.behind !in l.held
  }

  /** A registration never hands out a slot somebody holds. */
  lemma NeverHandedTwice(l: Ledger, raws: seq<int>)
    requires Exact(l)
    ensures forall s :: s in Register(l.t, raws).2 ==> s !in l.held
  {
    HandedInTable(l.t, |raws|);
  }

  // The table after a registration, with the slots it took held.
  lemma RegisterTakes(l: Ledger, raws: seq<int>)
    requires Exact(l)
    ensures var (t', code, slots) := Register(l.t, raws);
            Exact(Ledger(t', HandOut(l.held, slots, raws, |slots|)))
  {
    var (t', code, slots) := Register(l.t, raws);
    HandedInTable(l.t, |raws|);
    HandedDistinct(l.t.bm, |raws|);
    HandOutAt(l.held, slots, raws, |slots|);
    assert slots[..|slots|] == slots;
    forall slot: nat ensures IsFree(t'.bm, slot) <==> IsFree(l.t.bm, slot) && slot !in slots {
      HandedTaken(l.t.bm, |raws|, slot);
    }
    FilesOf(l, raws);
  }

  lemma FilesOf(l: Ledger, raws: seq<int>)
    requires Exact(l)
    ensures var (t', code, slots) := Register(l.t, raws);
            var held := HandOut(l.held, slots, raws, |slots|);
            forall slot :: slot in held ==> slot < |t'.files| && t'.files[slot] == held[slot]
  {
    var (t', code, slots) := Register(l.t, raws);
    HandedDistinct(l.t.bm, |raws|);
    HandOutAt(l.held, slots, raws, |slots|);
    assert slots[..|slots|] == slots;
    if code != 0 {
      TakenFiles(l.t, raws);
    }
  }

  // With the slots it took held by nobody.
  lemma RegisterLeaks(l: Ledger, raws: seq<int>)
    requires Exact(l) && Register(l.t, raws).1 != 0
    ensures !Exact(Ledger(Register(l.t, raws).0, l.held))
  {
    var (t', code, slots) := Register(l.t, raws);
    if l.t.bm[|l.t.bm| - 1] != 0 {
      NonZeroComplete(l.t.bm, 0, |l.t.bm| - 1);
    }
    HandedInTable(l.t, |raws|);
    HandedTaken(l.t.bm, |raws|, slots[0]);
    assert slots[0] in slots && !IsFree(t'.bm, slots[0]) && slots[0] !in l.held;
  }

  /** A registration keeps the bookkeeping exactly when the kernel accepts the update, or nothing
      was placed, or the entry behind those placed exists and names a slot of the table that
      nobody holds. */
  lemma RegisterKeeps(l: Ledger, raws: seq<int>, updateOk: bool, behind: int)
    requires Exact(l)
    ensures Exact(Step(l, OpRegister(raws, updateOk, behind))) <==> Harmless(l, OpRegister(raws, updateOk, behind))
  {
    hide Exact, Register, Release, Table.Valid;
    ExactValid(l);
    RegisterTakes(l, raws);
    if Register(l.t, raws).1 != 0 {
      RegisterLeaks(l, raws);
    }
    if 0 <= behind < |l.t.files| {
      StrayReleaseKeeps(l, behind);
    }
  }

  lemma ExactValid(l: Ledger)
    requires Exact(l)
    ensures l.t.Valid()
  {
  }

  lemma ReleaseKeeps(l: Ledger, slot: nat, updateOk: bool)
    requires Exact(l) && slot < |l.t.files|
    ensures Exact(Step(l, OpRelease(slot, updateOk)))
  {
    if updateOk {
      forall other: nat ensures IsFree(Release(l.t, slot).bm, other) <==> IsFree(l.t.bm, other) || other == slot {
        SetBitFree(l.t.bm, slot, other);
      }
    }
  }

  /** Deregistration of one slot: its entry is cleared and no other; the slot becomes free, and no
      other, unless the kernel refuses: then the free slots are as before. */
  lemma DeregisterOutcome(t: Table, slot: nat, other: nat)
    requires t.Valid() && slot < |t.files|
    ensures var t' := Release(t, slot);
            && (IsFree(t'.bm, other) <==> IsFree(t.bm, other) || other == slot)
            && (other < |t.files| ==> t'.files[other] == if other == slot then -1 else t.files[other])
    ensures var t' := Unfiled(t, slot);
            && t'.bm == t.bm
            && (other < |t.files| ==> t'.files[other] == if other == slot then -1 else t.files[other])
  {
    SetBitFree(t.bm, slot, other);
  }

  /** Giving back a slot that the registration did not take, as a refused update of the kernel's
      table does, keeps the bookkeeping exactly when nobody holds the slot. */
  lemma StrayReleaseKeeps(l: Ledger, slot: nat)
    requires Exact(l) && slot < |l.t.files|
    ensures Exact(Ledger(Release(l.t, slot), l.held)) <==> slot !in l.held
    ensures slot !in l.held ==> Release(l.t, slot) == l.t
  {
    var t' := Release(l.t, slot);
    forall other: nat ensures IsFree(t'.bm, other) <==> IsFree(l.t.bm, other) || other == slot {
      SetBitFree(l.t.bm, slot, other);
    }
    if slot !in l.held {
      FreeDetermines(t'.bm, l.t.bm);
    }
  }

  // Registrations of any files, deregistrations of slots of the table.
  predicate OpsOk(len: nat, ops: seq<SlotOp>)
  {
    forall op :: op in ops && op.OpRelease? ==> op.slot < len
  }

  function Run(l: Ledger, ops: seq<SlotOp>): Ledger
    requires l.t.Valid() && OpsOk(|l.t.files|, ops)
    decreases |ops|
  {
    if ops == [] then l else Run(Step(l, ops[0]), ops[1..])
  }

  // Every refused update of the run is harmless; a caller can check it before each call.
  predicate AllHarmless(l: Ledger, ops: seq<SlotOp>)
    requires l.t.Valid() && OpsOk(|l.t.files|, ops)
    decreases |ops|
  {
    ops == [] || (Harmless(l, ops[0]) && AllHarmless(Step(l, ops[0]), ops[1..]))
  }

  lemma {:induction false} NoneRefused(l: Ledger, ops: seq<SlotOp>)
    requires l.t.Valid() && OpsOk(|l.t.files|, ops) && forall i :: 0 <= i < |ops| ==> ops[i].updateOk
    ensures AllHarmless(l, ops)
    decreases |ops|
  {
    if ops != [] {
      assert ops[0].updateOk;
      NoneRefused(Step(l, ops[0]), ops[1..]);
    }
  }

  lemma {:induction false} RunKeepsExact(l: Ledger, ops: seq<SlotOp>)
    requires Exact(l) && OpsOk(|l.t.files|, ops) && AllHarmless(l, ops)
    ensures Exact(Run(l, ops))
    decreases |ops|
  {
    hide Exact;
    ExactValid(l);
    if ops != [] {
      match ops[0] {
        case OpRegister(raws, updateOk, behind) => RegisterKeeps(l, raws, updateOk, behind);
        case OpRelease(slot, updateOk) => ReleaseKeeps(l, slot, updateOk);
      }
      RunKeepsExact(Step(l, ops[0]), ops[1..]);
    }
  }

  /** The bitmap lnew sets up describes only slots of the table exactly when the number of slots
      is a multiple of 64, because it marks every bit of the last word. */
  lemma NewTableValid(len: nat)
    ensures NewTable(len).Valid() <==> len % 64 == 0
  {
    var t := NewTable(len);
    forall slot: nat | slot < 64 * |t.bm| ensures IsFree(t.bm, slot) {
      WordIsPow2();
      BitOnes(64, slot % 64);
    }
    if len % 64 != 0 {
      assert IsFree(t.bm, len);
    }
  }

  lemma NewLedgerExact(len: nat)
    requires NewTable(len).Valid()
    ensures Exact(Ledger(NewTable(len), map[]))
  {
    forall slot: nat | slot < len ensures IsFree(NewTable(len).bm, slot) {
      WordIsPow2();
      BitOnes(64, slot % 64);
    }
  }

  /** From a new table, one whose size is a multiple of 64, after every run whose refused updates
      are harmless, as when none is refused: the free slots are exactly those nobody holds, and
      the next registration, whatever it asks for, hands out only such slots. */
  lemma SlotsNeverShared(len: nat, ops: seq<SlotOp>, raws: seq<int>)
    requires NewTable(len).Valid() && OpsOk(len, ops)
    ensures var l0 := Ledger(NewTable(len), map[]);
            var l := Run(l0, ops);
            && ((forall i :: 0 <= i < |ops| ==> ops[i].updateOk) ==> AllHarmless(l0, ops))
            && (AllHarmless(l0, ops) ==> Exact(l) && forall s :: s in Register(l.t, raws).2 ==> s !in l.held)
  {
    hide Exact, Register, Step;
    var l0 := Ledger(NewTable(len), map[]);
    NewLedgerExact(len);
    if forall i :: 0 <= i < |ops| ==> ops[i].updateOk {
      NoneRefused(l0, ops);
    }
    if AllHarmless(l0, ops) {
      RunKeepsExact(l0, ops);
      NeverHandedTwice(Run(l0, ops), raws);
    }
  }

  /** From a new table of 64 slots: a file is registered and holds slot 0; a second registration
      is refused by the kernel while the entry behind the one placed still names slot 0. A third
      one is given slot 0 again. */
  lemma HeldSlotHandedOut()
    ensures NewTable(64).Valid()
    ensures var ops := [OpRegister([10], true, -1), OpRegister([11], false, 0)];
            var l := Run(Ledger(NewTable(64), map[]), ops);
            l.held == map[0 := 10] && !Exact(l) && Register(l.t, [12]).2 == [0]
  {
    hide Exact, Register, Release;
    var t := NewTable(64);
    NewTableValid(64);
    var first, second := OpRegister([10], true, -1), OpRegister([11], false, 0);
    var l0 := Ledger(t, map[]);
    FirstTakesZero();
    var l1, l2 := Step(l0, first), Step(Step(l0, first), second);
    OneHandedOut(map[], 0, 10);
    assert l1.held == map[0 := 10];
    NewLedgerExact(64);
    RegisterKeeps(l0, [10], true, -1);
    RegisterKeeps(l1, [11], false, 0);
    assert l2 == Ledger(t, map[0 := 10]);
    assert [first, second][1..] == [second] && [second][1..] == [];
    assert Run(l1, [second]) == Run(l2, []) == l2;
    assert Run(l0, [first, second]) == Run(l1, [second]);
  }

  lemma OneHandedOut(held: map<nat, int>, slot: nat, raw: int)
    ensures HandOut(held, [slot], [raw], 1) == held[slot := raw]
  {
    assert HandOut(held, [slot], [raw], 0) == held;
  }

  lemma FirstTakesZero()
    requires NewTable(64).Valid()
    ensures forall raw :: Register(NewTable(64), [raw]).1 == 1 && Register(NewTable(64), [raw]).2 == [0]
    ensures var t := Register(NewTable(64), [10]).0;
            Register(t, [11]).1 == 1 && Release(t, 0) == NewTable(64)
  {
    var bm := NewTable(64).bm;
    FirstBits();
    SetRestores(WORD - 1);
    assert NonZero(bm, 0) == [0] + NonZero(bm, 1);
    assert NonZero(bm, 1) == [];
    assert SlotsIn(bm, [0]) == [0];
    var t := Register(NewTable(64), [10]).0;
    assert ClearFirst(bm, [0], 1) == [WORD - 2];
    assert t.bm == [WORD - 2];
    assert t.files == NewTable(64).files[0 := 10];
    assert t.files[0 := -1] == NewTable(64).files;
  }
}
