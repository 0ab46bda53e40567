/** The registered-file slots as values: a bitmap of 64-bit words with a bit per free slot, and
    the file table (include/iel_priv/bitmap.h, regfiles and xreg in src/backends/iou.c). */
module SlotSpec {
  import opened Arith
  import opened Bits
  import opened Outcomes

  // -------------------------------------------------------------------------------------------
  // Words

  // `__builtin_ctzg(n)`
  function LowestBit(n: nat): nat
    requires n > 0
  {
    if n % 2 == 1 then 0 else 1 + LowestBit(n / 2)
  }

  // `n & (n - 1)`
  function Blsr(n: nat): nat
  {
    if n == 0 then 0 else And(n, n - 1)
  }

  lemma {:induction false} LowestBitIsLowest(n: nat)
    requires n > 0
    ensures Bit(n, LowestBit(n))
    ensures forall i: nat :: i < LowestBit(n) ==> !Bit(n, i)
    decreases n
  {
    if n % 2 == 0 {
      LowestBitIsLowest(n / 2);
      forall i: nat | i < LowestBit(n) ensures !Bit(n, i) {
        if i > 0 {
          assert !Bit(n / 2, i - 1);
        }
      }
    }
  }

  // n & (n - 1) clears the lowest set bit and no other.
  lemma {:induction false} BlsrClears(n: nat, i: nat)
    requires n > 0
    ensures Bit(Blsr(n), i) == (Bit(n, i) && i != LowestBit(n))
    decreases n
  {
    BlsrHalf(n);
    if n % 2 == 1 {
    } else if i > 0 {
      BlsrClears(n / 2, i - 1);
    }
  }

  lemma BlsrHalf(n: nat)
    requires n > 0
    ensures n % 2 == 1 ==> Blsr(n) == n - 1 && LowestBit(n) == 0
    ensures n % 2 == 0 ==> Blsr(n) == 2 * Blsr(n / 2) && LowestBit(n) == 1 + LowestBit(n / 2)
  {
    hide Blsr;
    if n % 2 == 1 {
      assert n == 2 * (n / 2) + 1;
      BlsrOdd(n / 2);
    } else {
      assert n == 2 * (n / 2);
      BlsrEven(n / 2);
    }
  }

  lemma BlsrOdd(h: nat)
    ensures Blsr(2 * h + 1) == 2 * h
  {
    AndSelf(h);
    assert (2 * h + 1) / 2 == h && 2 * h / 2 == h;
  }

  lemma BlsrEven(h: nat)
    requires h > 0
    ensures Blsr(2 * h) == 2 * Blsr(h)
  {
    assert 2 * h / 2 == h && (2 * h - 1) / 2 == h - 1;
  }

  lemma {:induction false} BlsrBelow(n: nat, w: nat)
    requires 0 < n < Pow2(w)
    ensures Blsr(n) < n && LowestBit(n) < w
    decreases w
  {
    BlsrHalf(n);
    if n % 2 == 0 {
      BlsrBelow(n / 2, w - 1);
    }
  }

  // Setting the bit that was cleared gives the word back.
  lemma {:induction false} SetRestores(n: nat)
    requires n > 0
    ensures Or(Blsr(n), Pow2(LowestBit(n))) == n
    decreases n
  {
    BlsrHalf(n);
    if n % 2 == 1 {
      OrLow(n / 2);
    } else {
      SetRestores(n / 2);
      OrDouble(Blsr(n / 2), Pow2(LowestBit(n / 2)));
    }
  }

  lemma OrLow(h: nat)
    ensures Or(2 * h, 1) == 2 * h + 1
  {
    assert 2 * h / 2 == h;
  }

  lemma OrDouble(x: nat, y: nat)
    ensures Or(2 * x, 2 * y) == 2 * Or(x, y)
  {
    assert 2 * x / 2 == x && 2 * y / 2 == y;
  }

  lemma {:induction false} OrBelow(x: nat, y: nat, w: nat)
    requires x < Pow2(w) && y < Pow2(w)
    ensures Or(x, y) < Pow2(w)
    decreases w
  {
    if x != 0 && y != 0 {
      OrBelow(x / 2, y / 2, w - 1);
    }
  }

  // -------------------------------------------------------------------------------------------
  // The bitmap

  // The words with a set bit, from index `from` on.
  function NonZero(bm: seq<nat>, from: nat): (ws: seq<nat>)
    requires from <= |bm|
    ensures forall k :: 0 <= k < |ws| ==> from <= ws[k] < |bm| && bm[ws[k]] != 0
    decreases |bm| - from
  {
    if from == |bm| then []
    else if bm[from] != 0 then [from] + NonZero(bm, from + 1)
    else NonZero(bm, from + 1)
  }

  lemma {:induction false} NonZeroAscends(bm: seq<nat>, from: nat)
    requires from <= |bm|
    ensures forall i, j :: 0 <= i < j < |NonZero(bm, from)| ==> NonZero(bm, from)[i] < NonZero(bm, from)[j]
    decreases |bm| - from
  {
    if from < |bm| {
      NonZeroAscends(bm, from + 1);
    }
  }

  lemma {:induction false} NonZeroComplete(bm: seq<nat>, from: nat, w: nat)
    requires from <= w < |bm| && bm[w] != 0
    ensures w in NonZero(bm, from)
    decreases |bm| - from
  {
    if w != from {
      NonZeroComplete(bm, from + 1, w);
    }
  }

  // The scan reads only the words from its start on.
  lemma {:induction false} NonZeroReads(bm: seq<nat>, bm': seq<nat>, from: nat)
    requires from <= |bm| == |bm'| && forall w :: from <= w < |bm| ==> bm[w] == bm'[w]
    ensures NonZero(bm, from) == NonZero(bm', from)
    decreases |bm| - from
  {
    if from < |bm| {
      NonZeroReads(bm, bm', from + 1);
    }
  }

  // The bitmap after taking the lowest bit of the first i of the words ws.
  function ClearFirst(bm: seq<nat>, ws: seq<nat>, i: nat): (r: seq<nat>)
    requires i <= |ws| && forall k :: 0 <= k < |ws| ==> ws[k] < |bm|
    ensures |r| == |bm|
  {
    if i == 0 then bm else ClearFirst(bm, ws, i - 1)[ws[i - 1] := Blsr(bm[ws[i - 1]])]
  }

  // The file table after storing the first i files in their slots.
  function StoreFirst(files: seq<int>, slots: seq<nat>, raws: seq<int>, i: nat): (r: seq<int>)
    requires i <= |slots| && i <= |raws| && forall k :: 0 <= k < |slots| ==> slots[k] < |files|
    ensures |r| == |files|
  {
    if i == 0 then files else StoreFirst(files, slots, raws, i - 1)[slots[i - 1] := raws[i - 1]]
  }

  function SlotOf(bm: seq<nat>, w: nat): nat
    requires w < |bm| && bm[w] != 0
  {
    w * 64 + LowestBit(bm[w])
  }

  // The slots a scan finds, one to a word.
  function SlotsIn(bm: seq<nat>, ws: seq<nat>): (slots: seq<nat>)
    requires forall k :: 0 <= k < |ws| ==> ws[k] < |bm| && bm[ws[k]] != 0
    ensures |slots| == |ws|
    ensures forall k :: 0 <= k < |ws| ==> slots[k] == SlotOf(bm, ws[k])
  {
    if ws == [] then [] else [SlotOf(bm, ws[0])] + SlotsIn(bm, ws[1..])
  }

  predicate IsFree(bm: seq<nat>, slot: nat)
  {
    slot / 64 < |bm| && Bit(bm[slot / 64], slot % 64)
  }

  predicate Words(bm: seq<nat>)
  {
    forall w :: 0 <= w < |bm| ==> bm[w] < WORD
  }

  // -------------------------------------------------------------------------------------------
  // The table and its operations

  datatype Table = Table(bm: seq<nat>, files: seq<int>)
  {
    // A set bit is a slot of the table, and no file is registered there.
    predicate Valid()
    {
      && Words(bm) && |bm| == (|files| + 63) / 64
      && forall slot :: 0 <= slot < 64 * |bm| && IsFree(bm, slot) ==> slot < |files| && files[slot] == -1
    }
  }

  // What lnew sets up for len slots.
  function NewTable(len: nat): Table
  {
    Table(seq((len + 63) / 64, _ => WORD - 1), seq(len, _ => -1))
  }

  // Whether a registration of n files reports success: enough words with a free slot, or the
  // scan ends in the last word.
  predicate Granted(bm: seq<nat>, n: nat)
  {
    n <= |NonZero(bm, 0)| || (bm != [] && bm[|bm| - 1] != 0)
  }

  // Slots handed out by a registration that reports success.
  function Handed(bm: seq<nat>, n: nat): (slots: seq<nat>)
    ensures |slots| <= n
    ensures |slots| == n <==> n <= |NonZero(bm, 0)|
  {
    var ws := NonZero(bm, 0);
    SlotsIn(bm, ws)[..if n <= |ws| then n else |ws|]
  }

  lemma SlotOfIsFree(bm: seq<nat>, w: nat)
    requires Words(bm) && w < |bm| && bm[w] != 0
    ensures SlotOf(bm, w) / 64 == w && SlotOf(bm, w) % 64 == LowestBit(bm[w])
    ensures IsFree(bm, SlotOf(bm, w)) && SlotOf(bm, w) < 64 * |bm|
  {
    WordIsPow2();
    BlsrBelow(bm[w], 64);
    LowestBitIsLowest(bm[w]);
  }

  // Every slot handed out is free, in the table, and without a file.
  lemma HandedInTable(t: Table, n: nat)
    requires t.Valid()
    ensures var slots := Handed(t.bm, n);
            forall k :: 0 <= k < |slots| ==> slots[k] < |t.files| && t.files[slots[k]] == -1 && IsFree(t.bm, slots[k])
  {
    var ws, slots := NonZero(t.bm, 0), Handed(t.bm, n);
    forall k | 0 <= k < |slots|
      ensures slots[k] < |t.files| && t.files[slots[k]] == -1 && IsFree(t.bm, slots[k])
    {
      assert slots[k] == SlotOf(t.bm, ws[k]);
      SlotOfIsFree(t.bm, ws[k]);
    }
  }

  // -------------------------------------------------------------------------------------------
  // Effects on the free slots

  lemma {:induction false} ClearFirstAt(bm: seq<nat>, ws: seq<nat>, i: nat, w: nat)
    requires i <= |ws| && w < |bm|
    requires forall k :: 0 <= k < |ws| ==> ws[k] < |bm|
    ensures ClearFirst(bm, ws, i)[w] == if w in ws[..i] then Blsr(bm[w]) else bm[w]
  {
    if i > 0 {
      ClearFirstAt(bm, ws, i - 1, w);
      assert ws[..i] == ws[..i - 1] + [ws[i - 1]];
    }
  }

  lemma {:induction false} StoreFirstKeeps(files: seq<int>, slots: seq<nat>, raws: seq<int>, i: nat, slot: nat)
    requires i <= |slots| && i <= |raws| && slot < |files| && slot !in slots[..i]
    requires forall k :: 0 <= k < |slots| ==> slots[k] < |files|
    ensures StoreFirst(files, slots, raws, i)[slot] == files[slot]
  {
    if i > 0 {
      assert slots[..i] == slots[..i - 1] + [slots[i - 1]];
      StoreFirstKeeps(files, slots, raws, i - 1, slot);
    }
  }

  // The slots handed out are distinct, and lie in distinct words.
  lemma HandedDistinct(bm: seq<nat>, n: nat)
    requires Words(bm)
    ensures var slots := Handed(bm, n);
            forall i, j :: 0 <= i < j < |slots| ==> slots[i] < slots[j]
  {
    var ws, slots := NonZero(bm, 0), Handed(bm, n);
    NonZeroAscends(bm, 0);
    forall i, j | 0 <= i < j < |slots| ensures slots[i] < slots[j] {
      SlotOfIsFree(bm, ws[i]);
      SlotOfIsFree(bm, ws[j]);
    }
  }

  // Taking the slots handed out makes exactly those no longer free.
  lemma HandedTaken(bm: seq<nat>, n: nat, slot: nat)
    requires Words(bm)
    ensures var slots := Handed(bm, n);
            IsFree(ClearFirst(bm, NonZero(bm, 0), |slots|), slot) <==> IsFree(bm, slot) && slot !in slots
  {
    var ws, slots := NonZero(bm, 0), Handed(bm, n);
    var m := |slots|;
    var w := slot / 64;
    HandedInWord(bm, n, slot);
    if w < |bm| {
      ClearFirstAt(bm, ws, m, w);
      if w in ws[..m] {
        BlsrClears(bm[w], slot % 64);
      }
    }
  }

  // A slot was handed out exactly if its word was used and it is the lowest bit there.
  lemma HandedInWord(bm: seq<nat>, n: nat, slot: nat)
    requires Words(bm)
    ensures var ws, slots, w := NonZero(bm, 0), Handed(bm, n), slot / 64;
            && (w in ws[..|slots|] ==> w < |bm| && bm[w] != 0)
            && (slot in slots <==> w in ws[..|slots|] && slot % 64 == LowestBit(bm[w]))
  {
    var ws, slots, w := NonZero(bm, 0), Handed(bm, n), slot / 64;
    if slot in slots {
      var j :| 0 <= j < |slots| && slots[j] == slot;
      SlotOfIsFree(bm, ws[j]);
      assert ws[j] == ws[..|slots|][j];
    }
    if w in ws[..|slots|] && slot % 64 == LowestBit(bm[w]) {
      var k :| 0 <= k < |slots| && ws[k] == w;
      assert slots[k] == SlotOf(bm, w) == slot;
    }
  }

  lemma ClearedWords(bm: seq<nat>, n: nat)
    requires Words(bm)
    ensures Words(ClearFirst(bm, NonZero(bm, 0), |Handed(bm, n)|))
  {
    var ws, m := NonZero(bm, 0), |Handed(bm, n)|;
    WordIsPow2();
    forall w | 0 <= w < |bm| ensures ClearFirst(bm, ws, m)[w] < WORD {
      ClearFirstAt(bm, ws, m, w);
      if bm[w] > 0 {
        BlsrBelow(bm[w], 64);
      }
    }
  }

  // -------------------------------------------------------------------------------------------
  // The operations

  // The table after taking the slots handed out for the files raws.
  function Taken(t: Table, raws: seq<int>): (t': Table)
    requires t.Valid()
    ensures t'.Valid() && |t'.files| == |t.files|
  {
    var slots := Handed(t.bm, |raws|);
    HandedInTable(t, |raws|);
    var t' := Table(ClearFirst(t.bm, NonZero(t.bm, 0), |slots|), StoreFirst(t.files, slots, raws, |slots|));
    TakenValid(t, raws, t');
    t'
  }

  lemma TakenValid(t: Table, raws: seq<int>, t': Table)
    requires t.Valid()
    requires var slots := Handed(t.bm, |raws|);
             (forall k :: 0 <= k < |slots| ==> slots[k] < |t.files|)
             && t' == Table(ClearFirst(t.bm, NonZero(t.bm, 0), |slots|), StoreFirst(t.files, slots, raws, |slots|))
    ensures t'.Valid()
  {
    var slots := Handed(t.bm, |raws|);
    ClearedWords(t.bm, |raws|);
    forall slot: nat | slot < 64 * |t'.bm| && IsFree(t'.bm, slot)
      ensures slot < |t'.files| && t'.files[slot] == -1
    {
      HandedTaken(t.bm, |raws|, slot);
      assert slots[..|slots|] == slots;
      StoreFirstKeeps(t.files, slots, raws, |slots|, slot);
    }
  }

  /** regfiles: the table afterwards, the return value and the slots handed out. */
  function Register(t: Table, raws: seq<int>): (res: (Table, int, seq<nat>))
    requires t.Valid()
    ensures res.0.Valid() && |res.0.files| == |t.files|
  {
    if t.files == [] || raws == [] || !Granted(t.bm, |raws|) then (t, 0, [])
    else (Taken(t, raws), |raws|, Handed(t.bm, |raws|))
  }

  // The table with a slot's entry cleared and the slot not given back.
  function Unfiled(t: Table, slot: nat): (t': Table)
    requires t.Valid() && slot < |t.files|
    ensures t'.Valid() && |t'.files| == |t.files|
  {
    t.(files := t.files[slot := -1])
  }

  /** Deregistration of one slot. */
  function Release(t: Table, slot: nat): (t': Table)
    requires t.Valid() && slot < |t.files|
    ensures t'.Valid() && |t'.files| == |t.files|
  {
    var t' := Table(t.bm[slot / 64 := Or(t.bm[slot / 64], Pow2(slot % 64))], t.files[slot := -1]);
    ReleasedValid(t, slot, t');
    t'
  }

  /** regfiles with the kernel's answer to the update. When it refuses, the rollback begins at the
      entry behind those placed; `behind` is the slot named there, and not one of the table if
      there is no such entry. Overrun: the rollback is about to leave its arrays. */
  function RegisterWith(t: Table, raws: seq<int>, updateOk: bool, behind: int): (res: (Table, Outcome, seq<nat>))
    requires t.Valid()
    ensures res.0.Valid() && |res.0.files| == |t.files|
  {
    var (t', code, slots) := Register(t, raws);
    if updateOk || code == 0 then (t', Returned(code), slots)
    else if 0 <= behind < |t.files| then (Release(t, behind), Returned(0), [])
    else (t', Overrun, [])
  }

  lemma ReleasedValid(t: Table, slot: nat, t': Table)
    requires t.Valid() && slot < |t.files|
    requires t' == Table(t.bm[slot / 64 := Or(t.bm[slot / 64], Pow2(slot % 64))], t.files[slot := -1])
    ensures t'.Valid()
  {
    WordIsPow2();
    Pow2Below(slot % 64);
    OrBelow(t.bm[slot / 64], Pow2(slot % 64), 64);
    forall other: nat | other < 64 * |t'.bm| && IsFree(t'.bm, other)
      ensures other < |t'.files| && t'.files[other] == -1
    {
      SetBitFree(t.bm, slot, other);
    }
  }

  // Words have no bits from 64 on.
  lemma {:induction false} NoHighBits(x: nat, w: nat, i: nat)
    requires x < Pow2(w) && i >= w
    ensures !Bit(x, i)
    decreases w
  {
    if w == 0 {
      BitZero(i);
    } else {
      NoHighBits(x / 2, w - 1, i - 1);
    }
  }

  // The free slots determine the bitmap.
  lemma FreeDetermines(bm: seq<nat>, bm': seq<nat>)
    requires Words(bm) && Words(bm') && |bm| == |bm'|
    requires forall slot: nat :: IsFree(bm, slot) <==> IsFree(bm', slot)
    ensures bm == bm'
  {
    WordIsPow2();
    forall w | 0 <= w < |bm| ensures bm[w] == bm'[w] {
      forall i: nat ensures Bit(bm[w], i) == Bit(bm'[w], i) {
        if i < 64 {
          DivModUnique(w, 64, i);
          assert IsFree(bm, w * 64 + i) <==> IsFree(bm', w * 64 + i);
        } else {
          NoHighBits(bm[w], 64, i);
          NoHighBits(bm'[w], 64, i);
        }
      }
      BitsDetermine(bm[w], bm'[w]);
    }
  }

  lemma SetBitWords(bm: seq<nat>, slot: nat)
    requires Words(bm) && slot / 64 < |bm|
    ensures Words(bm[slot / 64 := Or(bm[slot / 64], Pow2(slot % 64))])
  {
    WordIsPow2();
    Pow2Below(slot % 64);
    OrBelow(bm[slot / 64], Pow2(slot % 64), 64);
  }

  // Setting a slot's bit frees that slot and no other.
  lemma SetBitFree(bm: seq<nat>, slot: nat, other: nat)
    requires slot / 64 < |bm|
    ensures IsFree(bm[slot / 64 := Or(bm[slot / 64], Pow2(slot % 64))], other) <==> IsFree(bm, other) || other == slot
  {
    if other / 64 == slot / 64 {
      BitOr(bm[slot / 64], Pow2(slot % 64), other % 64);
      BitPow2(slot % 64, other % 64);
    }
  }
}
