/** The registered-file table as it runs: bitmap and file table are changed in place, a batch that
    runs out of slots is rolled back. Every method is proved against SlotSpec. */
module FileTables {
  import opened Arith
  import opened Bits
  import opened Outcomes
  import opened SlotSpec

  // A file as the client names it: its descriptor, and its slot once registered.
  datatype RegFd = RegFd(raw: int, reg: int)

  const FD_R_INVAL := -1
  const ENOBUFS: nat := 105
  const E_NOIMPL: nat := 666

  function Raws(fds: seq<RegFd>): (r: seq<int>)
    ensures |r| == |fds|
    ensures forall i :: 0 <= i < |fds| ==> r[i] == fds[i].raw
  {
    seq(|fds|, i requires 0 <= i < |fds| => fds[i].raw)
  }

  // ch_idx * 64 + ctz of the first non-zero word at or after `it`; none is IEL_BM_NPOS.
  datatype Found = Slot(idx: nat) | NPos

  // `iel_bm_bsc_`: index of the lowest set bit, counted upward, and the word without it.
  method BitScanClear(n: nat) returns (r: nat, out: nat)
    requires 0 < n < WORD
    ensures r == LowestBit(n) && out == Blsr(n)
  {
    r := 0;
    var m := n;
    while m % 2 == 0
      invariant m > 0 && LowestBit(n) == r + LowestBit(m)
      decreases m
    {
      m := m / 2;
      r := r + 1;
    }
    out := And(n, n - 1);
  }

  /** iel_bm_scan_clear: from word `it` on, take the lowest bit of the first non-zero word and
      move past that word. */
  method ScanClear(bm: array<nat>, it: nat) returns (ret: Found, next: nat)
    requires it < bm.Length && Words(bm[..])
    modifies bm
    ensures it < next <= bm.Length
    ensures NonZero(old(bm[..]), it) == [] ==> ret == NPos && next == bm.Length && bm[..] == old(bm[..])
    ensures NonZero(old(bm[..]), it) != [] ==>
              var w := NonZero(old(bm[..]), it)[0];
              && ret == Slot(SlotOf(old(bm[..]), w)) && next == w + 1
              && bm[..] == old(bm[..])[w := Blsr(old(bm[w]))]
              && NonZero(old(bm[..]), next) == NonZero(old(bm[..]), it)[1..]
  {
    ghost var words := bm[..];
    next := it;
    ret := NPos;
    while true
      invariant it <= next < bm.Length && bm[..] == words && ret == NPos
      invariant NonZero(words, next) == NonZero(words, it)
      decreases bm.Length - next
    {
      var n := bm[next];
      if n != 0 {
        assert n == words[next];
        var bit, rest := BitScanClear(n);
        bm[next] := rest;
        ret := Slot(next * 64 + bit);
        next := next + 1;
        return;
      }
      next := next + 1;
      if next == bm.Length {
        break;
      }
    }
  }

  class FileTable {
    const len: nat
    const bitmap: array<nat>
    const files: array<int>
    var errno: nat

    ghost predicate Valid()
      reads bitmap, files
    {
      && files.Length == len
      && (bitmap as object) != files
      && View().Valid()
    }

    ghost function View(): Table
      reads bitmap, files
    {
      Table(bitmap[..], files[..])
    }

    // What lnew does with a file count: no slot taken, every bit of every word set.
    constructor (len: nat)
      ensures View() == NewTable(len) && this.len == len && fresh(bitmap) && fresh(files)
    {
      this.len := len;
      files := new int[len](_ => -1);
      bitmap := new nat[(len + 63) / 64](_ => WORD - 1);
      errno := 0;
    }

    // `iel_bm_set`: the slot becomes free, and no other.
    method SetBit(idx: nat)
      requires idx / 64 < bitmap.Length
      modifies bitmap
      ensures bitmap[..] == old(bitmap[..])[idx / 64 := Or(old(bitmap[idx / 64]), Pow2(idx % 64))]
      ensures forall slot: nat :: IsFree(bitmap[..], slot) <==> IsFree(old(bitmap[..]), slot) || slot == idx
    {
      hide IsFree;
      ghost var bm := bitmap[..];
      bitmap[idx / 64] := Or(bitmap[idx / 64], Pow2(idx % 64));
      assert bitmap[..] == bm[idx / 64 := Or(bm[idx / 64], Pow2(idx % 64))];
      forall slot: nat ensures IsFree(bitmap[..], slot) <==> IsFree(bm, slot) || slot == idx {
        SetBitFree(bm, idx, slot);
      }
    }

    /** Deregistration of one slot; updateOk: the kernel accepts the table without it. If not, the
        slot is not given back. */
    method Deregister(slot: nat, updateOk: bool) returns (res: int)
      requires Valid() && slot < len
      modifies bitmap, files, this`errno
      ensures Valid() && View() == if updateOk then Release(old(View()), slot) else Unfiled(old(View()), slot)
      ensures res == (if updateOk then 1 else -1) && errno == E_NOIMPL
    {
      errno := E_NOIMPL;
      files[slot] := -1;
      if !updateOk {
        assert View() == Unfiled(old(View()), slot);
        return -1;
      }
      SetBit(slot);
      assert View() == Release(old(View()), slot);
      res := 1;
    }

    // The bitmap after i words of a batch, and where the scan continues.
    ghost predicate Scanned(bm: seq<nat>, i: nat, it: nat)
      reads bitmap
    {
      var ws := NonZero(bm, 0);
      && i <= |ws| && it <= |bm| && bitmap[..] == ClearFirst(bm, ws, i)
      && NonZero(bm, it) == ws[i..]
      && forall w :: it <= w < |bm| ==> bitmap[w] == bm[w]
    }

    // One scan of the batch.
    method Scan(it: nat, ghost bm: seq<nat>, ghost i: nat) returns (ret: Found, next: nat)
      requires Words(bm) && it < |bm| && Scanned(bm, i, it)
      modifies bitmap
      ensures i == |NonZero(bm, 0)| ==> ret == NPos && bitmap[..] == old(bitmap[..])
      ensures i < |NonZero(bm, 0)| ==>
                && ret == Slot(SlotOf(bm, NonZero(bm, 0)[i])) && it < next <= |bm| && bm[next - 1] != 0
                && Scanned(bm, i + 1, next)
    {
      hide NonZero, ClearFirst, Blsr, SlotOf, Words;
      ghost var ws, now := NonZero(bm, 0), bitmap[..];
      NonZeroReads(bm, now, it);
      ClearFirstWords(bm, ws, i);
      ret, next := ScanClear(bitmap, it);
      if i < |ws| {
        ScanStep(bm, now, i, it);
        NonZeroReads(bm, now, next);
      }
    }

    predicate Apart(out: array<RegFd>)
    {
      var a: object, b: object, c: object := bitmap, files, out;
      a != b && a != c && b != c
    }

    // What a batch of the files raws has done once i of them have a slot. `before` is the result
    // array as it was.
    ghost predicate Stored(t: Table, raws: seq<int>, before: seq<RegFd>, out: array<RegFd>, i: nat)
      requires t.Valid()
      reads files, out
    {
      var slots := SlotsIn(t.bm, NonZero(t.bm, 0));
      && i <= |slots| && i <= |raws| <= |before| == out.Length
      && (forall k :: 0 <= k < |slots| ==> slots[k] < |t.files|)
      && files[..] == StoreFirst(t.files, slots, raws, i)
      && (forall k :: 0 <= k < i ==> out[k] == RegFd(raws[k], slots[k]))
      && (forall k :: i <= k < out.Length ==> out[k] == before[k])
    }

    // Store file i in the slot found for it.
    method Put(fds: array<RegFd>, out: array<RegFd>, i: nat, slot: nat,
               ghost t: Table, ghost raws: seq<int>, ghost before: seq<RegFd>)
      requires t.Valid() && Apart(out) && Stored(t, raws, before, out, i)
      requires i < |raws| && i < fds.Length && fds[i].raw == raws[i]
      requires i < |NonZero(t.bm, 0)| && slot == SlotOf(t.bm, NonZero(t.bm, 0)[i])
      modifies files, out
      ensures Stored(t, raws, before, out, i + 1)
      ensures forall k :: i < k < fds.Length ==> fds[k] == old(fds[k])
    {
      hide NonZero, SlotsIn, SlotOf, Table.Valid;
      files[slot] := fds[i].raw;
      out[i] := RegFd(fds[i].raw, slot);
    }

    // The batch loop with i files stored and the scan at word `it`.
    ghost predicate InBatch(t: Table, raws: seq<int>, before: seq<RegFd>, fds: array<RegFd>, out: array<RegFd>,
                            i: nat, it: nat)
      reads bitmap, files, fds, out
    {
      && t.Valid() && Apart(out) && bitmap.Length == |t.bm| && i <= |raws| <= fds.Length
      && Stored(t, raws, before, out, i) && Scanned(t.bm, i, it)
      && (i > 0 ==> it > 0 && t.bm[it - 1] != 0)
      && forall k :: i <= k < |raws| ==> fds[k].raw == raws[k]
    }

    // What the loop leaves: each file in the slot of its word, as many as there are words, or
    // all; exhausted exactly when the batch is not granted.
    ghost predicate BatchDone(t: Table, raws: seq<int>, before: seq<RegFd>, out: array<RegFd>, i: nat, exhausted: bool)
      reads bitmap, files, out
    {
      && t.Valid() && Apart(out) && bitmap.Length == |t.bm|
      && Stored(t, raws, before, out, i)
      && bitmap[..] == ClearFirst(t.bm, NonZero(t.bm, 0), i)
      && exhausted == !Granted(t.bm, |raws|)
      && i == (if |raws| <= |NonZero(t.bm, 0)| then |raws| else |NonZero(t.bm, 0)|)
    }

    // One round of the loop.
    method Round(fds: array<RegFd>, out: array<RegFd>, i: nat, it: nat,
                 ghost t: Table, ghost raws: seq<int>, ghost before: seq<RegFd>) returns (found: bool, next: nat)
      requires InBatch(t, raws, before, fds, out, i, it) && i < |raws| && it < bitmap.Length
      modifies bitmap, files, out
      ensures found ==> InBatch(t, raws, before, fds, out, i + 1, next) && it < next <= bitmap.Length
      ensures !found ==> BatchDone(t, raws, before, out, i, true)
    {
      hide Stored;
      var idx;
      idx, next := Scan(it, t.bm, i);
      found := idx.Slot?;
      if found {
        Put(fds, out, i, idx.idx, t, raws, before);
      } else {
        NoneLeft(t.bm, it);
      }
    }

    lemma BatchStarts(raws: seq<int>, fds: array<RegFd>, out: array<RegFd>)
      requires Valid() && Apart(out) && |raws| <= fds.Length && |raws| <= out.Length
      requires forall k :: 0 <= k < |raws| ==> raws[k] == fds[k].raw
      ensures InBatch(View(), raws, out[..], fds, out, 0, 0)
      ensures len > 0 ==> bitmap.Length > 0
    {
      SlotsInTable(View());
      assert NonZero(bitmap[..], 0)[0..] == NonZero(bitmap[..], 0);
    }

    lemma BatchEnds(t: Table, raws: seq<int>, before: seq<RegFd>, fds: array<RegFd>, out: array<RegFd>, i: nat, it: nat)
      requires InBatch(t, raws, before, fds, out, i, it) && 0 < i && (i == |raws| || it == bitmap.Length)
      ensures BatchDone(t, raws, before, out, i, false)
    {
      hide Stored;
    }

    // The loop over the batch: stops when every file has a slot, when the scan has used the last
    // word, or when it finds no further slot (exhausted).
    method PlaceAll(fds: array<RegFd>, out: array<RegFd>, nrArgs: nat) returns (i: nat, exhausted: bool)
      requires Valid() && Apart(out) && 0 < nrArgs <= fds.Length && nrArgs <= out.Length && len > 0
      modifies bitmap, files, out
      ensures BatchDone(old(View()), Raws(old(fds[..nrArgs])), old(out[..]), out, i, exhausted)
    {
      hide InBatch, BatchDone, Raws, Valid, Apart;
      ghost var t, raws, before := View(), Raws(fds[..nrArgs]), out[..];
      BatchStarts(raws, fds, out);
      i, exhausted := 0, false;
      var it: nat := 0;
      while true
        invariant InBatch(t, raws, before, fds, out, i, it)
        invariant i < nrArgs && it < bitmap.Length && !exhausted
        decreases nrArgs - i
      {
        var found, next := Round(fds, out, i, it, t, raws, before);
        if !found {
          exhausted := true;
          return;
        }
        i := i + 1;
        it := next;
        if i == nrArgs || it == bitmap.Length {
          BatchEnds(t, raws, before, fds, out, i, it);
          break;
        }
      }
    }

    // Take file i - 1 out of its slot again.
    method Unplace(out: array<RegFd>, i: nat, ghost t: Table, ghost raws: seq<int>, ghost before: seq<RegFd>)
      requires t.Valid() && Apart(out) && bitmap.Length == |t.bm| && 0 < i
      requires Undoing(t, raws, before, out, i)
      modifies bitmap, files, out
      ensures Undoing(t, raws, before, out, i - 1)
    {
      hide ClearFirst, StoreFirst, NonZero, SlotsIn, SlotOf, Table.Valid;
      var reg := out[i - 1].reg;
      UndoStep(t, raws, i);
      SetBit(reg);
      files[reg] := -1;
      out[i - 1] := out[i - 1].(reg := FD_R_INVAL);
    }

    // The rollback with the first i files still in their slots; `placed` of them were.
    ghost predicate Undoing(t: Table, raws: seq<int>, before: seq<RegFd>, out: array<RegFd>, i: nat)
      requires t.Valid()
      reads bitmap, files, out
    {
      var ws := NonZero(t.bm, 0);
      var slots := SlotsIn(t.bm, ws);
      && i <= |slots| <= |raws| <= |before| == out.Length
      && (forall k :: 0 <= k < |slots| ==> slots[k] < |t.files|)
      && bitmap[..] == ClearFirst(t.bm, ws, i)
      && files[..] == StoreFirst(t.files, slots, raws, i)
      && (forall k :: 0 <= k < i ==> out[k] == RegFd(raws[k], slots[k]))
      && (forall k :: i <= k < |slots| ==> out[k] == RegFd(raws[k], FD_R_INVAL))
      && (forall k :: |slots| <= k < out.Length ==> out[k] == before[k])
    }

    // The slot named by entry i of the results; -1 if there is no such entry.
    function Named(out: array<RegFd>, i: nat): int
      reads out
    {
      if i < out.Length then out[i].reg else -1
    }

    /** regfiles; updateOk: the kernel accepts the new table. On success the slots are handed out
        through `out`. When the slots run out every slot taken is given back, bitmap and file
        table are exactly as before, and the entries that had a slot are marked invalid. When the
        kernel refuses, the rollback begins at the entry behind those placed. */
    method RegFiles(fds: array<RegFd>, out: array<RegFd>, nrArgs: nat, updateOk: bool) returns (res: Outcome)
      requires Valid() && Apart(out) && nrArgs <= fds.Length && nrArgs <= out.Length
      modifies bitmap, files, out, this`errno
      ensures Valid()
      ensures var t, raws := old(View()), Raws(old(fds[..nrArgs]));
              var placed := |Register(t, raws).2|;
              var r := RegisterWith(t, raws, updateOk, old(Named(out, |Register(View(), Raws(fds[..nrArgs])).2|)));
              && (View(), res) == (r.0, r.1)
              && (r.2 != [] ==> out[..] == Results(old(out[..]), raws, r.2, |r.2|))
              && (nrArgs > 0 && res == Returned(0) ==> errno == if placed == 0 then ENOBUFS else E_NOIMPL)
      ensures len == 0 ==> forall k :: 0 <= k < nrArgs ==> out[k] == old(out[k]).(reg := FD_R_INVAL)
      ensures len > 0 && nrArgs > 0 && !Granted(old(bitmap[..]), nrArgs) ==>
                forall k :: 0 <= k < |NonZero(old(bitmap[..]), 0)| ==>
                  k < nrArgs && out[k] == RegFd(old(fds[k].raw), FD_R_INVAL)
    {
      hide BatchDone, Undoing, Register, Results, Table.Valid, NonZero, Release;
      NothingToDo(View(), Raws(fds[..nrArgs]));
      if len == 0 {
        forall k | 0 <= k < nrArgs {
          out[k] := out[k].(reg := FD_R_INVAL);
        }
        errno := ENOBUFS;
        return Returned(0);
      }
      if nrArgs == 0 {
        errno := 0;
        return Returned(0);
      }
      ghost var t, raws, before := View(), Raws(fds[..nrArgs]), out[..];
      var i, exhausted := PlaceAll(fds, out, nrArgs);
      if !exhausted {
        FinishBatch(t, raws, before, out, i);
        PlacedAs(t, raws, before, out, i);
        if updateOk {
          return Returned(nrArgs);
        }
        errno := E_NOIMPL;
        res := RefusedUpdate(out, i, t, raws, before);
        return;
      }
      errno := ENOBUFS;
      BeginUndo(t, raws, before, out, i);
      UndoAll(out, i, t, raws, before);
      res := Returned(0);
    }

    // The rollback of a batch that ran out of slots.
    method UndoAll(out: array<RegFd>, placed: nat, ghost t: Table, ghost raws: seq<int>, ghost before: seq<RegFd>)
      requires t.Valid() && Apart(out) && bitmap.Length == |t.bm| && Undoing(t, raws, before, out, placed)
      modifies bitmap, files, out
      ensures View() == t && |NonZero(t.bm, 0)| <= |raws| <= out.Length
      ensures forall k :: 0 <= k < |NonZero(t.bm, 0)| ==> out[k] == RegFd(raws[k], FD_R_INVAL)
    {
      hide Undoing, Table.Valid, NonZero;
      var i := placed;
      while i > 0
        invariant bitmap.Length == |t.bm| && Undoing(t, raws, before, out, i)
      {
        Unplace(out, i, t, raws, before);
        i := i - 1;
      }
      EndUndo(t, raws, before, out);
    }

    // A rollback that began one entry too high: files before i are still in their slots, and the
    // slot `stale` has been given back though the batch had not taken it.
    ghost predicate Overshot(t: Table, out: array<RegFd>, i: nat, stale: nat)
      requires t.Valid()
      reads bitmap, files, out
    {
      var slots := SlotsIn(t.bm, NonZero(t.bm, 0));
      && i <= |slots| && i <= out.Length && stale < |t.files|
      && bitmap.Length == |t.bm| && files.Length == |t.files| && Words(bitmap[..])
      && (forall k :: 0 <= k < |slots| ==> slots[k] < |t.files|)
      && (forall k :: 0 <= k < i ==> out[k].reg == slots[k])
      && (forall slot: nat ::
            IsFree(bitmap[..], slot) <==> slot == stale || (IsFree(t.bm, slot) && slot !in slots[..i]))
      && (forall slot :: 0 <= slot < |t.files| && slot !in slots[..i]
            ==> files[slot] == if slot == stale then -1 else t.files[slot])
    }

    // Give back the slot of entry i.
    method GiveBack(out: array<RegFd>, i: nat)
      requires Apart(out) && i < out.Length && 0 <= out[i].reg < files.Length && out[i].reg / 64 < bitmap.Length
      modifies bitmap, files, out
      ensures var slot := old(out[i].reg);
              && (forall other: nat :: IsFree(bitmap[..], other) <==> IsFree(old(bitmap[..]), other) || other == slot)
              && (Words(old(bitmap[..])) ==> Words(bitmap[..]))
              && files[..] == old(files[..])[slot := -1]
      ensures out[..] == old(out[..])[i := old(out[i]).(reg := FD_R_INVAL)]
    {
      hide IsFree, Words;
      ghost var bm := bitmap[..];
      var reg := out[i].reg;
      SetBit(reg);
      if Words(bm) {
        SetBitWords(bm, reg);
      }
      files[reg] := -1;
      out[i] := out[i].(reg := FD_R_INVAL);
    }

    // The first entry given back is the one behind the batch.
    method OvershootFirst(out: array<RegFd>, i: nat, ghost t: Table, ghost raws: seq<int>, ghost before: seq<RegFd>)
      requires BatchDone(t, raws, before, out, i, false) && files.Length == |t.files|
      requires i < out.Length && 0 <= out[i].reg < files.Length
      modifies bitmap, files, out
      ensures Overshot(t, out, i, old(out[i].reg))
    {
      hide IsFree, NonZero, SlotsIn, ClearFirst, StoreFirst;
      ghost var ws, slots := NonZero(t.bm, 0), SlotsIn(t.bm, NonZero(t.bm, 0));
      assert Handed(t.bm, |raws|) == slots[..i];
      forall slot: nat ensures IsFree(bitmap[..], slot) <==> IsFree(t.bm, slot) && slot !in slots[..i] {
        HandedTaken(t.bm, |raws|, slot);
      }
      forall slot: nat | slot < |t.files| && slot !in slots[..i] ensures files[slot] == t.files[slot] {
        StoreFirstKeeps(t.files, slots, raws, i, slot);
      }
      ClearedWords(t.bm, |raws|);
      GiveBack(out, i);
    }

    // One more entry of the batch given back.
    method OvershootOn(out: array<RegFd>, i: nat, ghost t: Table, ghost stale: nat)
      requires t.Valid() && Apart(out) && 0 < i && Overshot(t, out, i, stale)
      modifies bitmap, files, out
      ensures Overshot(t, out, i - 1, stale)
    {
      hide IsFree, NonZero, SlotsIn;
      ghost var ws, slots := NonZero(t.bm, 0), SlotsIn(t.bm, NonZero(t.bm, 0));
      EarlierWords(t.bm, i);
      SlotOfIsFree(t.bm, ws[i - 1]);
      SlotsInTable(t);
      assert slots[..i] == slots[..i - 1] + [slots[i - 1]];
      GiveBack(out, i - 1);
    }

    // The rollback after a refused update.
    method RefusedUpdate(out: array<RegFd>, placed: nat, ghost t: Table, ghost raws: seq<int>, ghost before: seq<RegFd>)
      returns (res: Outcome)
      requires BatchDone(t, raws, before, out, placed, false) && files.Length == |t.files|
      modifies bitmap, files, out
      ensures var behind := old(Named(out, placed));
              if 0 <= behind < |t.files| then res == Returned(0) && View() == Release(t, behind)
              else res == Overrun && View() == old(View())
    {
      hide BatchDone, Overshot, Table.Valid, NonZero, Release;
      BatchFacts(t, raws, before, out, placed);
      var behind := Named(out, placed);
      if !(0 <= behind < files.Length) {
        return Overrun;
      }
      OvershootFirst(out, placed, t, raws, before);
      var i := placed;
      while i > 0
        invariant t.Valid() && Apart(out) && Overshot(t, out, i, behind)
      {
        OvershootOn(out, i, t, behind);
        i := i - 1;
      }
      OvershotAll(t, out, behind);
      res := Returned(0);
    }

    lemma BatchFacts(t: Table, raws: seq<int>, before: seq<RegFd>, out: array<RegFd>, i: nat)
      requires BatchDone(t, raws, before, out, i, false)
      ensures t.Valid() && Apart(out)
    {
    }

    lemma PlacedAs(t: Table, raws: seq<int>, before: seq<RegFd>, out: array<RegFd>, i: nat)
      requires BatchDone(t, raws, before, out, i, false) && t.files != [] && raws != []
      ensures i == |Register(t, raws).2| > 0 && out.Length == |before| && Granted(t.bm, |raws|)
      ensures forall k :: i <= k < out.Length ==> out[k] == before[k]
    {
      if t.bm[|t.bm| - 1] != 0 {
        NonZeroComplete(t.bm, 0, |t.bm| - 1);
      }
    }

    lemma OvershotAll(t: Table, out: array<RegFd>, stale: nat)
      requires t.Valid() && Overshot(t, out, 0, stale)
      ensures View() == Release(t, stale)
    {
      forall slot: nat ensures IsFree(bitmap[..], slot) <==> IsFree(Release(t, stale).bm, slot) {
        SetBitFree(t.bm, stale, slot);
      }
      FreeDetermines(bitmap[..], Release(t, stale).bm);
      assert files[..] == Release(t, stale).files;
    }

    lemma FinishBatch(t: Table, raws: seq<int>, before: seq<RegFd>, out: array<RegFd>, i: nat)
      requires BatchDone(t, raws, before, out, i, false) && t.files != [] && raws != []
      ensures View() == Register(t, raws).0 && Register(t, raws).1 == |raws|
      ensures i == |Register(t, raws).2| && out[..] == Results(before, raws, Register(t, raws).2, i)
    {
      var all, slots := SlotsIn(t.bm, NonZero(t.bm, 0)), Handed(t.bm, |raws|);
      assert |slots| == i && slots == all[..i];
      HandedInTable(t, |raws|);
      StoreFirstPrefix(t.files, all, slots, raws, i);
    }

    lemma BeginUndo(t: Table, raws: seq<int>, before: seq<RegFd>, out: array<RegFd>, i: nat)
      requires BatchDone(t, raws, before, out, i, true)
      ensures Undoing(t, raws, before, out, i) && Register(t, raws) == (t, 0, [])
    {
    }

    lemma EndUndo(t: Table, raws: seq<int>, before: seq<RegFd>, out: array<RegFd>)
      requires t.Valid() && Undoing(t, raws, before, out, 0)
      ensures View() == t && |NonZero(t.bm, 0)| <= |raws| <= out.Length
      ensures forall k :: 0 <= k < |NonZero(t.bm, 0)| ==> out[k] == RegFd(raws[k], FD_R_INVAL)
    {
    }
  }

  // The next word of a batch, in the bitmap as the batch has left it so far.
  lemma ScanStep(bm: seq<nat>, now: seq<nat>, i: nat, it: nat)
    requires i < |NonZero(bm, 0)| && it <= |bm| && now == ClearFirst(bm, NonZero(bm, 0), i)
    requires NonZero(bm, it) == NonZero(bm, 0)[i..]
    requires forall w :: it <= w < |bm| ==> now[w] == bm[w]
    ensures var w := NonZero(bm, it)[0];
            && w == NonZero(bm, 0)[i] && it <= w < |bm| && now[w] == bm[w] != 0 && SlotOf(now, w) == SlotOf(bm, w)
            && now[w := Blsr(now[w])] == ClearFirst(bm, NonZero(bm, 0), i + 1)
            && NonZero(bm, it)[1..] == NonZero(bm, 0)[i + 1..]
  {
  }

  lemma NothingToDo(t: Table, raws: seq<int>)
    requires t.Valid()
    ensures t.files == [] || raws == [] ==> Register(t, raws) == (t, 0, [])
  {
  }

  // The results of a batch whose first i files have the slots given.
  function Results(before: seq<RegFd>, raws: seq<int>, slots: seq<nat>, i: nat): (r: seq<RegFd>)
    requires i <= |slots| && i <= |raws| && i <= |before|
    ensures |r| == |before|
  {
    seq(|before|, k requires 0 <= k < |before| => if k < i then RegFd(raws[k], slots[k]) else before[k])
  }

  lemma {:induction false} StoreFirstPrefix(files: seq<int>, all: seq<nat>, slots: seq<nat>, raws: seq<int>, i: nat)
    requires i <= |slots| && i <= |raws| && slots <= all
    requires forall k :: 0 <= k < |all| ==> all[k] < |files|
    ensures StoreFirst(files, all, raws, i) == StoreFirst(files, slots, raws, i)
  {
    if i > 0 {
      StoreFirstPrefix(files, all, slots, raws, i - 1);
    }
  }

  // Earlier words of a batch, and the slots in them, are others.
  lemma EarlierWords(bm: seq<nat>, i: nat)
    requires Words(bm) && 0 < i <= |NonZero(bm, 0)|
    ensures var ws := NonZero(bm, 0);
            ws[i - 1] !in ws[..i - 1] && SlotsIn(bm, ws)[i - 1] !in SlotsIn(bm, ws)[..i - 1]
  {
    var ws := NonZero(bm, 0);
    var slots := SlotsIn(bm, ws);
    NonZeroAscends(bm, 0);
    if slots[i - 1] in slots[..i - 1] {
      var k :| 0 <= k < i - 1 && slots[k] == slots[i - 1];
      SlotOfIsFree(bm, ws[k]);
      SlotOfIsFree(bm, ws[i - 1]);
    }
  }

  // Undoing the last of i files: its bit set again and its entry cleared.
  lemma UndoStep(t: Table, raws: seq<int>, i: nat)
    requires t.Valid() && 0 < i <= |NonZero(t.bm, 0)| && i <= |raws|
    requires var slots := SlotsIn(t.bm, NonZero(t.bm, 0)); forall k :: 0 <= k < |slots| ==> slots[k] < |t.files|
    ensures var ws := NonZero(t.bm, 0);
            var slots := SlotsIn(t.bm, ws);
            var (w, slot) := (ws[i - 1], slots[i - 1]);
            var (bm, files) := (ClearFirst(t.bm, ws, i), StoreFirst(t.files, slots, raws, i));
            && slot / 64 == w
            && bm[w := Or(bm[w], Pow2(slot % 64))] == ClearFirst(t.bm, ws, i - 1)
            && files[slot := -1] == StoreFirst(t.files, slots, raws, i - 1)
  {
    hide NonZero, Blsr, Or, Pow2, SlotsIn, IsFree;
    var ws := NonZero(t.bm, 0);
    var slots := SlotsIn(t.bm, ws);
    SlotOfIsFree(t.bm, ws[i - 1]);
    SetRestores(t.bm[ws[i - 1]]);
    SlotsInTable(t);
    EarlierWords(t.bm, i);
    ClearFirstAt(t.bm, ws, i - 1, ws[i - 1]);
    StoreFirstKeeps(t.files, slots, raws, i - 1, slots[i - 1]);
    PutBack(ClearFirst(t.bm, ws, i - 1), ws[i - 1], Blsr(t.bm[ws[i - 1]]));
    PutBack(StoreFirst(t.files, slots, raws, i - 1), slots[i - 1], raws[i - 1]);
  }

  // Overwriting an element and writing back what was there.
  lemma PutBack<T>(s: seq<T>, i: nat, x: T)
    requires i < |s|
    ensures s[i := x][i := s[i]] == s
  {
  }

  // No word with a set bit is left: in particular not the last one.
  lemma NoneLeft(bm: seq<nat>, it: nat)
    requires it < |bm| && NonZero(bm, it) == []
    ensures bm[|bm| - 1] == 0
  {
    if bm[|bm| - 1] != 0 {
      NonZeroComplete(bm, it, |bm| - 1);
    }
  }

  lemma SlotsInTable(t: Table)
    requires t.Valid()
    ensures var slots := SlotsIn(t.bm, NonZero(t.bm, 0));
            forall k :: 0 <= k < |slots| ==> slots[k] < |t.files| && t.files[slots[k]] == -1
  {
    var ws := NonZero(t.bm, 0);
    var slots := SlotsIn(t.bm, ws);
    forall k | 0 <= k < |slots| ensures slots[k] < |t.files| && t.files[slots[k]] == -1 {
      SlotOfIsFree(t.bm, ws[k]);
    }
  }

  lemma {:induction false} ClearFirstWords(bm: seq<nat>, ws: seq<nat>, i: nat)
    requires Words(bm) && i <= |ws| && forall k :: 0 <= k < |ws| ==> ws[k] < |bm| && bm[ws[k]] != 0
    ensures Words(ClearFirst(bm, ws, i))
  {
    if i > 0 {
      ClearFirstWords(bm, ws, i - 1);
      WordIsPow2();
      BlsrBelow(bm[ws[i - 1]], 64);
    }
  }
}
