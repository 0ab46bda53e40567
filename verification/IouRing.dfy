/** The submission ring under wrapping counters: pushing, entering and draining as operations on
    the sequence of entries the kernel has not taken. */
module IouRing {
  import opened Arith
  import opened QueueSpec
  import opened IouSpec

  // Counters are 32-bit words, the ring divides their range, and no more entries are
  // outstanding than the ring has slots.
  predicate RingOk(s: Sys)
  {
    && s.n < U32 && U32 % s.n == 0
    && s.head < U32 && s.tail < U32 && s.published < U32
    && Occupancy(s) <= s.n
  }

  // Fewer than n places apart, two ring positions are different slots.
  lemma SlotsDistinct(h: nat, i: nat, j: nat, n: nat)
    requires n > 0 && i < j < i + n
    ensures (h + i) % n != (h + j) % n
  {
    DivMod(h + i, n);
    DivMod(h + j, n);
    Distribute((h + j) / n, (h + i) / n, n);
    if (h + i) % n == (h + j) % n {
      SmallMultiple((h + j) / n - (h + i) / n, n);
    }
  }

  // Wrapping a counter to 32 bits does not change its slot.
  lemma WrapKeepsSlot(x: nat, n: nat)
    requires n > 0 && U32 % n == 0
    ensures x % U32 % n == x % n
  {
    DivMod(U32, n);
    ModMod(x, U32 / n, n);
  }

  // The tail's slot is the one after the last live entry.
  lemma TailSlot(s: Sys, k: nat)
    requires RingOk(s)
    ensures (s.tail + k) % s.n == (s.head + Occupancy(s) + k) % s.n
  {
    var occ := Occupancy(s);
    assert (s.head + occ) % U32 == s.tail by {
      DivMod(s.tail - s.head, U32);
      DivModUnique(-((s.tail - s.head) / U32), U32, s.tail);
    }
    WrapKeepsSlot(s.head + occ, s.n);
    SumSlot(s.head + occ, k, s.n);
    SumSlot(s.tail, k, s.n);
  }

  // Advancing the tail by k adds k to the occupancy.
  lemma TailAhead(s: Sys, k: nat)
    requires RingOk(s) && Occupancy(s) + k <= s.n
    ensures var s' := s.(tail := (s.tail + k) % U32);
            RingOk(s') && Occupancy(s') == Occupancy(s) + k
  {
    Rewrap(s.tail, k, s.head, Occupancy(s));
  }

  lemma SumSlot(x: nat, k: nat, n: nat)
    requires n > 0
    ensures (x + k) % n == (x % n + k) % n
  {
    DivMod(x, n);
    DivMod(x % n + k, n);
    Distribute(x / n, (x % n + k) / n, n);
    DivModUnique(x / n + (x % n + k) / n, n, (x % n + k) % n);
  }

  lemma Rewrap(tail: nat, k: nat, head: nat, occ: nat)
    requires tail < U32 && head < U32 && occ + k < U32 && occ == (tail - head) % U32
    ensures ((tail + k) % U32 - head) % U32 == occ + k
  {
  }

  // The ring is the sequence whose element j is in slot (head + j) mod n.
  lemma RingIs(s: Sys, r: seq<Sqe>)
    requires |r| == Occupancy(s)
    requires forall j :: 0 <= j < |r| ==> s.slots[(s.head + j) % s.n] == r[j]
    ensures Ring(s) == r
  {
  }

  /** A submission to a ring that is not full joins the end of the ring and overwrites no entry
      that is still in it. */
  lemma RingPush(s: Sys, x: Sqe)
    requires RingOk(s) && Occupancy(s) < s.n
    ensures var s' := s.(slots := s.slots[s.tail % s.n := x], tail := (s.tail + 1) % U32);
            RingOk(s') && Ring(s') == Ring(s) + [x]
  {
    var s' := s.(slots := s.slots[s.tail % s.n := x], tail := (s.tail + 1) % U32);
    var occ, r := Occupancy(s), Ring(s);
    TailAhead(s, 1);
    TailSlot(s, 0);
    forall j | 0 <= j < occ + 1 ensures s'.slots[(s'.head + j) % s.n] == (r + [x])[j] {
      if j < occ {
        SlotsDistinct(s.head, j, occ, s.n);
        assert r[j] == s.slots[(s.head + j) % s.n];
      }
    }
    RingIs(s', r + [x]);
  }

  lemma RingEmpty(s: Sys)
    requires s.head == s.tail
    ensures Occupancy(s) == 0 && Ring(s) == []
  {
  }

  // -------------------------------------------------------------------------------------------
  // Draining

  // Position j of a batch written from slot b on, in two pieces.
  lemma TwoPieces<T>(slots: seq<T>, b: nat, first: nat, items: seq<T>, j: nat)
    requires b < |slots| && j < |items| <= |slots|
    requires first == Min(|items|, |slots| - b)
    ensures Overwrite(Overwrite(slots, b, items[..first]), 0, items[first..])[(b + j) % |slots|] == items[j]
  {
    var n := |slots|;
    var once := Overwrite(slots, b, items[..first]);
    if j < first {
      ModSmall(b + j, n);
      assert once[b + j] == items[j];
    } else {
      DivModUnique(1, n, b + j - n);
      assert items[first..][j - first] == items[j];
    }
  }

  lemma BatchInRing(s: Sys, items: seq<Sqe>, j: nat)
    requires RingOk(s) && j < |items| <= s.n
    ensures var b := s.tail % s.n; var first := Min(|items|, s.n - b);
            && b + first <= s.n
            && Overwrite(Overwrite(s.slots, b, items[..first]), 0, items[first..])[(s.tail + j) % s.n] == items[j]
  {
    var b := s.tail % s.n;
    TwoPieces(s.slots, b, Min(|items|, s.n - b), items, j);
    SumSlot(s.tail, j, s.n);
  }

  // A removal that conserves leaves the rest of the queue, wherever the advance is taken from.
  lemma PopExactly<T>(q: QView<T>, k: nat, literal: bool)
    requires k <= |q.items| && (!literal || PopExact(q.front, |q.items|, k))
    ensures PopTo(SQ_GEOMETRY, q, k, literal).0.items == q.items[k..]
    ensures PopTo(SQ_GEOMETRY, q, k, literal).0.front == q.front + k
    ensures PopTo(SQ_GEOMETRY, q, k, literal).1 == q.items[..k]
  {
    LandingBounds(SQ_GEOMETRY, q, k, literal);
  }

  // A removal never leaves more than it should, and leaves less when it does not conserve.
  lemma PopCount<T>(q: QView<T>, k: nat, literal: bool)
    ensures var (q', out) := PopTo(SQ_GEOMETRY, q, k, literal);
            && |out| == Min(k, |q.items|)
            && |q'.items| <= |q.items| - |out|
            && (!literal || PopExact(q.front, |q.items|, k) <==> |q'.items| == |q.items| - |out|)
  {
    if k <= |q.items| {
      LandingBounds(SQ_GEOMETRY, q, k, literal);
    }
  }

  // The two pieces of a drain whose removals conserve.
  lemma PiecesMove(slots: seq<Sqe>, b: nat, ofq: QView<Sqe>, k: nat, literal: bool)
    requires b < |slots| && k <= |slots| && k <= |ofq.items|
    requires !literal || PiecesExact(|slots|, b, ofq, k)
    ensures var (slots', q, left) := CopyPieces(slots, b, ofq, k, literal);
            var first, items := Min(k, |slots| - b), ofq.items[..k];
            && left == 0 && q.items == ofq.items[k..]
            && slots' == Overwrite(Overwrite(slots, b, items[..first]), 0, items[first..])
  {
    hide PopTo, Overwrite;
    var first := Min(k, |slots| - b);
    var items := ofq.items[..k];
    PopExactly(ofq, first, literal);
    var (q1, out1) := PopTo(SQ_GEOMETRY, ofq, first, literal);
    PopExactly(q1, k - first, literal);
    assert out1 == items[..first];
    assert q1.items[..k - first] == items[first..];
    assert q1.items[k - first..] == ofq.items[k..];
  }

  lemma DrainPieces(s: Sys, k: nat)
    requires 0 < k <= s.n && k <= |s.ofq.items| && DrainExact(s, k)
    ensures var (s', left) := DrainBy(s, k);
            var b, items := s.tail % s.n, s.ofq.items[..k];
            var first := Min(k, s.n - b);
            && b + first <= s.n && left == 0
            && s'.slots == Overwrite(Overwrite(s.slots, b, items[..first]), 0, items[first..])
            && s'.ofq.items == s.ofq.items[k..]
            && s'.log == s.log && s'.tail == (s.tail + k) % U32 && s'.head == s.head
  {
    hide CopyPieces, Overwrite, PiecesExact;
    PiecesMove(s.slots, s.tail % s.n, s.ofq, k, s.literal);
  }

  /** A drain of k entries from an empty ring whose removals conserve: overflow entry j lands in
      slot (tail + j) mod n, the ring holds exactly the first k entries in order, the overflow
      queue exactly the others, and nothing remains of the count. */
  lemma DrainMoves(s: Sys, k: nat)
    requires RingOk(s) && s.head == s.tail && 0 < k <= s.n && k <= |s.ofq.items|
    requires DrainExact(s, k)
    ensures var (s', left) := DrainBy(s, k);
            && RingOk(s') && left == 0
            && (forall j :: 0 <= j < k ==> s'.slots[(s.tail + j) % s.n] == s.ofq.items[j])
            && Ring(s') == s.ofq.items[..k]
            && s'.ofq.items == s.ofq.items[k..]
            && s'.log == s.log
  {
    hide DrainBy, Overwrite, Ring, DrainExact;
    var items := s.ofq.items[..k];
    var s' := DrainBy(s, k).0;
    DrainPieces(s, k);
    RingEmpty(s);
    DrainShape(s, k);
    forall j | 0 <= j < k ensures s'.slots[(s.tail + j) % s.n] == items[j] {
      BatchInRing(s, items, j);
    }
    RingIs(s', items);
  }

  lemma DrainShape(s: Sys, k: nat)
    requires RingOk(s) && s.head == s.tail && 0 < k <= s.n && k <= |s.ofq.items|
    ensures var s' := DrainBy(s, k).0;
            RingOk(s') && Occupancy(s') == k && s'.n == s.n && s'.head == s.head
  {
    hide CopyPieces, DrainExact, Ring;
    RingEmpty(s);
    TailAhead(s, k);
  }

  /** In every drain the entries written and the entries left account for the overflow queue
      exactly when the removals conserve; otherwise some entry is in neither. */
  lemma DrainCounts(s: Sys, k: nat)
    requires RingOk(s) && s.head == s.tail && 0 < k <= s.n && k <= |s.ofq.items|
    ensures var (s', left) := DrainBy(s, k);
            && 0 <= left <= k
            && (k - left) + |s'.ofq.items| <= |s.ofq.items|
            && (DrainExact(s, k) <==> (k - left) + |s'.ofq.items| == |s.ofq.items|)
  {
    hide CopyPieces, PiecesExact;
    PiecesCount(s.slots, s.tail % s.n, s.ofq, k, s.literal);
  }

  lemma PiecesCount(slots: seq<Sqe>, b: nat, ofq: QView<Sqe>, k: nat, literal: bool)
    requires b < |slots| && k <= |slots| && k <= |ofq.items|
    ensures var (slots', q, left) := CopyPieces(slots, b, ofq, k, literal);
            && 0 <= left <= k
            && (k - left) + |q.items| <= |ofq.items|
            && (!literal || PiecesExact(|slots|, b, ofq, k) <==> (k - left) + |q.items| == |ofq.items|)
  {
    hide PopTo, Overwrite;
    var first := Min(k, |slots| - b);
    PopCount(ofq, first, literal);
    var (q1, out1) := PopTo(SQ_GEOMETRY, ofq, first, literal);
    PopCount(q1, k - first, literal);
    PopCount(q1, Min(b, k - |out1|), literal);
    if !literal || PopExact(ofq.front, |ofq.items|, first) {
      PopExactly(ofq, first, literal);
    }
  }
}
