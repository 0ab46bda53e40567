/** The chunked queue of include/iel_priv/que.tpl.h as it runs: a map of chunk pointers, two
    cursors, chunks allocated when the back cursor enters them and freed when the front cursor
    leaves them. Every method is proved against the value-level operation in QueueSpec.

    Chunks live in an explicit memory, `mem`, from the addresses the allocator has handed out
    and not taken back to the elements stored there. Reading, writing and freeing demand an
    address in `mem`; a later allocation may return an address that was freed before. */
module ChunkedQueue {
  import opened Arith
  import opened QueueSpec

  // The elements of complete chunks, one chunk after the other.
  function Flatten<T>(rows: seq<seq<T>>): seq<T>
  {
    if rows == [] then [] else rows[0] + Flatten(rows[1..])
  }

  lemma {:induction false} FlattenAppend<T>(rows: seq<seq<T>>, row: seq<T>)
    ensures Flatten(rows + [row]) == Flatten(rows) + row
  {
    if rows == [] {
      assert (rows + [row])[1..] == [];
    } else {
      FlattenAppend(rows[1..], row);
      assert (rows + [row])[1..] == rows[1..] + [row];
    }
  }

  lemma {:induction false} FlattenLength<T>(rows: seq<seq<T>>, c: nat)
    requires forall i :: 0 <= i < |rows| ==> |rows[i]| == c
    ensures |Flatten(rows)| == |rows| * c
  {
    if rows != [] {
      FlattenLength(rows[1..], c);
      Distribute(|rows| - 1, 1, c);
    }
  }

  // One more element in the partial chunk, and a partial chunk that becomes complete.
  lemma Extend<T>(rows: seq<seq<T>>, tail: seq<T>, x: T, k: nat)
    requires k <= |Flatten(rows) + tail|
    ensures k <= |Flatten(rows) + (tail + [x])|
    ensures (Flatten(rows) + (tail + [x]))[k..] == (Flatten(rows) + tail)[k..] + [x]
  {
    assert Flatten(rows) + (tail + [x]) == (Flatten(rows) + tail) + [x];
  }

  lemma CompleteRow<T>(rows: seq<seq<T>>, tail: seq<T>)
    ensures Flatten(rows + [tail]) + [] == Flatten(rows) + tail
  {
    FlattenAppend(rows, tail);
  }

  // Leaving k more elements behind, and leaving the first chunk behind.
  lemma DropMore<T>(s: seq<T>, os: nat, k: nat)
    requires os + k <= |s|
    ensures s[os..][k..] == s[os + k..]
  {
  }

  lemma DropRow<T>(rows: seq<seq<T>>, tail: seq<T>, c: nat)
    requires rows != [] && |rows[0]| == c
    ensures c <= |Flatten(rows) + tail|
    ensures (Flatten(rows) + tail)[c..] == (Flatten(rows[1..]) + tail)[0..]
  {
    assert Flatten(rows) + tail == rows[0] + (Flatten(rows[1..]) + tail);
  }

  // Row 0 from offset os on is the start of what lies behind the front cursor.
  lemma FrontRow<T>(rows: seq<seq<T>>, tail: seq<T>, os: nat, k: nat)
    requires if rows != [] then os + k <= |rows[0]| else os + k <= |tail|
    ensures os + k <= |Flatten(rows) + tail|
    ensures (Flatten(rows) + tail)[os..][..k] == if rows != [] then rows[0][os..os + k] else tail[os..os + k]
  {
    if rows != [] {
      assert Flatten(rows) + tail == rows[0] + (Flatten(rows[1..]) + tail);
    }
  }

  // The queue with its first k elements taken.
  function Advanced<T>(q: QView<T>, k: nat): QView<T>
    requires k <= |q.items|
  {
    q.(front := q.front + k, items := q.items[k..])
  }

  // A request that ends within the span that starts at (chunk, os): the span reaches the end of
  // its chunk or the back of the queue.
  lemma ServedHere<T>(g: Geometry, q: QView<T>, n: nat, chunk: nat, os: nat, span: nat, literal: bool)
    requires g.Valid() && 0 < n <= span <= |q.items| && q.front == chunk * g.c + os
    requires os + span == g.c || (os + span < g.c && span == |q.items|)
    ensures PopTo(g, q, n, literal) == (Advanced(q, if literal then span else n), q.items[..n])
  {
    var o := os + n;
    assert q.front + n == chunk * g.c + o;
    if o < g.c {
      DivModUnique(chunk, g.c, o);
    } else {
      Distribute(chunk, 1, g.c);
      DivModUnique(chunk + 1, g.c, 0);
    }
  }

  lemma ServedNone<T>(g: Geometry, q: QView<T>, literal: bool)
    requires g.Valid()
    ensures PopTo(g, q, 0, literal) == (q, [])
  {
  }

  // A request that wants more than is there resets the queue.
  lemma ServedAll<T>(g: Geometry, q: QView<T>, n: nat, literal: bool)
    requires g.Valid() && n > |q.items|
    ensures PopTo(g, q, n, literal) == (QView(q.cap, 0, []), q.items[..|q.items|])
  {
    assert q.items[..|q.items|] == q.items;
  }

  // A request served from the k-th element on completes the request.
  lemma ServedOn<T>(g: Geometry, q: QView<T>, k: nat, j: nat, n: nat, literal: bool, r: QView<T>)
    requires g.Valid() && k < n && k + j <= |q.items|
    requires (r, Advanced(q, k).items[..j]) == PopTo(g, Advanced(q, k), n - k, literal)
    ensures (r, q.items[..k + j]) == PopTo(g, q, n, literal)
  {
    PopToAdvanced(g, q, k, n, literal);
    AdvancedTwice(q, k, j);
  }

  lemma AdvancedTwice<T>(q: QView<T>, k: nat, j: nat)
    requires k + j <= |q.items|
    ensures Advanced(Advanced(q, k), j) == Advanced(q, k + j)
    ensures q.items[..k] + Advanced(q, k).items[..j] == q.items[..k + j]
  {
  }

  // Serving k elements and then the rest of the request is serving the request.
  lemma PopToAdvanced<T>(g: Geometry, q: QView<T>, k: nat, n: nat, literal: bool)
    requires g.Valid() && k < n && k <= |q.items|
    ensures PopTo(g, q, n, literal).0 == PopTo(g, Advanced(q, k), n - k, literal).0
    ensures PopTo(g, q, n, literal).1 == q.items[..k] + PopTo(g, Advanced(q, k), n - k, literal).1
  {
    var q' := Advanced(q, k);
    if n <= |q.items| {
      assert q'.front + (n - k) == q.front + n && q'.Back() == q.Back();
      var p := Landing(g, q, n, literal);
      LandingBounds(g, q, n, literal);
      assert q'.items[p - q'.front..] == q.items[p - q.front..];
    }
  }

  // Element o of chunk i sits c * i + o places into the flattened contents.
  lemma {:induction false} FlattenAt<T>(rows: seq<seq<T>>, c: nat, i: nat, o: nat)
    requires forall k :: 0 <= k < |rows| ==> |rows[k]| == c
    requires i < |rows| && o < c
    ensures 0 <= i * c + o < |Flatten(rows)|
    ensures Flatten(rows)[i * c + o] == rows[i][o]
  {
    FlattenLength(rows, c);
    MulLe(i + 1, |rows|, c);
    Distribute(i, 1, c);
    if i > 0 {
      FlattenAt(rows[1..], c, i - 1, o);
      Distribute(i, -1, c);
    }
  }

  // Masking an offset that has advanced by k within its chunk.
  lemma NextOffset(os: nat, k: nat, c: nat)
    requires os + k <= c && 0 < c
    ensures (os + k) % c == if os + k == c then 0 else os + k
  {
    if os + k < c {
      ModSmall(os + k, c);
    }
  }

  lemma {:induction false} DistinctCount(s: seq<nat>) returns (elems: set<nat>)
    requires forall i, j :: 0 <= i < j < |s| ==> s[i] != s[j]
    ensures elems == (set x | x in s) && |elems| == |s|
  {
    elems := set x | x in s;
    if s != [] {
      var rest := DistinctCount(s[1..]);
      assert s[0] !in s[1..];
      assert elems == rest + {s[0]};
    }
  }

  lemma {:induction false} SubsetOfSameSize(a: set<nat>, b: set<nat>)
    requires a <= b && |a| == |b|
    ensures a == b
    decreases |a|
  {
    if a != {} {
      var x :| x in a;
      SubsetOfSameSize(a - {x}, b - {x});
      assert a == a - {x} + {x} && b == b - {x} + {x};
    } else {
      assert b == {};
    }
  }

  class ChunkQueue<T(0)> {
    const g: Geometry
    // Array of pointers to chunks; entries outside [chunkS, End()) are stale or uninitialised.
    var chunkMap: seq<nat>
    var mapcap: nat
    var chunkS: nat
    var chunkE: nat
    var osS: nat
    var osE: nat

    var mem: map<nat, seq<T>>
    ghost var mapLive: bool
    // The elements of the complete chunks chunkMap[chunkS..chunkE), of the partial chunk at
    // chunkE, and of the queue.
    ghost var full: seq<seq<T>>
    ghost var tail: seq<T>
    ghost var contents: seq<T>

    // One past the last map entry that holds an allocated chunk.
    ghost function End(): nat
      reads this
    {
      if osE != 0 then chunkE + 1 else chunkE
    }

    ghost predicate Cursors()
      reads this
    {
      && g.Valid()
      && |chunkMap| == mapcap && g.m <= mapcap
      && chunkS <= chunkE && End() <= mapcap
      && osS < g.c && osE < g.c
      && (chunkS == chunkE ==> osS <= osE)
    }

    // The map entries in [chunkS, end) are allocated, pairwise distinct chunks.
    ghost predicate Allocated(end: nat)
      reads this
    {
      && mapLive && end <= |chunkMap|
      && (forall i :: chunkS <= i < end ==> chunkMap[i] in mem && |mem[chunkMap[i]]| == g.c)
      && (forall i, j :: chunkS <= i < j < end ==> chunkMap[i] != chunkMap[j])
    }

    // There are no further allocated chunks.
    ghost predicate Exact(end: nat)
      reads this
    {
      |mem| == end - chunkS
    }

    ghost predicate Rows()
      reads this
    {
      && |full| == chunkE - chunkS && |tail| == osE
      && (forall i :: 0 <= i < |full| ==> |full[i]| == g.c)
      && (forall i :: chunkS <= i < chunkE && i < |chunkMap| && chunkMap[i] in mem && i - chunkS < |full|
           ==> mem[chunkMap[i]] == full[i - chunkS])
      && (osE != 0 && chunkE < |chunkMap| && chunkMap[chunkE] in mem ==> tail <= mem[chunkMap[chunkE]])
    }

    // The queue holds what lies between the cursors.
    ghost predicate Readable()
      reads this
    {
      && Cursors() && Allocated(End()) && Rows()
      && osS <= |Flatten(full) + tail|
      && contents == (Flatten(full) + tail)[osS..]
    }

    /** The representation invariant, with exact ownership: the allocated chunks are the entries
        chunkMap[chunkS..End()), each once. */
    ghost predicate Valid()
      reads this
      ensures Valid() ==> g.Valid()
    {
      Readable() && Exact(End())
    }

    lemma ContentsLength()
      requires Readable()
      ensures |contents| == (chunkE - chunkS) * g.c + osE - osS
    {
      FlattenLength(full, g.c);
    }

    ghost function View(): (q: QView<T>)
      reads this
      ensures q.items == contents
    {
      MulLe(0, chunkS, g.c);
      QView(mapcap, chunkS * g.c + osS, contents)
    }

    // The fields are the quotients and remainders of the view's positions.
    lemma ViewCursors()
      requires Valid()
      ensures View().ChunkS(g) == chunkS && View().OsS(g) == osS
      ensures View().ChunkE(g) == chunkE && View().OsE(g) == osE
      ensures View().Back() == chunkE * g.c + osE
      ensures View().Valid(g)
      ensures View().Live(g) == End() - chunkS
      ensures View().items == [] <==> chunkS == chunkE && osS == osE
    {
      ContentsLength();
      Distribute(chunkE, chunkS, g.c);
      DivModUnique(chunkS, g.c, osS);
      DivModUnique(chunkE, g.c, osE);
      if chunkS < chunkE {
        MulLe(1, chunkE - chunkS, g.c);
      }
    }

    constructor (g: Geometry, initcap: nat)
      requires g.Valid()
      ensures Valid() && this.g == g
      ensures View() == QueueSpec.Init(g, initcap)
    {
      this.g := g;
      var cap := if initcap < g.m then g.m else initcap;
      chunkMap := seq(cap, _ => 0);
      mapcap := cap;
      chunkS, chunkE, osS, osE := 0, 0, 0, 0;
      mem := map[];
      mapLive, full, tail, contents := true, [], [], [];
    }

    // `ok`: whether the map's malloc succeeds. The null result is the return code -1.
    static method Init(g: Geometry, initcap: nat, ok: bool) returns (que: ChunkQueue?<T>)
      requires g.Valid()
      ensures que == null <==> !ok
      ensures que != null ==> fresh(que) && que.Valid() && que.g == g
      ensures que != null ==> que.View() == QueueSpec.Init(g, initcap)
    {
      if !ok {
        return null;
      }
      que := new ChunkQueue(g, initcap);
    }

    method Size() returns (n: int)
      requires Valid()
      ensures n == |contents|
    {
      ContentsLength();
      var chunks := chunkE - chunkS;
      n := chunks * g.c + osE - osS;
    }

    // -----------------------------------------------------------------------------------------
    // Memory

    // Allocate a chunk of uninitialised elements.
    method NewChunk() returns (a: nat)
      modifies this`mem
      ensures a !in old(mem) && mem.Keys == old(mem).Keys + {a} && |mem[a]| == g.c
      ensures forall b :: b in old(mem) ==> mem[b] == old(mem)[b]
      ensures |mem| == |old(mem)| + 1
    {
      a := 0;
      ghost var above := mem.Keys;
      while a in mem
        invariant above <= mem.Keys
        invariant forall b :: b in mem && b >= a ==> b in above
        decreases above
      {
        above := above - {a};
        a := a + 1;
      }
      var garbage: T := *;
      var chunk := seq(g.c, _ => garbage);
      ghost var before := mem;
      mem := mem[a := chunk];
      assert mem.Keys == before.Keys + {a};
    }

    // Freeing takes a chunk that is allocated: nothing is freed twice.
    method FreeChunk(a: nat)
      requires a in mem
      modifies this`mem
      ensures mem == old(mem) - {a} && |mem| == |old(mem)| - 1
    {
      ghost var before := mem;
      mem := mem - {a};
      assert mem.Keys == before.Keys - {a};
    }

    // A successful realloc of the map: the entries that fit are kept, new ones are garbage.
    method ReallocMap(n: nat)
      requires |chunkMap| == mapcap
      modifies this`chunkMap, this`mapcap
      ensures |chunkMap| == mapcap == n
      ensures forall i :: 0 <= i < n && i < old(mapcap) ==> chunkMap[i] == old(chunkMap[i])
    {
      var garbage: nat := *;
      var more := seq<nat>(n, _ => garbage);
      chunkMap := if n <= mapcap then chunkMap[..n] else chunkMap + more[mapcap..];
      mapcap := n;
    }

    // -----------------------------------------------------------------------------------------
    // Insertion

    // Make room in the map for an entry at chunkE.
    method GrowMap(mapOk: bool) returns (ok: bool)
      requires Valid() && osE == 0
      modifies this`chunkMap, this`mapcap
      ensures Valid()
      ensures ok <==> chunkE < mapcap
      ensures ok <==> old(chunkE < mapcap) || mapOk
      ensures mapcap == if old(chunkE >= mapcap) && mapOk then 2 * old(mapcap) else old(mapcap)
    {
      ok := true;
      if chunkE >= mapcap {
        if mapOk {
          ReallocMap(2 * mapcap);
        } else {
          ok := false;
        }
      }
    }

    // Allocate the chunk at the back cursor.
    method OpenChunk(chunkOk: bool) returns (ok: bool)
      requires Valid() && osE == 0 && chunkE < mapcap
      modifies this`chunkMap, this`mem
      ensures ok == chunkOk
      ensures Readable()
      ensures if ok then Allocated(chunkE + 1) && Exact(chunkE + 1) else Exact(chunkE)
    {
      hide Flatten;
      ok := chunkOk;
      if chunkOk {
        var a := NewChunk();
        chunkMap := chunkMap[chunkE := a];
      }
    }

    // The chunk at the back cursor exists, or an allocation failed.
    method EnsureBack(mapOk: bool, chunkOk: bool) returns (ok: bool)
      requires Valid()
      modifies this`chunkMap, this`mapcap, this`mem
      ensures ok <==> Granted(g, old(View()), mapOk, chunkOk)
      ensures mapcap == GrownCap(g, old(View()), mapOk)
      ensures if ok then Readable() && Allocated(chunkE + 1) && Exact(chunkE + 1) else Valid()
    {
      ViewCursors();
      ok := true;
      if osE == 0 {
        ok := GrowMap(mapOk);
        if ok {
          ok := OpenChunk(chunkOk);
        }
      }
    }

    // Move the back cursor one element on; the element it passes joins the contents.
    method BumpBack()
      requires Readable() && Allocated(chunkE + 1) && Exact(chunkE + 1)
      modifies this`chunkE, this`osE, this`full, this`tail, this`contents
      ensures Valid()
      ensures contents == old(contents) + [old(mem[chunkMap[chunkE]][osE])]
    {
      hide Flatten;
      ghost var x := mem[chunkMap[chunkE]][osE];
      Extend(full, tail, x, osS);
      NextOffset(osE, 1, g.c);
      tail, contents := tail + [x], contents + [x];
      osE := (osE + 1) % g.c;
      if osE == 0 {
        CompleteRow(full, tail);
        assert tail == mem[chunkMap[chunkE]];
        full, tail := full + [tail], [];
        chunkE := chunkE + 1;
      }
    }

    /** Reserve one element at the back. The result is the address of its chunk and its offset;
        the element's value is whatever the memory holds. None: an allocation failed. */
    method Rsv1(mapOk: bool, chunkOk: bool) returns (at: Option<(nat, nat)>)
      requires Valid()
      modifies this
      ensures Valid() && chunkS == old(chunkS) && osS == old(osS)
      ensures at.Some? <==> Granted(g, old(View()), mapOk, chunkOk)
      ensures mapcap == GrownCap(g, old(View()), mapOk)
      ensures at.Some? ==> at.value.0 in mem && at.value.1 < |mem[at.value.0]|
      ensures at.Some? ==> contents == old(contents) + [mem[at.value.0][at.value.1]]
      ensures at.None? ==> contents == old(contents)
    {
      var ok := EnsureBack(mapOk, chunkOk);
      if !ok {
        return None;
      }
      at := Some((chunkMap[chunkE], osE));
      BumpBack();
    }

    /** rsv1 together with the store of v through its result, which both users of rsv1 do at
        once. The store is made before the back cursor moves over the element. */
    method Push(v: T, mapOk: bool, chunkOk: bool) returns (ok: bool)
      requires Valid()
      modifies this
      ensures Valid()
      ensures (View(), ok) == QueueSpec.Push(g, old(View()), v, mapOk, chunkOk)
    {
      hide Valid, Readable, Allocated, Exact;
      ok := EnsureBack(mapOk, chunkOk);
      if ok {
        WriteBack(v);
        BumpBack();
      }
    }

    // Store v at the back cursor.
    method WriteBack(v: T)
      requires Readable() && Allocated(chunkE + 1) && Exact(chunkE + 1)
      modifies this`mem
      ensures Readable() && Allocated(chunkE + 1) && Exact(chunkE + 1)
      ensures mem[chunkMap[chunkE]][osE] == v
    {
      var a := chunkMap[chunkE];
      ghost var before := mem;
      mem := mem[a := mem[a][osE := v]];
      assert mem.Keys == before.Keys;
    }

    // -----------------------------------------------------------------------------------------
    // Removal

    // How many elements the current front chunk still holds.
    ghost function Span(): int
      reads this
    {
      if chunkS < chunkE then g.c - osS else osE - osS
    }

    lemma SpanInside()
      requires Valid()
      ensures osS + Span() <= |Flatten(full) + tail| && Span() <= |contents|
      ensures chunkS <= chunkE && osS + Span() <= g.c && (osS + Span() == g.c ==> chunkS < chunkE)
      ensures osS < g.c && 0 <= Span() && (Span() == 0 <==> chunkS == chunkE && osS == osE)
    {
      if full != [] {
        DropRow(full, tail, g.c);
      }
    }

    // Move the front cursor k elements on, within the front chunk; a chunk it leaves is freed.
    method Skip(k: nat)
      requires Valid() && 0 < k <= Span()
      modifies this`osS, this`chunkS, this`mem, this`full, this`contents
      ensures Valid()
      ensures k <= |old(contents)| && contents == old(contents)[k..]
      ensures chunkS * g.c + osS == old(chunkS * g.c + osS) + k
      ensures osS != 0 ==> chunkS == old(chunkS) && osS == old(osS) + k
    {
      hide Valid, Readable;
      SpanInside();
      NextOffset(osS, k, g.c);
      var os := (osS + k) % g.c;
      if os == 0 {
        LeaveChunk();
      } else {
        StayInChunk(k);
      }
    }

    // The front cursor stays in its chunk.
    method StayInChunk(k: nat)
      requires Valid() && k <= Span() && osS + k < g.c
      modifies this`osS, this`contents
      ensures Valid()
      ensures k <= |old(contents)| && contents == old(contents)[k..] && osS == old(osS) + k
    {
      hide Flatten;
      SpanInside();
      ghost var all := Flatten(full) + tail;
      DropMore(all, osS, k);
      osS, contents := osS + k, all[osS + k..];
    }

    // The front cursor leaves a complete chunk.
    method LeaveChunk()
      requires Valid() && chunkS < chunkE
      modifies this`osS, this`chunkS, this`mem, this`full, this`contents
      ensures Valid()
      ensures g.c - old(osS) <= |old(contents)| && contents == old(contents)[g.c - old(osS)..]
      ensures osS == 0 && chunkS * g.c == old(chunkS * g.c) + g.c
    {
      hide Flatten;
      SpanInside();
      DropMore(Flatten(full) + tail, osS, g.c - osS);
      DropRow(full, tail, g.c);
      contents := contents[g.c - osS..];
      FreeChunk(chunkMap[chunkS]);
      assert (chunkS + 1) * g.c == chunkS * g.c + g.c by {
        Succ(chunkS, g.c);
      }
      osS, chunkS := 0, chunkS + 1;
      full := full[1..];
    }

    // Both cursors in one chunk: give it back and start again from the beginning of the map.
    method Reset()
      requires Valid() && chunkS == chunkE
      modifies this`osS, this`osE, this`chunkS, this`chunkE, this`mem, this`full, this`tail, this`contents
      ensures Valid() && View() == QView(mapcap, 0, [])
      ensures chunkS == chunkE == osS == osE == 0
    {
      if osE != 0 {
        FreeChunk(chunkMap[chunkE]);
      }
      chunkS, chunkE := 0, 0;
      osS, osE := 0, 0;
      full, tail, contents := [], [], [];
    }

    /** Take one element. The code is -1 on an empty queue (v is then not written), 1 when the
        queue becomes empty or the front cursor reaches the stop cursor, else 0. */
    method Pop1(chunkStop: nat, osStop: nat) returns (v: Option<T>, code: int)
      requires Valid()
      modifies this
      ensures Valid()
      ensures (View(), v, code) == Pop(g, old(View()), chunkStop, osStop)
    {
      hide Valid;
      ViewCursors();
      SpanInside();
      if chunkE == chunkS && osE == osS {
        return None, -1;
      }
      FrontCells(1);
      v := Some(mem[chunkMap[chunkS]][osS]);
      Skip(1);
      ViewCursors();
      if chunkE == chunkS && osE == osS {
        Reset();
        return v, 1;
      }
      code := if chunkStop == chunkS && osStop == osS then 1 else 0;
    }

    // Copy k elements from the front chunk without taking them.
    method CopyFront(dst: array<T>, at: nat, k: nat)
      requires Valid() && 0 < k <= Span() && at + k <= dst.Length
      modifies dst
      ensures k <= |contents|
      ensures dst[..] == Overwrite(old(dst[..]), at, contents[..k])
    {
      hide Valid;
      FrontCells(k);
      var src := mem[chunkMap[chunkS]];
      forall i | 0 <= i < k {
        dst[at + i] := src[osS + i];
      }
    }

    // What the front chunk holds from the front cursor on is the start of the queue.
    lemma FrontCells(k: nat)
      requires Valid() && 0 < k <= Span()
      ensures chunkS < |chunkMap| && chunkMap[chunkS] in mem && osS + k <= |mem[chunkMap[chunkS]]|
      ensures k <= |contents| && mem[chunkMap[chunkS]][osS..osS + k] == contents[..k]
    {
      hide Flatten;
      FrontRow(full, tail, osS, k);
      SpanInside();
    }

    // Copy k elements out and move the front cursor by step, within the front chunk.
    method Take(dst: array<T>, at: nat, k: nat, step: nat)
      requires Valid() && 0 < k <= step <= Span() && at + k <= dst.Length
      modifies this`osS, this`chunkS, this`mem, this`full, this`contents, dst
      ensures Valid()
      ensures step <= |old(contents)| && View() == Advanced(old(View()), step)
      ensures osS != 0 ==> chunkS == old(chunkS) && osS == old(osS) + step
      ensures dst[..] == Overwrite(old(dst[..]), at, old(contents)[..k])
    {
      CopyFront(dst, at, k);
      Skip(step);
    }

    // The part of a request that the front chunk can serve. done: the request is complete.
    method PopSpan(dst: array<T>, at: nat, n: nat, literal: bool) returns (sz: nat, done: bool)
      requires Valid() && 0 < n && at + n <= dst.Length
      modifies this, dst
      ensures Valid() && sz <= n && sz <= |old(contents)|
      ensures dst[..] == Overwrite(old(dst[..]), at, old(contents)[..sz])
      ensures done ==> (View(), old(contents)[..sz]) == QueueSpec.PopTo(g, old(View()), n, literal)
      ensures !done ==> 0 < sz < n && View() == Advanced(old(View()), sz)
    {
      hide Valid, QueueSpec.PopTo;
      ViewCursors();
      SpanInside();
      ghost var q := View();
      var span: nat;
      if chunkE == chunkS {
        span := osE - osS;
        if span == 0 {
          ServedAll(g, q, n, literal);
          Reset();
          return 0, true;
        }
      } else {
        span := g.c - osS;
      }
      if span >= n {
        ServedHere(g, q, n, chunkS, osS, span, literal);
        Take(dst, at, n, if literal then span else n);
        return n, true;
      }
      Take(dst, at, span, span);
      SpanInside();
      sz, done := span, false;
      if osS != 0 {
        ServedAll(g, q, n, literal);
        Reset();
        done := true;
      }
    }

    /** Take up to n elements into dst from index at on. `literal` selects the advance of line
        172 of the header, by the span instead of by the number of elements copied. */
    method PopTo(dst: array<T>, at: nat, n: nat, literal: bool) returns (sz: nat)
      requires Valid() && at + n <= dst.Length
      modifies this, dst
      ensures Valid()
      ensures View() == QueueSpec.PopTo(g, old(View()), n, literal).0
      ensures var out := QueueSpec.PopTo(g, old(View()), n, literal).1;
              sz == |out| <= n && dst[..] == Overwrite(old(dst[..]), at, out)
    {
      hide Valid, QueueSpec.PopTo, Overwrite;
      sz := 0;
      if n == 0 {
        ServedNone(g, View(), literal);
        OverwriteNone(dst[..], at);
        return;
      }
      var done := false;
      ghost var q, cells := View(), dst[..];
      OverwriteNone(cells, at);
      while !done
        invariant Valid() && sz <= n && sz <= |q.items|
        invariant !done ==> sz < n && View() == Advanced(q, sz)
        invariant done ==> (View(), q.items[..sz]) == QueueSpec.PopTo(g, q, n, literal)
        invariant dst[..] == Overwrite(cells, at, q.items[..sz])
        decreases !done, n - sz
      {
        var k;
        k, done := PopSpan(dst, at + sz, n - sz, literal);
        AdvancedTwice(q, sz, k);
        OverwriteOn(cells, at, q.items[..sz], Advanced(q, sz).items[..k]);
        if done {
          ServedOn(g, q, sz, k, n, literal, View());
        }
        sz := sz + k;
      }
    }

    // -----------------------------------------------------------------------------------------
    // Trimming and deletion

    // An empty queue gives back the chunk its cursors stand in.
    method DropEmptyChunk()
      requires Valid() && chunkS == chunkE && osS == osE != 0
      modifies this`osS, this`osE, this`mem, this`tail
      ensures Valid() && osS == osE == 0
    {
      SpanInside();
      FreeChunk(chunkMap[chunkE]);
      osS, osE := 0, 0;
      tail := [];
    }

    // Move the sz live entries to the start of the map (memmove).
    method ShiftMap(sz: nat)
      requires Valid() && chunkS + sz == End()
      modifies this`chunkMap, this`chunkS, this`chunkE
      ensures Valid() && chunkS == 0 && End() == sz
      ensures chunkE == old(chunkE - chunkS)
    {
      var offs := chunkS;
      chunkMap := chunkMap[chunkS..chunkS + sz] + chunkMap[sz..];
      chunkS := 0;
      chunkE := chunkE - offs;
    }

    /** Compact the map; ok: the shrinking realloc succeeds. */
    method Trim(ok: bool)
      requires Valid()
      modifies this
      ensures Valid()
      ensures View() == QueueSpec.Trim(g, old(View()), ok)
    {
      hide Valid;
      var sz := CountLive();
      ShiftMap(sz);
      if ok {
        ShrinkMap(if sz < g.m then g.m else sz);
      }
    }

    // The number of map entries in use, after giving back an empty one.
    method CountLive() returns (sz: nat)
      requires Valid()
      modifies this`osS, this`osE, this`mem, this`tail
      ensures Valid() && chunkS + sz == End()
      ensures contents == [] ==> sz == 0 && osS == 0
      ensures contents != [] ==> osS == old(osS) && sz == old(View().Live(g))
      ensures osS == (if old(contents) == [] then 0 else old(View().OsS(g)))
    {
      ViewCursors();
      sz := chunkE - chunkS;
      if osE != 0 {
        if sz != 0 || osE != osS {
          sz := sz + 1;
        } else {
          DropEmptyChunk();
        }
      }
    }

    method ShrinkMap(n: nat)
      requires Valid() && g.m <= n && End() <= n
      modifies this`chunkMap, this`mapcap
      ensures Valid() && mapcap == n
    {
      ReallocMap(n);
    }

    method QTrim(ok: bool)
      requires Valid()
      modifies this
      ensures Valid()
      ensures View() == QueueSpec.QTrim(g, old(View()), ok)
    {
      ViewCursors();
      if chunkS > 4096 || chunkS > mapcap / 8 {
        Trim(ok);
      }
    }

    /** Deletion frees every allocated chunk, each once, and the map. */
    method Del()
      requires Valid()
      modifies this`mem, this`mapLive
      ensures mem == map[] && !mapLive
    {
      var i := chunkS;
      while i != chunkE
        invariant chunkS <= i <= chunkE
        invariant forall j :: i <= j < End() ==> chunkMap[j] in mem
        invariant |mem| == End() - i
      {
        FreeChunk(chunkMap[i]);
        i := i + 1;
      }
      if osE != 0 {
        FreeChunk(chunkMap[chunkE]);
      }
      mapLive := false;
    }

    // -----------------------------------------------------------------------------------------
    // Ownership and element addresses

    /** The allocated chunks are exactly the live map entries, pairwise distinct, and there are
        as many of them as the view says. */
    lemma OwnedExactly()
      requires Valid()
      ensures forall a :: a in mem <==> exists i :: chunkS <= i < End() && chunkMap[i] == a
      ensures |mem| == View().Live(g)
    {
      ViewCursors();
      var entries := chunkMap[chunkS..End()];
      var elems := DistinctCount(entries);
      assert elems <= mem.Keys;
      SubsetOfSameSize(elems, mem.Keys);
      forall a | a in mem ensures exists i :: chunkS <= i < End() && chunkMap[i] == a {
        assert a in elems;
        var k :| 0 <= k < |entries| && entries[k] == a;
        assert chunkMap[chunkS + k] == a;
      }
    }

    // Element k of the queue is at offset (osS + k) mod c of the chunk (osS + k) / c further on.
    lemma ElementAt(k: nat)
      requires Valid() && k < |contents|
      ensures (osS + k) / g.c >= 0 && chunkS + (osS + k) / g.c < End() <= |chunkMap|
      ensures chunkMap[chunkS + (osS + k) / g.c] in mem
      ensures (osS + k) % g.c < |mem[chunkMap[chunkS + (osS + k) / g.c]]|
      ensures mem[chunkMap[chunkS + (osS + k) / g.c]][(osS + k) % g.c] == contents[k]
    {
      ContentsLength();
      var p, n := osS + k, chunkE - chunkS;
      var i, o := p / g.c, p % g.c;
      DivMod(p, g.c);
      FlattenLength(full, g.c);
      if i < n {
        FlattenAt(full, g.c, i, o);
      } else {
        MulLe(n, i, g.c);
        if i > n {
          MulLe(n + 1, i, g.c);
          Distribute(n, 1, g.c);
        }
      }
    }
  }
}
