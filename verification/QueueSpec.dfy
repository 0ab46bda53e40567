/** The chunked queue as a value: what every operation of include/iel_priv/que.tpl.h does to the
    map capacity, the cursors and the contents, and what holds over whole runs of operations.

    A cursor (chunk, offset) is kept as the single position chunk * c + offset, with c entries
    to a chunk; both cursors and every chunk index are then quotients and remainders of
    positions. `x & CHUNK_ENTS_MASK` is x % c. */
module QueueSpec {
  import opened Arith

  // c: elements in a chunk, 1 << ChunkEntsBit. m: MinChunks.
  datatype Geometry = Geometry(c: nat, m: nat)
  {
    predicate Valid() { c > 0 && m > 0 }
  }

  datatype QView<T> = QView(cap: nat, front: nat, items: seq<T>)
  {
    function Back(): nat { front + |items| }

    function ChunkS(g: Geometry): nat
      requires g.Valid()
    {
      DivMod(front, g.c);
      front / g.c
    }

    function ChunkE(g: Geometry): nat
      requires g.Valid()
    {
      DivMod(Back(), g.c);
      Back() / g.c
    }

    function OsS(g: Geometry): nat
      requires g.Valid()
    {
      front % g.c
    }

    function OsE(g: Geometry): nat
      requires g.Valid()
    {
      Back() % g.c
    }

    // Number of allocated chunks: those in [chunk_s, chunk_e), and chunk_e when os_e is not 0.
    function Live(g: Geometry): int
      requires g.Valid()
    {
      ChunkE(g) - ChunkS(g) + if OsE(g) != 0 then 1 else 0
    }

    // Every allocated chunk has a map entry, and the map never shrinks below MinChunks.
    predicate Valid(g: Geometry)
    {
      && g.Valid()
      && g.m <= cap
      && ChunkE(g) <= cap
      && (OsE(g) != 0 ==> ChunkE(g) < cap)
    }
  }

  datatype Option<T> = None | Some(value: T)

  // The cells with s written over them from index at on, and two such writes in a row.
  function Overwrite<T>(cells: seq<T>, at: nat, s: seq<T>): (r: seq<T>)
    requires at + |s| <= |cells|
    ensures |r| == |cells|
  {
    cells[..at] + s + cells[at + |s|..]
  }

  lemma OverwriteNone<T>(cells: seq<T>, at: nat)
    requires at <= |cells|
    ensures Overwrite(cells, at, []) == cells
  {
  }

  lemma OverwriteOn<T>(cells: seq<T>, at: nat, s: seq<T>, t: seq<T>)
    requires at + |s| + |t| <= |cells|
    ensures Overwrite(Overwrite(cells, at, s), at + |s|, t) == Overwrite(cells, at, s + t)
  {
  }

  function Min(x: int, y: int): int { if x <= y then x else y }

  function Max(x: int, y: int): int { if x <= y then y else x }

  // -------------------------------------------------------------------------------------------
  // The operations

  function Init<T>(g: Geometry, initcap: nat): QView<T>
  {
    QView(Max(initcap, g.m), 0, [])
  }

  // Reserving one element: mapOk and chunkOk say whether realloc and the aligned allocation
  // succeed when they are called. Only the first element of a chunk allocates.
  predicate Granted<T>(g: Geometry, q: QView<T>, mapOk: bool, chunkOk: bool)
    requires g.Valid()
  {
    q.OsE(g) != 0 || ((q.ChunkE(g) < q.cap || mapOk) && chunkOk)
  }

  // The map doubles when it is full, also if the chunk allocation then fails.
  function GrownCap<T>(g: Geometry, q: QView<T>, mapOk: bool): nat
    requires g.Valid()
  {
    if q.OsE(g) == 0 && q.ChunkE(g) >= q.cap && mapOk then 2 * q.cap else q.cap
  }

  // Reserve one element and store v in it; false: an allocation failed.
  function Push<T>(g: Geometry, q: QView<T>, v: T, mapOk: bool, chunkOk: bool): (QView<T>, bool)
    requires g.Valid()
  {
    var ok := Granted(g, q, mapOk, chunkOk);
    (QView(GrownCap(g, q, mapOk), q.front, if ok then q.items + [v] else q.items), ok)
  }

  // Return code -1: empty. 1: the queue is now empty, or the cursor reached the stop cursor.
  function Pop<T>(g: Geometry, q: QView<T>, chunkStop: nat, osStop: nat): (QView<T>, Option<T>, int)
    requires g.Valid()
  {
    if q.items == [] then
      (q, None, -1)
    else if |q.items| == 1 then
      (q.(front := 0, items := []), Some(q.items[0]), 1)
    else
      var q' := q.(front := q.front + 1, items := q.items[1..]);
      (q', Some(q.items[0]), if q'.ChunkS(g) == chunkStop && q'.OsS(g) == osStop then 1 else 0)
  }

  // Start of the next chunk at or after position p.
  function RoundUp(p: nat, c: nat): nat
    requires c > 0
  {
    DivMod(p, c);
    if p % c == 0 then p else p - p % c + c
  }

  // Where the front cursor lands after a request for 0 < n <= size elements: at the position
  // asked for when the offset advances by the number copied; at the end of the span holding it
  // (the chunk end, or the back of the queue) when it advances by the span, as line 172 does.
  function Landing<T>(g: Geometry, q: QView<T>, n: nat, literal: bool): nat
    requires g.Valid()
  {
    if literal then Min(RoundUp(q.front + n, g.c), q.Back()) else q.front + n
  }

  function PopTo<T>(g: Geometry, q: QView<T>, n: nat, literal: bool): (QView<T>, seq<T>)
    requires g.Valid()
  {
    if n == 0 then
      (q, [])
    else if n > |q.items| then
      (q.(front := 0, items := []), q.items)
    else
      var p := Landing(g, q, n, literal);
      LandingBounds(g, q, n, literal);
      (q.(front := p, items := q.items[p - q.front..]), q.items[..n])
  }

  lemma LandingBounds<T>(g: Geometry, q: QView<T>, n: nat, literal: bool)
    requires g.Valid() && n <= |q.items|
    ensures q.front + n <= Landing(g, q, n, literal) <= q.Back()
    ensures Landing(g, q, n, literal) == q.front + n
       <==> !literal || n == |q.items| || (q.front + n) % g.c == 0
  {
    DivMod(q.front + n, g.c);
  }

  // Move the live chunks to the start of the map and shrink it; ok: the shrinking realloc works.
  function Trim<T>(g: Geometry, q: QView<T>, ok: bool): QView<T>
    requires g.Valid()
  {
    var front := if q.items == [] then 0 else q.OsS(g);
    var live := if q.items == [] then 0 else q.Live(g);
    QView(if ok then Max(g.m, live) else q.cap, front, q.items)
  }

  function QTrim<T>(g: Geometry, q: QView<T>, ok: bool): QView<T>
    requires g.Valid()
  {
    if q.ChunkS(g) > 4096 || q.ChunkS(g) > q.cap / 8 then Trim(g, q, ok) else q
  }

  // -------------------------------------------------------------------------------------------
  // Positions and chunks

  lemma BackIsCursor<T>(g: Geometry, q: QView<T>)
    requires g.Valid()
    ensures q.ChunkS(g) <= q.ChunkE(g)
    ensures q.front == q.ChunkS(g) * g.c + q.OsS(g)
    ensures q.Back() == q.ChunkE(g) * g.c + q.OsE(g)
    ensures q.OsS(g) < g.c && q.OsE(g) < g.c
  {
    DivMod(q.front, g.c);
    DivMod(q.Back(), g.c);
    if q.ChunkE(g) < q.ChunkS(g) {
      MulLe(q.ChunkE(g) + 1, q.ChunkS(g), g.c);
      Distribute(q.ChunkE(g), 1, g.c);
    }
  }

  // A position is at most cap chunks from the start of the map exactly when its cursor fits.
  lemma FitsMap(p: nat, cap: nat, c: nat)
    requires c > 0
    ensures p / c <= cap && (p % c != 0 ==> p / c < cap) <==> p <= cap * c
  {
    DivMod(p, c);
    if p / c > cap {
      MulLe(cap + 1, p / c, c);
      Distribute(cap, 1, c);
    } else if p / c < cap {
      MulLe(p / c + 1, cap, c);
      Distribute(p / c, 1, c);
    }
  }

  lemma ValidIsBound<T>(g: Geometry, q: QView<T>)
    requires g.Valid()
    ensures q.Valid(g) <==> g.m <= q.cap && q.Back() <= q.cap * g.c
  {
    DivMod(q.Back(), g.c);
    FitsMap(q.Back(), q.cap, g.c);
  }
}
