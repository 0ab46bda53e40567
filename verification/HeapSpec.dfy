/** The binary min-heap of src/minheap.c as operations on sequences of (key, value) nodes. */
module HeapSpec {

  datatype Node = Node(k: nat, v: nat)

  function Par(i: nat): nat
    requires i > 0
  {
    (i - 1) / 2
  }

  function Swap(s: seq<Node>, i: nat, j: nat): (r: seq<Node>)
    requires i < |s| && j < |s|
    ensures |r| == |s|
  {
    s[i := s[j]][j := s[i]]
  }

  lemma SwapCounts(s: seq<Node>, i: nat, j: nat)
    requires i < |s| && j < |s|
    ensures multiset(Swap(s, i, j)) == multiset(s)
  {
  }

  // iel_mh_sup from idx on: up while the parent's key is larger.
  function SiftUp(s: seq<Node>, i: nat): (r: seq<Node>)
    requires 0 < i < |s|
    ensures |r| == |s|
    decreases i
  {
    var p := Par(i);
    if s[p].k <= s[i].k then s
    else if p == 0 then Swap(s, i, p)
    else SiftUp(Swap(s, i, p), p)
  }

  // The child with the smaller key, the left one if they are equal; i itself if it has none.
  function MinChild(s: seq<Node>, i: nat): (c: nat)
    requires i < |s|
    ensures c < |s| && (c != i ==> c > i && Par(c) == i)
    ensures forall j :: 0 < j < |s| && Par(j) == i ==> c != i && s[c].k <= s[j].k
    ensures 2 * i + 2 < |s| && s[2 * i + 1].k == s[2 * i + 2].k ==> c == 2 * i + 1
  {
    var (l, r) := (2 * i + 1, 2 * i + 2);
    if l < |s| then
      if r < |s| then if s[l].k <= s[r].k then l else r else l
    else i
  }

  // Whether sift-down moves a node with key k below a child with key c: the code tests for a
  // different key; the strict test asks for a smaller one.
  predicate Moves(c: nat, k: nat, strict: bool)
  {
    if strict then c < k else c != k
  }

  // iel_mh_sdn from i on.
  function SiftDown(s: seq<Node>, i: nat, strict: bool): (r: seq<Node>)
    requires i < |s|
    ensures |r| == |s|
    decreases |s| - i
  {
    var c := MinChild(s, i);
    if c != i && Moves(s[c].k, s[i].k, strict) then SiftDown(Swap(s, i, c), c, strict) else s
  }

  // Where a node with key k that starts at i comes to rest.
  function Rest(s: seq<Node>, i: nat, k: nat, strict: bool): (p: nat)
    requires i < |s|
    ensures i <= p < |s|
    decreases |s| - i
  {
    var c := MinChild(s, i);
    if c != i && Moves(s[c].k, k, strict) then Rest(s, c, k, strict) else i
  }

  function Insert(s: seq<Node>, x: Node): (r: seq<Node>)
    ensures |r| == |s| + 1
  {
    if s == [] then [x] else SiftUp(s + [x], |s|)
  }

  // The last node in the place of the root.
  function LastToRoot(s: seq<Node>): (r: seq<Node>)
    requires |s| > 1
    ensures |r| == |s| - 1
  {
    Swap(s, 0, |s| - 1)[..|s| - 1]
  }

  function Pop(s: seq<Node>, strict: bool): (r: seq<Node>)
    requires s != []
    ensures |r| == |s| - 1
  {
    if |s| == 1 then [] else SiftDown(LastToRoot(s), 0, strict)
  }

  // -------------------------------------------------------------------------------------------
  // The nodes as a multiset

  lemma {:induction false} SiftUpCounts(s: seq<Node>, i: nat)
    requires 0 < i < |s|
    ensures multiset(SiftUp(s, i)) == multiset(s)
    decreases i
  {
    var p := Par(i);
    if s[p].k > s[i].k {
      SwapCounts(s, i, p);
      if p > 0 {
        SiftUpCounts(Swap(s, i, p), p);
      }
    }
  }

  lemma {:induction false} SiftDownCounts(s: seq<Node>, i: nat, strict: bool)
    requires i < |s|
    ensures multiset(SiftDown(s, i, strict)) == multiset(s)
    decreases |s| - i
  {
    var c := MinChild(s, i);
    if c != i && Moves(s[c].k, s[i].k, strict) {
      SwapCounts(s, i, c);
      SiftDownCounts(Swap(s, i, c), c, strict);
    }
  }

  // Insertion adds its node, removal takes the root; under either test.
  lemma InsertCounts(s: seq<Node>, x: Node)
    ensures multiset(Insert(s, x)) == multiset(s) + multiset{x}
  {
    if s != [] {
      SiftUpCounts(s + [x], |s|);
    }
  }

  lemma PopCounts(s: seq<Node>, strict: bool)
    requires s != []
    ensures multiset(Pop(s, strict)) + multiset{s[0]} == multiset(s)
  {
    if |s| == 1 {
      assert s == [s[0]];
    } else {
      var swapped := Swap(s, 0, |s| - 1);
      SwapCounts(s, 0, |s| - 1);
      assert swapped == LastToRoot(s) + [s[0]];
      SiftDownCounts(LastToRoot(s), 0, strict);
    }
  }

  // -------------------------------------------------------------------------------------------
  // Heap order

  predicate Edge(s: seq<Node>, i: nat)
    requires 0 < i < |s|
  {
    s[Par(i)].k <= s[i].k
  }

  ghost predicate HeapOrder(s: seq<Node>)
  {
    forall i :: 0 < i < |s| ==> Edge(s, i)
  }

  // Every edge is ordered but the one above i, and the nodes below i fit under its parent.
  ghost predicate OneBadEdge(s: seq<Node>, i: nat)
  {
    && (forall j :: 0 < j < |s| && j != i ==> Edge(s, j))
    && (forall j :: 0 < i < |s| && 0 < j < |s| && Par(j) == i ==> s[Par(i)].k <= s[j].k)
  }

  // Every edge is ordered but those below i, and the nodes below i fit under its parent.
  ghost predicate BadBelow(s: seq<Node>, i: nat)
  {
    && (forall j :: 0 < j < |s| && Par(j) != i ==> Edge(s, j))
    && (forall j :: 0 < i < |s| && 0 < j < |s| && Par(j) == i ==> s[Par(i)].k <= s[j].k)
  }

  /** Sifting up from the only bad edge restores heap order. */
  lemma {:induction false} SiftUpRestores(s: seq<Node>, i: nat)
    requires 0 < i < |s| && OneBadEdge(s, i)
    ensures HeapOrder(SiftUp(s, i))
    decreases i
  {
    var p := Par(i);
    if s[p].k <= s[i].k {
      assert Edge(s, i);
    } else {
      var s' := Swap(s, i, p);
      forall j | 0 < j < |s| && j != p ensures Edge(s', j) {
        if j != i {
          assert Edge(s, j);
        }
      }
      if p > 0 {
        forall j | 0 < j < |s| && Par(j) == p ensures s'[Par(p)].k <= s'[j].k {
          assert Edge(s, p);
          if j != i {
            assert Edge(s, j);
          }
        }
        SiftUpRestores(s', p);
      }
    }
  }

  // The disorder while a sift-down is on its way: below i, and perhaps above it.
  ghost predicate OnTheWay(s: seq<Node>, i: nat)
  {
    && (forall j :: 0 < j < |s| && Par(j) != i && j != i ==> Edge(s, j))
    && (forall j :: 0 < i < |s| && 0 < j < |s| && Par(j) == i ==> s[Par(i)].k <= s[j].k)
  }

  // Swapping a node with its smallest child moves the disorder on to that child, whatever the
  // two keys are.
  lemma StepDown(s: seq<Node>, i: nat, c: nat)
    requires i < |s| && OnTheWay(s, i) && c == MinChild(s, i) != i
    ensures OnTheWay(Swap(s, i, c), c)
  {
    var s' := Swap(s, i, c);
    forall j | 0 < j < |s| && Par(j) != c && j != c ensures Edge(s', j) {
      if j == i {
        assert s[Par(i)].k <= s[c].k;
      } else if Par(j) != i {
        assert Edge(s, j);
      }
    }
    forall j | 0 < j < |s| && Par(j) == c ensures s'[i].k <= s'[j].k {
      assert Edge(s, j);
    }
  }

  /** With the strict test sift-down restores heap order. */
  lemma {:induction false} StrictSiftDownRestores(s: seq<Node>, i: nat)
    requires i < |s| && BadBelow(s, i)
    ensures HeapOrder(SiftDown(s, i, true))
    decreases |s| - i
  {
    var c := MinChild(s, i);
    if c != i && s[c].k < s[i].k {
      var s' := Swap(s, i, c);
      StepDown(s, i, c);
      assert Edge(s', c);
      StrictSiftDownRestores(s', c);
    } else {
      forall j | 0 < j < |s| ensures Edge(s, j) {
      }
    }
  }

  /** The literal sift-down leaves every edge ordered except possibly the one above the place
      where the moved node comes to rest; the node there is the moved one, and above it is the
      node that was there before. */
  lemma {:induction false} LiteralSiftDown(s: seq<Node>, i: nat)
    requires i < |s| && OnTheWay(s, i)
    ensures var (r, p) := (SiftDown(s, i, false), Rest(s, i, s[i].k, false));
            && OneBadEdge(r, p)
            && r[p] == s[i]
            && (p != i ==> p > 0 && r[Par(p)] == s[p])
            && (forall j :: 0 <= j < i ==> r[j] == s[j])
    decreases |s| - i
  {
    var c := MinChild(s, i);
    if c != i && s[c].k != s[i].k {
      var s' := Swap(s, i, c);
      StepDown(s, i, c);
      LiteralSiftDown(s', c);
      RestBelow(s, s', i, c);
      assert SiftDown(s, i, false) == SiftDown(s', c, false);
    }
  }

  // The walk to the resting place looks only at the nodes below.
  lemma {:induction false} RestReads(s: seq<Node>, s': seq<Node>, i: nat, k: nat)
    requires |s| == |s'| && i < |s| && forall j :: i < j < |s| ==> s[j] == s'[j]
    ensures Rest(s, i, k, false) == Rest(s', i, k, false)
    decreases |s| - i
  {
    var c := MinChild(s, i);
    if c != i && Moves(s[c].k, k, false) {
      RestReads(s, s', c, k);
    }
  }

  lemma RestBelow(s: seq<Node>, s': seq<Node>, i: nat, c: nat)
    requires i < |s| && c == MinChild(s, i) != i && s' == Swap(s, i, c) && s[c].k != s[i].k
    ensures Rest(s, i, s[i].k, false) == Rest(s', c, s'[c].k, false)
  {
    RestReads(s, s', c, s[i].k);
  }
}
