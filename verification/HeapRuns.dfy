/** The heap over runs of insertions and removals, with the strict test and with the test as
    src/minheap.c has it. */
module HeapRuns {
  import opened HeapSpec

  // -------------------------------------------------------------------------------------------
  // One operation

  lemma InsertKeeps(s: seq<Node>, x: Node)
    requires HeapOrder(s)
    ensures HeapOrder(Insert(s, x))
    ensures s != [] && s[Par(|s|)].k == x.k ==> Insert(s, x) == s + [x]
  {
    if s != [] {
      var t := s + [x];
      forall j | 0 < j < |t| && j != |s| ensures Edge(t, j) {
        assert Edge(s, j);
      }
      SiftUpRestores(t, |s|);
    }
  }

  lemma LastToRootBelow(s: seq<Node>)
    requires HeapOrder(s) && |s| > 1
    ensures BadBelow(LastToRoot(s), 0) && OnTheWay(LastToRoot(s), 0)
  {
    var t := LastToRoot(s);
    forall j | 0 < j < |t| && Par(j) != 0 ensures Edge(t, j) {
      assert Edge(s, j);
    }
  }

  lemma StrictPopKeeps(s: seq<Node>)
    requires HeapOrder(s) && s != []
    ensures HeapOrder(Pop(s, true))
  {
    if |s| > 1 {
      LastToRootBelow(s);
      StrictSiftDownRestores(LastToRoot(s), 0);
    }
  }

  // In a heap the root has a smallest key.
  lemma {:induction false} RootIsLeast(s: seq<Node>, i: nat)
    requires HeapOrder(s) && i < |s|
    ensures s[0].k <= s[i].k
    decreases i
  {
    if i > 0 {
      assert Edge(s, i);
      RootIsLeast(s, Par(i));
    }
  }

  // Where the last node of s comes to rest when the root is removed by the literal code.
  function Landing(s: seq<Node>): nat
    requires |s| > 1
  {
    Rest(LastToRoot(s), 0, s[|s| - 1].k, false)
  }

  // The path from i down through the children with the smaller keys: whether it passes a node
  // with key k below i, and where it ends.
  predicate MeetsKey(s: seq<Node>, i: nat, k: nat)
    requires i < |s|
    decreases |s| - i
  {
    var c := MinChild(s, i);
    c != i && (s[c].k == k || MeetsKey(s, c, k))
  }

  function Bottom(s: seq<Node>, i: nat): (b: nat)
    requires i < |s|
    ensures i <= b < |s|
    decreases |s| - i
  {
    var c := MinChild(s, i);
    if c == i then i else Bottom(s, c)
  }

  // The code stops above the first node on that path with an equal key, and at its end
  // otherwise.
  lemma {:induction false} RestOnPath(s: seq<Node>, i: nat, k: nat)
    requires i < |s|
    ensures var p := Rest(s, i, k, false);
            if MeetsKey(s, i, k) then MinChild(s, p) != p && s[MinChild(s, p)].k == k else p == Bottom(s, i)
    decreases |s| - i
  {
    var c := MinChild(s, i);
    if c != i && s[c].k != k {
      RestOnPath(s, c, k);
    }
  }

  // The removal leaves a heap exactly when the last node does not end up below a larger one.
  lemma LandingDecides(s: seq<Node>)
    requires HeapOrder(s) && |s| > 1
    ensures HeapOrder(Pop(s, false)) <==> Landing(s) == 0 || s[Landing(s)].k <= s[|s| - 1].k
  {
    var t, r, p := LastToRoot(s), Pop(s, false), Landing(s);
    LastToRootBelow(s);
    LiteralSiftDown(t, 0);
    if p > 0 {
      assert r[Par(p)] == s[p] && r[p] == s[|s| - 1];
      if s[p].k <= s[|s| - 1].k {
        assert Edge(r, p);
      } else {
        assert !Edge(r, p);
      }
    }
  }

  /** Removal as the code does it leaves a heap exactly when the path of smaller children, with
      the last node in the place of the root, passes a node with the last node's key, or is the
      root alone, or ends in a node with no larger key. */
  lemma LiteralPopKeeps(s: seq<Node>)
    requires HeapOrder(s) && |s| > 1
    ensures var t, k := LastToRoot(s), s[|s| - 1].k;
            HeapOrder(Pop(s, false)) <==> MeetsKey(t, 0, k) || Bottom(t, 0) == 0 || t[Bottom(t, 0)].k <= k
  {
    var t, k, p := LastToRoot(s), s[|s| - 1].k, Landing(s);
    LastToRootBelow(s);
    LandingDecides(s);
    RestOnPath(t, 0, k);
    assert p > 0 ==> t[p] == s[p];
    if MeetsKey(t, 0, k) && p > 0 {
      assert Edge(t, MinChild(t, p));
    }
  }

  /** After a removal as the code does it, sifting up from the resting place of the moved node
      restores the heap. */
  lemma SiftUpRepairs(s: seq<Node>)
    requires HeapOrder(s) && |s| > 1
    ensures var (r, p) := (Pop(s, false), Landing(s));
            p < |r| && (if p > 0 then HeapOrder(SiftUp(r, p)) else HeapOrder(r))
  {
    LastToRootBelow(s);
    LiteralSiftDown(LastToRoot(s), 0);
    if Landing(s) > 0 {
      SiftUpRestores(Pop(s, false), Landing(s));
    }
  }

  // Keys 1, 5, 2 inserted in this order: the code removes 1, 5, 2, the strict test 1, 2, 5.
  lemma LiteralPopMisorders()
    ensures var s := [Node(1, 0), Node(5, 0), Node(2, 0)];
            && Insert(Insert(Insert([], Node(1, 0)), Node(5, 0)), Node(2, 0)) == s
            && Pop(s, false) == [Node(5, 0), Node(2, 0)]
            && Pop(s, true) == [Node(2, 0), Node(5, 0)]
  {
    var s := [Node(1, 0), Node(5, 0), Node(2, 0)];
    var t := [Node(2, 0), Node(5, 0)];
    assert LastToRoot(s) == t;
    assert MinChild(t, 0) == 1;
    assert Swap(t, 0, 1) == [Node(5, 0), Node(2, 0)];
    assert Insert([], Node(1, 0)) == [Node(1, 0)];
    assert [Node(1, 0)] + [Node(5, 0)] == [Node(1, 0), Node(5, 0)];
    assert Insert([Node(1, 0)], Node(5, 0)) == [Node(1, 0), Node(5, 0)];
    assert [Node(1, 0), Node(5, 0)] + [Node(2, 0)] == s;
    assert Insert([Node(1, 0), Node(5, 0)], Node(2, 0)) == s;
  }

  // -------------------------------------------------------------------------------------------
  // Whole runs

  datatype Op = OpInsert(x: Node) | OpPop

  // The heap after a run and the nodes removed, in order; removal from an empty heap does
  // nothing.
  function Run(s: seq<Node>, ops: seq<Op>, strict: bool): (seq<Node>, seq<Node>)
    decreases |ops|
  {
    if ops == [] then (s, [])
    else match ops[0]
      case OpInsert(x) => Run(Insert(s, x), ops[1..], strict)
      case OpPop =>
        if s == [] then Run(s, ops[1..], strict)
        else
          var (s', out) := Run(Pop(s, strict), ops[1..], strict);
          (s', [s[0]] + out)
  }

  function Inserted(ops: seq<Op>): multiset<Node>
  {
    if ops == [] then multiset{}
    else (if ops[0].OpInsert? then multiset{ops[0].x} else multiset{}) + Inserted(ops[1..])
  }

  /** Under either test no node is lost, duplicated or made up. */
  lemma {:induction false} HeapConserves(s: seq<Node>, ops: seq<Op>, strict: bool)
    ensures var (s', out) := Run(s, ops, strict);
            multiset(out) + multiset(s') == multiset(s) + Inserted(ops)
    decreases |ops|, 1
  {
    if ops == [] {
    } else if ops[0].OpInsert? {
      InsertCounts(s, ops[0].x);
      HeapConserves(Insert(s, ops[0].x), ops[1..], strict);
    } else if s == [] {
      HeapConserves(s, ops[1..], strict);
    } else {
      PopConserves(s, ops, strict);
    }
  }

  lemma PopConserves(s: seq<Node>, ops: seq<Op>, strict: bool)
    requires s != [] && ops != [] && ops[0].OpPop?
    ensures var (s', out) := Run(s, ops, strict);
            multiset(out) + multiset(s') == multiset(s) + Inserted(ops)
    decreases |ops|, 0
  {
    var (s', out) := Run(Pop(s, strict), ops[1..], strict);
    HeapConserves(Pop(s, strict), ops[1..], strict);
    PopCounts(s, strict);
    assert Run(s, ops, strict) == (s', [s[0]] + out);
    assert multiset([s[0]] + out) == multiset{s[0]} + multiset(out);
    assert Inserted(ops) == Inserted(ops[1..]);
    Balance(multiset{s[0]}, multiset(out), multiset(s'), multiset(Pop(s, strict)), Inserted(ops), multiset(s));
  }

  lemma Balance(x: multiset<Node>, o: multiset<Node>, e: multiset<Node>,
                p: multiset<Node>, i: multiset<Node>, m: multiset<Node>)
    requires o + e == p + i && p + x == m
    ensures x + o + e == m + i
  {
    assert x + o + e == x + (o + e);
    assert x + (p + i) == p + x + i;
  }

  /** With the strict test every run keeps heap order, so every removal, at any time, takes a
      node with a smallest key. */
  lemma {:induction false} StrictRunKeeps(s: seq<Node>, ops: seq<Op>)
    requires HeapOrder(s)
    ensures var s' := Run(s, ops, true).0;
            HeapOrder(s') && forall i :: 0 <= i < |s'| ==> s'[0].k <= s'[i].k
    decreases |ops|
  {
    if ops == [] {
      forall i | 0 <= i < |s| ensures s[0].k <= s[i].k {
        RootIsLeast(s, i);
      }
    } else {
      match ops[0]
      case OpInsert(x) =>
        InsertKeeps(s, x);
        StrictRunKeeps(Insert(s, x), ops[1..]);
      case OpPop =>
        if s == [] {
          StrictRunKeeps(s, ops[1..]);
        } else {
          StrictPopKeeps(s);
          StrictRunKeeps(Pop(s, true), ops[1..]);
        }
    }
  }

  // The nodes of the heap in the order in which they are removed.
  function Drained(s: seq<Node>, strict: bool): seq<Node>
    decreases |s|
  {
    if s == [] then [] else [s[0]] + Drained(Pop(s, strict), strict)
  }

  ghost predicate Sorted(s: seq<Node>)
  {
    forall i, j :: 0 <= i < j < |s| ==> s[i].k <= s[j].k
  }

  lemma {:induction false} DrainedCounts(s: seq<Node>, strict: bool)
    ensures multiset(Drained(s, strict)) == multiset(s)
    decreases |s|
  {
    if s != [] {
      DrainedCounts(Pop(s, strict), strict);
      PopCounts(s, strict);
    }
  }

  /** With the strict test, emptying any reachable heap removes exactly its nodes, in order of
      their keys. */
  lemma {:induction false} DrainedSorted(s: seq<Node>)
    requires HeapOrder(s)
    ensures Sorted(Drained(s, true)) && multiset(Drained(s, true)) == multiset(s)
    decreases |s|
  {
    DrainedCounts(s, true);
    if s != [] {
      var rest := Drained(Pop(s, true), true);
      StrictPopKeeps(s);
      DrainedSorted(Pop(s, true));
      DrainedCounts(Pop(s, true), true);
      PopCounts(s, true);
      forall j | 0 <= j < |rest| ensures s[0].k <= rest[j].k {
        assert rest[j] in multiset(rest);
        assert rest[j] in multiset(s);
        var i :| 0 <= i < |s| && s[i] == rest[j];
        RootIsLeast(s, i);
      }
    }
  }
}
