/** The min-heap of src/minheap.c in place: sift-up and sift-down swap nodes of an array. */
module MinHeaps {
  import opened HeapSpec
  import opened Outcomes

  class MinHeap {
    // Whether sift-down uses the strict test; the code does not.
    const strict: bool
    var arr: array<Node>
    var entries: nat
    var maxentries: nat

    ghost predicate Valid()
      reads this
    {
      entries <= maxentries == arr.Length
    }

    ghost function Nodes(): seq<Node>
      requires Valid()
      reads this, arr
    {
      arr[..entries]
    }

    constructor (initlen: nat, strict: bool)
      ensures Valid() && fresh(arr) && Nodes() == [] && this.strict == strict && maxentries == initlen
    {
      this.strict := strict;
      arr := new Node[initlen](_ => Node(0, 0));
      entries, maxentries := 0, initlen;
    }

    // IEL_MH_SWAP
    method SwapNodes(i: nat, j: nat)
      requires Valid() && i < entries && j < entries
      modifies arr
      ensures Nodes() == Swap(old(Nodes()), i, j)
    {
      arr[i], arr[j] := arr[j], arr[i];
    }

    /** iel_mh_sup */
    method Sup(idx: nat)
      requires Valid() && 0 < idx < entries
      modifies arr
      ensures Nodes() == SiftUp(old(Nodes()), idx)
    {
      var cur := idx;
      var par := Par(cur);
      while arr[par].k > arr[cur].k
        invariant 0 < cur < entries && par == Par(cur)
        invariant SiftUp(Nodes(), cur) == SiftUp(old(Nodes()), idx)
        decreases cur
      {
        ghost var s := Nodes();
        SwapNodes(cur, par);
        if par == 0 {
          assert SiftUp(s, cur) == Nodes();
          return;
        }
        cur := par;
        par := Par(par);
      }
    }

    /** iel_mh_sdn */
    method Sdn(idx: nat)
      requires Valid() && idx < entries
      modifies arr
      ensures Nodes() == SiftDown(old(Nodes()), idx, strict)
    {
      var cur := idx;
      while true
        invariant cur < entries
        invariant SiftDown(Nodes(), cur, strict) == SiftDown(old(Nodes()), idx, strict)
        decreases entries - cur
      {
        var (l, r) := (2 * cur + 1, 2 * cur + 2);
        var hasL, hasR := entries > l, entries > r;
        var swapWith :=
          if hasL then if hasR then if arr[l].k <= arr[r].k then l else r else l
          else if hasR then r else cur;
        assert swapWith == MinChild(Nodes(), cur);
        if swapWith != cur && (if strict then arr[swapWith].k < arr[cur].k else arr[swapWith].k != arr[cur].k) {
          SwapNodes(cur, swapWith);
          cur := swapWith;
        } else {
          break;
        }
      }
    }

    // A realloc of the array to n nodes.
    method Realloc(n: nat)
      requires Valid() && n >= maxentries
      modifies this`arr, this`maxentries
      ensures Valid() && fresh(arr) && maxentries == n && Nodes() == old(Nodes())
    {
      var bigger := new Node[n](_ => Node(0, 0));
      forall i | 0 <= i < entries {
        bigger[i] := arr[i];
      }
      arr := bigger;
      maxentries := n;
    }

    /** iel_mh_ins1; ok: the realloc succeeds if it is called. -1: it did not, nothing changed.
        Doubling gives room exactly to a heap that had room for some node; where it does not,
        the code is about to write behind the array. */
    method Ins1(k: nat, v: nat, ok: bool) returns (res: Outcome)
      requires Valid()
      modifies this, arr
      ensures Valid() && (fresh(arr) || arr == old(arr))
      ensures res == if old(entries) < old(maxentries) then Returned(0)
                     else if !ok then Returned(-1)
                     else if old(maxentries) > 0 then Returned(0)
                     else Overrun
      ensures Nodes() == if res == Returned(0) then Insert(old(Nodes()), Node(k, v)) else old(Nodes())
    {
      if entries + 1 > maxentries {
        if !ok {
          return Returned(-1);
        }
        Realloc(2 * maxentries);
        if entries == maxentries {
          return Overrun;
        }
      }
      ghost var s := Nodes();
      arr[entries] := Node(k, v);
      entries := entries + 1;
      assert Nodes() == s + [Node(k, v)];
      if entries - 1 != 0 {
        Sup(entries - 1);
      }
      res := Returned(0);
    }

    // The first insertion into a heap set up with room for no node.
    static method FirstWithoutRoom(k: nat, v: nat) returns (mh: MinHeap, res: Outcome)
      ensures fresh(mh) && res == Overrun
    {
      mh := new MinHeap(0, false);
      res := mh.Ins1(k, v, true);
    }

    /** iel_mh_pop. None: the heap is empty, the return code is -1. */
    method PopMin() returns (x: Node, res: int)
      requires Valid()
      modifies this`entries, arr
      ensures Valid()
      ensures old(entries) == 0 ==> res == -1 && Nodes() == []
      ensures old(entries) > 0 ==> res == 0 && x == old(Nodes())[0] && Nodes() == Pop(old(Nodes()), strict)
    {
      if entries == 0 {
        return Node(0, 0), -1;
      }
      x := arr[0];
      SwapNodes(0, entries - 1);
      ghost var swapped := Nodes();
      entries := entries - 1;
      assert Nodes() == swapped[..entries];
      if entries != 0 {
        Sdn(0);
      }
      res := 0;
    }
  }
}
