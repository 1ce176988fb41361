/** A binary min-heap in the list layout heapq documents, for entries ordered by deadline alone. */
module MinHeap {

  datatype Check = Check(due: real, key: string)

  /** Positions p and k are linked: k is one of the two children of p. */
  predicate Link(p: nat, k: nat) {
    k == 2 * p + 1 || k == 2 * p + 2
  }

  /** No entry is due before its parent. */
  ghost predicate IsHeap(h: seq<Check>) {
    forall p: nat, k: nat {:trigger Link(p, k)} :: Link(p, k) && k < |h| ==> h[p].due <= h[k].due
  }

  function Swap(h: seq<Check>, i: nat, j: nat): (r: seq<Check>)
    requires i < |h| && j < |h|
    ensures |r| == |h| && multiset(r) == multiset(h)
  {
    h[i := h[j]][j := h[i]]
  }

  /** The root of a heap is due first. */
  lemma {:induction false} RootIsFirst(h: seq<Check>, k: nat)
    requires IsHeap(h) && k < |h|
    ensures h[0].due <= h[k].due
  {
    if k > 0 {
      assert Link((k - 1) / 2, k);
      RootIsFirst(h, (k - 1) / 2);
    }
  }

  lemma RootIsMinimum(h: seq<Check>)
    requires IsHeap(h)
    ensures forall e :: e in h ==> h[0].due <= e.due
  {
    forall e | e in h ensures h[0].due <= e.due {
      var k :| 0 <= k < |h| && h[k] == e;
      RootIsFirst(h, k);
    }
  }

  /** A heap but for the link above i; the links around i's parent would do without i. */
  ghost predicate HeapAbove(h: seq<Check>, i: nat) {
    && i < |h|
    && (forall p: nat, k: nat {:trigger Link(p, k)} :: Link(p, k) && k < |h| && k != i ==> h[p].due <= h[k].due)
    && (forall p: nat, k: nat {:trigger Link(p, i), Link(i, k)} ::
          Link(p, i) && Link(i, k) && k < |h| ==> h[p].due <= h[k].due)
  }

  /** A heap but for the links below i. */
  ghost predicate HeapBelow(h: seq<Check>, i: nat) {
    && i < |h|
    && (forall p: nat, k: nat {:trigger Link(p, k)} :: Link(p, k) && k < |h| && p != i ==> h[p].due <= h[k].due)
    && (forall p: nat, k: nat {:trigger Link(p, i), Link(i, k)} ::
          Link(p, i) && Link(i, k) && k < |h| ==> h[p].due <= h[k].due)
  }

  lemma LiftStep(h: seq<Check>, i: nat, parent: nat)
    requires HeapAbove(h, i) && Link(parent, i) && h[i].due < h[parent].due
    ensures HeapAbove(Swap(h, i, parent), parent)
  {
    var r := Swap(h, i, parent);
    forall p: nat, k: nat | Link(p, k) && k < |r| && k != parent ensures r[p].due <= r[k].due {
      assert k != i ==> h[p].due <= h[k].due;
    }
    forall p: nat, k: nat | Link(p, parent) && Link(parent, k) && k < |r| ensures r[p].due <= r[k].due {
      assert h[p].due <= h[parent].due;
    }
  }

  lemma LiftedIsHeap(h: seq<Check>, i: nat)
    requires HeapAbove(h, i)
    requires i == 0 || h[(i - 1) / 2].due <= h[i].due
    ensures IsHeap(h)
  {
    forall p: nat, k: nat | Link(p, k) && k < |h| ensures h[p].due <= h[k].due {
      assert k == i ==> p == (i - 1) / 2;
    }
  }

  method Push(h: seq<Check>, e: Check) returns (r: seq<Check>)
    requires IsHeap(h)
    ensures IsHeap(r) && multiset(r) == multiset(h) + multiset{e}
  {
    hide Swap, Link;
    r := h + [e];
    var i := |h|;
    AppendedLeaf(h, e);
    while i > 0 && r[i].due < r[(i - 1) / 2].due
      invariant 0 <= i < |r| && HeapAbove(r, i) && multiset(r) == multiset(h) + multiset{e}
    {
      var parent := (i - 1) / 2;
      ParentLink(i);
      LiftStep(r, i, parent);
      r := Swap(r, i, parent);
      i := parent;
    }
    LiftedIsHeap(r, i);
  }

  lemma ParentLink(i: nat)
    requires i > 0
    ensures Link((i - 1) / 2, i)
  {
  }

  lemma AppendedLeaf(h: seq<Check>, e: Check)
    requires IsHeap(h)
    ensures HeapAbove(h + [e], |h|)
  {
  }

  /** c is the child of i that is due first. */
  ghost predicate FirstChild(h: seq<Check>, i: nat, c: nat) {
    && c < |h| && Link(i, c)
    && forall k: nat {:trigger Link(i, k)} :: Link(i, k) && k < |h| ==> h[c].due <= h[k].due
  }

  lemma SinkStep(h: seq<Check>, i: nat, c: nat)
    requires HeapBelow(h, i) && FirstChild(h, i, c) && h[c].due < h[i].due
    ensures HeapBelow(Swap(h, i, c), c)
  {
    var r := Swap(h, i, c);
    forall p: nat, k: nat | Link(p, k) && k < |r| && p != c ensures r[p].due <= r[k].due {
      if p != i {
        assert h[p].due <= h[k].due;
      }
    }
    forall p: nat, k: nat | Link(p, c) && Link(c, k) && k < |r| ensures r[p].due <= r[k].due {
      assert h[c].due <= h[k].due;
    }
  }

  lemma SunkIsHeap(h: seq<Check>, i: nat)
    requires HeapBelow(h, i)
    requires 2 * i + 1 < |h| ==> h[i].due <= h[2 * i + 1].due
    requires 2 * i + 2 < |h| ==> h[i].due <= h[2 * i + 2].due
    ensures IsHeap(h)
  {
  }

  lemma ReplacedRoot(h: seq<Check>, last: Check)
    requires IsHeap(h) && |h| > 1
    ensures HeapBelow(h[..|h| - 1][0 := last], 0)
  {
    var r := h[..|h| - 1][0 := last];
    forall p: nat, k: nat | Link(p, k) && k < |r| && p != 0 ensures r[p].due <= r[k].due {
      assert h[p].due <= h[k].due;
    }
  }

  method Pop(h: seq<Check>) returns (e: Check, r: seq<Check>)
    requires IsHeap(h) && h != []
    ensures e == h[0] && IsHeap(r) && multiset(r) == multiset(h) - multiset{e}
  {
    hide Link, IsHeap, HeapBelow, FirstChild, Swap;
    e := h[0];
    var last := h[|h| - 1];
    r := h[..|h| - 1];
    assert h == r + [last];
    if r == [] {
      EmptyIsHeap();
      return;
    }
    ReplacedRoot(h, last);
    r := r[0 := last];
    r := SiftDown(r);
  }

  method SiftDown(h: seq<Check>) returns (r: seq<Check>)
    requires HeapBelow(h, 0)
    ensures IsHeap(r) && multiset(r) == multiset(h)
  {
    hide Link, IsHeap, HeapBelow, FirstChild, Swap;
    r := h;
    var i := 0;
    BelowIndex(h, 0);
    while 2 * i + 1 < |r|
      invariant 0 <= i < |r| && HeapBelow(r, i) && multiset(r) == multiset(h)
      decreases |r| - i
    {
      var c := 2 * i + 1;
      if c + 1 < |r| && r[c + 1].due < r[c].due {
        c := c + 1;
      }
      if r[i].due <= r[c].due {
        break;
      }
      FirstOfTwo(r, i, c);
      SinkStep(r, i, c);
      r := Swap(r, i, c);
      i := c;
    }
    SunkIsHeap(r, i);
  }

  lemma BelowIndex(h: seq<Check>, i: nat)
    requires HeapBelow(h, i)
    ensures i < |h|
  {
  }

  lemma EmptyIsHeap()
    ensures IsHeap([])
  {
  }

  lemma FirstOfTwo(h: seq<Check>, i: nat, c: nat)
    requires 2 * i + 1 < |h| && (c == 2 * i + 1 || (c == 2 * i + 2 && c < |h|))
    requires h[c].due <= h[2 * i + 1].due
    requires 2 * i + 2 < |h| ==> h[c].due <= h[2 * i + 2].due
    ensures FirstChild(h, i, c)
  {
  }
}
