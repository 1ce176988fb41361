/** Walking the knowledge tree: which directories have content. */
module KnowledgeTree {
  import opened Basics
  import opened Topology
  import opened Evaluation

  /** Directories with readable files or content directories below them. */
  predicate HasEntries(tree: Tree, q: string) {
    q in tree && (tree[q].files != [] || tree[q].children != [])
  }

  /** q is a proper descendant of p. */
  ghost predicate Below(q: string, p: string) {
    q != p && p in Chain(q)
  }

  /** Every directory but the root is listed by its parent. */
  ghost predicate Rooted(tree: Tree) {
    forall q :: q in tree && q != "" ==> Listed(tree, q)
  }

  ghost predicate Listed(tree: Tree, q: string) {
    ParentPath(q) in tree && exists c :: c in tree[ParentPath(q)].children && ChildPath(ParentPath(q), c) == q
  }

  ghost predicate BelowSome(tree: Tree, p: string, children: seq<string>, q: string)
    requires p in tree
  {
    exists c :: c in children && p in Chain(ChildPath(p, c)) && (q == ChildPath(p, c) || Below(q, ChildPath(p, c)))
  }

  lemma {:induction false} ChainOfChain(p: string, q: string, r: string)
    requires r in Chain(q) && p in Chain(r)
    ensures p in Chain(q)
    decreases |q|
  {
    if r != q {
      assert Chain(q) == [q] + Chain(ParentPath(q));
      ChainOfChain(p, ParentPath(q), r);
    }
  }

  lemma {:induction false} BelowGoesThroughAChild(tree: Tree, p: string, q: string)
    requires ValidTree(tree) && Rooted(tree) && q in tree && p in tree && Below(q, p)
    ensures BelowSome(tree, p, tree[p].children, q)
    decreases |q|
  {
    var parent := ParentPath(q);
    assert Chain("") == [""];
    assert Chain(q) == [q] + Chain(parent);
    assert Listed(tree, q);
    var c :| c in tree[parent].children && ChildPath(parent, c) == q;
    if parent == p {
      assert q == ChildPath(p, c) && p in Chain(ChildPath(p, c));
    } else {
      BelowGoesThroughAChild(tree, p, parent);
      var d :| d in tree[p].children && p in Chain(ChildPath(p, d)) && (parent == ChildPath(p, d) || Below(parent, ChildPath(p, d)));
      assert ChildPath(p, d) in Chain(parent);
      ChainAvoidsDeeper(parent, ChildPath(p, d));
      ParentShallower(q);
      assert Below(q, ChildPath(p, d));
    }
  }

  lemma ChildIsBelow(tree: Tree, p: string, c: string)
    requires ValidTree(tree) && p in tree && c in tree[p].children
    ensures ChildPath(p, c) in tree && Below(ChildPath(p, c), p) && |p| < |ChildPath(p, c)|
  {
    assert ValidArea(tree, p);
    ParentOfChild(p, c);
    var q := ChildPath(p, c);
    assert Chain(q) == [q] + Chain(p) && Chain(p)[0] == p;
  }

  ghost function Longer(tree: Tree, p: string): set<string> {
    set q | q in tree && |q| > |p|
  }

  lemma LongerShrinks(tree: Tree, p: string, q: string)
    requires q in tree && |p| < |q|
    ensures |Longer(tree, q)| < |Longer(tree, p)|
  {
    SubsetSize(Longer(tree, q) + {q}, Longer(tree, p));
  }

  lemma {:induction false} SubsetSize<T>(a: set<T>, b: set<T>)
    requires a <= b
    ensures |a| <= |b|
  {
    if a != {} {
      var x :| x in a;
      SubsetSize(a - {x}, b - {x});
    }
  }

  /** find_all_content_paths below one directory. */
  method WalkContentPaths(tree: Tree, p: string) returns (paths: seq<string>)
    requires ValidTree(tree) && Rooted(tree) && p in tree
    ensures forall q :: q in paths <==> Below(q, p) && HasEntries(tree, q)
    decreases |Longer(tree, p)|
  {
    paths := [];
    var children := tree[p].children;
    var i := 0;
    while i < |children|
      invariant i <= |children|
      invariant forall q :: q in paths <==> BelowSome(tree, p, children[..i], q) && HasEntries(tree, q)
    {
      var child := ChildPath(p, children[i]);
      ChildIsBelow(tree, p, children[i]);
      LongerShrinks(tree, p, child);
      var inner := WalkContentPaths(tree, child);
      ghost var before := paths;
      paths := paths + inner;
      if tree[child].files != [] || tree[child].children != [] {
        paths := paths + [child];
      }
      BelowSomeGrows(tree, p, children, i);
      i := i + 1;
    }
    assert children[..i] == children;
    forall q | q in tree ensures BelowSome(tree, p, children, q) <==> Below(q, p) {
      if Below(q, p) {
        BelowGoesThroughAChild(tree, p, q);
      }
      if BelowSome(tree, p, children, q) {
        BelowChildIsBelow(tree, p, q);
      }
    }
  }

  lemma BelowSomeGrows(tree: Tree, p: string, children: seq<string>, i: nat)
    requires p in tree && i < |children| && p in Chain(ChildPath(p, children[i]))
    ensures forall q :: BelowSome(tree, p, children[..i + 1], q) <==>
      BelowSome(tree, p, children[..i], q) || q == ChildPath(p, children[i]) || Below(q, ChildPath(p, children[i]))
  {
    hide Chain, ChildPath, Below;
    assert children[..i + 1] == children[..i] + [children[i]];
    forall q | BelowSome(tree, p, children[..i], q) || q == ChildPath(p, children[i]) || Below(q, ChildPath(p, children[i]))
      ensures BelowSome(tree, p, children[..i + 1], q)
    {
      if BelowSome(tree, p, children[..i], q) {
        var c :| c in children[..i] && p in Chain(ChildPath(p, c)) && (q == ChildPath(p, c) || Below(q, ChildPath(p, c)));
        assert c in children[..i + 1];
      } else {
        assert children[i] in children[..i + 1];
      }
    }
  }

  lemma BelowChildIsBelow(tree: Tree, p: string, q: string)
    requires ValidTree(tree) && p in tree && BelowSome(tree, p, tree[p].children, q)
    ensures Below(q, p)
  {
    var c :| c in tree[p].children && p in Chain(ChildPath(p, c)) && (q == ChildPath(p, c) || Below(q, ChildPath(p, c)));
    var child := ChildPath(p, c);
    ChildIsBelow(tree, p, c);
    ChainOfChain(p, q, child);
    ChainAvoidsDeeper(q, child);
    ChainAvoidsDeeper(child, p);
  }

  method FindAllContentPaths(tree: Tree) returns (paths: seq<string>)
    requires ValidTree(tree) && Rooted(tree)
    ensures forall q :: q in paths <==> q != "" && HasEntries(tree, q)
  {
    if "" !in tree {
      paths := [];
      forall q ensures q !in tree {
        RootIsListed(tree, q);
      }
      return;
    }
    paths := WalkContentPaths(tree, "");
    forall q ensures Below(q, "") <==> q != "" {
      assert Chain(q)[|Chain(q)| - 1] == "";
    }
  }

  lemma {:induction false} RootIsListed(tree: Tree, q: string)
    requires Rooted(tree)
    ensures q in tree ==> "" in tree
    decreases |q|
  {
    if q in tree && q != "" {
      assert Listed(tree, q);
      RootIsListed(tree, ParentPath(q));
    }
  }
}
