/** The startup scan of the knowledge tree: which areas to drop, to classify, and to enqueue. */
module TreeScan {
  import opened Basics
  import opened Topology
  import opened RegenEngine
  import opened RegenRuns

  /** existing.startswith(path + "/") */
  predicate Under(existing: string, path: string) {
    path + "/" <= existing
  }

  predicate DeepestFirst(a: string, b: string) {
    SlashCount(a) > SlashCount(b) || (SlashCount(a) == SlashCount(b) && StrLe(a, b))
  }

  lemma DeepestFirstIsLinear()
    ensures LinearOrder(DeepestFirst)
  {
    forall a, b ensures DeepestFirst(a, b) || DeepestFirst(b, a) { StrLeTotal(a, b); }
    forall a, b | DeepestFirst(a, b) && DeepestFirst(b, a) ensures a == b { StrLeAntisymmetric(a, b); }
    forall a, b, c | DeepestFirst(a, b) && DeepestFirst(b, c) ensures DeepestFirst(a, c) {
      if SlashCount(a) == SlashCount(b) == SlashCount(c) {
        StrLeTransitive(a, b, c);
      }
    }
  }

  lemma {:induction false} SlashesOfPrefix(p: string, i: nat)
    requires i <= |p|
    ensures SlashCount(p[..i]) <= SlashCount(p)
    decreases |p|
  {
    if i == |p| {
      assert p[..i] == p;
    } else {
      assert p[..|p| - 1][..i] == p[..i];
      SlashesOfPrefix(p[..|p| - 1], i);
    }
  }

  lemma UnderIsDeeper(e: string, p: string)
    requires Under(e, p)
    ensures SlashCount(e) > SlashCount(p) && e != p
  {
    assert e[..|p| + 1] == p + "/";
    assert (p + "/")[..|p|] == p;
    SlashesOfPrefix(e, |p| + 1);
  }

  lemma UnderTransitive(a: string, b: string, c: string)
    requires Under(a, b) && Under(b, c)
    ensures Under(a, c)
  {
    assert b <= a;
  }

  /** A proper descendant's chain to the root passes through p. */
  lemma {:induction false} UnderInChain(e: string, p: string)
    requires Under(e, p)
    ensures p in Chain(e)
    decreases |e|
  {
    assert e[|p|] == '/';
    var parent := ParentPath(e);
    assert Chain(e) == [e] + Chain(parent);
    if LastSlash(e) == |p| {
      assert parent == p;
      assert p == Chain(p)[0];
    } else {
      assert p + "/" <= parent;
      UnderInChain(parent, p);
    }
  }

  /** x has no proper descendant in the set. */
  ghost predicate Deepest(paths: set<string>, x: string) {
    x in paths && forall y :: y in paths ==> !Under(y, x)
  }

  ghost predicate CoveredBy(found: seq<string>, y: string) {
    exists e :: e in found && (e == y || Under(e, y))
  }

  predicate Covers(existing: string, path: string) {
    existing == path || Under(existing, path)
  }

  method AnyCovers(found: seq<string>, path: string) returns (covered: bool)
    ensures covered <==> exists e :: e in found && Covers(e, path)
  {
    var i := 0;
    covered := false;
    while i < |found|
      invariant i <= |found| && !covered
      invariant forall k :: 0 <= k < i ==> !Covers(found[k], path)
    {
      if Covers(found[i], path) {
        return true;
      }
      i := i + 1;
    }
  }

  /** Exactly the paths of the set without a proper descendant in it, each once, and they cover it. */
  method DeepestUntrackedPaths(paths: set<string>) returns (deepest: seq<string>)
    ensures forall x :: x in deepest <==> Deepest(paths, x)
    ensures Distinct(deepest) && Sorted(deepest, DeepestFirst)
    ensures forall y :: y in paths ==> CoveredBy(deepest, y)
  {
    DeepestFirstIsLinear();
    var order := SortedSet(paths, DeepestFirst);
    deepest := [];
    var i := 0;
    while i < |order|
      invariant i <= |order| && Progress(paths, order[..i], deepest)
    {
      var path := order[i];
      assert order[..i + 1] == order[..i] + [path];
      var covered := AnyCovers(deepest, path);
      ProgressStep(paths, order, i, deepest, covered);
      if !covered {
        deepest := deepest + [path];
      }
      i := i + 1;
    }
    assert order[..i] == order;
  }

  ghost predicate Progress(paths: set<string>, seen: seq<string>, deepest: seq<string>) {
    && (forall x :: x in deepest <==> x in seen && Deepest(paths, x))
    && Distinct(deepest) && Sorted(deepest, DeepestFirst)
    && (forall y :: y in seen ==> CoveredBy(deepest, y))
  }

  lemma ProgressStep(paths: set<string>, order: seq<string>, i: nat, deepest: seq<string>, covered: bool)
    requires i < |order| && Distinct(order) && Sorted(order, DeepestFirst)
    requires forall x :: x in order <==> x in paths
    requires Progress(paths, order[..i], deepest)
    requires covered <==> exists e :: e in deepest && Covers(e, order[i])
    ensures Progress(paths, order[..i + 1], if covered then deepest else deepest + [order[i]])
  {
    hide DeepestFirst, SlashCount;
    var path := order[i];
    assert order[..i + 1] == order[..i] + [path];
    assert path !in order[..i];
    if covered {
      var e :| e in deepest && Covers(e, path);
      assert Under(e, path) && e in paths;
      assert CoveredBy(deepest, path);
    } else {
      NotCoveredIsDeepest(paths, order, i, deepest);
      AddDeepest(paths, order, i, deepest);
    }
  }

  lemma AddDeepest(paths: set<string>, order: seq<string>, i: nat, deepest: seq<string>)
    requires i < |order| && Distinct(order) && Sorted(order, DeepestFirst)
    requires Progress(paths, order[..i], deepest) && Deepest(paths, order[i]) && order[i] !in order[..i]
    ensures Progress(paths, order[..i + 1], deepest + [order[i]])
  {
    hide DeepestFirst, SlashCount, Under, Deepest;
    var path := order[i];
    assert order[..i + 1] == order[..i] + [path];
    forall e | e in deepest ensures DeepestFirst(e, path) {
      var j :| 0 <= j < i && order[j] == e;
    }
    forall y | y in order[..i + 1] ensures CoveredBy(deepest + [path], y) {
      if y == path {
        assert path in deepest + [path];
      } else {
        var e :| e in deepest && (e == y || Under(e, y));
        assert e in deepest + [path];
      }
    }
  }

  lemma NotCoveredIsDeepest(paths: set<string>, order: seq<string>, i: nat, deepest: seq<string>)
    requires i < |order| && Distinct(order) && Sorted(order, DeepestFirst)
    requires forall x :: x in order <==> x in paths
    requires forall y :: y in order[..i] ==> CoveredBy(deepest, y)
    requires !exists e :: e in deepest && Covers(e, order[i])
    ensures Deepest(paths, order[i])
  {
    forall y | y in paths ensures !Under(y, order[i]) {
      if Under(y, order[i]) {
        UnderIsCovered(paths, order, i, deepest, y);
      }
    }
  }

  lemma UnderIsCovered(paths: set<string>, order: seq<string>, i: nat, deepest: seq<string>, y: string)
    requires i < |order| && Distinct(order) && Sorted(order, DeepestFirst)
    requires forall x :: x in order <==> x in paths
    requires forall z :: z in order[..i] ==> CoveredBy(deepest, z)
    requires y in paths && Under(y, order[i])
    ensures exists e :: e in deepest && Covers(e, order[i])
  {
    UnderIsDeeper(y, order[i]);
    var j :| 0 <= j < |order| && order[j] == y;
    assert j < i && y == order[..i][j];
    assert CoveredBy(deepest, y);
    var e :| e in deepest && (e == y || Under(e, y));
    if e != y {
      UnderTransitive(e, y, order[i]);
    }
    assert Covers(e, order[i]);
  }

  /** No two results are in an ancestor relation. */
  lemma DeepestIsAntichain(paths: set<string>, a: string, b: string)
    requires Deepest(paths, a) && Deepest(paths, b)
    ensures !Under(a, b) && !Under(b, a)
  {
  }

  // ---------- the scan ----------

  function NonRoot(paths: set<string>): set<string> {
    paths - {""}
  }

  ghost predicate HasChildIn(p: string, paths: set<string>) {
    exists o :: o in paths && ParentPath(o) == p
  }

  lemma NoChildren()
    ensures forall p :: !HasChildIn(p, {})
  {
  }

  lemma OneMoreChild(paths: set<string>, o: string)
    ensures forall p :: HasChildIn(p, paths + {o}) <==> HasChildIn(p, paths) || p == ParentPath(o)
  {
    forall p ensures HasChildIn(p, paths + {o}) <==> HasChildIn(p, paths) || p == ParentPath(o) {
      if HasChildIn(p, paths) {
        var c :| c in paths && ParentPath(c) == p;
        assert c in paths + {o};
      }
      if p == ParentPath(o) {
        assert o in paths + {o};
      }
    }
  }

  /** Areas to classify: tracked areas that still exist, the root, and tracked parents of orphans. */
  ghost predicate Candidate(onDisk: set<string>, tracked: set<string>, p: string) {
    p in tracked && (p == "" || p in onDisk || HasChildIn(p, NonRoot(tracked) - onDisk))
  }

  /** scan_knowledge_tree. onDisk are the content paths found on disk (never the root). */
  method ScanKnowledgeTree(engine: Engine, onDisk: set<string>, rootReadable: bool, tracked: set<string>)
    returns (orphans: seq<string>, candidates: seq<string>, enqueued: seq<string>)
    requires "" !in onDisk
    modifies engine, engine.locks
    ensures forall p :: p in orphans <==> p in NonRoot(tracked) - onDisk
    ensures engine.State() == Without(old(engine.State()), NonRoot(tracked) - onDisk)
    ensures forall p :: p in candidates <==> Candidate(onDisk, tracked, p)
    ensures forall p :: p in enqueued <==>
      Deepest(onDisk - NonRoot(tracked), p) || (p == "" && "" !in tracked && rootReadable)
    ensures forall y :: y in onDisk - NonRoot(tracked) ==> CoveredBy(enqueued, y)
  {
    var parents;
    orphans, parents := DropOrphans(engine, NonRoot(tracked) - onDisk, tracked);
    StrLeIsLinear();
    var existing := SortedSet(NonRoot(tracked) * onDisk, StrLe);
    candidates := parents + existing + if "" in tracked then [""] else [];
    var untracked := onDisk - NonRoot(tracked);
    enqueued := DeepestUntrackedPaths(untracked);
    if "" !in tracked && rootReadable {
      ghost var deepest := enqueued;
      enqueued := enqueued + [""];
      forall y | y in untracked ensures CoveredBy(enqueued, y) {
        var e :| e in deepest && (e == y || Under(e, y));
        assert e in enqueued;
      }
    }
  }

  /** The state of an area gone: hashes, summary and lock row; journals are preserved. */
  function Without(b: Brain, gone: set<string>): Brain {
    Brain(b.summaries - gone, b.metas - gone, b.journals, b.locks - gone)
  }

  lemma WithoutOneMore(b: Brain, gone: set<string>, p: string)
    ensures Without(b, {}) == b
    ensures Without(Without(b, gone), {p}) == Without(b, gone + {p})
  {
    RemoveTwice(b.summaries, gone, p);
    RemoveTwice(b.metas, gone, p);
    RemoveTwice(b.locks, gone, p);
    RemoveNothing(b.summaries);
    RemoveNothing(b.metas);
    RemoveNothing(b.locks);
  }

  lemma RemoveNothing<V>(m: map<string, V>)
    ensures m - {} == m
  {
  }

  method DropOne(engine: Engine, o: string)
    modifies engine, engine.locks
    ensures engine.State() == Without(old(engine.State()), {o})
  {
    engine.DeleteAreaState(o);
    engine.summaries := engine.summaries - {o};
  }

  method DropOrphans(engine: Engine, gone: set<string>, tracked: set<string>) returns (orphans: seq<string>, parents: seq<string>)
    modifies engine, engine.locks
    ensures forall p :: p in orphans <==> p in gone
    ensures forall p :: p in parents <==> p in tracked && HasChildIn(p, gone)
    ensures engine.State() == Without(old(engine.State()), gone)
  {
    hide Without, HasChildIn;
    NoChildren();
    orphans, parents := [], [];
    var rest := gone;
    ghost var done: set<string> := {};
    ghost var b := engine.State();
    WithoutOneMore(b, {}, "");
    while rest != {}
      invariant rest !! done && rest + done == gone
      invariant forall p :: p in orphans <==> p in done
      invariant forall p :: p in parents <==> p in tracked && HasChildIn(p, done)
      invariant engine.State() == Without(b, done)
      decreases |rest|
    {
      var o :| o in rest;
      rest := rest - {o};
      WithoutOneMore(b, done, o);
      OneMoreChild(done, o);
      DropOne(engine, o);
      orphans := orphans + [o];
      if ParentPath(o) in tracked {
        parents := parents + [ParentPath(o)];
      }
      done := done + {o};
    }
  }

  lemma RemoveTwice<V>(m: map<string, V>, gone: set<string>, p: string)
    ensures m - gone - {p} == m - (gone + {p})
  {
  }

  /** Enqueuing only the deepest untracked areas is enough: every untracked area on disk is in the
      ancestor closure the wave batch is planned over. */
  lemma UntrackedAreasAreScheduled(untracked: set<string>, enqueued: seq<string>, p: string)
    requires forall y :: y in untracked ==> CoveredBy(enqueued, y)
    requires p in untracked
    ensures InClosure(enqueued, p)
  {
    var e :| e in enqueued && (e == p || Under(e, p));
    if e != p {
      UnderInChain(e, p);
    }
    assert p in Chain(e);
  }
}
