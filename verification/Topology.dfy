/** Path topology of regeneration: parents, leaf-to-root chains, depth-ordered waves and the
    queue's choice between a bounded walk-up and a wave batch. */
module Topology {
  import opened Basics

  // ---------- knowledge paths: "" is the root, segments are joined by '/' ----------

  function LastSlash(p: string): (i: int)
    ensures -1 <= i < |p|
    ensures i >= 0 ==> p[i] == '/'
    ensures forall j :: i < j < |p| ==> p[j] != '/'
  {
    if p == "" then -1
    else if p[|p| - 1] == '/' then |p| - 1
    else LastSlash(p[..|p| - 1])
  }

  function ParentPath(p: string): (r: string)
    ensures p != "" ==> |r| < |p|
  {
    if LastSlash(p) >= 0 then p[..LastSlash(p)] else ""
  }

  function SlashCount(p: string): nat {
    if p == "" then 0 else (if p[|p| - 1] == '/' then 1 else 0) + SlashCount(p[..|p| - 1])
  }

  /** Number of '/'-separated parts; the root has none. */
  function Depth(p: string): nat {
    if p == "" then 0 else 1 + SlashCount(p)
  }

  /** The path of a child directory, as the tree walkers build it. */
  function ChildPath(parent: string, name: string): string {
    if parent == "" then name else parent + "/" + name
  }

  predicate ValidName(name: string) {
    name != "" && '/' !in name
  }

  lemma {:induction false} PrefixSlashes(p: string, i: nat)
    requires i < |p| && p[i] == '/'
    ensures SlashCount(p[..i]) < SlashCount(p)
  {
    var q := p[..|p| - 1];
    if i < |p| - 1 {
      PrefixSlashes(q, i);
      assert q[..i] == p[..i];
    }
  }

  lemma ParentShallower(p: string)
    requires p != ""
    ensures Depth(ParentPath(p)) < Depth(p)
  {
    if LastSlash(p) >= 0 {
      PrefixSlashes(p, LastSlash(p));
    }
  }

  lemma {:induction false} LastSlashOfChild(parent: string, name: string)
    requires ValidName(name)
    ensures LastSlash(parent + "/" + name) == |parent|
  {
    var p := parent + "/" + name;
    assert p[|parent|] == '/';
    assert forall j :: |parent| < j < |p| ==> p[j] == name[j - |parent| - 1];
  }

  /** Going down one directory and back up returns to the start. */
  lemma ParentOfChild(parent: string, name: string)
    requires ValidName(name)
    ensures ParentPath(ChildPath(parent, name)) == parent
    ensures ChildPath(parent, name) != ""
    ensures Depth(parent) < Depth(ChildPath(parent, name))
  {
    if parent == "" {
      assert LastSlash(name) == -1;
    } else {
      LastSlashOfChild(parent, name);
      assert ChildPath(parent, name)[..|parent|] == parent;
    }
    ParentShallower(ChildPath(parent, name));
  }

  /** The last segment of a path. */
  function FileName(path: string): string {
    path[LastSlash(path) + 1..]
  }

  /** The child of a directory has its own name last. */
  lemma NameOfChild(parent: string, name: string)
    requires ValidName(name)
    ensures FileName(ChildPath(parent, name)) == name
  {
    if parent == "" {
      assert LastSlash(name) == -1;
    } else {
      LastSlashOfChild(parent, name);
      assert (parent + "/" + name)[|parent| + 1..] == name;
    }
  }

  // ---------- chains ----------

  /** All folders from p up to and including the root. */
  function Chain(p: string): (c: seq<string>)
    ensures |c| > 0 && c[0] == p && c[|c| - 1] == ""
    decreases |p|
  {
    if p == "" then [""] else [p] + Chain(ParentPath(p))
  }

  /** The ancestor closure: every path of the input together with all its ancestors. */
  ghost predicate InClosure(paths: seq<string>, q: string) {
    exists p :: p in paths && q in Chain(p)
  }

  lemma {:induction false} ChainStep(p: string, i: nat)
    requires i + 1 < |Chain(p)|
    ensures Chain(p)[i] != "" && Chain(p)[i + 1] == ParentPath(Chain(p)[i])
    ensures Depth(Chain(p)[i + 1]) < Depth(Chain(p)[i])
    decreases |p|
  {
    if i > 0 {
      ChainStep(ParentPath(p), i - 1);
    }
    ParentShallower(Chain(p)[i]);
  }

  lemma {:induction false} ChainDepths(p: string, i: nat, j: nat)
    requires i < j < |Chain(p)|
    ensures Depth(Chain(p)[j]) < Depth(Chain(p)[i])
    decreases j
  {
    ChainStep(p, j - 1);
    if i < j - 1 {
      ChainDepths(p, i, j - 1);
    }
  }

  lemma {:induction false} ChainAvoidsDeeper(p: string, q: string)
    requires q in Chain(p)
    ensures q == p || Depth(q) < Depth(p)
  {
    var i :| 0 <= i < |Chain(p)| && Chain(p)[i] == q;
    if i > 0 {
      ChainDepths(p, 0, i);
    }
  }

  lemma {:induction false} ChainHasParents(p: string, q: string)
    requires q in Chain(p) && q != ""
    ensures ParentPath(q) in Chain(p)
    decreases |p|
  {
    if q == p {
      assert Chain(p) == [p] + Chain(ParentPath(p));
    } else {
      ChainHasParents(ParentPath(p), q);
    }
  }

  lemma ClosureHasParents(paths: seq<string>, q: string)
    requires InClosure(paths, q) && q != ""
    ensures InClosure(paths, ParentPath(q))
  {
    var p :| p in paths && q in Chain(p);
    ChainHasParents(p, q);
  }

  function BoundedChain(p: string, maxDepth: nat): seq<string> {
    Chain(p)[..if maxDepth < |Chain(p)| then maxDepth else |Chain(p)|]
  }

  method WalkUpChain(path: string, maxDepth: nat) returns (chain: seq<string>)
    ensures chain == BoundedChain(path, maxDepth)
  {
    var current := path;
    chain := [];
    var step := 0;
    while step < maxDepth
      invariant step <= maxDepth && |chain| == step < |Chain(path)|
      invariant chain == Chain(path)[..step] && current == Chain(path)[step]
    {
      chain := chain + [current];
      step := step + 1;
      if current == "" {
        if step < |Chain(path)| {
          ChainStep(path, step - 1);
        }
        break;
      }
      if step == |Chain(path)| {
        assert false;
      }
      ChainStep(path, step - 1);
      current := ParentPath(current);
    }
  }

  // ---------- waves ----------

  ghost predicate InWaves(waves: seq<seq<string>>, q: string) {
    exists i :: 0 <= i < |waves| && q in waves[i]
  }

  ghost predicate OneDepth(wave: seq<string>) {
    wave != [] && forall q :: q in wave ==> Depth(q) == Depth(wave[0])
  }

  ghost predicate Layered(waves: seq<seq<string>>) {
    && (forall i :: 0 <= i < |waves| ==> OneDepth(waves[i]) && Distinct(waves[i]))
    && (forall i, j :: 0 <= i < j < |waves| ==> Depth(waves[j][0]) < Depth(waves[i][0]))
  }

  /** What compute_waves promises: the ancestor closure, one depth per wave, deepest first,
      each wave in alphabetical order without repetition. */
  ghost predicate WavePlan(paths: seq<string>, waves: seq<seq<string>>) {
    && (forall q :: InWaves(waves, q) <==> InClosure(paths, q))
    && Layered(waves)
    && (forall i :: 0 <= i < |waves| ==> Sorted(waves[i], StrLe))
  }

  method SortedSet<T(==, !new)>(s: set<T>, le: (T, T) -> bool) returns (r: seq<T>)
    requires LinearOrder(le)
    ensures Sorted(r, le) && Distinct(r)
    ensures forall x :: x in r <==> x in s
  {
    var rest := s;
    r := [];
    while rest != {}
      invariant rest <= s && Sorted(r, le) && Distinct(r)
      invariant forall x :: x in r <==> x in s - rest
      decreases |rest|
    {
      var x :| x in rest;
      InsertSorted(x, r, le);
      InsertMembers(x, r, le);
      r := Insert(x, r, le);
      rest := rest - {x};
    }
  }

  lemma {:induction false} InsertMembers<T>(x: T, s: seq<T>, le: (T, T) -> bool)
    requires Distinct(s) && x !in s
    ensures Distinct(Insert(x, s, le))
    ensures forall y :: y in Insert(x, s, le) <==> y == x || y in s
  {
    if s != [] && !le(x, s[0]) {
      var rest := s[1..];
      assert s == [s[0]] + rest;
      assert s[0] !in rest;
      InsertMembers(x, rest, le);
      DistinctCons(s[0], Insert(x, rest, le));
    } else {
      DistinctCons(x, s);
    }
  }

  lemma DistinctCons<T>(x: T, s: seq<T>)
    requires Distinct(s) && x !in s
    ensures Distinct([x] + s)
  {
  }

  /** by_depth of compute_waves: the folders seen so far, grouped by depth. */
  ghost predicate Grouped(byDepth: map<nat, set<string>>, seen: iset<string>) {
    && (forall d :: d in byDepth ==> byDepth[d] != {} && forall q :: q in byDepth[d] ==> Depth(q) == d && q in seen)
    && (forall q :: q in seen ==> Depth(q) in byDepth && q in byDepth[Depth(q)])
  }

  method ComputeWaves(paths: seq<string>) returns (waves: seq<seq<string>>)
    ensures WavePlan(paths, waves)
  {
    var byDepth := GroupByDepth(paths);
    waves := WavesFrom(byDepth, iset q | InClosure(paths, q));
  }

  method GroupByDepth(paths: seq<string>) returns (byDepth: map<nat, set<string>>)
    ensures Grouped(byDepth, iset q | InClosure(paths, q))
  {
    byDepth := map[];
    ghost var seen: iset<string> := iset{};
    var i := 0;
    while i < |paths|
      invariant i <= |paths| && Grouped(byDepth, seen)
      invariant forall q :: q in seen <==> InClosure(paths[..i], q)
    {
      byDepth := AddChain(byDepth, paths[i], seen);
      seen := seen + Ancestry(paths[i]);
      ClosureGrows(paths, i);
      i := i + 1;
    }
    assert paths[..i] == paths;
    assert seen == iset q | InClosure(paths, q);
  }

  lemma ClosureGrows(paths: seq<string>, i: nat)
    requires i < |paths|
    ensures forall q :: InClosure(paths[..i + 1], q) <==> InClosure(paths[..i], q) || q in Chain(paths[i])
  {
    assert paths[..i + 1] == paths[..i] + [paths[i]];
    forall q ensures InClosure(paths[..i + 1], q) <==> InClosure(paths[..i], q) || q in Chain(paths[i]) {
      if q in Chain(paths[i]) {
        assert paths[i] in paths[..i + 1];
      }
    }
  }

  method WavesFrom(byDepth: map<nat, set<string>>, ghost seen: iset<string>) returns (waves: seq<seq<string>>)
    requires Grouped(byDepth, seen)
    ensures Layered(waves)
    ensures forall i :: 0 <= i < |waves| ==> Sorted(waves[i], StrLe)
    ensures forall q :: InWaves(waves, q) <==> q in seen
  {
    hide Grouped, SameWave, InWaves, Layered;
    var deeper := (a: nat, b: nat) => a >= b;
    var depths := SortedSet(byDepth.Keys, deeper);
    StrLeIsLinear();
    waves := [];
    var k := 0;
    while k < |depths|
      invariant k <= |depths| && |waves| == k
      invariant forall w :: 0 <= w < k ==> SameWave(waves[w], depths[w], byDepth)
    {
      var wave := SortedSet(byDepth[depths[k]], StrLe);
      IsSameWave(byDepth, seen, depths[k], wave);
      waves := waves + [wave];
      k := k + 1;
    }
    WavesHold(byDepth, seen, depths, waves);
    LayeredBy(waves, depths, byDepth);
  }

  lemma IsSameWave(byDepth: map<nat, set<string>>, seen: iset<string>, depth: nat, wave: seq<string>)
    requires Grouped(byDepth, seen) && depth in byDepth && Sorted(wave, StrLe) && Distinct(wave)
    requires forall q :: q in wave <==> q in byDepth[depth]
    ensures SameWave(wave, depth, byDepth)
  {
    var some :| some in byDepth[depth];
    assert some in wave;
  }

  lemma WavesHold(byDepth: map<nat, set<string>>, seen: iset<string>, depths: seq<nat>, waves: seq<seq<string>>)
    requires Grouped(byDepth, seen) && |waves| == |depths| && forall d :: d in depths <==> d in byDepth
    requires forall w :: 0 <= w < |waves| ==> SameWave(waves[w], depths[w], byDepth)
    ensures forall q :: InWaves(waves, q) <==> q in seen
    ensures forall i :: 0 <= i < |waves| ==> Sorted(waves[i], StrLe)
  {
    forall q ensures InWaves(waves, q) <==> q in seen {
      if q in seen {
        assert Depth(q) in depths;
        var w :| 0 <= w < |depths| && depths[w] == Depth(q);
        assert SameWave(waves[w], depths[w], byDepth);
      }
    }
  }

  lemma LayeredBy(waves: seq<seq<string>>, depths: seq<nat>, byDepth: map<nat, set<string>>)
    requires |waves| == |depths| && Distinct(depths) && Sorted(depths, (a: nat, b: nat) => a >= b)
    requires forall w :: 0 <= w < |waves| ==> SameWave(waves[w], depths[w], byDepth)
    ensures Layered(waves)
  {
    forall a, b | 0 <= a < b < |waves| ensures Depth(waves[b][0]) < Depth(waves[a][0]) {
      assert SameWave(waves[a], depths[a], byDepth) && SameWave(waves[b], depths[b], byDepth);
      assert ((a: nat, b: nat) => a >= b)(depths[a], depths[b]) && depths[a] != depths[b];
    }
  }

  ghost predicate SameWave(wave: seq<string>, depth: nat, byDepth: map<nat, set<string>>) {
    && OneDepth(wave) && Sorted(wave, StrLe) && Distinct(wave)
    && Depth(wave[0]) == depth && depth in byDepth
    && forall q :: q in wave <==> q in byDepth[depth]
  }

  ghost function Ancestry(p: string): iset<string> {
    iset q | q in Chain(p)
  }

  lemma AncestryStep(p: string)
    ensures p == "" ==> Ancestry(p) == iset{p}
    ensures p != "" ==> Ancestry(p) == iset{p} + Ancestry(ParentPath(p))
  {
    if p != "" {
      assert Chain(p) == [p] + Chain(ParentPath(p));
    } else {
      assert Chain(p) == [""];
    }
  }

  lemma GroupedAdd(byDepth: map<nat, set<string>>, seen: iset<string>, q: string)
    requires Grouped(byDepth, seen)
    ensures Grouped(
      byDepth[Depth(q) := (if Depth(q) in byDepth then byDepth[Depth(q)] else {}) + {q}], seen + iset{q})
  {
  }

  method AddChain(before: map<nat, set<string>>, path: string, ghost seen: iset<string>)
    returns (byDepth: map<nat, set<string>>)
    requires Grouped(before, seen)
    ensures Grouped(byDepth, seen + Ancestry(path))
  {
    byDepth := before;
    var current := path;
    ghost var visited := seen;
    while true
      invariant Grouped(byDepth, visited)
      invariant visited + Ancestry(current) == seen + Ancestry(path)
      decreases |current|
    {
      var depth := Depth(current);
      GroupedAdd(byDepth, visited, current);
      AncestryStep(current);
      byDepth := byDepth[depth := (if depth in byDepth then byDepth[depth] else {}) + {current}];
      visited := visited + iset{current};
      if current == "" {
        break;
      }
      current := ParentPath(current);
    }
    assert visited == seen + Ancestry(path);
  }

  // ---------- the flattened processing order ----------

  function Flatten(waves: seq<seq<string>>): seq<string> {
    if waves == [] then [] else waves[0] + Flatten(waves[1..])
  }

  /** The order a batch visits folders in: children strictly before parents, each folder once. */
  ghost predicate Schedule(order: seq<string>) {
    && Distinct(order)
    && (forall i, j :: 0 <= i < j < |order| ==> Depth(order[j]) <= Depth(order[i]))
    && (forall q :: q in order && q != "" ==> ParentPath(q) in order)
  }

  lemma {:induction false} FlattenMembers(waves: seq<seq<string>>)
    ensures forall q :: q in Flatten(waves) <==> InWaves(waves, q)
  {
    if waves != [] {
      FlattenMembers(waves[1..]);
      forall q ensures q in Flatten(waves) <==> InWaves(waves, q) {
        if InWaves(waves, q) {
          var i :| 0 <= i < |waves| && q in waves[i];
          if i > 0 {
            assert waves[1..][i - 1] == waves[i];
          }
        }
        if InWaves(waves[1..], q) {
          var i :| 0 <= i < |waves[1..]| && q in waves[1..][i];
          assert q in waves[i + 1];
        }
      }
    }
  }

  lemma {:induction false} FlattenLayered(waves: seq<seq<string>>)
    requires Layered(waves)
    ensures Distinct(Flatten(waves))
    ensures forall i, j :: 0 <= i < j < |Flatten(waves)| ==> Depth(Flatten(waves)[j]) <= Depth(Flatten(waves)[i])
  {
    if waves != [] {
      var rest := waves[1..];
      forall i | 0 <= i < |rest| ensures OneDepth(rest[i]) && Distinct(rest[i]) {
        assert rest[i] == waves[i + 1];
      }
      FlattenLayered(rest);
      FlattenMembers(rest);
      forall q | q in Flatten(rest) ensures Depth(q) < Depth(waves[0][0]) {
        var i :| 0 <= i < |rest| && q in rest[i];
        assert rest[i] == waves[i + 1];
      }
      var flat := Flatten(waves);
      assert forall i :: 0 <= i < |waves[0]| ==> flat[i] == waves[0][i] && flat[i] in waves[0];
      assert forall i :: |waves[0]| <= i < |flat| ==>
        flat[i] == Flatten(rest)[i - |waves[0]|] && flat[i] in Flatten(rest);
    }
  }

  /** Every wave plan is a schedule over exactly the ancestor closure of its inputs. */
  lemma WavePlanIsSchedule(paths: seq<string>, waves: seq<seq<string>>)
    requires WavePlan(paths, waves)
    ensures Schedule(Flatten(waves))
    ensures forall q :: q in Flatten(waves) <==> InClosure(paths, q)
  {
    FlattenLayered(waves);
    FlattenMembers(waves);
    forall q | q in Flatten(waves) && q != "" ensures ParentPath(q) in Flatten(waves) {
      ClosureHasParents(paths, q);
    }
  }

  /** Each folder's parent is in a strictly later wave. */
  lemma ParentInLaterWave(paths: seq<string>, waves: seq<seq<string>>, i: nat, q: string)
    requires WavePlan(paths, waves) && i < |waves| && q in waves[i] && q != ""
    ensures exists j :: i < j < |waves| && ParentPath(q) in waves[j]
  {
    assert InWaves(waves, q);
    ClosureHasParents(paths, q);
    assert InWaves(waves, ParentPath(q));
    var j :| 0 <= j < |waves| && ParentPath(q) in waves[j];
    ParentShallower(q);
  }

  /** The wave plan of a set of inputs is unique, so the order of processing is reproducible. */
  lemma {:induction false} WavePlanUnique(paths: seq<string>, a: seq<seq<string>>, b: seq<seq<string>>, k: nat)
    requires WavePlan(paths, a) && WavePlan(paths, b)
    requires k <= |a| && k <= |b| && a[..k] == b[..k]
    ensures a == b
    decreases |a| - k
  {
    if k < |a| {
      WaveAtDepth(paths, a, b, k);
      assert a[..k + 1] == a[..k] + [a[k]] && b[..k + 1] == b[..k] + [b[k]];
      WavePlanUnique(paths, a, b, k + 1);
    } else if k < |b| {
      var q := b[k][0];
      assert InWaves(b, q) && InWaves(a, q);
      var i :| 0 <= i < |a| && q in a[i];
      WaveIndex(paths, b, i, k, q, a);
    }
  }

  /** A path of wave k is in no earlier wave, nor in an equal wave of another plan. */
  lemma WaveIndex(paths: seq<string>, b: seq<seq<string>>, i: nat, k: nat, q: string, a: seq<seq<string>>)
    requires WavePlan(paths, b) && i < k < |b| && k <= |a|
    requires a[..k] == b[..k]
    requires q in b[k]
    ensures q !in a[i]
  {
    assert a[i] == a[..k][i] && b[i] == b[..k][i];
    assert Depth(b[k][0]) < Depth(b[i][0]);
  }

  lemma WaveAtDepth(paths: seq<string>, a: seq<seq<string>>, b: seq<seq<string>>, k: nat)
    requires WavePlan(paths, a) && WavePlan(paths, b)
    requires k < |a| && k <= |b| && a[..k] == b[..k]
    ensures k < |b| && a[k] == b[k]
  {
    WavesAgreeUpTo(paths, a, b, k);
    assert k < |b|;
    WavesAgreeUpTo(paths, b, a, k);
    assert Depth(a[k][0]) == Depth(b[k][0]);
    forall q ensures q in a[k] <==> q in b[k] {
      if q in a[k] {
        SameDepthSameWave(paths, a, b, k, q);
      }
      if q in b[k] {
        SameDepthSameWave(paths, b, a, k, q);
      }
    }
    StrLeIsLinear();
    DistinctMultiset(a[k], b[k]);
    SortedUnique(a[k], b[k], StrLe);
  }

  lemma WavesAgreeUpTo(paths: seq<string>, a: seq<seq<string>>, b: seq<seq<string>>, k: nat)
    requires WavePlan(paths, a) && WavePlan(paths, b)
    requires k < |a| && k <= |b| && a[..k] == b[..k]
    ensures k < |b| && Depth(a[k][0]) <= Depth(b[k][0])
  {
    var q := a[k][0];
    assert InWaves(a, q) && InWaves(b, q);
    var j :| 0 <= j < |b| && q in b[j];
    if j < k {
      WaveIndex(paths, a, j, k, q, b);
    }
  }

  lemma SameDepthSameWave(paths: seq<string>, a: seq<seq<string>>, b: seq<seq<string>>, k: nat, q: string)
    requires WavePlan(paths, a) && WavePlan(paths, b)
    requires k < |a| && k < |b| && Depth(a[k][0]) == Depth(b[k][0])
    requires q in a[k]
    ensures q in b[k]
  {
    assert InWaves(a, q) && InWaves(b, q);
    var j :| 0 <= j < |b| && q in b[j];
  }

  function Singletons(s: seq<string>): (r: seq<seq<string>>)
    ensures |r| == |s| && forall i :: 0 <= i < |s| ==> r[i] == [s[i]]
  {
    if s == [] then [] else [[s[0]]] + Singletons(s[1..])
  }

  lemma {:induction false} FlattenSingletons(s: seq<string>)
    ensures Flatten(Singletons(s)) == s
  {
    if s != [] {
      FlattenSingletons(s[1..]);
      assert Singletons(s)[1..] == Singletons(s[1..]);
    }
  }

  lemma SingletonMembers(s: seq<string>, q: string)
    ensures InWaves(Singletons(s), q) <==> q in s
  {
    if q in s {
      var i :| 0 <= i < |s| && s[i] == q;
      assert q in Singletons(s)[i];
    }
  }

  lemma SeedClosure(p: string, q: string)
    ensures InClosure([p], q) <==> q in Chain(p)
  {
    assert p in [p];
  }

  lemma ChainIsLayered(p: string)
    ensures Layered(Singletons(Chain(p)))
  {
    hide Chain, Singletons, Depth;
    var single := Singletons(Chain(p));
    forall i, j | 0 <= i < j < |single| ensures Depth(single[j][0]) < Depth(single[i][0]) {
      ChainDepths(p, i, j);
    }
  }

  lemma ChainIsWavePlan(p: string)
    ensures WavePlan([p], Singletons(Chain(p)))
  {
    hide Chain, Singletons, InWaves, InClosure, Layered;
    forall q ensures InWaves(Singletons(Chain(p)), q) <==> InClosure([p], q) {
      SingletonMembers(Chain(p), q);
      SeedClosure(p, q);
    }
    ChainIsLayered(p);
  }

  /** For one seed the wave order is exactly the leaf-to-root chain. */
  lemma OneSeedWavesAreTheChain(p: string, waves: seq<seq<string>>)
    requires WavePlan([p], waves)
    ensures Flatten(waves) == Chain(p)
  {
    ChainIsWavePlan(p);
    WavePlanUnique([p], waves, Singletons(Chain(p)), 0);
    FlattenSingletons(Chain(p));
  }

  // ---------- propagation table ----------

  datatype Action =
    | Regenerated | SkippedNoContent | CleanedUp | SkippedRename
    | SkippedUnchanged | SkippedSimilarity | SkippedBackfill | FailedWork

  datatype DirtyReason = ChildSummaryChanged | ChildInputRemoved | ParentStructureChanged

  datatype PropagationRule = PropagationRule(
    parentInputChanged: bool, propagateUpward: bool, dirtyReason: Option<DirtyReason>)

  function RuleFor(action: Action): PropagationRule {
    match action
    case Regenerated => PropagationRule(true, true, Some(ChildSummaryChanged))
    case SkippedNoContent => PropagationRule(true, true, Some(ChildInputRemoved))
    case CleanedUp => PropagationRule(true, true, Some(ChildInputRemoved))
    case SkippedRename => PropagationRule(false, false, None)
    case SkippedUnchanged => PropagationRule(false, false, None)
    case SkippedSimilarity => PropagationRule(false, false, None)
    case SkippedBackfill => PropagationRule(false, false, None)
    case FailedWork => PropagationRule(false, false, None)
  }

  predicate PropagatesUp(action: Action) {
    RuleFor(action).propagateUpward
  }

  // ---------- the queue's strategy ----------

  datatype Strategy = SinglePathWalkUp | WaveBatch

  datatype BatchDecision = BatchDecision(
    strategy: Strategy, readyPaths: seq<string>, scheduledPaths: seq<string>, waves: seq<seq<string>>)

  const WALK_UP_LIMIT: nat := 10

  /** One ready seed keeps the bounded walk-up; anything else becomes a wave batch over the closure. */
  method DecideQueueBatch(ready: seq<string>) returns (d: BatchDecision)
    ensures d.readyPaths == Unique(ready)
    ensures d.strategy == SinglePathWalkUp <==> |Unique(ready)| == 1
    ensures d.strategy == SinglePathWalkUp ==>
      d.waves == [] && d.scheduledPaths == BoundedChain(d.readyPaths[0], WALK_UP_LIMIT)
    ensures d.strategy == WaveBatch ==>
      WavePlan(d.readyPaths, d.waves) && d.scheduledPaths == Flatten(d.waves)
  {
    var unique := Unique(ready);
    if |unique| == 1 {
      var chain := WalkUpChain(unique[0], WALK_UP_LIMIT);
      d := BatchDecision(SinglePathWalkUp, unique, chain, []);
    } else {
      var waves := ComputeWaves(unique);
      d := BatchDecision(WaveBatch, unique, Flatten(waves), waves);
    }
  }
}
