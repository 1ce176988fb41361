/** The cached area index: building it, its staleness snapshot, and search. */
module AreaIndex {
  import opened Basics
  import opened Strings
  import opened Topology
  import opened KnowledgeTree
  import Evaluation

  type Tree = Evaluation.Tree
  type Sha = Evaluation.Sha

  const SUMMARY_INDEX_CHARS: nat := 2000
  const MAX_PREVIEW_CHARS: nat := 500
  const MAX_SEARCH_RESULTS: int := 10

  datatype Entry = Entry(
    path: string, parts: seq<string>, firstPara: string, body: string, headings: seq<string>,
    children: seq<string>, hasKnowledge: bool, hasSummary: bool)

  type Snapshot = seq<(string, seq<string>, Option<string>)>

  /** How text is read: lower-casing, the paragraph split and the sorted '##' headings are functions of
      the text and nothing else. */
  datatype Reader = Reader(lower: string -> string, firstPara: string -> string, headings: string -> seq<string>)

  function Cut(s: string, n: nat): string {
    if |s| > n then s[..n] else s
  }

  function Segments(path: string): seq<string>
    decreases |path|
  {
    var k := FirstSlash(path);
    if k == |path| then [path] else [path[..k]] + Segments(path[k + 1..])
  }

  function FirstSlash(path: string): (k: nat)
    ensures k <= |path|
  {
    if path == "" || path[0] == '/' then 0 else 1 + FirstSlash(path[1..])
  }

  // ---------- the walk both passes share ----------

  function Listing(tree: Tree, sorted: bool, p: string): seq<string>
    requires p in tree
  {
    if sorted then Sort(tree[p].children, StrLe) else tree[p].children
  }

  /** Depth first below p over some of its children; `_core` is skipped at every level. */
  ghost function Walk(tree: Tree, sorted: bool, p: string, children: seq<string>): seq<string>
    requires Evaluation.ValidTree(tree) && p in tree
    requires forall c :: c in children ==> c in tree[p].children
    decreases |Longer(tree, p)|, |children|
  {
    if children == [] then []
    else
      var rest := Walk(tree, sorted, p, children[1..]);
      if children[0] == "_core" then rest
      else
        var q := ChildPath(p, children[0]);
        ChildIsBelow(tree, p, children[0]);
        LongerShrinks(tree, p, q);
        SortMembers(tree[q].children, StrLe);
        [q] + Walk(tree, sorted, q, Listing(tree, sorted, q)) + rest
  }

  /** The areas the index covers, in build order or in snapshot order. */
  ghost function Areas(tree: Tree, sorted: bool): seq<string>
    requires Evaluation.ValidTree(tree)
  {
    if "" !in tree then []
    else
      SortMembers(tree[""].children, StrLe);
      Walk(tree, sorted, "", Listing(tree, sorted, ""))
  }

  function SummaryAt(summaries: map<string, string>, q: string): Option<string> {
    if q in summaries then Some(summaries[q]) else None
  }

  function ChildNames(tree: Tree, q: string): seq<string> {
    if q in tree then Sort(tree[q].children, StrLe) else []
  }

  function EntryFor(r: Reader, path: string, children: seq<string>, summary: Option<string>): Entry {
    var body := if summary.Some? then Cut(summary.value, SUMMARY_INDEX_CHARS) else "";
    if body == "" then Entry(path, Segments(path), "", "", [], children, true, summary.Some?)
    else Entry(path, Segments(path), Cut(r.firstPara(body), MAX_PREVIEW_CHARS), body, r.headings(body), children, true, true)
  }

  function EntryAt(r: Reader, tree: Tree, summaries: map<string, string>, q: string): Entry {
    EntryFor(r, q, ChildNames(tree, q), SummaryAt(summaries, q))
  }

  function Entries(r: Reader, tree: Tree, summaries: map<string, string>, areas: seq<string>): seq<Entry> {
    if areas == [] then [] else [EntryAt(r, tree, summaries, areas[0])] + Entries(r, tree, summaries, areas[1..])
  }

  function HashOf(sha: Sha, summary: Option<string>): Option<string> {
    if summary.Some? then Some(sha(summary.value).Hex()) else None
  }

  function SnapshotAt(sha: Sha, tree: Tree, summaries: map<string, string>, q: string): (string, seq<string>, Option<string>) {
    (q, ChildNames(tree, q), HashOf(sha, SummaryAt(summaries, q)))
  }

  function SnapshotOf(sha: Sha, tree: Tree, summaries: map<string, string>, areas: seq<string>): Snapshot {
    if areas == [] then []
    else [SnapshotAt(sha, tree, summaries, areas[0])] + SnapshotOf(sha, tree, summaries, areas[1..])
  }

  ghost function Built(r: Reader, tree: Tree, summaries: map<string, string>): seq<Entry>
    requires Evaluation.ValidTree(tree)
  {
    Entries(r, tree, summaries, Areas(tree, false))
  }

  ghost function Captured(sha: Sha, tree: Tree, summaries: map<string, string>): Snapshot
    requires Evaluation.ValidTree(tree)
  {
    SnapshotOf(sha, tree, summaries, Areas(tree, true))
  }

  // ---------- search ----------

  function CountHits(r: Reader, query: string, texts: seq<string>): nat {
    if texts == [] then 0 else (if Contains(r.lower(texts[0]), query) then 1 else 0) + CountHits(r, query, texts[1..])
  }

  /** Path segments weigh 3, the summary body 2, headings 1. */
  function Score(r: Reader, query: string, e: Entry): nat {
    3 * CountHits(r, query, e.parts) + (if Contains(r.lower(e.body), query) then 2 else 0) + CountHits(r, query, e.headings)
  }

  type Hit = (nat, Entry)

  function Scored(r: Reader, query: string, entries: seq<Entry>): seq<Hit> {
    if entries == [] then []
    else
      var s := Score(r, query, entries[0]);
      (if s > 0 then [(s, entries[0])] else []) + Scored(r, query, entries[1..])
  }

  /** (-score, path) */
  predicate HitLe(a: Hit, b: Hit) {
    a.0 > b.0 || (a.0 == b.0 && StrLe(a.1.path, b.1.path))
  }

  /** Python's s[:n], for negative n too. */
  function Take<T>(s: seq<T>, n: int): seq<T> {
    if n >= 0 then (if n < |s| then s[..n] else s)
    else if -n < |s| then s[..|s| + n] else []
  }

  datatype Found = Found(path: string, preview: string, children: seq<string>, hasKnowledge: bool, score: nat)

  function Show(hits: seq<Hit>): seq<Found> {
    if hits == [] then []
    else
      var e := hits[0].1;
      [Found(e.path, Cut(e.firstPara, MAX_PREVIEW_CHARS), e.children, e.hasKnowledge, hits[0].0)] + Show(hits[1..])
  }

  function Limit(maxResults: int): int {
    if maxResults <= MAX_SEARCH_RESULTS then maxResults else MAX_SEARCH_RESULTS
  }

  function Results(r: Reader, entries: seq<Entry>, query: string, maxResults: int): seq<Found> {
    Show(Take(Sort(Scored(r, r.lower(query), entries), HitLe), Limit(maxResults)))
  }

  // ---------- the cached index ----------

  class AreaIndex {
    var entries: seq<Entry>
    var snapshot: Snapshot
    var markedStale: bool

    constructor Empty()
      ensures entries == [] && snapshot == [] && !markedStale
    {
      entries, snapshot, markedStale := [], [], false;
    }

    method AddAreas(r: Reader, tree: Tree, summaries: map<string, string>, p: string, children: seq<string>)
      requires Evaluation.ValidTree(tree) && p in tree
      requires forall c :: c in children ==> c in tree[p].children
      modifies this`entries
      ensures entries == old(entries) + Entries(r, tree, summaries, Walk(tree, false, p, children))
      decreases |Longer(tree, p)|, |children|
    {
      hide EntryAt, Entries, Under;
      NoEntries(r, tree, summaries);
      if children == [] {
        return;
      }
      if children[0] != "_core" {
        ghost var q := ChildPath(p, children[0]);
        ChildIsBelow(tree, p, children[0]);
        AddArea(r, tree, summaries, p, children[0]);
        UnderIsWalk(tree, q);
        EntriesAppend(r, tree, summaries, [q] + Under(tree, false, q), Walk(tree, false, p, children[1..]));
      }
      AddAreas(r, tree, summaries, p, children[1..]);
    }

    /** One area and everything below it. */
    method AddArea(r: Reader, tree: Tree, summaries: map<string, string>, p: string, c: string)
      requires Evaluation.ValidTree(tree) && p in tree && c in tree[p].children
      requires ChildPath(p, c) in tree
      modifies this`entries
      ensures entries == old(entries) + Entries(r, tree, summaries, [ChildPath(p, c)] + Under(tree, false, ChildPath(p, c)))
      decreases |Longer(tree, p)|, 0
    {
      hide EntryAt, Entries, Walk;
      var q := ChildPath(p, c);
      ChildIsBelow(tree, p, c);
      LongerShrinks(tree, p, q);
      entries := entries + [EntryAt(r, tree, summaries, q)];
      AddAreas(r, tree, summaries, q, tree[q].children);
      EntriesCons(r, tree, summaries, q, Under(tree, false, q));
    }

    static method AddSnapshot(sha: Sha, tree: Tree, summaries: map<string, string>, p: string, children: seq<string>)
      returns (s: Snapshot)
      requires Evaluation.ValidTree(tree) && p in tree
      requires forall c :: c in children ==> c in tree[p].children
      ensures s == SnapshotOf(sha, tree, summaries, Walk(tree, true, p, children))
      decreases |Longer(tree, p)|, |children|
    {
      s := [];
      if children == [] {
        return;
      }
      if children[0] != "_core" {
        var q := ChildPath(p, children[0]);
        ChildIsBelow(tree, p, children[0]);
        LongerShrinks(tree, p, q);
        SortMembers(tree[q].children, StrLe);
        var below := AddSnapshot(sha, tree, summaries, q, Sort(tree[q].children, StrLe));
        s := [SnapshotAt(sha, tree, summaries, q)] + below;
        SnapshotAppend(sha, tree, summaries, [q] + Walk(tree, true, q, Listing(tree, true, q)), Walk(tree, true, p, children[1..]));
      }
      var rest := AddSnapshot(sha, tree, summaries, p, children[1..]);
      s := s + rest;
    }

    static method CaptureSnapshot(sha: Sha, tree: Tree, summaries: map<string, string>) returns (s: Snapshot)
      requires Evaluation.ValidTree(tree)
      ensures s == Captured(sha, tree, summaries)
    {
      s := [];
      if "" in tree {
        SortMembers(tree[""].children, StrLe);
        s := AddSnapshot(sha, tree, summaries, "", Sort(tree[""].children, StrLe));
      }
    }

    constructor Build(r: Reader, sha: Sha, tree: Tree, summaries: map<string, string>)
      requires Evaluation.ValidTree(tree)
      ensures entries == Built(r, tree, summaries) && snapshot == Captured(sha, tree, summaries) && !markedStale
    {
      entries, snapshot, markedStale := [], [], false;
      new;
      if "" in tree {
        AddAreas(r, tree, summaries, "", tree[""].children);
        snapshot := CaptureSnapshot(sha, tree, summaries);
      }
    }

    method MarkStale()
      modifies this`markedStale
      ensures markedStale
    {
      markedStale := true;
    }

    method IsStale(sha: Sha, tree: Tree, summaries: map<string, string>) returns (stale: bool)
      requires Evaluation.ValidTree(tree)
      ensures stale <==> markedStale || Captured(sha, tree, summaries) != snapshot
    {
      if markedStale {
        return true;
      }
      var now := CaptureSnapshot(sha, tree, summaries);
      stale := now != snapshot;
    }

    method Search(r: Reader, query: string, maxResults: int) returns (results: seq<Found>)
      ensures results == Results(r, entries, query, maxResults)
    {
      var limit := if maxResults <= MAX_SEARCH_RESULTS then maxResults else MAX_SEARCH_RESULTS;
      var queryLower := r.lower(query);
      var scored: seq<Hit> := [];
      var i := 0;
      while i < |entries|
        invariant i <= |entries|
        invariant scored + Scored(r, queryLower, entries[i..]) == Scored(r, queryLower, entries)
      {
        assert entries[i..] == [entries[i]] + entries[i + 1..];
        var score := Score(r, queryLower, entries[i]);
        if score > 0 {
          scored := scored + [(score, entries[i])];
        }
        i := i + 1;
      }
      assert scored + [] == scored;
      results := Show(Take(Sort(scored, HitLe), limit));
    }
  }

  lemma UnderIsWalk(tree: Tree, q: string)
    requires Evaluation.ValidTree(tree) && q in tree
    ensures Under(tree, false, q) == Walk(tree, false, q, Listing(tree, false, q))
  {
  }

  lemma NoEntries(r: Reader, tree: Tree, summaries: map<string, string>)
    ensures Entries(r, tree, summaries, []) == []
  {
  }

  lemma EntriesCons(r: Reader, tree: Tree, summaries: map<string, string>, q: string, rest: seq<string>)
    ensures Entries(r, tree, summaries, [q] + rest) == [EntryAt(r, tree, summaries, q)] + Entries(r, tree, summaries, rest)
  {
    assert ([q] + rest)[1..] == rest;
  }

  lemma {:induction false} EntriesAppend(r: Reader, tree: Tree, summaries: map<string, string>, a: seq<string>, b: seq<string>)
    ensures Entries(r, tree, summaries, a + b) == Entries(r, tree, summaries, a) + Entries(r, tree, summaries, b)
  {
    if a == [] {
      assert a + b == b;
    } else {
      assert (a + b)[1..] == a[1..] + b;
      EntriesAppend(r, tree, summaries, a[1..], b);
    }
  }

  lemma {:induction false} SnapshotAppend(sha: Sha, tree: Tree, summaries: map<string, string>, a: seq<string>, b: seq<string>)
    ensures SnapshotOf(sha, tree, summaries, a + b) == SnapshotOf(sha, tree, summaries, a) + SnapshotOf(sha, tree, summaries, b)
  {
    if a == [] {
      assert a + b == b;
    } else {
      assert (a + b)[1..] == a[1..] + b;
      SnapshotAppend(sha, tree, summaries, a[1..], b);
    }
  }

  // ---------- the two walks cover the same areas ----------

  /** q is listed below p through children, `_core` excluded. */
  ghost predicate Reached(tree: Tree, sorted: bool, p: string, children: seq<string>, q: string)
    requires Evaluation.ValidTree(tree) && p in tree
    requires forall c :: c in children ==> c in tree[p].children
  {
    exists c :: c in children && c != "_core" && OnPath(tree, sorted, p, c, q)
  }

  ghost predicate OnPath(tree: Tree, sorted: bool, p: string, c: string, q: string)
    requires Evaluation.ValidTree(tree) && p in tree && c in tree[p].children
  {
    ChildIsBelow(tree, p, c);
    q == ChildPath(p, c) || q in Under(tree, sorted, ChildPath(p, c))
  }

  ghost function Under(tree: Tree, sorted: bool, q: string): seq<string>
    requires Evaluation.ValidTree(tree) && q in tree
  {
    SortMembers(tree[q].children, StrLe);
    Walk(tree, sorted, q, Listing(tree, sorted, q))
  }

  lemma {:induction false} WalkMembers(tree: Tree, sorted: bool, p: string, children: seq<string>, q: string)
    requires Evaluation.ValidTree(tree) && p in tree
    requires forall c :: c in children ==> c in tree[p].children
    ensures q in Walk(tree, sorted, p, children) <==> Reached(tree, sorted, p, children, q)
    decreases |children|
  {
    if children != [] {
      var rest := children[1..];
      assert children == [children[0]] + rest;
      WalkMembers(tree, sorted, p, rest, q);
      if children[0] != "_core" {
        assert q in Walk(tree, sorted, p, children) <==>
          OnPath(tree, sorted, p, children[0], q) || q in Walk(tree, sorted, p, rest);
      }
    }
  }

  /** The order of directory listings does not change which areas are found. */
  lemma {:induction false} SameAreas(tree: Tree, p: string, a: seq<string>, b: seq<string>, q: string)
    requires Evaluation.ValidTree(tree) && p in tree
    requires forall c :: c in a ==> c in tree[p].children
    requires forall c :: c in a <==> c in b
    ensures q in Walk(tree, false, p, a) <==> q in Walk(tree, true, p, b)
    decreases |Longer(tree, p)|
  {
    WalkMembers(tree, false, p, a, q);
    WalkMembers(tree, true, p, b, q);
    forall c | c in a ensures OnPath(tree, false, p, c, q) <==> OnPath(tree, true, p, c, q) {
      ChildIsBelow(tree, p, c);
      LongerShrinks(tree, p, ChildPath(p, c));
      SortMembers(tree[ChildPath(p, c)].children, StrLe);
      SameAreas(tree, ChildPath(p, c), tree[ChildPath(p, c)].children, Sort(tree[ChildPath(p, c)].children, StrLe), q);
    }
  }

  /** Everything found below p is a proper descendant of p. */
  lemma {:induction false} WalkIsBelow(tree: Tree, sorted: bool, p: string, children: seq<string>, q: string)
    requires Evaluation.ValidTree(tree) && p in tree
    requires forall c :: c in children ==> c in tree[p].children
    requires q in Walk(tree, sorted, p, children)
    ensures Below(q, p)
    decreases |Longer(tree, p)|
  {
    WalkMembers(tree, sorted, p, children, q);
    var c :| c in children && c != "_core" && OnPath(tree, sorted, p, c, q);
    var child := ChildPath(p, c);
    ChildIsBelow(tree, p, c);
    if q != child {
      LongerShrinks(tree, p, child);
      SortMembers(tree[child].children, StrLe);
      WalkIsBelow(tree, sorted, child, Listing(tree, sorted, child), q);
      ChainOfChain(p, q, child);
      ChainAvoidsDeeper(q, child);
      ChainAvoidsDeeper(child, p);
    }
  }

  /** Two different areas of one depth have no common descendant. */
  lemma {:induction false} OneAncestorPerDepth(q: string, a: string, b: string)
    requires a in Chain(q) && b in Chain(q) && Depth(a) == Depth(b)
    ensures a == b
  {
    var i :| 0 <= i < |Chain(q)| && Chain(q)[i] == a;
    var j :| 0 <= j < |Chain(q)| && Chain(q)[j] == b;
    if i < j {
      ChainDepths(q, i, j);
    } else if j < i {
      ChainDepths(q, j, i);
    }
  }

  lemma ChildDepth(p: string, c: string)
    requires ValidName(c)
    ensures Depth(ChildPath(p, c)) == Depth(p) + 1
  {
    NoSlashes(c);
    if p != "" {
      SlashesAppend(p + "/", c);
      assert (p + "/")[..|p|] == p;
    }
  }

  lemma {:induction false} NoSlashes(c: string)
    requires '/' !in c
    ensures SlashCount(c) == 0
  {
    if c != "" {
      assert c[|c| - 1] in c;
      NoSlashes(c[..|c| - 1]);
    }
  }

  lemma {:induction false} SlashesAppend(a: string, c: string)
    ensures SlashCount(a + c) == SlashCount(a) + SlashCount(c)
    decreases |c|
  {
    if c == "" {
      assert a + c == a;
    } else {
      assert (a + c)[..|a + c| - 1] == a + c[..|c| - 1];
      SlashesAppend(a, c[..|c| - 1]);
    }
  }

  lemma ChildPathInjective(p: string, c: string, d: string)
    requires ChildPath(p, c) == ChildPath(p, d)
    ensures c == d
  {
    if p != "" {
      assert c == ChildPath(p, c)[|p| + 1..] && d == ChildPath(p, d)[|p| + 1..];
    }
  }

  /** No area is listed under two children. */
  lemma DisjointChildren(tree: Tree, sorted: bool, p: string, c: string, d: string, q: string)
    requires Evaluation.ValidTree(tree) && p in tree && c in tree[p].children && d in tree[p].children && c != d
    ensures !(OnPath(tree, sorted, p, c, q) && OnPath(tree, sorted, p, d, q))
  {
    assert Evaluation.ValidArea(tree, p);
    ChildDepth(p, c);
    ChildDepth(p, d);
    if OnPath(tree, sorted, p, c, q) && OnPath(tree, sorted, p, d, q) {
      OnPathChain(tree, sorted, p, c, q);
      OnPathChain(tree, sorted, p, d, q);
      OneAncestorPerDepth(q, ChildPath(p, c), ChildPath(p, d));
      ChildPathInjective(p, c, d);
    }
  }

  lemma OnPathChain(tree: Tree, sorted: bool, p: string, c: string, q: string)
    requires Evaluation.ValidTree(tree) && p in tree && c in tree[p].children && OnPath(tree, sorted, p, c, q)
    ensures ChildPath(p, c) in Chain(q)
  {
    var child := ChildPath(p, c);
    ChildIsBelow(tree, p, c);
    assert Chain(child)[0] == child;
    if q != child {
      SortMembers(tree[child].children, StrLe);
      WalkIsBelow(tree, sorted, child, Listing(tree, sorted, child), q);
    }
  }

  /** Every area is found once. */
  lemma {:induction false} WalkDistinct(tree: Tree, sorted: bool, p: string, children: seq<string>)
    requires Evaluation.ValidTree(tree) && p in tree && Distinct(children)
    requires forall c :: c in children ==> c in tree[p].children
    ensures Distinct(Walk(tree, sorted, p, children))
    decreases |Longer(tree, p)|, |children|
  {
    if children != [] {
      var rest := children[1..];
      assert children == [children[0]] + rest;
      WalkDistinct(tree, sorted, p, rest);
      if children[0] != "_core" {
        var q := ChildPath(p, children[0]);
        ChildIsBelow(tree, p, children[0]);
        LongerShrinks(tree, p, q);
        ListingDistinct(tree, sorted, q);
        WalkDistinct(tree, sorted, q, Listing(tree, sorted, q));
        var inner, later := Under(tree, sorted, q), Walk(tree, sorted, p, rest);
        forall x | x in inner ensures x != q {
          WalkIsBelow(tree, sorted, q, Listing(tree, sorted, q), x);
        }
        forall x | x in [q] + inner ensures x !in later {
          assert OnPath(tree, sorted, p, children[0], x);
          WalkMembers(tree, sorted, p, rest, x);
          forall d | d in rest ensures !OnPath(tree, sorted, p, d, x) {
            DisjointChildren(tree, sorted, p, children[0], d, x);
          }
        }
        DistinctAppend([q], inner);
        DistinctAppend([q] + inner, later);
      }
    }
  }

  lemma DistinctAppend(a: seq<string>, b: seq<string>)
    requires Distinct(a) && Distinct(b) && forall x :: x in a ==> x !in b
    ensures Distinct(a + b)
  {
    var s := a + b;
    forall i, j | 0 <= i < j < |s| ensures s[i] != s[j] {
      if i < |a| <= j {
        assert s[i] == a[i] && a[i] in a && s[j] == b[j - |a|] && b[j - |a|] in b;
      } else if |a| <= i {
        assert s[i] == b[i - |a|] && s[j] == b[j - |a|];
      }
    }
  }

  lemma ListingDistinct(tree: Tree, sorted: bool, q: string)
    requires Evaluation.ValidTree(tree) && q in tree
    ensures Distinct(Listing(tree, sorted, q))
    ensures forall c :: c in Listing(tree, sorted, q) <==> c in tree[q].children
  {
    assert Evaluation.ValidArea(tree, q);
    SortMembers(tree[q].children, StrLe);
    SortKeepsElements(tree[q].children, StrLe);
    PermutationDistinct(tree[q].children, Sort(tree[q].children, StrLe));
  }

  lemma AreasAgree(tree: Tree)
    requires Evaluation.ValidTree(tree)
    ensures forall q :: q in Areas(tree, false) <==> q in Areas(tree, true)
    ensures Distinct(Areas(tree, false)) && Distinct(Areas(tree, true))
  {
    if "" in tree {
      ListingDistinct(tree, false, "");
      ListingDistinct(tree, true, "");
      WalkDistinct(tree, false, "", Listing(tree, false, ""));
      WalkDistinct(tree, true, "", Listing(tree, true, ""));
      forall q ensures q in Areas(tree, false) <==> q in Areas(tree, true) {
        SameAreas(tree, "", Listing(tree, false, ""), Listing(tree, true, ""), q);
      }
    }
  }

  // ---------- equal snapshots, equal searches ----------

  lemma {:induction false} SnapshotElements(sha: Sha, tree: Tree, summaries: map<string, string>, areas: seq<string>)
    ensures |SnapshotOf(sha, tree, summaries, areas)| == |areas|
    ensures forall i :: 0 <= i < |areas| ==> SnapshotOf(sha, tree, summaries, areas)[i] == SnapshotAt(sha, tree, summaries, areas[i])
  {
    if areas != [] {
      SnapshotElements(sha, tree, summaries, areas[1..]);
    }
  }

  lemma {:induction false} EntriesElements(r: Reader, tree: Tree, summaries: map<string, string>, areas: seq<string>)
    ensures |Entries(r, tree, summaries, areas)| == |areas|
    ensures forall i :: 0 <= i < |areas| ==> Entries(r, tree, summaries, areas)[i] == EntryAt(r, tree, summaries, areas[i])
  {
    if areas != [] {
      EntriesElements(r, tree, summaries, areas[1..]);
    }
  }

  /** The snapshot determines everything build reads about an area. */
  lemma SnapshotDeterminesEntry(
    r: Reader, sha: Sha, t0: Tree, s0: map<string, string>, t1: Tree, s1: map<string, string>, q: string)
    requires Evaluation.Injective(sha) && SnapshotAt(sha, t0, s0, q) == SnapshotAt(sha, t1, s1, q)
    ensures EntryAt(r, t0, s0, q) == EntryAt(r, t1, s1, q)
  {
    var a, b := SummaryAt(s0, q), SummaryAt(s1, q);
    assert a.Some? <==> b.Some?;
    if a.Some? {
      assert sha(a.value).Hex() == sha(b.value).Hex();
    }
  }

  lemma SameSnapshotSameAreas(sha: Sha, t0: Tree, s0: map<string, string>, t1: Tree, s1: map<string, string>)
    requires Evaluation.ValidTree(t0) && Evaluation.ValidTree(t1)
    requires Captured(sha, t0, s0) == Captured(sha, t1, s1)
    ensures Areas(t0, true) == Areas(t1, true)
    ensures forall q :: q in Areas(t0, true) ==> SnapshotAt(sha, t0, s0, q) == SnapshotAt(sha, t1, s1, q)
  {
    var a, b := Areas(t0, true), Areas(t1, true);
    SnapshotElements(sha, t0, s0, a);
    SnapshotElements(sha, t1, s1, b);
    forall i | 0 <= i < |a| ensures a[i] == b[i] && SnapshotAt(sha, t0, s0, a[i]) == SnapshotAt(sha, t1, s1, a[i]) {
      assert SnapshotAt(sha, t0, s0, a[i]) == SnapshotAt(sha, t1, s1, b[i]);
    }
  }

  /** Entries of the same areas in another order have the same elements. */
  lemma {:induction false} EntriesPermuted(r: Reader, tree: Tree, summaries: map<string, string>, a: seq<string>, b: seq<string>)
    requires multiset(a) == multiset(b)
    ensures multiset(Entries(r, tree, summaries, a)) == multiset(Entries(r, tree, summaries, b))
    decreases |a|
  {
    if a == [] {
      assert |b| == |multiset(b)| == 0;
    } else {
      var front, back := CutOut(a, b);
      EntriesPermuted(r, tree, summaries, a[1..], front + back);
      EntriesAppend(r, tree, summaries, front, [a[0]] + back);
      EntriesCons(r, tree, summaries, a[0], back);
      EntriesAppend(r, tree, summaries, front, back);
    }
  }

  lemma CutOut<T>(a: seq<T>, b: seq<T>) returns (front: seq<T>, back: seq<T>)
    requires a != [] && multiset(a) == multiset(b)
    ensures b == front + ([a[0]] + back) && multiset(front + back) == multiset(a[1..])
  {
    assert a[0] in multiset(b);
    var i :| 0 <= i < |b| && b[i] == a[0];
    front, back := b[..i], b[i + 1..];
    var first, rest := a[0], a[1..];
    assert a == [first] + rest && b == front + ([first] + back);
    assert multiset(a) == multiset{first} + multiset(rest);
    assert multiset(b) == multiset{first} + multiset(front + back);
    Cancel(first, multiset(front + back), multiset(rest));
  }

  lemma Cancel<T>(x: T, m: multiset<T>, n: multiset<T>)
    requires multiset{x} + m == multiset{x} + n
    ensures m == n
  {
    assert m == multiset{x} + m - multiset{x};
    assert n == multiset{x} + n - multiset{x};
  }

  lemma {:induction false} EntriesCongruent(
    r: Reader, t0: Tree, s0: map<string, string>, t1: Tree, s1: map<string, string>, areas: seq<string>)
    requires forall q :: q in areas ==> EntryAt(r, t0, s0, q) == EntryAt(r, t1, s1, q)
    ensures Entries(r, t0, s0, areas) == Entries(r, t1, s1, areas)
  {
    if areas != [] {
      assert areas == [areas[0]] + areas[1..];
      EntriesCongruent(r, t0, s0, t1, s1, areas[1..]);
    }
  }

  /** Equal snapshots: the same entries, perhaps in another order. */
  lemma SameSnapshotSameEntries(
    r: Reader, sha: Sha, t0: Tree, s0: map<string, string>, t1: Tree, s1: map<string, string>)
    requires Evaluation.ValidTree(t0) && Evaluation.ValidTree(t1) && Evaluation.Injective(sha)
    requires Captured(sha, t0, s0) == Captured(sha, t1, s1)
    ensures multiset(Built(r, t0, s0)) == multiset(Built(r, t1, s1))
  {
    var a, b := Areas(t0, false), Areas(t1, false);
    AreasAgree(t0);
    AreasAgree(t1);
    SameSnapshotSameAreas(sha, t0, s0, t1, s1);
    DistinctMultiset(a, b);
    forall q | q in a ensures EntryAt(r, t0, s0, q) == EntryAt(r, t1, s1, q) {
      assert q in Areas(t0, true);
      SnapshotDeterminesEntry(r, sha, t0, s0, t1, s1, q);
    }
    EntriesCongruent(r, t0, s0, t1, s1, a);
    EntriesPermuted(r, t1, s1, a, b);
  }

  lemma {:induction false} ScoredAppend(r: Reader, query: string, a: seq<Entry>, b: seq<Entry>)
    ensures Scored(r, query, a + b) == Scored(r, query, a) + Scored(r, query, b)
  {
    if a == [] {
      assert a + b == b;
    } else {
      assert (a + b)[1..] == a[1..] + b;
      ScoredAppend(r, query, a[1..], b);
    }
  }

  lemma {:induction false} ScoredPermuted(r: Reader, query: string, a: seq<Entry>, b: seq<Entry>)
    requires multiset(a) == multiset(b)
    ensures multiset(Scored(r, query, a)) == multiset(Scored(r, query, b))
    decreases |a|
  {
    if a == [] {
      assert |b| == |multiset(b)| == 0;
    } else {
      var front, back := CutOut(a, b);
      ScoredPermuted(r, query, a[1..], front + back);
      ScoredAppend(r, query, front, [a[0]] + back);
      ScoredAppend(r, query, [a[0]], back);
      ScoredAppend(r, query, [a[0]], a[1..]);
      ScoredAppend(r, query, front, back);
      assert [a[0]] + a[1..] == a;
    }
  }

  lemma {:induction false} ScoredMembers(r: Reader, query: string, entries: seq<Entry>)
    ensures forall h :: h in Scored(r, query, entries) ==> h.1 in entries && h.0 == Score(r, query, h.1)
  {
    if entries != [] {
      ScoredMembers(r, query, entries[1..]);
      assert entries == [entries[0]] + entries[1..];
    }
  }

  ghost predicate OneEntryPerPath(entries: seq<Entry>) {
    forall a, b :: a in entries && b in entries && a.path == b.path ==> a == b
  }

  lemma HitLeIsPreorder()
    ensures TotalPreorder(HitLe)
  {
    forall a, b ensures HitLe(a, b) || HitLe(b, a) { StrLeTotal(a.1.path, b.1.path); }
    forall a, b, c | HitLe(a, b) && HitLe(b, c) ensures HitLe(a, c) {
      if a.0 == b.0 == c.0 {
        StrLeTransitive(a.1.path, b.1.path, c.1.path);
      }
    }
  }

  /** The order of the entries does not show in any result. */
  lemma SearchIgnoresEntryOrder(r: Reader, a: seq<Entry>, b: seq<Entry>, query: string, maxResults: int)
    requires multiset(a) == multiset(b) && OneEntryPerPath(a)
    ensures Results(r, a, query, maxResults) == Results(r, b, query, maxResults)
  {
    var q := r.lower(query);
    ScoredPermuted(r, q, a, b);
    ScoredMembers(r, q, a);
    HitLeIsPreorder();
    forall x, y | x in Scored(r, q, a) && y in Scored(r, q, a) && HitLe(x, y) && HitLe(y, x) ensures x == y {
      StrLeAntisymmetric(x.1.path, y.1.path);
    }
    SortCanonicalOn(Scored(r, q, a), Scored(r, q, b), HitLe);
  }

  lemma BuiltHasOneEntryPerPath(r: Reader, tree: Tree, summaries: map<string, string>)
    requires Evaluation.ValidTree(tree)
    ensures OneEntryPerPath(Built(r, tree, summaries))
  {
    EntriesElements(r, tree, summaries, Areas(tree, false));
  }

  /** The cached index agrees with a rebuild: when the snapshot taken at build time is still what would
      be captured now, every search on the cached entries returns what a fresh build would return. */
  lemma FreshEnoughIsFresh(
    r: Reader, sha: Sha, t0: Tree, s0: map<string, string>, t1: Tree, s1: map<string, string>,
    query: string, maxResults: int)
    requires Evaluation.ValidTree(t0) && Evaluation.ValidTree(t1) && Evaluation.Injective(sha)
    requires Captured(sha, t0, s0) == Captured(sha, t1, s1)
    ensures Results(r, Built(r, t0, s0), query, maxResults) == Results(r, Built(r, t1, s1), query, maxResults)
  {
    SameSnapshotSameEntries(r, sha, t0, s0, t1, s1);
    BuiltHasOneEntryPerPath(r, t0, s0);
    SearchIgnoresEntryOrder(r, Built(r, t0, s0), Built(r, t1, s1), query, maxResults);
  }
}
