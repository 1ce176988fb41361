/** What a search on the area index returns and in which order, and what the index holds of each area. */
module AreaSearch {
  import opened Basics
  import opened Strings
  import opened Topology
  import opened KnowledgeTree
  import opened AreaIndex
  import Evaluation

  // ---------- the ranking ----------

  /** Higher scores come first, equal ones by path. */
  predicate Precedes(score: nat, path: string, otherScore: nat, otherPath: string) {
    score > otherScore || (score == otherScore && StrLe(path, otherPath))
  }

  /** How many of the texts contain the query. */
  function Matching(r: Reader, query: string, texts: seq<string>): set<nat> {
    set i: nat | i < |texts| && Contains(r.lower(texts[i]), query)
  }

  lemma MatchingSplit(r: Reader, query: string, texts: seq<string>, i: nat)
    requires texts != []
    ensures i in Matching(r, query, texts) <==>
      (i == 0 && Contains(r.lower(texts[0]), query)) || i in Shifted(Matching(r, query, texts[1..]))
  {
    hide Contains;
    ShiftedHolds(Matching(r, query, texts[1..]), i);
    if 0 < i < |texts| {
      assert texts[1..][i - 1] == texts[i];
    }
  }

  lemma CountSplit(all: set<nat>, rest: set<nat>, hit: bool)
    requires forall i :: i in all <==> (i == 0 && hit) || i in Shifted(rest)
    ensures |all| == |rest| + if hit then 1 else 0
  {
    ShiftKeepsSize(rest);
    ShiftedHolds(rest, 0);
    hide Shifted;
    if hit {
      assert all == Shifted(rest) + {0};
    } else {
      assert all == Shifted(rest);
    }
  }

  lemma {:induction false} HitsAreCounted(r: Reader, query: string, texts: seq<string>)
    ensures CountHits(r, query, texts) == |Matching(r, query, texts)|
  {
    hide Contains, Shifted;
    if texts != [] {
      hide Matching;
      HitsAreCounted(r, query, texts[1..]);
      forall i: nat ensures i in Matching(r, query, texts) <==>
        (i == 0 && Contains(r.lower(texts[0]), query)) || i in Shifted(Matching(r, query, texts[1..]))
      {
        MatchingSplit(r, query, texts, i);
      }
      CountSplit(Matching(r, query, texts), Matching(r, query, texts[1..]), Contains(r.lower(texts[0]), query));
    }
  }

  function Shifted(s: set<nat>): set<nat> {
    set i | i in s :: i + 1
  }

  lemma ShiftedHolds(s: set<nat>, i: nat)
    ensures i in Shifted(s) <==> i > 0 && i - 1 in s
  {
    if i > 0 && i - 1 in s {
      assert (i - 1) + 1 == i;
    }
  }

  lemma {:induction false} ShiftKeepsSize(s: set<nat>)
    ensures |Shifted(s)| == |s|
    decreases |s|
  {
    if s == {} {
      assert Shifted(s) == {};
    } else {
      var x :| x in s;
      ShiftKeepsSize(s - {x});
      forall i ensures i in Shifted(s) <==> i in Shifted(s - {x}) + {x + 1} {
        ShiftedHolds(s, i);
        ShiftedHolds(s - {x}, i);
      }
      assert Shifted(s) == Shifted(s - {x}) + {x + 1};
      assert x + 1 !in Shifted(s - {x});
    }
  }

  /** An area scores three for every matching segment of its path, two for its summary and one for every
      matching heading. */
  lemma ScoreCounts(r: Reader, query: string, e: Entry)
    ensures Score(r, query, e) ==
      3 * |Matching(r, query, e.parts)| + (if Contains(r.lower(e.body), query) then 2 else 0) + |Matching(r, query, e.headings)|
  {
    HitsAreCounted(r, query, e.parts);
    HitsAreCounted(r, query, e.headings);
  }

  /** f shows the entry e with its score for the query. */
  predicate Shows(r: Reader, query: string, e: Entry, f: Found) {
    && f.score == Score(r, query, e) > 0
    && f.path == e.path && f.children == e.children && f.hasKnowledge == e.hasKnowledge
    && f.preview == Cut(e.firstPara, 500)
  }

  lemma {:induction false} EveryHitIsScored(r: Reader, query: string, entries: seq<Entry>, e: Entry)
    ensures e in entries && Score(r, query, e) > 0 ==> (Score(r, query, e), e) in Scored(r, query, entries)
    ensures forall h :: h in Scored(r, query, entries) ==> h.1 in entries && h.0 == Score(r, query, h.1) > 0
    ensures |Scored(r, query, entries)| <= |entries|
  {
    hide Score;
    if entries != [] {
      EveryHitIsScored(r, query, entries[1..], e);
      assert entries == [entries[0]] + entries[1..];
    }
  }

  lemma {:induction false} ShownOneByOne(hits: seq<Hit>)
    ensures |Show(hits)| == |hits|
    ensures forall i :: 0 <= i < |hits| ==> (Show(hits)[i] ==
      Found(hits[i].1.path, Cut(hits[i].1.firstPara, 500), hits[i].1.children, hits[i].1.hasKnowledge, hits[i].0))
  {
    if hits != [] {
      ShownOneByOne(hits[1..]);
    }
  }

  /** The hits of a search before the cut, best first. */
  function Ranked(r: Reader, entries: seq<Entry>, query: string): seq<Hit> {
    Sort(Scored(r, r.lower(query), entries), HitLe)
  }

  lemma RankedBestFirst(r: Reader, entries: seq<Entry>, query: string)
    ensures
      var hits := Ranked(r, entries, query);
      forall i, j :: 0 <= i < j < |hits| ==> Precedes(hits[i].0, hits[i].1.path, hits[j].0, hits[j].1.path)
  {
    hide Score;
    HitLeIsPreorder();
    SortSorted(Scored(r, r.lower(query), entries), HitLe);
  }

  lemma RankedAreTheMatches(r: Reader, entries: seq<Entry>, query: string, e: Entry)
    ensures
      var hits := Ranked(r, entries, query);
      && (forall h :: h in hits ==> h.1 in entries && h.0 == Score(r, r.lower(query), h.1) > 0)
      && (e in entries && Score(r, r.lower(query), e) > 0 ==> (Score(r, r.lower(query), e), e) in hits)
  {
    hide Score;
    EveryHitIsScored(r, r.lower(query), entries, e);
    SortMembers(Scored(r, r.lower(query), entries), HitLe);
  }

  /** At most the requested number is shown, and never more than ten; every result is an entry that matches,
      with its own path, preview and children; scores never rise along the list and ties are in path order. */
  lemma BestComeFirst(r: Reader, entries: seq<Entry>, query: string, maxResults: nat)
    ensures
      var results := Results(r, entries, query, maxResults);
      && |results| <= maxResults && |results| <= 10
      && (forall i :: 0 <= i < |results| ==> exists e :: e in entries && Shows(r, r.lower(query), e, results[i]))
      && (forall i, j :: 0 <= i < j < |results| ==>
            Precedes(results[i].score, results[i].path, results[j].score, results[j].path))
  {
    hide Score, Scored, Ranked;
    var hits := Ranked(r, entries, query);
    var shown := Take(hits, Limit(maxResults));
    ResultsAreRanked(r, entries, query, maxResults);
    ShownOneByOne(shown);
    RankedBestFirst(r, entries, query);
    forall i | 0 <= i < |shown| ensures exists e :: e in entries && Shows(r, r.lower(query), e, Show(shown)[i]) {
      assert shown[i] == hits[i] && hits[i] in hits;
      RankedAreTheMatches(r, entries, query, hits[i].1);
      assert Shows(r, r.lower(query), hits[i].1, Show(shown)[i]);
    }
  }

  lemma ResultsAreRanked(r: Reader, entries: seq<Entry>, query: string, maxResults: int)
    ensures Results(r, entries, query, maxResults) == Show(Take(Ranked(r, entries, query), Limit(maxResults)))
  {
  }

  /** An entry that matches and is not shown comes after everything shown, and the list is full. */
  lemma OnlyTheWorstAreCut(r: Reader, entries: seq<Entry>, query: string, maxResults: nat, e: Entry)
    requires e in entries && Score(r, r.lower(query), e) > 0
    ensures
      var results := Results(r, entries, query, maxResults);
      || (exists i :: 0 <= i < |results| && Shows(r, r.lower(query), e, results[i]))
      || (&& |results| == (if maxResults <= 10 then maxResults else 10)
          && forall i :: 0 <= i < |results| ==>
               Precedes(results[i].score, results[i].path, Score(r, r.lower(query), e), e.path))
  {
    hide Score, Scored, Ranked;
    var hits := Ranked(r, entries, query);
    var shown := Take(hits, Limit(maxResults));
    ResultsAreRanked(r, entries, query, maxResults);
    ShownOneByOne(shown);
    RankedBestFirst(r, entries, query);
    RankedAreTheMatches(r, entries, query, e);
    var k :| 0 <= k < |hits| && hits[k] == (Score(r, r.lower(query), e), e);
    if k < |shown| {
      assert Shows(r, r.lower(query), e, Show(shown)[k]);
    }
  }

  // ---------- what the index holds ----------

  /** No directory on the path is called `_core`. */
  predicate CoreFree(q: string)
    decreases |q|
  {
    q == "" || (FileName(q) != "_core" && CoreFree(ParentPath(q)))
  }

  lemma {:induction false} UnderIsCoreFree(tree: Tree, sorted: bool, p: string, q: string)
    requires Evaluation.ValidTree(tree) && p in tree && CoreFree(p) && q in Under(tree, sorted, p)
    ensures q in tree && q != "" && CoreFree(q)
    decreases |Longer(tree, p)|
  {
    hide FileName, ParentPath, ChildPath;
    SortMembers(tree[p].children, StrLe);
    WalkMembers(tree, sorted, p, Listing(tree, sorted, p), q);
    var c :| c in Listing(tree, sorted, p) && c != "_core" && OnPath(tree, sorted, p, c, q);
    var child := ChildPath(p, c);
    ChildIsBelow(tree, p, c);
    assert Evaluation.ValidArea(tree, p);
    ParentOfChild(p, c);
    NameOfChild(p, c);
    if q != child {
      LongerShrinks(tree, p, child);
      UnderIsCoreFree(tree, sorted, child, q);
    }
  }

  /** What is under something under p is under p. */
  lemma {:induction false} UnderUnder(tree: Tree, sorted: bool, p: string, mid: string, q: string)
    requires Evaluation.ValidTree(tree) && p in tree && mid in tree
    requires mid in Under(tree, sorted, p) && q in Under(tree, sorted, mid)
    ensures q in Under(tree, sorted, p)
    decreases |Longer(tree, p)|
  {
    hide ChildPath;
    SortMembers(tree[p].children, StrLe);
    WalkMembers(tree, sorted, p, Listing(tree, sorted, p), mid);
    var c :| c in Listing(tree, sorted, p) && c != "_core" && OnPath(tree, sorted, p, c, mid);
    var child := ChildPath(p, c);
    ChildIsBelow(tree, p, c);
    if mid != child {
      LongerShrinks(tree, p, child);
      UnderUnder(tree, sorted, child, mid, q);
    }
    assert OnPath(tree, sorted, p, c, q);
    WalkMembers(tree, sorted, p, Listing(tree, sorted, p), q);
  }

  lemma ListedIsUnder(tree: Tree, sorted: bool, p: string, c: string)
    requires Evaluation.ValidTree(tree) && p in tree && c in tree[p].children && c != "_core"
    ensures ChildPath(p, c) in Under(tree, sorted, p)
  {
    hide ChildPath;
    SortMembers(tree[p].children, StrLe);
    assert OnPath(tree, sorted, p, c, ChildPath(p, c));
    WalkMembers(tree, sorted, p, Listing(tree, sorted, p), ChildPath(p, c));
  }

  lemma {:induction false} CoreFreeIsUnder(tree: Tree, sorted: bool, q: string)
    requires Evaluation.ValidTree(tree) && Rooted(tree) && "" in tree && q in tree && q != "" && CoreFree(q)
    ensures q in Under(tree, sorted, "")
    decreases |q|
  {
    hide FileName, ChildPath;
    var parent := ParentPath(q);
    assert Listed(tree, q);
    var c :| c in tree[parent].children && ChildPath(parent, c) == q;
    assert Evaluation.ValidArea(tree, parent);
    NameOfChild(parent, c);
    ListedIsUnder(tree, sorted, parent, c);
    if parent != "" {
      CoreFreeIsUnder(tree, sorted, parent);
      UnderUnder(tree, sorted, "", parent, q);
    }
  }

  /** The index covers exactly the directories below the root with no `_core` on their path. */
  lemma AreasExactly(tree: Tree, sorted: bool, q: string)
    requires Evaluation.ValidTree(tree) && Rooted(tree) && "" in tree
    ensures q in Areas(tree, sorted) <==> q in tree && q != "" && CoreFree(q)
  {
    hide Walk;
    assert Areas(tree, sorted) == Under(tree, sorted, "");
    if q in Areas(tree, sorted) {
      UnderIsCoreFree(tree, sorted, "", q);
    }
    if q in tree && q != "" && CoreFree(q) {
      CoreFreeIsUnder(tree, sorted, q);
    }
  }

  lemma {:induction false} SegmentsJoin(path: string)
    ensures Join("/", Segments(path)) == path && Segments(path) != []
    ensures forall s :: s in Segments(path) ==> '/' !in s
    decreases |path|
  {
    hide Join;
    var k := FirstSlash(path);
    NoSlashBefore(path);
    if k == |path| {
      JoinOfOne("/", path);
      assert path[..k] == path;
    } else {
      SegmentsJoin(path[k + 1..]);
      JoinCons("/", path[..k], Segments(path[k + 1..]));
      assert path == path[..k] + "/" + path[k + 1..];
    }
  }

  lemma {:induction false} NoSlashBefore(path: string)
    ensures '/' !in path[..FirstSlash(path)]
    ensures FirstSlash(path) < |path| ==> path[FirstSlash(path)] == '/'
  {
    if path != "" && path[0] != '/' {
      NoSlashBefore(path[1..]);
      var k := FirstSlash(path);
      assert path[..k] == [path[0]] + path[1..][..k - 1];
    }
  }

  /** An entry has the segments of its path, the sorted names of its child directories, and of its summary
      the first 2000 characters; preview and headings come from these, the preview within 500 characters. */
  lemma EntryTells(r: Reader, tree: Tree, summaries: map<string, string>, q: string)
    ensures
      var e := EntryAt(r, tree, summaries, q);
      && e.path == q && Join("/", e.parts) == q && (forall s :: s in e.parts ==> '/' !in s)
      && (q in tree ==> Sorted(e.children, StrLe) && multiset(e.children) == multiset(tree[q].children))
      && e.hasKnowledge && (e.hasSummary <==> q in summaries)
      && (q in summaries ==> e.body <= summaries[q] && (|e.body| == 2000 || e.body == summaries[q]) && |e.body| <= 2000)
      && (q !in summaries ==> e.body == "")
      && (e.body != "" ==> e.headings == r.headings(e.body) && e.firstPara <= r.firstPara(e.body))
      && (e.body == "" ==> e.headings == [] && e.firstPara == "") && |e.firstPara| <= 500
  {
    hide Segments, Join;
    SegmentsJoin(q);
    StrLeIsLinear();
    if q in tree {
      SortSorted(tree[q].children, StrLe);
      SortKeepsElements(tree[q].children, StrLe);
    }
  }
}
