/** Runs in which an area stays stale or owned: a failure after the point of no return, the truncated
    walk-up, the root of a full run, and a cleanup that stops half way. */
module RegenFailures {
  import opened Basics
  import opened Strings
  import opened Topology
  import opened Evaluation
  import opened KnowledgeTree
  import opened RegenLocks
  import opened RegenEngine
  import opened RegenConsistency

  function Tagged(s: string): Digest {
    Digest('h', s)
  }

  const LEAF := Area([File("f.md", "x", true)], [])
  const TOP := Area([], ["a"])
  const TREE: Tree := map["" := TOP, "a" := LEAF]

  /** The root is up to date over its child's old summary; the child has never been regenerated. */
  const BEFORE := Brain(
    map["a" := "old summary", "" := "root summary"],
    map["" := Meta(Some(ContentHash(Tagged, [("a", "old summary")], [])), None, Some(StructureHash(Tagged, TOP)), None)],
    map[], map[])

  const NEW_SUMMARY := "a new summary, long enough"

  /** The model answers well, but appending the journal entry fails. */
  const DISK_FULL := Call(None, 0, false, Reply(CleanupOk, false, false, false, Output(NEW_SUMMARY, Some("entry")), false, false, false, true, "disk full"))

  function OneCall(p: string): Call {
    DISK_FULL
  }

  const ENV := Env(Tagged, TREE, false, 0, map[], OneCall)

  lemma RootTexts(summaries: map<string, string>)
    ensures ChildTexts(summaries, "", ["a"]) == if "a" in summaries then [("a", summaries["a"])] else []
  {
    assert ChildPath("", "a") == "a";
    assert ["a"][1..] == [];
  }

  lemma OneChildHash(text: string)
    ensures ContentHash(Tagged, [("a", text)], []) == "h" + text
  {
    assert Texts([("a", text)]) == [text];
    assert Sort([text], StrLe) == [text];
    assert Concat([text]) == text + Concat([]);
    assert ContentBytes(Tagged, [("a", text)], []) == text;
  }

  lemma LeafFails()
    ensures RegenFolder(Tagged, TREE, DISK_FULL, BEFORE, "a").1.Raised?
    ensures RegenFolder(Tagged, TREE, DISK_FULL, BEFORE, "a").0.summaries == BEFORE.summaries["a" := NEW_SUMMARY]
    ensures "" in RegenFolder(Tagged, TREE, DISK_FULL, BEFORE, "a").0.metas
    ensures RegenFolder(Tagged, TREE, DISK_FULL, BEFORE, "a").0.metas[""] == BEFORE.metas[""]
  {
    assert ChildTexts(BEFORE.summaries, "a", []) == [];
    assert Evaluated(Tagged, TREE, BEFORE, "a").outcome == ContentChanged;
  }

  /** The journal failure comes after the summary was persisted: the folder counts as failed and does
      not propagate, although its parent's input has changed. The parent was up to date before the
      batch and is not afterwards, and nothing marks it dirty. */
  lemma JournalFailureLeavesParentStale()
    ensures Current(ENV, BEFORE, "")
    ensures
      var run := RunOrder(ENV, Start(BEFORE, ["a"]), ["a", ""]);
      run.failed == {"a"} && run.spoiled == {"a"} && "" !in run.dirty && !Current(ENV, run.brain, "")
  {
    RootTexts(BEFORE.summaries);
    OneChildHash("old summary");
    LeafFails();
    var start := Start(BEFORE, ["a"]);
    var next := Visit(ENV, start, "a");
    assert "a" in ["a"] && "a" in start.dirty && "" !in start.dirty;
    assert ["a", ""][1..] == [""] && [""][1..] == [];
    assert "a" in BEFORE.summaries && BEFORE.summaries["a"] == "old summary";
    assert BEFORE.summaries["a"] != BEFORE.summaries["a" := NEW_SUMMARY]["a"];
    assert RunOrder(ENV, next, [""]) == next;
    RootTexts(next.brain.summaries);
    OneChildHash(NEW_SUMMARY);
  }

  // ---------- the truncated walk-up ----------

  const FINE := Call(None, 0, false, Reply(CleanupOk, false, false, false, BackendError, false, false, false, false, ""))

  function FineCall(p: string): Call {
    FINE
  }

  /** Only the root directory is left of the tree; every call succeeds. */
  const GONE_ENV := Env(Tagged, map["" := Area([], [])], false, 0, map[], FineCall)

  lemma GoneContinues(run: Run, p: string)
    requires p != ""
    ensures Continues(GONE_ENV, run, p)
  {
  }

  lemma {:induction false} WalkUpReaches(run: Run, p: string, n: nat)
    requires 0 < n < |Chain(p)|
    ensures Chain(p)[n] in WalkUp(GONE_ENV, run, Chain(p)[..n]).dirty
    decreases n
  {
    hide Process, Continues;
    var chain := Chain(p)[..n];
    var next := Process(GONE_ENV, run, p);
    ChainFront(p, n);
    GoneContinues(run, p);
    ProcessDirties(GONE_ENV, run, p);
    assert chain[0] == p && chain[1..] == Chain(ParentPath(p))[..n - 1];
    if n == 1 {
      assert WalkUp(GONE_ENV, next, []) == next;
    } else {
      WalkUpReaches(next, ParentPath(p), n - 1);
    }
  }

  /** A deleted folder whose chain has more than ten entries: the bounded walk-up cleans up ten folders
      and leaves the next one, which their changes reached, undone; the wave batch does not. */
  lemma DeepWalkUpMissesWork(b: Brain, p: string, waves: seq<seq<string>>)
    requires |Chain(p)| > WALK_UP_LIMIT && WavePlan([p], waves)
    ensures
      var bounded := WalkUp(GONE_ENV, Start(b, [p]), BoundedChain(p, WALK_UP_LIMIT));
      bounded.failed == {} && Chain(p)[WALK_UP_LIMIT] in bounded.dirty &&
      bounded != RunOrder(GONE_ENV, Start(b, [p]), Flatten(waves))
  {
    hide WalkUp, RunOrder;
    WalkUpReaches(Start(b, [p]), p, WALK_UP_LIMIT);
    NothingFails(Start(b, [p]), BoundedChain(p, WALK_UP_LIMIT));
    LongWalkUpIsTheWaveBatchExactlyWhen(GONE_ENV, b, p, waves);
  }

  lemma {:induction false} NothingFails(run: Run, chain: seq<string>)
    requires run.failed == {}
    ensures WalkUp(GONE_ENV, run, chain).failed == {}
    decreases |chain|
  {
    hide Process, Continues;
    if chain != [] {
      GoneSucceeds(run, chain[0]);
      NothingFails(Process(GONE_ENV, run, chain[0]), chain[1..]);
    }
  }

  lemma GoneSucceeds(run: Run, p: string)
    ensures Process(GONE_ENV, run, p).failed == run.failed
  {
  }

  function OneName(): string {
    "a"
  }

  lemma OneNameIsValid()
    ensures ValidName(OneName())
  {
  }

  /** n names "a", one below the other. */
  function Nested(n: nat): string {
    if n == 0 then "" else ChildPath(Nested(n - 1), OneName())
  }

  /** There are chains of any length. */
  lemma {:induction false} NestedChain(n: nat)
    ensures |Chain(Nested(n))| == n + 1
  {
    hide ParentPath, ChildPath, LastSlash, ValidName, OneName;
    if n > 0 {
      NestedChain(n - 1);
      OneNameIsValid();
      ParentOfChild(Nested(n - 1), OneName());
    }
  }

  // ---------- the root, and a stopped cleanup ----------

  const ROOT_FILE := Area([File("f.md", "x", true)], [])

  /** A full run starts at the folders below the root. A root with a file of its own, never regenerated,
      is the only area there is: the run has nothing to do and the root stays as it was. */
  lemma RootIsNeverStarted()
    ensures
      var env := Env(Tagged, map["" := ROOT_FILE], false, 0, map[], FineCall);
      var b0 := Brain(map[], map[], map[], map[]);
      && ValidTree(env.tree) && Rooted(env.tree) && WavePlan([], [])
      && (forall q :: !(q != "" && HasEntries(env.tree, q)))
      && Clean(RunOrder(env, Start(b0, []), Flatten([])))
      && !Current(env, RunOrder(env, Start(b0, []), Flatten([])).brain, "")
  {
    var env := Env(Tagged, map["" := ROOT_FILE], false, 0, map[], FineCall);
    var b0 := Brain(map[], map[], map[], map[]);
    assert RunOrder(env, Start(b0, []), []) == Start(b0, []);
    assert HasContent(env.tree, b0.summaries, "");
  }

  /** A folder has lost its content but still has a summary, its row was acquired beforehand, and the cleanup
      stops before its first file: the session still owns the row afterwards. */
  lemma StoppedCleanupKeepsOwnership(p: string, s: string)
    ensures
      var tree := map[p := Area([], [])];
      var c := Call(Some(s), 0, false, FINE.reply.(cleanup := Stops(false, false)));
      var b := Brain(map[p := "old summary"], map[], map[], map[p := Lock(Running, At(0), Some(s), None)]);
      var (after, result) := RegenFolder(Tagged, tree, c, b, p);
      Evaluated(Tagged, tree, b, p).outcome == NoContent && result == Raised && OwnerOf(after.locks, p) == Some(s)
  {
  }

  /** So it does when the files of the folder cannot be read, and the row does not say failed. */
  lemma UnreadFolderKeepsOwnership(tree: Tree, b: Brain, p: string, s: string)
    requires OwnerOf(b.locks, p) == Some(s)
    ensures
      var c := Call(Some(s), 0, false, FINE.reply.(readFails := true));
      var (after, result) := RegenFolder(Tagged, tree, c, b, p);
      result == Raised && OwnerOf(after.locks, p) == Some(s) && after.locks[p] == b.locks[p]
  {
  }
}
