/** Selective recomputation restores consistency, and repeating a batch is a no-op. */
module RegenSoundness {
  import opened Basics
  import opened Topology
  import opened Evaluation
  import opened RegenLocks
  import opened RegenEngine

  // ---------- what one folder's regeneration does and does not touch ----------

  lemma CommitEffect(c: Call, b: Brain, p: string, meta: Meta, written: Option<string>, journal: Option<string>, action: Action)
    ensures
      var (after, result) := Commit(c, b, p, meta, written, journal, action);
      && SameExcept(b.summaries, after.summaries, p)
      && SameExcept(b.metas, after.metas, p)
      && (written == None ==> after.summaries == b.summaries)
      && (result.Done? ==> result.action == action && after.metas == b.metas[p := meta])
      && (result.Done? && written.Some? ==> p in after.summaries)
  {
  }

  ghost predicate Stores(b: Brain, p: string, e: Evaluation) {
    p in b.metas && b.metas[p].contentHash == Some(e.contentHash) && b.metas[p].structureHash == Some(e.structureHash)
  }

  lemma RegenerateEffect(sha: Sha, c: Call, b: Brain, p: string, e: Evaluation)
    ensures
      var (after, result) := Regenerate(sha, c, b, p, e);
      && SameExcept(b.summaries, after.summaries, p)
      && SameExcept(b.metas, after.metas, p)
      && (result.Done? ==> Stores(after, p, e))
      && (result.Done? ==> result.action == Regenerated || (result.action == SkippedSimilarity && after.summaries == b.summaries))
  {
    if !c.reply.planningFails && !c.reply.setupFails && !ClaimRefused(c, b.locks, p) && c.reply.backend.Output? {
      var running := SaveUnowned(Claimed(c, b.locks, p), p, At(c.now), Running, None);
      var kept := KeepsSummary(c, b, p);
      var summary := if kept then b.summaries[p] else c.reply.backend.summary;
      var meta := Meta(Some(e.contentHash), Some(sha(summary).Hex()), Some(e.structureHash), Some(c.now));
      CommitEffect(c, Brain(b.summaries, b.metas, b.journals, running), p, meta,
        if kept then None else Some(summary), c.reply.backend.journal,
        if kept then SkippedSimilarity else Regenerated);
    }
  }

  lemma RehashEffect(c: Call, b: Brain, p: string, meta: Meta, keepError: bool, action: Action)
    ensures
      var (after, result) := Rehash(c, b, p, meta, keepError, action);
      && after.summaries == b.summaries
      && (result.Raised? ==> after.metas == b.metas)
      && (result.Done? ==> result.action == action && after.metas == b.metas[p := meta])
  {
  }

  /** All that the theorems need to know about one call. */
  ghost predicate Effect(b: Brain, p: string, e: Evaluation, after: Brain, result: Result) {
    && SameExcept(b.summaries, after.summaries, p)
    && SameExcept(b.metas, after.metas, p)
    && (e.outcome == Unchanged ==>
          after.summaries == b.summaries && (after.metas == b.metas || after.metas == b.metas[p := Restated(e)]))
    && (e.outcome == NoContent || e.outcome == MissingPath ==>
          && (after.summaries == b.summaries || after.summaries == b.summaries - {p})
          && (after.metas == b.metas || after.metas == b.metas - {p}))
    && (result.Done? ==> Finished(b, p, e, after, result.action))
  }

  ghost predicate Finished(b: Brain, p: string, e: Evaluation, after: Brain, action: Action) {
    if e.outcome == NoContent || e.outcome == MissingPath
    then PropagatesUp(action) && p !in after.summaries && p !in after.metas
    else
      && Stores(after, p, e)
      && (if PropagatesUp(action) then e.outcome == ContentChanged else after.summaries == b.summaries)
  }

  lemma CleanUpEffect(b: Brain, p: string, e: Evaluation, cleanup: Cleanup, action: Action)
    requires PropagatesUp(action) && (e.outcome == NoContent || e.outcome == MissingPath)
    ensures Effect(b, p, e, CleanUp(b, p, cleanup, action).0, CleanUp(b, p, cleanup, action).1)
  {
  }

  lemma RehashKeepsEffect(c: Call, b: Brain, p: string, e: Evaluation, keepError: bool, action: Action)
    requires !PropagatesUp(action)
    requires e.outcome == MetadataBackfill || e.outcome == Unchanged || e.outcome == StructureOnly
    ensures Effect(b, p, e, Rehash(c, b, p, Restated(e), keepError, action).0, Rehash(c, b, p, Restated(e), keepError, action).1)
  {
    RehashEffect(c, b, p, Restated(e), keepError, action);
  }

  lemma RegenerateKeepsEffect(sha: Sha, c: Call, b: Brain, p: string, e: Evaluation)
    requires e.outcome == ContentChanged
    ensures Effect(b, p, e, Regenerate(sha, c, b, p, e).0, Regenerate(sha, c, b, p, e).1)
  {
    RegenerateEffect(sha, c, b, p, e);
  }

  /** For every reply the effect of a call is as described. */
  lemma ActEffect(sha: Sha, c: Call, b: Brain, p: string, e: Evaluation)
    ensures Effect(b, p, e, Act(sha, c, b, p, e).0, Act(sha, c, b, p, e).1)
  {
    match e.outcome
    case MissingPath => CleanUpEffect(b, p, e, c.reply.cleanup, CleanedUp);
    case NoContent => CleanUpEffect(b, p, e, c.reply.cleanup, SkippedNoContent);
    case MetadataBackfill => RehashKeepsEffect(c, b, p, e, true, SkippedBackfill);
    case Unchanged => RehashKeepsEffect(c, b, p, e, true, SkippedUnchanged);
    case StructureOnly => RehashKeepsEffect(c, b, p, e, false, SkippedRename);
    case ContentChanged => RegenerateKeepsEffect(sha, c, b, p, e);
  }

  /** A folder's regeneration writes only that folder's summary and stored state. */
  lemma RegenFolderFrame(sha: Sha, tree: Tree, c: Call, b: Brain, p: string)
    ensures SameExcept(b.summaries, RegenFolder(sha, tree, c, b, p).0.summaries, p)
    ensures SameExcept(b.metas, RegenFolder(sha, tree, c, b, p).0.metas, p)
  {
    ActEffect(sha, c, b, p, Evaluated(sha, tree, b, p));
  }

  /** The propagation table is complete: an action that does not propagate left the summary alone. */
  lemma NonPropagatingKeepsSummary(sha: Sha, tree: Tree, c: Call, b: Brain, p: string)
    requires RegenFolder(sha, tree, c, b, p).1.Done?
    requires !PropagatesUp(RegenFolder(sha, tree, c, b, p).1.action)
    ensures RegenFolder(sha, tree, c, b, p).0.summaries == b.summaries
  {
    ActEffect(sha, c, b, p, Evaluated(sha, tree, b, p));
  }

  // ---------- failures after the summary changed ----------

  /** A new summary reaches the disk: planned, claimed, answered at length, not too similar, and different. */
  predicate WritesNewSummary(c: Call, b: Brain, p: string) {
    && !c.reply.planningFails && !c.reply.setupFails && !ClaimRefused(c, b.locks, p)
    && c.reply.backend.Output? && |c.reply.backend.summary| >= MIN_SUMMARY && !KeepsSummary(c, b, p)
    && !(p in b.summaries && b.summaries[p] == c.reply.backend.summary)
  }

  /** What fails once the summary is on disk: the hashes and then the way back, or the journal. */
  predicate FailsAfterSummary(r: Reply) {
    if r.persistFails then r.restoreFails
    else r.journalFails && r.backend.Output? && r.backend.journal.Some?
  }

  /** The circumstances, all known before the call writes anything, in which it raises with its summary
      changed. */
  predicate Spoils(sha: Sha, tree: Tree, c: Call, b: Brain, p: string) {
    !c.reply.readFails && match Evaluated(sha, tree, b, p).outcome
    case MissingPath => c.reply.cleanup.Stops? && c.reply.cleanup.summaryGone && p in b.summaries
    case NoContent => c.reply.cleanup.Stops? && c.reply.cleanup.summaryGone && p in b.summaries
    case ContentChanged => WritesNewSummary(c, b, p) && FailsAfterSummary(c.reply)
    case _ => false
  }

  lemma RegenerateSpoilsExactlyWhen(sha: Sha, c: Call, b: Brain, p: string, e: Evaluation)
    ensures
      var (after, result) := Regenerate(sha, c, b, p, e);
      result.Raised? && after.summaries != b.summaries <==> WritesNewSummary(c, b, p) && FailsAfterSummary(c.reply)
  {
    hide Terminal, MarkedFailed;
    if !c.reply.planningFails && !c.reply.setupFails && !ClaimRefused(c, b.locks, p) && c.reply.backend.Output? {
      var running := SaveUnowned(Claimed(c, b.locks, p), p, At(c.now), Running, None);
      assert !TerminalFails(c, running, p) by { ClaimedNeverFails(c, b.locks, p); }
      var summary := c.reply.backend.summary;
      assert b.summaries[p := summary] == b.summaries <==> p in b.summaries && b.summaries[p] == summary by {
        assert b.summaries[p := summary][p] == summary;
      }
    }
  }

  lemma ClaimedNeverFails(c: Call, locks: Locks, p: string)
    requires !ClaimRefused(c, locks, p)
    ensures !TerminalFails(c, SaveUnowned(Claimed(c, locks, p), p, At(c.now), Running, None), p)
  {
  }

  /** A call raises after its summary had changed exactly in those circumstances. */
  lemma SpoilsExactlyWhen(sha: Sha, tree: Tree, c: Call, b: Brain, p: string)
    ensures
      var (after, result) := RegenFolder(sha, tree, c, b, p);
      result.Raised? && after.summaries != b.summaries <==> Spoils(sha, tree, c, b, p)
  {
    hide Rehash, Regenerate, WritesNewSummary, FailsAfterSummary, Evaluate;
    var e := Evaluated(sha, tree, b, p);
    RegenerateSpoilsExactlyWhen(sha, c, b, p, e);
    RehashEffect(c, b, p, Restated(e), true, SkippedBackfill);
    RehashEffect(c, b, p, Restated(e), true, SkippedUnchanged);
    RehashEffect(c, b, p, Restated(e), false, SkippedRename);
    assert p in b.summaries ==> p !in b.summaries - {p};
    assert p !in b.summaries ==> b.summaries - {p} == b.summaries;
  }

  /** Nothing left to do for p: evaluating it again leads to no write of a summary or a hash. */
  ghost predicate Quiet(sha: Sha, tree: Tree, b: Brain, p: string) {
    var outcome := Evaluated(sha, tree, b, p).outcome;
    || outcome == Unchanged
    || ((outcome == MissingPath || outcome == NoContent) && p !in b.summaries && p !in b.metas)
  }

  lemma QuietIsUpToDate(sha: Sha, tree: Tree, b: Brain, p: string)
    requires Quiet(sha, tree, b, p) && p in tree
    ensures UpToDate(sha, tree, b.summaries, b.metas, p)
  {
    EvaluationDecidesUpToDate(sha, tree, b.summaries, b.metas, p);
  }

  lemma UnchangedIsStored(sha: Sha, tree: Tree, b: Brain, p: string)
    requires Evaluated(sha, tree, b, p).outcome == Unchanged
    ensures p in b.metas && b.metas[p := Restated(Evaluated(sha, tree, b, p))] == b.metas
  {
    var e := Evaluated(sha, tree, b, p);
    assert Restated(e) == b.metas[p];
  }

  /** A quiet folder stays as it is whatever the reply; only a contentless one still propagates. */
  lemma QuietFolderIsNoOp(sha: Sha, tree: Tree, c: Call, b: Brain, p: string)
    requires Quiet(sha, tree, b, p)
    ensures RegenFolder(sha, tree, c, b, p).0.summaries == b.summaries
    ensures RegenFolder(sha, tree, c, b, p).0.metas == b.metas
    ensures var result := RegenFolder(sha, tree, c, b, p).1;
      result.Done? && PropagatesUp(result.action) ==> Evaluated(sha, tree, b, p).outcome != Unchanged
  {
    var e := Evaluated(sha, tree, b, p);
    ActEffect(sha, c, b, p, e);
    if e.outcome == Unchanged {
      UnchangedIsStored(sha, tree, b, p);
    } else {
      assert b.summaries - {p} == b.summaries && b.metas - {p} == b.metas;
    }
  }

  /** Replacing p's own summary does not change what p is evaluated over. */
  lemma OwnWritesKeepInputs(tree: Tree, before: map<string, string>, after: map<string, string>, p: string)
    requires ValidTree(tree) && p in tree
    requires SameExcept(before, after, p)
    ensures ChildTexts(before, p, tree[p].children) == ChildTexts(after, p, tree[p].children)
  {
    assert ValidArea(tree, p);
    forall c | c in tree[p].children ensures ChildPath(p, c) != p {
      ParentOfChild(p, c);
    }
    ChildTextsFrame(before, after, p, tree[p].children);
  }

  lemma StoredHashesMakeUnchanged(sha: Sha, tree: Tree, b: Brain, after: Brain, p: string)
    requires ValidTree(tree) && p in tree
    requires SameExcept(b.summaries, after.summaries, p)
    requires Evaluated(sha, tree, b, p).outcome != NoContent
    requires Stores(after, p, Evaluated(sha, tree, b, p))
    ensures Evaluated(sha, tree, after, p).outcome == Unchanged
  {
    OwnWritesKeepInputs(tree, b.summaries, after.summaries, p);
  }

  lemma NoContentStays(sha: Sha, tree: Tree, b: Brain, after: Brain, p: string)
    requires ValidTree(tree) && p in tree
    requires SameExcept(b.summaries, after.summaries, p)
    requires Evaluated(sha, tree, b, p).outcome == NoContent
    ensures Evaluated(sha, tree, after, p).outcome == NoContent
  {
    OwnWritesKeepInputs(tree, b.summaries, after.summaries, p);
  }

  lemma MissingPathExactly(sha: Sha, tree: Tree, b: Brain, p: string)
    ensures Evaluated(sha, tree, b, p).outcome == MissingPath <==> p !in tree
  {
  }

  /** Every regeneration that returns leaves its folder quiet, whatever the model said. */
  lemma DoneIsQuiet(sha: Sha, tree: Tree, c: Call, b: Brain, p: string)
    requires ValidTree(tree)
    requires RegenFolder(sha, tree, c, b, p).1.Done?
    ensures Quiet(sha, tree, RegenFolder(sha, tree, c, b, p).0, p)
  {
    var e := Evaluated(sha, tree, b, p);
    var after := RegenFolder(sha, tree, c, b, p).0;
    ActEffect(sha, c, b, p, e);
    MissingPathExactly(sha, tree, b, p);
    MissingPathExactly(sha, tree, after, p);
    if e.outcome == NoContent {
      NoContentStays(sha, tree, b, after, p);
    } else if e.outcome != MissingPath {
      StoredHashesMakeUnchanged(sha, tree, b, after, p);
    }
  }
}
