/** What one regeneration call returns and writes, field by field, and what a batch reports of its calls. */
module RegenOutcomes {
  import opened Basics
  import opened Topology
  import opened Evaluation
  import opened RegenLocks
  import opened RegenEngine
  import opened RegenSoundness

  // ---------- when a call returns, and with which action ----------

  /** The model's answer is usable, and everything after it succeeds. */
  predicate AnswerAccepted(r: Reply) {
    && r.backend.Output? && |r.backend.summary| >= 20
    && !r.persistFails && !(r.backend.journal.Some? && r.journalFails)
  }

  /** A call returns exactly when nothing in its way fails: what can be in its way depends on the verdict. */
  lemma ReturnsExactlyWhen(sha: Sha, tree: Tree, c: Call, b: Brain, p: string)
    ensures RegenFolder(sha, tree, c, b, p).1.Done? <==>
      !c.reply.readFails && match Evaluated(sha, tree, b, p).outcome
        case MissingPath => c.reply.cleanup == CleanupOk
        case NoContent => c.reply.cleanup == CleanupOk
        case ContentChanged =>
          !c.reply.planningFails && !c.reply.setupFails && !ClaimRefused(c, b.locks, p) && AnswerAccepted(c.reply)
        case _ => !ClaimRefused(c, b.locks, p) && !c.reply.persistFails
  {
    hide Evaluate, Terminal, Claimed, MarkedFailed, ClaimRefused;
    if !ClaimRefused(c, b.locks, p) {
      ClaimedNeverFails(c, b.locks, p);
    }
  }

  /** The action of a call that returns is fixed by the verdict; only with changed content does it depend
      on the similarity of the answer. The parent becomes dirty exactly when the folder's summary was
      written or removed. */
  lemma ActionTells(sha: Sha, tree: Tree, c: Call, b: Brain, p: string)
    requires RegenFolder(sha, tree, c, b, p).1.Done?
    ensures
      var action := RegenFolder(sha, tree, c, b, p).1.action;
      var outcome := Evaluated(sha, tree, b, p).outcome;
      && action == (match outcome
           case MissingPath => CleanedUp
           case NoContent => SkippedNoContent
           case Unchanged => SkippedUnchanged
           case StructureOnly => SkippedRename
           case MetadataBackfill => SkippedBackfill
           case ContentChanged => if KeepsSummary(c, b, p) then SkippedSimilarity else Regenerated)
      && (PropagatesUp(action) <==>
            outcome == MissingPath || outcome == NoContent || (outcome == ContentChanged && !KeepsSummary(c, b, p)))
  {
    hide Evaluate, Terminal, Claimed, MarkedFailed, ClaimRefused, KeepsSummary;
  }

  // ---------- what it writes ----------

  /** The journal of p got one entry more, at its end; every other journal is as before. */
  ghost predicate EntryAppended(before: map<string, seq<string>>, after: map<string, seq<string>>, p: string, entry: string) {
    && p in after && |after[p]| > 0 && after[p][|after[p]| - 1] == entry
    && after[p][..|after[p]| - 1] == (if p in before then before[p] else [])
    && SameExcept(before, after, p)
  }

  lemma AppendedEntry(journals: map<string, seq<string>>, p: string, entry: string)
    ensures EntryAppended(journals, Appended(journals, p, entry), p, entry)
  {
  }

  /** After a regeneration the summary on disk is the model's answer, stored with its own hash, the hashes
      of what it was made from and the time of the call; the journal has the answer's entry, if any. */
  lemma RegeneratedStoresAnswer(sha: Sha, tree: Tree, c: Call, b: Brain, p: string)
    requires RegenFolder(sha, tree, c, b, p).1 == Done(Regenerated)
    ensures
      var after := RegenFolder(sha, tree, c, b, p).0;
      var e := Evaluated(sha, tree, b, p);
      && c.reply.backend.Output? && |c.reply.backend.summary| >= 20
      && p in after.summaries && after.summaries[p] == c.reply.backend.summary
      && p in after.metas
      && after.metas[p].summaryHash == Some(sha(c.reply.backend.summary).Hex()) && after.metas[p].lastRegen == Some(c.now)
      && after.metas[p].contentHash == Some(e.contentHash) && after.metas[p].structureHash == Some(e.structureHash)
      && (c.reply.backend.journal.Some? ==> EntryAppended(b.journals, after.journals, p, c.reply.backend.journal.value))
      && (c.reply.backend.journal == None ==> after.journals == b.journals)
  {
    hide Evaluate, Terminal, Claimed, MarkedFailed, ClaimRefused, Appended, EntryAppended;
    if c.reply.backend.Output? && c.reply.backend.journal.Some? {
      AppendedEntry(b.journals, p, c.reply.backend.journal.value);
    }
  }

  /** An answer that is too similar leaves the old, non-empty summary in place and stores its hash. */
  lemma SimilarKeepsSummary(sha: Sha, tree: Tree, c: Call, b: Brain, p: string)
    requires RegenFolder(sha, tree, c, b, p).1 == Done(SkippedSimilarity)
    ensures
      var after := RegenFolder(sha, tree, c, b, p).0;
      var e := Evaluated(sha, tree, b, p);
      && c.reply.backend.Output? && c.reply.tooSimilar && p in b.summaries && b.summaries[p] != ""
      && after.summaries == b.summaries
      && p in after.metas
      && after.metas[p].summaryHash == Some(sha(b.summaries[p]).Hex()) && after.metas[p].lastRegen == Some(c.now)
      && after.metas[p].contentHash == Some(e.contentHash) && after.metas[p].structureHash == Some(e.structureHash)
      && (c.reply.backend.journal.Some? ==> EntryAppended(b.journals, after.journals, p, c.reply.backend.journal.value))
      && (c.reply.backend.journal == None ==> after.journals == b.journals)
  {
    hide Evaluate, Terminal, Claimed, MarkedFailed, ClaimRefused, Appended, EntryAppended;
    if c.reply.backend.Output? && c.reply.backend.journal.Some? {
      AppendedEntry(b.journals, p, c.reply.backend.journal.value);
    }
  }

  /** The outcomes without a model call store the two current hashes and keep the summary's own hash, the
      time of the last regeneration, every summary and every journal. */
  lemma RehashStoresHashes(sha: Sha, tree: Tree, c: Call, b: Brain, p: string)
    requires RegenFolder(sha, tree, c, b, p).1.Done?
    requires
      var outcome := Evaluated(sha, tree, b, p).outcome;
      outcome == Unchanged || outcome == StructureOnly || outcome == MetadataBackfill
    ensures
      var after := RegenFolder(sha, tree, c, b, p).0;
      var e := Evaluated(sha, tree, b, p);
      && after.summaries == b.summaries && after.journals == b.journals
      && p in b.metas && p in after.metas
      && after.metas[p].contentHash == Some(e.contentHash) && after.metas[p].structureHash == Some(e.structureHash)
      && after.metas[p].summaryHash == b.metas[p].summaryHash && after.metas[p].lastRegen == b.metas[p].lastRegen
  {
    hide Terminal, Claimed, MarkedFailed, ClaimRefused, ContentHash, StructureHash, ChildTexts;
  }

  /** A cleanup that returns leaves neither summary nor stored state nor lock row; journals stay. */
  lemma CleanUpErases(sha: Sha, tree: Tree, c: Call, b: Brain, p: string)
    requires RegenFolder(sha, tree, c, b, p).1.Done?
    requires Evaluated(sha, tree, b, p).outcome == MissingPath || Evaluated(sha, tree, b, p).outcome == NoContent
    ensures
      RegenFolder(sha, tree, c, b, p).0 == Brain(b.summaries - {p}, b.metas - {p}, b.journals, b.locks - {p})
  {
    hide Evaluate;
  }

  /** The reason given to the parent says what happened to the summary: it was removed, it was rewritten, or it
      is as it was. */
  lemma ReasonTells(sha: Sha, tree: Tree, c: Call, b: Brain, p: string)
    requires RegenFolder(sha, tree, c, b, p).1.Done?
    ensures
      var (after, result) := RegenFolder(sha, tree, c, b, p);
      var rule := RuleFor(result.action);
      && (rule.parentInputChanged <==> rule.propagateUpward) && (rule.propagateUpward <==> rule.dirtyReason.Some?)
      && (match rule.dirtyReason
          case Some(ChildInputRemoved) => p !in after.summaries
          case Some(ChildSummaryChanged) =>
            p in after.summaries && c.reply.backend.Output? && after.summaries[p] == c.reply.backend.summary
          case Some(ParentStructureChanged) => false
          case None => after.summaries == b.summaries)
  {
    hide RegenFolder, Evaluated, EntryAppended;
    ActionTells(sha, tree, c, b, p);
    var (after, result) := RegenFolder(sha, tree, c, b, p);
    var outcome := Evaluated(sha, tree, b, p).outcome;
    if result.action == Regenerated {
      RegeneratedStoresAnswer(sha, tree, c, b, p);
    } else if result.action == SkippedSimilarity {
      SimilarKeepsSummary(sha, tree, c, b, p);
    } else if outcome == MissingPath || outcome == NoContent {
      CleanUpErases(sha, tree, c, b, p);
    } else {
      RehashStoresHashes(sha, tree, c, b, p);
    }
  }

  /** What a raising call has written when it did not clean up. */
  ghost predicate WroteOnRaise(c: Call, before: Brain, after: Brain, p: string, contentHash: string, structureHash: string) {
    && after.journals == before.journals
    && (after.summaries == before.summaries
      || (c.reply.backend.Output? && after.summaries == before.summaries[p := c.reply.backend.summary]))
    && (after.metas == before.metas
      || (!c.reply.persistFails && c.reply.journalFails && p in after.metas
        && after.metas[p].contentHash == Some(contentHash) && after.metas[p].structureHash == Some(structureHash)))
  }

  lemma CommitOnRaise(c: Call, b: Brain, p: string, meta: Meta, written: Option<string>, journal: Option<string>, action: Action)
    requires !TerminalFails(c, b.locks, p) && Commit(c, b, p, meta, written, journal, action).1.Raised?
    ensures
      var after := Commit(c, b, p, meta, written, journal, action).0;
      && after.journals == b.journals
      && (after.summaries == b.summaries || (written.Some? && after.summaries == b.summaries[p := written.value]))
      && (after.metas == b.metas || (!c.reply.persistFails && c.reply.journalFails && after.metas == b.metas[p := meta]))
  {
    hide MarkedFailed, Terminal, TerminalFails, Appended;
  }

  lemma RegenerateOnRaise(sha: Sha, c: Call, b: Brain, p: string, e: Evaluation)
    requires Regenerate(sha, c, b, p, e).1.Raised?
    ensures WroteOnRaise(c, b, Regenerate(sha, c, b, p, e).0, p, e.contentHash, e.structureHash)
  {
    hide MarkedFailed, Terminal, Claimed, ClaimRefused, SaveUnowned, Commit, TerminalFails;
    var claimed := Claimed(c, b.locks, p);
    if !c.reply.planningFails && !c.reply.setupFails && !ClaimRefused(c, b.locks, p)
      && c.reply.backend.Output? && |c.reply.backend.summary| >= MIN_SUMMARY
    {
      var running := SaveUnowned(claimed, p, At(c.now), Running, None);
      var kept := KeepsSummary(c, b, p);
      var summary := if kept then b.summaries[p] else c.reply.backend.summary;
      ClaimedNeverFails(c, b.locks, p);
      CommitOnRaise(c, Brain(b.summaries, b.metas, b.journals, running), p,
        Meta(Some(e.contentHash), Some(sha(summary).Hex()), Some(e.structureHash), Some(c.now)),
        if kept then None else Some(summary), c.reply.backend.journal, if kept then SkippedSimilarity else Regenerated);
    }
  }

  lemma RehashOnRaise(c: Call, b: Brain, p: string, meta: Meta, keepError: bool, action: Action)
    requires Rehash(c, b, p, meta, keepError, action).1.Raised?
    ensures
      var after := Rehash(c, b, p, meta, keepError, action).0;
      after.journals == b.journals && after.summaries == b.summaries && after.metas == b.metas
  {
    hide MarkedFailed, Claimed, ClaimRefused, SaveUnowned, Release;
  }

  /** A call that raises never changes a journal. Unless it was cleaning up, it has changed its summary only
      by writing the model's answer, and its stored hashes only when the journal failed after everything else
      was written. */
  lemma RaisedWrites(sha: Sha, tree: Tree, c: Call, b: Brain, p: string)
    requires RegenFolder(sha, tree, c, b, p).1.Raised?
    ensures
      var after := RegenFolder(sha, tree, c, b, p).0;
      var e := Evaluated(sha, tree, b, p);
      && after.journals == b.journals && (c.reply.readFails ==> after == b)
      && (e.outcome != MissingPath && e.outcome != NoContent ==> WroteOnRaise(c, b, after, p, e.contentHash, e.structureHash))
      && (e.outcome != MissingPath && e.outcome != NoContent && e.outcome != ContentChanged ==>
            after.summaries == b.summaries && after.metas == b.metas)
  {
    hide Evaluate, Rehash, Regenerate;
    if !c.reply.readFails {
      var e := Evaluated(sha, tree, b, p);
      match e.outcome
      case MissingPath =>
      case NoContent =>
      case ContentChanged => RegenerateOnRaise(sha, c, b, p, e);
      case MetadataBackfill => RehashOnRaise(c, b, p, Restated(e), true, SkippedBackfill);
      case Unchanged => RehashOnRaise(c, b, p, Restated(e), true, SkippedUnchanged);
      case StructureOnly => RehashOnRaise(c, b, p, Restated(e), false, SkippedRename);
    }
  }

  /** A cleanup that stops raises with exactly the parts gone that it got to; nothing else has changed. */
  lemma StoppedCleanUp(sha: Sha, tree: Tree, c: Call, b: Brain, p: string)
    requires Evaluated(sha, tree, b, p).outcome == MissingPath || Evaluated(sha, tree, b, p).outcome == NoContent
    requires !c.reply.readFails && c.reply.cleanup.Stops?
    ensures
      var after := RegenFolder(sha, tree, c, b, p).0;
      && RegenFolder(sha, tree, c, b, p).1.Raised? && after.journals == b.journals && after.locks == b.locks
      && SameExcept(b.summaries, after.summaries, p) && SameExcept(b.metas, after.metas, p)
      && (p in after.summaries <==> p in b.summaries && !c.reply.cleanup.summaryGone)
      && (p in after.metas <==> p in b.metas && !c.reply.cleanup.hashesGone)
      && (p in after.summaries ==> after.summaries[p] == b.summaries[p])
      && (p in after.metas ==> after.metas[p] == b.metas[p])
  {
    hide Evaluate;
  }

  /** The row a call ends with, unless another session owns it: the given status and error; the start of the
      row it found, and the given one where there was none; and no owner, but for a call without one, which
      leaves the owner alone and sets the start. */
  lemma TerminalTells(c: Call, locks: Locks, p: string, started: Started, status: Status, error: Option<string>)
    ensures
      var after := Terminal(c, locks, p, started, status, error);
      var owner := OwnerOf(locks, p);
      if c.owner.Some? && owner.Some? && owner != c.owner then after == locks
      else
        && p in after && SameExcept(locks, after, p)
        && after[p].status == status && after[p].error == error
        && after[p].owner == (if c.owner.Some? then None else owner)
        && after[p].started == (if c.owner.Some? && p in locks && (owner.Some? || locks[p].started != NoStart)
                                then locks[p].started else started)
  {
  }

  /** When one file of a regenerated folder is edited, and the edit changes its length or leaves the order
      of the hashed lengths alone, then a call that returns has consulted the model. */
  lemma EditIsRegenerated(
    sha: Sha, tree: Tree, c: Call, b: Brain, p: string, before: seq<File>, i: nat)
    requires Injective(sha) && p in tree && Edited(before, tree[p].files, i)
    requires p in b.metas && StoredOver(sha, b.metas[p], ChildTexts(b.summaries, p, tree[p].children), before)
    requires
      var texts := ChildTexts(b.summaries, p, tree[p].children);
      || |HashedBytes(tree[p].files[i])| != |HashedBytes(before[i])|
      || Lengths(HashedParts(sha, texts, tree[p].files).1) == Lengths(HashedParts(sha, texts, before).1)
    requires RegenFolder(sha, tree, c, b, p).1.Done?
    ensures
      var action := RegenFolder(sha, tree, c, b, p).1.action;
      action == Regenerated || action == SkippedSimilarity
  {
    hide Evaluate, RegenFolder, HashedBytes, HashedParts, ChildTexts, Lengths, StoredOver;
    EditIsNoticed(sha, tree, b.summaries, b.metas, p, before, i);
    ActionTells(sha, tree, c, b, p);
  }

  // ---------- the guard of a batch ----------

  /** A guarded visit is refused exactly when the row of the folder cannot be claimed now, in the name of the
      call's owner or the empty one, with the batch's threshold; otherwise it runs with the row claimed. An
      unguarded one is never refused and starts from what it finds. */
  lemma GuardTells(env: Env, b: Brain, p: string)
    ensures
      var c := env.call(p);
      var owner := match c.owner case Some(o) => o case None => "";
      var entered := Entered(env, b, p);
      && (Refuses(env, b, p) <==>
            env.guarded && !CanAcquire(b.locks, p, owner, c.now, env.guardThreshold, c.badSortsLow))
      && entered.summaries == b.summaries && entered.metas == b.metas && entered.journals == b.journals
      && (!env.guarded || Refuses(env, b, p) ==> entered.locks == b.locks)
      && (env.guarded && !Refuses(env, b, p) ==>
            && p in entered.locks && SameExcept(b.locks, entered.locks, p)
            && entered.locks[p] == Lock(Running, At(c.now), Some(owner), if p in b.locks then b.locks[p].error else None))
  {
  }

  // ---------- what a batch reports ----------

  /** The visit of p makes a call. */
  predicate Calls(env: Env, run: Run, p: string) {
    p in run.dirty && !Refuses(env, run.brain, p)
  }

  ghost predicate FailsIn(env: Env, run: Run, order: seq<string>, q: string)
    decreases |order|
  {
    order != [] && ((order[0] == q && Calls(env, run, q) && Outcome(env, run.brain, q).1.Raised?)
      || FailsIn(env, Visit(env, run, order[0]), order[1..], q))
  }

  ghost predicate RefusedIn(env: Env, run: Run, order: seq<string>, q: string)
    decreases |order|
  {
    order != [] && ((order[0] == q && q in run.dirty && Refuses(env, run.brain, q))
      || RefusedIn(env, Visit(env, run, order[0]), order[1..], q))
  }

  function RegenerationsIn(env: Env, run: Run, order: seq<string>): nat
    decreases |order|
  {
    if order == [] then 0
    else
      (if Calls(env, run, order[0]) && Outcome(env, run.brain, order[0]).1 == Done(Regenerated) then 1 else 0)
        + RegenerationsIn(env, Visit(env, run, order[0]), order[1..])
  }

  /** A batch reports as failed exactly the folders whose call raised, as refused exactly those it could
      not acquire, and counts exactly the calls that regenerated. */
  lemma {:induction false} BatchReportsItsCalls(env: Env, run: Run, order: seq<string>, q: string)
    ensures q in RunOrder(env, run, order).failed <==> q in run.failed || FailsIn(env, run, order, q)
    ensures q in RunOrder(env, run, order).refused <==> q in run.refused || RefusedIn(env, run, order, q)
    ensures RunOrder(env, run, order).regenerated == run.regenerated + RegenerationsIn(env, run, order)
    decreases |order|
  {
    hide Refuses, Outcome, RegenFolder;
    if order != [] {
      var result := Outcome(env, run.brain, order[0]).1;
      assert result.Done? || result.Raised?;
      BatchReportsItsCalls(env, Visit(env, run, order[0]), order[1..], q);
    }
  }

  /** When the last retry is spent the row says failed with the reason and names nobody, unless somebody
      else owns it; no other row changes. */
  lemma GaveUpTells(locks: Locks, p: string, owner: Option<string>, reason: string)
    ensures
      var after := GaveUp(locks, p, owner, reason);
      && SameExcept(locks, after, p)
      && (OwnerOf(locks, p) == None || OwnerOf(locks, p) == owner ==>
            p in after && after[p] == Lock(Failed, if p in locks then locks[p].started else NoStart, None, Some(reason)))
      && (OwnerOf(locks, p) != None && OwnerOf(locks, p) != owner ==> after == locks)
  {
  }

  /** After a model call that returned the row has the start of this call. */
  lemma RunningStartStays(sha: Sha, tree: Tree, c: Call, b: Brain, p: string)
    requires RegenFolder(sha, tree, c, b, p).1.Done? && Evaluated(sha, tree, b, p).outcome == ContentChanged
    ensures
      var after := RegenFolder(sha, tree, c, b, p).0;
      p in after.locks && after.locks[p].started == At(c.now) && SameExcept(b.locks, after.locks, p)
  {
    hide Evaluate, ClaimRefused;
    if !ClaimRefused(c, b.locks, p) {
      TerminalKeepsStart(c, b.locks, p);
    }
  }

  lemma TerminalKeepsStart(c: Call, locks: Locks, p: string)
    ensures !ClaimRefused(c, locks, p) ==>
      var running := SaveUnowned(Claimed(c, locks, p), p, At(c.now), Running, None);
      var after := Terminal(c, running, p, At(c.now), Idle, None);
      p in after && after[p].started == At(c.now) && SameExcept(locks, after, p)
  {
  }
}
