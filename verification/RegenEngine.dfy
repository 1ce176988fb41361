/** The incremental regeneration engine: one folder at a time, then batches of folders.
    RegenFolder and RunOrder specify what class RegenRuns.Engine does in place. */
module RegenEngine {
  import opened Basics
  import opened Topology
  import opened Evaluation
  import opened RegenLocks

  /** Everything on disk and in the lock table that regeneration reads or writes. */
  datatype Brain = Brain(
    summaries: map<string, string>, metas: map<string, Meta>, journals: map<string, seq<string>>, locks: Locks)

  // ---------- what the outside world does during one call ----------

  /** Removing the artifacts of an area succeeds, or stops with the summary, the stored hashes, both or
      neither gone: the two files are removed in no fixed order. */
  datatype Cleanup = CleanupOk | Stops(summaryGone: bool, hashesGone: bool)

  datatype Backend = BackendError | Malformed | Output(summary: string, journal: Option<string>)

  /** Any model output, any similarity verdict, and the places where a call can fail: reading the folder,
      planning the prompt, reading the old summary or creating its directory, the model, and the writes.
      When the stored hashes cannot be written, putting the old summary back can fail as well. */
  datatype Reply = Reply(
    cleanup: Cleanup, readFails: bool, planningFails: bool, setupFails: bool, backend: Backend, tooSimilar: bool,
    persistFails: bool, restoreFails: bool, journalFails: bool, reason: string)

  /** The circumstances of one regen_single_folder call. */
  datatype Call = Call(owner: Option<string>, now: int, badSortsLow: bool, reply: Reply)

  datatype Result = Done(action: Action) | Raised

  const MIN_SUMMARY: nat := 20

  // ---------- one folder ----------

  /** _claim_regen_ownership_or_raise */
  predicate ClaimRefused(c: Call, locks: Locks, p: string) {
    c.owner.Some? && !CanAcquire(locks, p, c.owner.value, c.now, STALE_THRESHOLD, c.badSortsLow)
  }

  function Claimed(c: Call, locks: Locks, p: string): Locks {
    if c.owner.Some? then Acquire(locks, p, c.owner.value, c.now, STALE_THRESHOLD, c.badSortsLow) else locks
  }

  function LockAt(locks: Locks, p: string): Option<Lock> {
    if p in locks then Some(locks[p]) else None
  }

  function SaveUnowned(locks: Locks, p: string, started: Started, status: Status, error: Option<string>): Locks {
    locks[p := Lock(status, started, OwnerOf(locks, p), error)]
  }

  /** _save_terminal_regen_lock fails only when somebody else owns the row. */
  predicate TerminalFails(c: Call, locks: Locks, p: string) {
    c.owner.Some? && OwnerOf(locks, p).Some? && OwnerOf(locks, p) != c.owner
  }

  function Terminal(c: Call, locks: Locks, p: string, started: Started, status: Status, error: Option<string>): Locks {
    if c.owner == None then SaveUnowned(locks, p, started, status, error)
    else if CanRelease(locks, p, c.owner.value) then Release(locks, p, c.owner.value, status, error)
    else if p !in locks then SaveUnowned(locks, p, started, status, error)
    else if locks[p].owner == None then
      SaveUnowned(locks, p, if locks[p].started == NoStart then started else locks[p].started, status, error)
    else locks
  }

  /** The lock rows after a failure of this call was recorded. */
  function MarkedFailed(c: Call, locks: Locks, p: string, started: Started): Locks {
    Terminal(c, locks, p, started, Failed, Some(c.reply.reason))
  }

  /** missing_path and no_content: remove the regenerable artifacts, then the lock row. */
  function CleanUp(b: Brain, p: string, cleanup: Cleanup, action: Action): (Brain, Result) {
    match cleanup
    case CleanupOk => (Brain(b.summaries - {p}, b.metas - {p}, b.journals, Delete(b.locks, p)), Done(action))
    case Stops(summaryGone, hashesGone) =>
      (Brain(
        if summaryGone then b.summaries - {p} else b.summaries,
        if hashesGone then b.metas - {p} else b.metas, b.journals, b.locks), Raised)
  }

  /** Outcomes that only rewrite the stored hashes: claim, persist, release. */
  function Rehash(c: Call, b: Brain, p: string, meta: Meta, keepError: bool, action: Action): (Brain, Result) {
    var locks := Claimed(c, b.locks, p);
    if ClaimRefused(c, b.locks, p) then (Brain(b.summaries, b.metas, b.journals, locks), Raised)
    else
      var row := LockAt(locks, p);
      var started := if row.Some? then row.value.started else NoStart;
      var error := if keepError && row.Some? then row.value.error else None;
      if c.reply.persistFails then
        (Brain(b.summaries, b.metas, b.journals, MarkedFailed(c, locks, p, started)), Raised)
      else
        var released :=
          if c.owner.Some? then Release(locks, p, c.owner.value, Idle, error)
          else SaveUnowned(locks, p, started, Idle, error);
        (Brain(b.summaries, b.metas[p := meta], b.journals, released), Done(action))
  }

  function Appended(journals: map<string, seq<string>>, p: string, entry: string): map<string, seq<string>> {
    journals[p := (if p in journals then journals[p] else []) + [entry]]
  }

  /** _commit_artifact_plan_or_fail, after the ownership claim and the running mark: the summary (when
      one is written) and the stored state are persisted together, then the journal, then the lock. */
  function Commit(c: Call, b: Brain, p: string, meta: Meta, written: Option<string>, journal: Option<string>, action: Action)
    : (Brain, Result)
  {
    var failed := MarkedFailed(c, b.locks, p, At(c.now));
    var summaries := if written.Some? then b.summaries[p := written.value] else b.summaries;
    if c.reply.persistFails then
      (Brain(if c.reply.restoreFails then summaries else b.summaries, b.metas, b.journals, failed), Raised)
    else
      var metas := b.metas[p := meta];
      if journal.Some? && c.reply.journalFails then (Brain(summaries, metas, b.journals, failed), Raised)
      else
        var journals := if journal.Some? then Appended(b.journals, p, journal.value) else b.journals;
        if TerminalFails(c, b.locks, p) then (Brain(summaries, metas, journals, b.locks), Raised)
        else (Brain(summaries, metas, journals, Terminal(c, b.locks, p, At(c.now), Idle, None)), Done(action))
  }

  /** The similarity verdict keeps the old summary. */
  predicate KeepsSummary(c: Call, b: Brain, p: string) {
    p in b.summaries && b.summaries[p] != "" && c.reply.tooSimilar
  }

  /** content_changed: plan the prompt, read the old summary, claim, mark running, call the model, validate, commit. */
  function Regenerate(sha: Sha, c: Call, b: Brain, p: string, e: Evaluation): (Brain, Result) {
    var claimed := Claimed(c, b.locks, p);
    if c.reply.planningFails then
      (Brain(b.summaries, b.metas, b.journals, MarkedFailed(c, b.locks, p, At(c.now))), Raised)
    else if c.reply.setupFails then (b, Raised)
    else if ClaimRefused(c, b.locks, p) then (Brain(b.summaries, b.metas, b.journals, claimed), Raised)
    else
      var running := SaveUnowned(claimed, p, At(c.now), Running, None);
      if !c.reply.backend.Output? || |c.reply.backend.summary| < MIN_SUMMARY then
        (Brain(b.summaries, b.metas, b.journals, MarkedFailed(c, running, p, At(c.now))), Raised)
      else
        var kept := KeepsSummary(c, b, p);
        var summary := if kept then b.summaries[p] else c.reply.backend.summary;
        var meta := Meta(Some(e.contentHash), Some(sha(summary).Hex()), Some(e.structureHash), Some(c.now));
        Commit(c, Brain(b.summaries, b.metas, b.journals, running), p, meta,
          if kept then None else Some(summary), c.reply.backend.journal,
          if kept then SkippedSimilarity else Regenerated)
  }

  /** The stored state with both hashes brought up to the evaluation. */
  function Restated(e: Evaluation): Meta {
    if e.meta.Some?
    then Meta(Some(e.contentHash), e.meta.value.summaryHash, Some(e.structureHash), e.meta.value.lastRegen)
    else Meta(Some(e.contentHash), None, Some(e.structureHash), None)
  }

  function Evaluated(sha: Sha, tree: Tree, b: Brain, p: string): Evaluation {
    Evaluate(sha, tree, b.summaries, b.metas, p)
  }

  function Act(sha: Sha, c: Call, b: Brain, p: string, e: Evaluation): (Brain, Result) {
    match e.outcome
    case MissingPath => CleanUp(b, p, c.reply.cleanup, CleanedUp)
    case NoContent => CleanUp(b, p, c.reply.cleanup, SkippedNoContent)
    case MetadataBackfill => Rehash(c, b, p, Restated(e), true, SkippedBackfill)
    case Unchanged => Rehash(c, b, p, Restated(e), true, SkippedUnchanged)
    case StructureOnly => Rehash(c, b, p, Restated(e), false, SkippedRename)
    case ContentChanged => Regenerate(sha, c, b, p, e)
  }

  /** regen_single_folder */
  function RegenFolder(sha: Sha, tree: Tree, c: Call, b: Brain, p: string): (Brain, Result) {
    if c.reply.readFails then (b, Raised) else Act(sha, c, b, p, Evaluated(sha, tree, b, p))
  }

  // ---------- a batch over an order of folders ----------

  /** A batch in progress. log records each evaluated folder with the outcome it was evaluated to;
      spoiled are the folders that raised after their summary had already changed. */
  datatype Run = Run(
    brain: Brain, dirty: set<string>, failed: set<string>, refused: set<string>, spoiled: set<string>,
    regenerated: nat, log: seq<(string, Verdict)>)

  /** The fixed surroundings of a batch. A batch reaches each folder at most once, so the call made for
      a folder is a function of its path. Guarded batches (the queue's) acquire ownership before they
      look at a folder. When a folder in giveUp fails, the queue's last retry is spent: the row of the
      path it maps to is left failed. */
  datatype Env = Env(
    sha: Sha, tree: Tree, guarded: bool, guardThreshold: int, giveUp: map<string, string>, call: string -> Call)

  /** The terminal row written when retries are exhausted; a row owned by somebody else is left alone. */
  function GaveUp(locks: Locks, p: string, owner: Option<string>, reason: string): Locks {
    if OwnerOf(locks, p) == None then
      SaveUnowned(locks, p, if p in locks then locks[p].started else NoStart, Failed, Some(reason))
    else if OwnerOf(locks, p) == owner then Release(locks, p, owner.value, Failed, Some(reason))
    else locks
  }

  /** The brain after p raised. */
  function AfterFailure(env: Env, b: Brain, p: string): Brain {
    if p in env.giveUp
    then Brain(b.summaries, b.metas, b.journals,
      GaveUp(b.locks, env.giveUp[p], env.call(p).owner, env.call(p).reply.reason))
    else b
  }

  function GuardOwner(c: Call): string {
    if c.owner.Some? then c.owner.value else ""
  }

  predicate GuardRefuses(c: Call, threshold: int, locks: Locks, p: string) {
    !CanAcquire(locks, p, GuardOwner(c), c.now, threshold, c.badSortsLow)
  }

  function GuardedLocks(c: Call, threshold: int, locks: Locks, p: string): Locks {
    Acquire(locks, p, GuardOwner(c), c.now, threshold, c.badSortsLow)
  }

  predicate Refuses(env: Env, b: Brain, p: string) {
    env.guarded && GuardRefuses(env.call(p), env.guardThreshold, b.locks, p)
  }

  /** The brain a folder's regeneration starts from. */
  function Entered(env: Env, b: Brain, p: string): Brain {
    if env.guarded
    then Brain(b.summaries, b.metas, b.journals, GuardedLocks(env.call(p), env.guardThreshold, b.locks, p))
    else b
  }

  function Outcome(env: Env, b: Brain, p: string): (Brain, Result) {
    RegenFolder(env.sha, env.tree, env.call(p), Entered(env, b, p), p)
  }

  /** Record a regeneration that was attempted. */
  function Record(env: Env, run: Run, p: string, evaluated: Verdict, after: Brain, result: Result): Run {
    var log := run.log + [(p, evaluated)];
    if result.Raised? then
      var spoiled := if after.summaries == run.brain.summaries then run.spoiled else run.spoiled + {p};
      Run(AfterFailure(env, after, p), run.dirty, run.failed + {p}, run.refused, spoiled, run.regenerated, log)
    else
      var dirty := if PropagatesUp(result.action) && p != "" then run.dirty + {ParentPath(p)} else run.dirty;
      var regenerated := if result.action == Regenerated then run.regenerated + 1 else run.regenerated;
      Run(after, dirty, run.failed, run.refused, run.spoiled, regenerated, log)
  }

  /** Process one folder that is known to be dirty. */
  function Process(env: Env, run: Run, p: string): Run {
    if Refuses(env, run.brain, p)
    then Run(Entered(env, run.brain, p), run.dirty, run.failed, run.refused + {p}, run.spoiled, run.regenerated, run.log)
    else
      var (after, result) := Outcome(env, run.brain, p);
      Record(env, run, p, Evaluated(env.sha, env.tree, run.brain, p).outcome, after, result)
  }

  function Visit(env: Env, run: Run, p: string): Run {
    if p in run.dirty then Process(env, run, p) else run
  }

  function RunOrder(env: Env, run: Run, order: seq<string>): Run
    decreases |order|
  {
    if order == [] then run else RunOrder(env, Visit(env, run, order[0]), order[1..])
  }

  function Start(b: Brain, ready: seq<string>): Run {
    Run(b, set p | p in ready, {}, {}, {}, 0, [])
  }

  /** Processing p succeeds with an action that propagates to the parent. */
  predicate Continues(env: Env, run: Run, p: string) {
    var result := Outcome(env, run.brain, p).1;
    !Refuses(env, run.brain, p) && result.Done? && PropagatesUp(result.action)
  }

  /** The explicit walk-up: folder by folder along the chain while the last action propagates. */
  function WalkUp(env: Env, run: Run, chain: seq<string>): Run
    decreases |chain|
  {
    if chain == [] then run
    else if Continues(env, run, chain[0]) then WalkUp(env, Process(env, run, chain[0]), chain[1..])
    else Process(env, run, chain[0])
  }

  lemma {:induction false} RunOrderAppend(env: Env, run: Run, a: seq<string>, b: seq<string>)
    ensures RunOrder(env, run, a + b) == RunOrder(env, RunOrder(env, run, a), b)
    decreases |a|
  {
    if a == [] {
      assert a + b == b;
    } else {
      assert (a + b)[1..] == a[1..] + b;
      RunOrderAppend(env, Visit(env, run, a[0]), a[1..], b);
    }
  }
}
