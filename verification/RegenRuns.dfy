/** The engine as it runs: fields updated in place, loops over folders. Every method is tied to the
    specification functions of module RegenEngine. */
module RegenRuns {
  import opened Basics
  import opened Topology
  import opened Evaluation
  import opened KnowledgeTree
  import opened RegenLocks
  import opened RegenEngine
  import opened RegenSoundness
  import opened RegenConsistency

  class Engine {
    var summaries: map<string, string>
    var metas: map<string, Meta>
    var journals: map<string, seq<string>>
    const locks: LockTable

    constructor (locks: LockTable, b: Brain)
      ensures this.locks == locks && locks.rows == old(locks.rows)
      ensures State() == Brain(b.summaries, b.metas, b.journals, locks.rows)
    {
      this.locks := locks;
      summaries, metas, journals := b.summaries, b.metas, b.journals;
    }

    ghost function State(): Brain
      reads this, locks
    {
      Brain(summaries, metas, journals, locks.rows)
    }

    method ClaimRegenOwnership(c: Call, p: string) returns (claimed: bool)
      modifies locks
      ensures claimed == !ClaimRefused(c, old(locks.rows), p)
      ensures locks.rows == Claimed(c, old(locks.rows), p)
    {
      claimed := true;
      if c.owner.Some? {
        claimed := locks.AcquireRegenOwnership(p, c.owner.value, c.now, STALE_THRESHOLD, c.badSortsLow);
      }
    }

    method SaveTerminalRegenLock(c: Call, p: string, started: Started, status: Status, error: Option<string>)
      returns (saved: bool)
      modifies locks
      ensures saved == !TerminalFails(c, old(locks.rows), p)
      ensures locks.rows == Terminal(c, old(locks.rows), p, started, status, error)
    {
      if c.owner == None {
        saved := locks.SaveRegenLock(p, Lock(status, started, None, error));
        return;
      }
      var released := locks.ReleaseRegenOwnership(p, c.owner.value, status, error);
      if released {
        return true;
      }
      if p !in locks.rows {
        saved := locks.SaveRegenLock(p, Lock(status, started, None, error));
      } else if locks.rows[p].owner == None {
        var kept := if locks.rows[p].started != NoStart then locks.rows[p].started else started;
        saved := locks.SaveRegenLock(p, Lock(status, kept, None, error));
      } else {
        saved := false;
      }
    }

    /** A failure of the terminal save itself is swallowed here; the original error is raised. */
    method MarkFailed(c: Call, p: string, started: Started)
      modifies locks
      ensures locks.rows == MarkedFailed(c, old(locks.rows), p, started)
    {
      var _ := SaveTerminalRegenLock(c, p, started, Failed, Some(c.reply.reason));
    }

    method CleanUpArea(c: Call, p: string, action: Action) returns (result: Result)
      modifies this, locks
      ensures State() == CleanUp(old(State()), p, c.reply.cleanup, action).0
      ensures result == CleanUp(old(State()), p, c.reply.cleanup, action).1
    {
      var cleanup := c.reply.cleanup;
      if cleanup == CleanupOk || cleanup.hashesGone {
        metas := metas - {p};
      }
      if cleanup == CleanupOk || cleanup.summaryGone {
        summaries := summaries - {p};
      }
      if cleanup != CleanupOk {
        return Raised;
      }
      locks.DeleteRegenLock(p);
      result := Done(action);
    }

    method RehashArea(c: Call, p: string, meta: Meta, keepError: bool, action: Action) returns (result: Result)
      modifies this, locks
      ensures State() == Rehash(c, old(State()), p, meta, keepError, action).0
      ensures result == Rehash(c, old(State()), p, meta, keepError, action).1
    {
      var claimed := ClaimRegenOwnership(c, p);
      if !claimed {
        return Raised;
      }
      var row := LockAt(locks.rows, p);
      var started := if row.Some? then row.value.started else NoStart;
      var error := if keepError && row.Some? then row.value.error else None;
      if c.reply.persistFails {
        MarkFailed(c, p, started);
        return Raised;
      }
      metas := metas[p := meta];
      if c.owner.Some? {
        var _ := locks.ReleaseRegenOwnership(p, c.owner.value, Idle, error);
      } else {
        var _ := locks.SaveRegenLock(p, Lock(Idle, started, None, error));
      }
      result := Done(action);
    }

    /** Summary and hashes, then the journal, then the lock row: a failure marks the row failed but
        does not take back what was written before it. */
    method CommitArtifactPlan(
      c: Call, p: string, meta: Meta, written: Option<string>, journal: Option<string>, action: Action)
      returns (result: Result)
      modifies this, locks
      ensures State() == Commit(c, old(State()), p, meta, written, journal, action).0
      ensures result == Commit(c, old(State()), p, meta, written, journal, action).1
    {
      var previous := LookUp(summaries, p);
      if written.Some? {
        summaries := summaries[p := written.value];
      }
      if c.reply.persistFails {
        if written.Some? && !c.reply.restoreFails {
          summaries := if previous.Some? then summaries[p := previous.value] else summaries - {p};
          assert summaries == old(summaries);
        }
        MarkFailed(c, p, At(c.now));
        return Raised;
      }
      metas := metas[p := meta];
      if journal.Some? {
        if c.reply.journalFails {
          MarkFailed(c, p, At(c.now));
          return Raised;
        }
        journals := Appended(journals, p, journal.value);
      }
      var saved := SaveTerminalRegenLock(c, p, At(c.now), Idle, None);
      if !saved {
        MarkFailed(c, p, At(c.now));
        return Raised;
      }
      result := Done(action);
    }

    method RegenerateArea(c: Call, p: string, e: Evaluation, sha: Sha) returns (result: Result)
      modifies this, locks
      ensures State() == Regenerate(sha, c, old(State()), p, e).0
      ensures result == Regenerate(sha, c, old(State()), p, e).1
    {
      if c.reply.planningFails {
        MarkFailed(c, p, At(c.now));
        return Raised;
      }
      if c.reply.setupFails {
        return Raised;
      }
      var claimed := ClaimRegenOwnership(c, p);
      if !claimed {
        return Raised;
      }
      var _ := locks.SaveRegenLock(p, Lock(Running, At(c.now), c.owner, None));
      match c.reply.backend {
        case BackendError =>
          MarkFailed(c, p, At(c.now));
          result := Raised;
        case Malformed =>
          MarkFailed(c, p, At(c.now));
          result := Raised;
        case Output(summary, journal) =>
          if |summary| < MIN_SUMMARY {
            MarkFailed(c, p, At(c.now));
            return Raised;
          }
          var old_ := if p in summaries then summaries[p] else "";
          if old_ != "" && c.reply.tooSimilar {
            var meta := Meta(Some(e.contentHash), Some(sha(old_).Hex()), Some(e.structureHash), Some(c.now));
            result := CommitArtifactPlan(c, p, meta, None, journal, SkippedSimilarity);
          } else {
            var meta := Meta(Some(e.contentHash), Some(sha(summary).Hex()), Some(e.structureHash), Some(c.now));
            result := CommitArtifactPlan(c, p, meta, Some(summary), journal, Regenerated);
          }
      }
    }

    method RegenSingleFolder(sha: Sha, tree: Tree, c: Call, p: string) returns (result: Result)
      modifies this, locks
      ensures State() == RegenFolder(sha, tree, c, old(State()), p).0
      ensures result == RegenFolder(sha, tree, c, old(State()), p).1
    {
      if c.reply.readFails {
        return Raised;
      }
      var e := EvaluateFolderState(sha, tree, summaries, metas, p);
      match e.outcome {
        case MissingPath => result := CleanUpArea(c, p, CleanedUp);
        case NoContent => result := CleanUpArea(c, p, SkippedNoContent);
        case MetadataBackfill => result := RehashArea(c, p, Restated(e), true, SkippedBackfill);
        case Unchanged => result := RehashArea(c, p, Restated(e), true, SkippedUnchanged);
        case StructureOnly => result := RehashArea(c, p, Restated(e), false, SkippedRename);
        case ContentChanged => result := RegenerateArea(c, p, e, sha);
      }
    }

    /** regen_path: the walk-up without the queue's guard. */
    method RegenPath(env: Env, path: string, maxDepth: nat) returns (regenerated: nat, raised: bool)
      requires !env.guarded && env.giveUp == map[]
      modifies this, locks
      ensures var walk := WalkUp(env, Start(old(State()), [path]), BoundedChain(path, maxDepth));
        && State() == walk.brain && regenerated == walk.regenerated && raised == (walk.failed != {})
    {
      hide Process, Continues, RegenFolder;
      ghost var chain := BoundedChain(path, maxDepth);
      ghost var run := Start(State(), [path]);
      ghost var goal := WalkUp(env, run, chain);
      regenerated, raised := 0, false;
      var current := path;
      var step := 0;
      while step < maxDepth
        invariant step <= maxDepth && step < |Chain(path)| && current == Chain(path)[step]
        invariant State() == run.brain && regenerated == run.regenerated && run.failed == {} && !raised
        invariant goal == WalkUp(env, run, chain[step..])
      {
        assert chain[step..][0] == current && chain[step..][1..] == chain[step + 1..];
        UnguardedStep(env, run, current);
        var result := RegenSingleFolder(env.sha, env.tree, env.call(current), current);
        run := Process(env, run, current);
        raised := result.Raised?;
        if raised {
          return;
        }
        if result.action == Regenerated {
          regenerated := regenerated + 1;
        }
        if !PropagatesUp(result.action) {
          return;
        }
        step := step + 1;
        if current == "" {
          LastOfChain(path, step - 1);
          return;
        }
        NotLastOfChain(path, step - 1);
        ChainStep(path, step - 1);
        current := ParentPath(current);
      }
    }

    /** The wave loop of regen_all. failed_paths keeps the order of failures. */
    method RunWaves(env: Env, waves: seq<seq<string>>, ready: seq<string>) returns (total: nat, failedPaths: seq<string>)
      requires !env.guarded && env.giveUp == map[]
      modifies this, locks
      ensures var run := RunOrder(env, Start(old(State()), ready), Flatten(waves));
        && State() == run.brain && total == run.regenerated && (forall p :: p in failedPaths <==> p in run.failed)
    {
      ghost var goal := RunOrder(env, Start(State(), ready), Flatten(waves));
      ghost var run := Start(State(), ready);
      var dirty := set p | p in ready;
      total, failedPaths := 0, [];
      var w := 0;
      while w < |waves|
        invariant w <= |waves|
        invariant State() == run.brain && dirty == run.dirty && total == run.regenerated
        invariant forall p :: p in failedPaths <==> p in run.failed
        invariant goal == RunOrder(env, run, Flatten(waves[w..]))
      {
        var wave := waves[w];
        assert waves[w..] == [wave] + waves[w + 1..];
        ghost var later := Flatten(waves[w + 1..]);
        assert Flatten(waves[w..]) == wave[0..] + later;
        var i := 0;
        while i < |wave|
          invariant i <= |wave|
          invariant State() == run.brain && dirty == run.dirty && total == run.regenerated
          invariant forall p :: p in failedPaths <==> p in run.failed
          invariant goal == RunOrder(env, run, wave[i..] + later)
        {
          var p := wave[i];
          assert (wave[i..] + later)[0] == p && (wave[i..] + later)[1..] == wave[i + 1..] + later;
          ghost var next := Visit(env, run, p);
          if p in dirty {
            var result := RegenSingleFolder(env.sha, env.tree, env.call(p), p);
            if result.Raised? {
              failedPaths := failedPaths + [p];
            } else {
              if result.action == Regenerated {
                total := total + 1;
              }
              if PropagatesUp(result.action) && p != "" {
                dirty := dirty + {ParentPath(p)};
              }
            }
          }
          run := next;
          i := i + 1;
        }
        assert wave[i..] + later == later;
        w := w + 1;
      }
      assert Flatten(waves[w..]) == [];
    }

    method DeleteAreaState(p: string)
      modifies this`metas, locks`rows
      ensures metas == old(metas) - {p} && locks.rows == old(locks.rows) - {p}
    {
      metas := metas - {p};
      locks.DeleteRegenLock(p);
    }

    /** Delete the state of areas whose directory is gone. */
    method DeleteOrphans(tree: Tree, contentPaths: seq<string>)
      modifies this`metas, locks`rows
      ensures State() == Pruned(old(State()), tree, contentPaths)
    {
      hide AllPruned, Pruned;
      ghost var b := State();
      var known := metas.Keys + locks.rows.Keys;
      var rest := known;
      NothingPrunedYet(metas, known, tree, contentPaths);
      NothingPrunedYet(locks.rows, known, tree, contentPaths);
      while rest != {}
        invariant AllPruned(b.metas, metas, rest, tree, contentPaths)
        invariant AllPruned(b.locks, locks.rows, rest, tree, contentPaths)
        decreases |rest|
      {
        var p :| p in rest;
        PrunedStep(b.metas, metas, rest, p, tree, contentPaths);
        PrunedStep(b.locks, locks.rows, rest, p, tree, contentPaths);
        if Orphaned(tree, contentPaths, p) {
          DeleteAreaState(p);
        }
        rest := rest - {p};
      }
      AllPrunedIsPruned(b, metas, locks.rows, tree, contentPaths);
    }

    /** regen_all */
    method RegenAll(env: Env)
      returns (total: nat, failedPaths: seq<string>, ghost contentPaths: seq<string>, ghost waves: seq<seq<string>>)
      requires !env.guarded && env.giveUp == map[] && ValidTree(env.tree) && Rooted(env.tree)
      modifies this, locks
      ensures WavePlan(contentPaths, waves) && forall q :: q in contentPaths <==> q != "" && HasEntries(env.tree, q)
      ensures var run := RunOrder(env, Start(old(State()), contentPaths), Flatten(waves));
        && total == run.regenerated && (forall p :: p in failedPaths <==> p in run.failed)
        && State() == if contentPaths == [] then old(State()) else Pruned(run.brain, env.tree, contentPaths)
    {
      var paths := FindAllContentPaths(env.tree);
      contentPaths := paths;
      if paths == [] {
        total, failedPaths, waves := 0, [], [];
        return;
      }
      var plan := ComputeWaves(paths);
      waves := plan;
      total, failedPaths := RunWaves(env, plan, paths);
      DeleteOrphans(env.tree, paths);
    }
  }

  function LookUp(m: map<string, string>, p: string): Option<string> {
    if p in m then Some(m[p]) else None
  }

  predicate Orphaned(tree: Tree, contentPaths: seq<string>, p: string) {
    p !in tree && p != "" && p !in contentPaths
  }

  /** Of the old rows, the orphans not in rest are gone and the others are unchanged. */
  ghost predicate AllPruned<V>(
    before: map<string, V>, after: map<string, V>, rest: set<string>, tree: Tree, contentPaths: seq<string>)
  {
    && (forall k :: k in after <==> k in before && (k in rest || !Orphaned(tree, contentPaths, k)))
    && (forall k :: k in after ==> after[k] == before[k])
  }

  lemma NothingPrunedYet<V>(m: map<string, V>, known: set<string>, tree: Tree, contentPaths: seq<string>)
    requires m.Keys <= known
    ensures AllPruned(m, m, known, tree, contentPaths)
  {
  }

  lemma AllPrunedIsPruned(b: Brain, metas: map<string, Meta>, locks: Locks, tree: Tree, contentPaths: seq<string>)
    requires AllPruned(b.metas, metas, {}, tree, contentPaths) && AllPruned(b.locks, locks, {}, tree, contentPaths)
    ensures Brain(b.summaries, metas, b.journals, locks) == Pruned(b, tree, contentPaths)
  {
    assert metas == Pruned(b, tree, contentPaths).metas;
    assert locks == Pruned(b, tree, contentPaths).locks;
  }

  lemma PrunedStep<V>(
    before: map<string, V>, after: map<string, V>, rest: set<string>, p: string, tree: Tree, contentPaths: seq<string>)
    requires AllPruned(before, after, rest, tree, contentPaths)
    ensures AllPruned(before,
      if Orphaned(tree, contentPaths, p) then after - {p} else after, rest - {p}, tree, contentPaths)
  {
  }

  function OrphansIn(paths: set<string>, tree: Tree, contentPaths: seq<string>): set<string> {
    set p | p in paths && Orphaned(tree, contentPaths, p)
  }

  /** What processing one folder of an unguarded run amounts to. */
  lemma UnguardedStep(env: Env, run: Run, p: string)
    requires !env.guarded && env.giveUp == map[]
    ensures
      var (after, result) := RegenFolder(env.sha, env.tree, env.call(p), run.brain, p);
      var next := Process(env, run, p);
      && next.brain == after
      && next.failed == (if result.Raised? then run.failed + {p} else run.failed)
      && next.regenerated == (if result.Done? && result.action == Regenerated then run.regenerated + 1 else run.regenerated)
      && (Continues(env, run, p) <==> result.Done? && PropagatesUp(result.action))
  {
    hide RegenFolder, Evaluated;
    var result := RegenFolder(env.sha, env.tree, env.call(p), run.brain, p).1;
    assert result.Done? || result.Raised?;
  }

  function Pruned(b: Brain, tree: Tree, contentPaths: seq<string>): Brain {
    var gone := OrphansIn(b.metas.Keys + b.locks.Keys, tree, contentPaths);
    Brain(b.summaries, b.metas - gone, b.journals, b.locks - gone)
  }

  lemma LastOfChain(p: string, i: nat)
    requires i < |Chain(p)| && Chain(p)[i] == ""
    ensures i == |Chain(p)| - 1
  {
    if i + 1 < |Chain(p)| {
      ChainStep(p, i);
    }
  }

  lemma NotLastOfChain(p: string, i: nat)
    requires i < |Chain(p)| && Chain(p)[i] != ""
    ensures i + 1 < |Chain(p)|
  {
  }

  /** Deleting orphans does not disturb an area that still exists. */
  lemma PruningKeepsCurrent(env: Env, b: Brain, contentPaths: seq<string>, q: string)
    requires q in env.tree
    ensures Current(env, Pruned(b, env.tree, contentPaths), q) == Current(env, b, q)
  {
  }

  /** A full run without failures brings every area that has files or child directories up to date; the
      root and the empty directories are repaired exactly when a child's change reached them. */
  lemma FullRunRepairsExactly(
    env: Env, b0: Brain, contentPaths: seq<string>, waves: seq<seq<string>>, q: string)
    requires ValidTree(env.tree) && Rooted(env.tree) && WavePlan(contentPaths, waves) && q in env.tree
    requires forall p :: p in contentPaths <==> p != "" && HasEntries(env.tree, p)
    requires Clean(RunOrder(env, Start(b0, contentPaths), Flatten(waves)))
    ensures
      var run := RunOrder(env, Start(b0, contentPaths), Flatten(waves));
      && (q != "" && HasEntries(env.tree, q) ==> Current(env, Pruned(run.brain, env.tree, contentPaths), q))
      && (Current(env, Pruned(run.brain, env.tree, contentPaths), q) <==> q in run.dirty || Current(env, b0, q))
      && (Current(env, Pruned(run.brain, env.tree, contentPaths), q) <==>
            q in contentPaths || Reached(env, Start(b0, contentPaths), Flatten(waves), q) || Current(env, b0, q))
  {
    var run := RunOrder(env, Start(b0, contentPaths), Flatten(waves));
    CleanBatchRepairsExactly(env, b0, contentPaths, waves, q);
    PruningKeepsCurrent(env, run.brain, contentPaths, q);
    DirtyGrows(env, Start(b0, contentPaths), Flatten(waves));
  }

  lemma PruningKeepsRested(env: Env, run: Run, contentPaths: seq<string>, q: string)
    requires Rested(env, run, q)
    ensures Rested(env, run.(brain := Pruned(run.brain, env.tree, contentPaths)), q)
  {
    MissingPathExactly(env.sha, env.tree, run.brain, q);
    MissingPathExactly(env.sha, env.tree, Pruned(run.brain, env.tree, contentPaths), q);
  }

  /** regen_all reaches a fixpoint: after one clean full run, a second one on the same files changes no
      summary and no stored hash and calls no model. */
  lemma SecondFullRunIsIdle(
    env: Env, again: Env, b0: Brain, contentPaths: seq<string>, waves: seq<seq<string>>)
    requires ValidTree(env.tree) && WavePlan(contentPaths, waves)
    requires again.sha == env.sha && again.tree == env.tree
    requires Clean(RunOrder(env, Start(b0, contentPaths), Flatten(waves)))
    ensures
      var first := RunOrder(env, Start(b0, contentPaths), Flatten(waves));
      var pruned := first.(brain := Pruned(first.brain, env.tree, contentPaths));
      Idles(pruned, RunOrder(again, Start(pruned.brain, contentPaths), Flatten(waves)))
  {
    var order := Flatten(waves);
    var first := RunOrder(env, Start(b0, contentPaths), order);
    var pruned := first.(brain := Pruned(first.brain, env.tree, contentPaths));
    WavePlanIsSchedule(contentPaths, waves);
    assert order[0..] == order;
    RunRests(env, Start(b0, contentPaths), order, 0);
    DirtyGrows(env, Start(b0, contentPaths), order);
    forall q | q in order && q in pruned.dirty ensures Rested(again, pruned, q) {
      PruningKeepsRested(env, first, contentPaths, q);
      assert Rested(env, pruned, q);
    }
    RunIdles(again, pruned, Start(pruned.brain, contentPaths), order);
  }
}
