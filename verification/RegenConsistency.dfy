/** Whole batches: selective recomputation restores consistency for any model output, a second run is
    a no-op, and the bounded walk-up agrees with the wave batch. */
module RegenConsistency {
  import opened Basics
  import opened Topology
  import opened Evaluation
  import opened RegenLocks
  import opened RegenEngine
  import opened RegenSoundness

  // ---------- selective recomputation is sound ----------

  ghost predicate Current(env: Env, b: Brain, q: string)
    requires q in env.tree
  {
    UpToDate(env.sha, env.tree, b.summaries, b.metas, q)
  }

  /** Some child raised after its summary had already been replaced. */
  ghost predicate ChildSpoiled(spoiled: set<string>, q: string) {
    exists c :: c in spoiled && c != "" && ParentPath(c) == q
  }

  ghost predicate Settled(env: Env, run: Run, q: string)
    requires q in env.tree
  {
    Current(env, run.brain, q) || q in run.failed || q in run.refused || ChildSpoiled(run.spoiled, q)
  }

  ghost predicate Pending(run: Run, rest: seq<string>, q: string) {
    q in run.dirty && q in rest
  }

  /** Every area that was up to date at the start, or is known to be dirty, is settled or still to come. */
  ghost predicate OnTrack(env: Env, b0: Brain, run: Run, rest: seq<string>) {
    forall q :: q in env.tree && (q in run.dirty || Current(env, b0, q)) ==> Pending(run, rest, q) || Settled(env, run, q)
  }

  lemma ParentComesLater(order: seq<string>, k: nat)
    requires Schedule(order) && k < |order| && order[k] != ""
    ensures ParentPath(order[k]) in order[k + 1..]
  {
    var parent := ParentPath(order[k]);
    assert order[k] in order;
    var j :| 0 <= j < |order| && order[j] == parent;
    ParentShallower(order[k]);
    assert j > k;
    assert order[k + 1..][j - k - 1] == parent;
  }

  /** The folder just visited is settled. */
  lemma VisitSettles(env: Env, run: Run, p: string)
    requires ValidTree(env.tree) && p in env.tree && p in run.dirty
    ensures Settled(env, Visit(env, run, p), p)
  {
    if !Refuses(env, run.brain, p) && Outcome(env, run.brain, p).1.Done? {
      DoneIsQuiet(env.sha, env.tree, env.call(p), Entered(env, run.brain, p), p);
      QuietIsUpToDate(env.sha, env.tree, Outcome(env, run.brain, p).0, p);
    }
  }

  lemma VisitGrows(env: Env, run: Run, p: string)
    ensures
      var next := Visit(env, run, p);
      && run.dirty <= next.dirty <= run.dirty + {ParentPath(p)}
      && run.failed <= next.failed && run.refused <= next.refused && run.spoiled <= next.spoiled
  {
  }

  lemma RootNeverDirtiesItself(env: Env, run: Run)
    ensures Visit(env, run, "").dirty == run.dirty
  {
  }

  /** A visit reaches p's own row and, when p's summary changes, p's parent: nothing else. */
  lemma VisitFrame(env: Env, run: Run, p: string)
    ensures
      var next := Visit(env, run, p);
      && SameExcept(run.brain.summaries, next.brain.summaries, p)
      && SameExcept(run.brain.metas, next.brain.metas, p)
      && (next.brain.summaries == run.brain.summaries || p in next.spoiled || p == "" || ParentPath(p) in next.dirty)
  {
    if p in run.dirty && !Refuses(env, run.brain, p) {
      var entered := Entered(env, run.brain, p);
      RegenFolderFrame(env.sha, env.tree, env.call(p), entered, p);
      var result := Outcome(env, run.brain, p).1;
      if result.Done? && !PropagatesUp(result.action) {
        NonPropagatingKeepsSummary(env.sha, env.tree, env.call(p), entered, p);
      }
    }
  }

  /** A settled area other than p stays settled, or becomes dirty again. */
  lemma VisitKeepsSettled(env: Env, run: Run, p: string, q: string)
    requires ValidTree(env.tree) && q in env.tree && q != p
    requires Settled(env, run, q)
    ensures Settled(env, Visit(env, run, p), q) || (p != "" && q == ParentPath(p) && q in Visit(env, run, p).dirty)
  {
    var next := Visit(env, run, p);
    VisitGrows(env, run, p);
    VisitFrame(env, run, p);
    if Current(env, run.brain, q) {
      if next.brain.summaries == run.brain.summaries || p == "" || ParentPath(p) != q {
        CurrentFrame(env, run.brain, next.brain, p, q);
      } else if p in next.spoiled {
        assert ChildSpoiled(next.spoiled, q);
      }
    } else if ChildSpoiled(run.spoiled, q) {
      assert ChildSpoiled(next.spoiled, q);
    }
  }

  lemma CurrentFrame(env: Env, b0: Brain, b1: Brain, p: string, q: string)
    requires ValidTree(env.tree) && q in env.tree && q != p
    requires SameExcept(b0.summaries, b1.summaries, p) && SameExcept(b0.metas, b1.metas, p)
    requires b0.summaries == b1.summaries || p == "" || ParentPath(p) != q
    ensures Current(env, b0, q) == Current(env, b1, q)
  {
    EvaluateFrame(env.sha, env.tree, b0.summaries, b0.metas, b1.summaries, b1.metas, p, q);
    EvaluationDecidesUpToDate(env.sha, env.tree, b0.summaries, b0.metas, q);
    EvaluationDecidesUpToDate(env.sha, env.tree, b1.summaries, b1.metas, q);
  }

  lemma VisitStaysOnTrack(env: Env, b0: Brain, run: Run, order: seq<string>, k: nat)
    requires ValidTree(env.tree) && Schedule(order) && k < |order|
    requires OnTrack(env, b0, run, order[k..])
    ensures OnTrack(env, b0, Visit(env, run, order[k]), order[k + 1..])
  {
    var p := order[k];
    var next := Visit(env, run, p);
    VisitGrows(env, run, p);
    RootNeverDirtiesItself(env, run);
    if p != "" {
      ParentComesLater(order, k);
    }
    assert order[k..] == [p] + order[k + 1..];
    forall q | q in env.tree && (q in next.dirty || Current(env, b0, q))
      ensures Pending(next, order[k + 1..], q) || Settled(env, next, q)
    {
      if q == p && p in run.dirty {
        VisitSettles(env, run, p);
      } else if q in run.dirty || Current(env, b0, q) {
        if Settled(env, run, q) && q != p {
          VisitKeepsSettled(env, run, p, q);
        }
      }
    }
  }

  lemma {:induction false} RunStaysOnTrack(env: Env, b0: Brain, run: Run, order: seq<string>, k: nat)
    requires ValidTree(env.tree) && Schedule(order) && k <= |order|
    requires OnTrack(env, b0, run, order[k..])
    ensures OnTrack(env, b0, RunOrder(env, run, order[k..]), [])
    decreases |order| - k
  {
    if k < |order| {
      VisitStaysOnTrack(env, b0, run, order, k);
      assert order[k..][1..] == order[k + 1..];
      RunStaysOnTrack(env, b0, Visit(env, run, order[k]), order, k + 1);
    }
  }

  /** Whatever the model returns and whatever fails: after the batch, every area that was requested,
      reached, or up to date before is up to date, or failed, or was refused, or has a child that
      failed after changing its own summary. */
  lemma BatchSettlesEverything(env: Env, b0: Brain, ready: seq<string>, order: seq<string>, q: string)
    requires ValidTree(env.tree) && Schedule(order) && q in env.tree
    requires forall p :: p in ready ==> p in order
    requires q in ready || Current(env, b0, q)
    ensures Settled(env, RunOrder(env, Start(b0, ready), order), q)
  {
    assert order[0..] == order;
    RunStaysOnTrack(env, b0, Start(b0, ready), order, 0);
    DirtyGrows(env, Start(b0, ready), order);
    assert !Pending(RunOrder(env, Start(b0, ready), order), [], q);
  }

  lemma {:induction false} DirtyGrows(env: Env, run: Run, order: seq<string>)
    ensures run.dirty <= RunOrder(env, run, order).dirty
    decreases |order|
  {
    if order != [] {
      VisitGrows(env, run, order[0]);
      DirtyGrows(env, Visit(env, run, order[0]), order[1..]);
    }
  }

  // ---------- which failures leave a parent stale ----------

  /** The visit of p makes a call that raises after changing its summary. */
  predicate SpoilsAt(env: Env, run: Run, p: string) {
    p in run.dirty && !Refuses(env, run.brain, p) && Spoils(env.sha, env.tree, env.call(p), Entered(env, run.brain, p), p)
  }

  lemma VisitSpoilsExactlyWhen(env: Env, run: Run, p: string)
    ensures Visit(env, run, p).spoiled == if SpoilsAt(env, run, p) then run.spoiled + {p} else run.spoiled
  {
    hide RegenFolder, Spoils;
    SpoilsExactlyWhen(env.sha, env.tree, env.call(p), Entered(env, run.brain, p), p);
    var result := Outcome(env, run.brain, p).1;
    assert result.Done? || result.Raised?;
  }

  /** No call of the batch fails between its summary and its end. */
  ghost predicate NoneSpoils(env: Env, run: Run, order: seq<string>)
    decreases |order|
  {
    order == [] || (!SpoilsAt(env, run, order[0]) && NoneSpoils(env, Visit(env, run, order[0]), order[1..]))
  }

  lemma {:induction false} NothingSpoiledExactlyWhen(env: Env, run: Run, order: seq<string>)
    requires run.spoiled == {}
    ensures RunOrder(env, run, order).spoiled == {} <==> NoneSpoils(env, run, order)
    decreases |order|
  {
    hide Visit, SpoilsAt;
    if order != [] {
      var next := Visit(env, run, order[0]);
      VisitSpoilsExactlyWhen(env, run, order[0]);
      SpoiledGrows(env, next, order[1..]);
      if SpoilsAt(env, run, order[0]) {
        assert order[0] in next.spoiled;
      } else {
        NothingSpoiledExactlyWhen(env, next, order[1..]);
      }
    }
  }

  /** Soundness with failures: if every area outside the ready set is up to date, then after a wave
      batch in which no call fails between its summary and its end, every area of the tree is up to
      date, or it failed or was refused itself. */
  lemma EarlyFailuresLeaveNoStaleParent(
    env: Env, b0: Brain, ready: seq<string>, waves: seq<seq<string>>, q: string)
    requires ValidTree(env.tree) && WavePlan(ready, waves)
    requires forall p :: p in env.tree && p !in ready ==> Current(env, b0, p)
    requires NoneSpoils(env, Start(b0, ready), Flatten(waves)) && q in env.tree
    ensures
      var run := RunOrder(env, Start(b0, ready), Flatten(waves));
      Current(env, run.brain, q) || q in run.failed || q in run.refused
  {
    hide RunOrder, WavePlan, Flatten, Current, NoneSpoils;
    WavePlanIsSchedule(ready, waves);
    ReadyIsScheduled(ready, waves);
    BatchSettlesEverything(env, b0, ready, Flatten(waves), q);
    NothingSpoiledExactlyWhen(env, Start(b0, ready), Flatten(waves));
  }

  ghost predicate Clean(run: Run) {
    run.failed == {} && run.refused == {}
  }

  lemma {:induction false} SpoiledFailed(env: Env, run: Run, order: seq<string>)
    requires run.spoiled <= run.failed
    ensures RunOrder(env, run, order).spoiled <= RunOrder(env, run, order).failed
    decreases |order|
  {
    if order != [] {
      SpoiledFailed(env, Visit(env, run, order[0]), order[1..]);
    }
  }

  /** Selective recomputation is sound: if every area outside the ready set is up to date, then after
      a wave batch without failures or refusals every area of the tree is. */
  lemma WaveBatchRestoresConsistency(
    env: Env, b0: Brain, ready: seq<string>, waves: seq<seq<string>>, q: string)
    requires ValidTree(env.tree) && WavePlan(ready, waves)
    requires forall p :: p in env.tree && p !in ready ==> Current(env, b0, p)
    requires Clean(RunOrder(env, Start(b0, ready), Flatten(waves)))
    requires q in env.tree
    ensures Current(env, RunOrder(env, Start(b0, ready), Flatten(waves)).brain, q)
  {
    hide RunOrder, WavePlan, Flatten, Current, Schedule, ValidTree, Settled, Clean;
    var order := Flatten(waves);
    WavePlanIsSchedule(ready, waves);
    ReadyIsScheduled(ready, waves);
    BatchSettlesEverything(env, b0, ready, order, q);
    SpoiledFailed(env, Start(b0, ready), order);
    SettledCleanly(env, RunOrder(env, Start(b0, ready), order), q);
  }

  lemma SettledCleanly(env: Env, run: Run, q: string)
    requires q in env.tree && Settled(env, run, q) && Clean(run) && run.spoiled <= run.failed
    ensures Current(env, run.brain, q)
  {
    hide Current;
  }

  lemma ReadyIsScheduled(ready: seq<string>, waves: seq<seq<string>>)
    requires WavePlan(ready, waves)
    ensures forall p :: p in ready ==> p in Flatten(waves)
  {
    WavePlanIsSchedule(ready, waves);
    forall p | p in ready ensures InClosure(ready, p) {
      assert p in Chain(p);
    }
  }

  /** Some visit of the batch processes a child of q with an action that propagates. */
  ghost predicate Reached(env: Env, run: Run, order: seq<string>, q: string)
    decreases |order|
  {
    order != [] && (PropagatesTo(env, run, order[0], q) || Reached(env, Visit(env, run, order[0]), order[1..], q))
  }

  predicate PropagatesTo(env: Env, run: Run, p: string, q: string) {
    p in run.dirty && p != "" && ParentPath(p) == q && Continues(env, run, p)
  }

  lemma {:induction false} DirtyExactlyWhen(env: Env, run: Run, order: seq<string>, q: string)
    ensures q in RunOrder(env, run, order).dirty <==> q in run.dirty || Reached(env, run, order, q)
    decreases |order|
  {
    hide Process, Continues;
    if order != [] {
      ProcessDirties(env, run, order[0]);
      DirtyExactlyWhen(env, Visit(env, run, order[0]), order[1..], q);
    }
  }

  lemma CleanBatchRepairsDirty(env: Env, b0: Brain, ready: seq<string>, waves: seq<seq<string>>, q: string)
    requires ValidTree(env.tree) && WavePlan(ready, waves) && q in env.tree
    requires Clean(RunOrder(env, Start(b0, ready), Flatten(waves)))
    ensures
      var run := RunOrder(env, Start(b0, ready), Flatten(waves));
      Current(env, run.brain, q) <==> q in run.dirty || Current(env, b0, q)
  {
    hide RunOrder, WavePlan, Flatten, Current, Schedule, ValidTree;
    var order := Flatten(waves);
    var start := Start(b0, ready);
    var run := RunOrder(env, start, order);
    WavePlanIsSchedule(ready, waves);
    ReadyIsScheduled(ready, waves);
    SpoiledFailed(env, start, order);
    if q in run.dirty || Current(env, b0, q) {
      assert order[0..] == order;
      RunStaysOnTrack(env, b0, start, order, 0);
      assert !Pending(run, [], q);
    } else {
      CleanFolderUntouched(env, start, order, q);
    }
  }

  /** Exactly what a clean batch repairs: the folders it found dirty, and nothing else. */
  lemma CleanBatchRepairsExactly(env: Env, b0: Brain, ready: seq<string>, waves: seq<seq<string>>, q: string)
    requires ValidTree(env.tree) && WavePlan(ready, waves) && q in env.tree
    requires Clean(RunOrder(env, Start(b0, ready), Flatten(waves)))
    ensures
      var run := RunOrder(env, Start(b0, ready), Flatten(waves));
      Current(env, run.brain, q) <==> q in run.dirty || Current(env, b0, q)
    ensures
      var run := RunOrder(env, Start(b0, ready), Flatten(waves));
      Current(env, run.brain, q) <==>
        q in ready || Reached(env, Start(b0, ready), Flatten(waves), q) || Current(env, b0, q)
  {
    hide RunOrder, WavePlan, Flatten, Current, Reached;
    CleanBatchRepairsDirty(env, b0, ready, waves, q);
    DirtyExactlyWhen(env, Start(b0, ready), Flatten(waves), q);
  }

  /** A folder that never becomes dirty in a clean run is as current after it as before. */
  lemma {:induction false} CleanFolderUntouched(env: Env, run: Run, order: seq<string>, q: string)
    requires ValidTree(env.tree) && q in env.tree
    requires q !in RunOrder(env, run, order).dirty && RunOrder(env, run, order).spoiled == {}
    ensures Current(env, run.brain, q) == Current(env, RunOrder(env, run, order).brain, q)
    decreases |order|
  {
    if order != [] {
      var p := order[0];
      var next := Visit(env, run, p);
      VisitGrows(env, run, p);
      VisitFrame(env, run, p);
      DirtyGrows(env, next, order[1..]);
      SpoiledGrows(env, next, order[1..]);
      if q != p {
        CurrentFrame(env, run.brain, next.brain, p, q);
      }
      CleanFolderUntouched(env, next, order[1..], q);
    }
  }

  lemma {:induction false} SpoiledGrows(env: Env, run: Run, order: seq<string>)
    ensures run.spoiled <= RunOrder(env, run, order).spoiled
    decreases |order|
  {
    if order != [] {
      VisitGrows(env, run, order[0]);
      SpoiledGrows(env, Visit(env, run, order[0]), order[1..]);
    }
  }

  // ---------- a second run is a no-op ----------

  /** A visited folder that was dirty is quiet, and if it ended without content its parent is dirty. */
  ghost predicate Rested(env: Env, run: Run, q: string) {
    && Quiet(env.sha, env.tree, run.brain, q)
    && (Evaluated(env.sha, env.tree, run.brain, q).outcome != Unchanged && q != "" ==> ParentPath(q) in run.dirty)
  }

  ghost predicate AllRested(env: Env, run: Run, visited: seq<string>) {
    forall q :: q in visited && q in run.dirty ==> Rested(env, run, q)
  }

  lemma VisitRests(env: Env, run: Run, p: string)
    requires ValidTree(env.tree) && p in run.dirty
    requires Clean(Visit(env, run, p))
    ensures Rested(env, Visit(env, run, p), p)
  {
    var entered := Entered(env, run.brain, p);
    var e := Evaluated(env.sha, env.tree, entered, p);
    var (after, result) := Outcome(env, run.brain, p);
    assert p !in Visit(env, run, p).failed && p !in Visit(env, run, p).refused;
    DoneIsQuiet(env.sha, env.tree, env.call(p), entered, p);
    ActEffect(env.sha, env.call(p), entered, p, e);
    MissingPathExactly(env.sha, env.tree, entered, p);
    MissingPathExactly(env.sha, env.tree, after, p);
    if e.outcome != NoContent && e.outcome != MissingPath {
      StoredHashesMakeUnchanged(env.sha, env.tree, entered, after, p);
    }
  }

  lemma VisitKeepsRested(env: Env, run: Run, p: string, q: string)
    requires ValidTree(env.tree) && q != p && (p == "" || ParentPath(p) != q)
    requires Rested(env, run, q)
    ensures Rested(env, Visit(env, run, p), q)
  {
    var next := Visit(env, run, p);
    VisitFrame(env, run, p);
    VisitGrows(env, run, p);
    EvaluateFrame(env.sha, env.tree, run.brain.summaries, run.brain.metas, next.brain.summaries, next.brain.metas, p, q);
  }

  lemma VisitKeepsAllRested(env: Env, run: Run, order: seq<string>, k: nat)
    requires ValidTree(env.tree) && Schedule(order) && k < |order|
    requires AllRested(env, run, order[..k]) && Clean(Visit(env, run, order[k]))
    ensures AllRested(env, Visit(env, run, order[k]), order[..k + 1])
  {
    var p := order[k];
    var next := Visit(env, run, p);
    VisitGrows(env, run, p);
    RootNeverDirtiesItself(env, run);
    if p != "" {
      ParentShallower(p);
    }
    forall q | q in order[..k + 1] && q in next.dirty ensures Rested(env, next, q) {
      var j :| 0 <= j < k + 1 && order[j] == q;
      assert p == "" || q != ParentPath(p);
      if j < k {
        assert q == order[..k][j];
        VisitKeepsRested(env, run, p, q);
      } else {
        VisitRests(env, run, p);
      }
    }
  }

  lemma {:induction false} RunRests(env: Env, run: Run, order: seq<string>, k: nat)
    requires ValidTree(env.tree) && Schedule(order) && k <= |order|
    requires AllRested(env, run, order[..k]) && Clean(RunOrder(env, run, order[k..]))
    ensures AllRested(env, RunOrder(env, run, order[k..]), order)
    decreases |order| - k
  {
    if k < |order| {
      assert order[k..][1..] == order[k + 1..];
      FailuresGrow(env, Visit(env, run, order[k]), order[k + 1..]);
      VisitKeepsAllRested(env, run, order, k);
      RunRests(env, Visit(env, run, order[k]), order, k + 1);
    } else {
      assert order[..k] == order;
    }
  }

  lemma {:induction false} FailuresGrow(env: Env, run: Run, order: seq<string>)
    ensures Clean(RunOrder(env, run, order)) ==> Clean(run)
    decreases |order|
  {
    if order != [] {
      VisitGrows(env, run, order[0]);
      FailuresGrow(env, Visit(env, run, order[0]), order[1..]);
    }
  }

  /** No entry of the log asked for a model call or for a write of a summary or a hash. */
  ghost predicate NoWork(log: seq<(string, Verdict)>) {
    forall i :: 0 <= i < |log| ==> log[i].1 == Unchanged || log[i].1 == NoContent || log[i].1 == MissingPath
  }

  ghost predicate Idles(first: Run, run: Run) {
    && run.brain.summaries == first.brain.summaries
    && run.brain.metas == first.brain.metas
    && run.dirty <= first.dirty
    && run.regenerated == 0
    && NoWork(run.log)
  }

  lemma VisitIdles(env: Env, first: Run, run: Run, p: string)
    requires Idles(first, run)
    requires p in first.dirty ==> Rested(env, first, p)
    ensures Idles(first, Visit(env, run, p))
  {
    if p in run.dirty && !Refuses(env, run.brain, p) {
      var entered := Entered(env, run.brain, p);
      assert Evaluated(env.sha, env.tree, entered, p) == Evaluated(env.sha, env.tree, first.brain, p);
      QuietFolderIsNoOp(env.sha, env.tree, env.call(p), entered, p);
    }
  }

  lemma {:induction false} RunIdles(env: Env, first: Run, run: Run, order: seq<string>)
    requires Idles(first, run) && AllRested(env, first, order)
    ensures Idles(first, RunOrder(env, run, order))
    decreases |order|
  {
    if order != [] {
      assert order == [order[0]] + order[1..];
      VisitIdles(env, first, run, order[0]);
      RunIdles(env, first, Visit(env, run, order[0]), order[1..]);
    }
  }

  /** A full run reaches a fixpoint: after one run without failures or refusals, a second run over the
      same unchanged files writes no summary and no stored state and regenerates nothing, whatever its
      calls would have answered; every folder it evaluates is unchanged or without content. */
  lemma SecondRunIsIdle(env: Env, again: Env, b0: Brain, ready: seq<string>, order: seq<string>)
    requires ValidTree(env.tree) && Schedule(order)
    requires again.sha == env.sha && again.tree == env.tree
    requires Clean(RunOrder(env, Start(b0, ready), order))
    ensures
      var first := RunOrder(env, Start(b0, ready), order);
      Idles(first, RunOrder(again, Start(first.brain, ready), order))
  {
    var first := RunOrder(env, Start(b0, ready), order);
    assert order[0..] == order;
    RunRests(env, Start(b0, ready), order, 0);
    DirtyGrows(env, Start(b0, ready), order);
    forall q | q in order && q in first.dirty ensures Rested(again, first, q) {
      assert Rested(env, first, q);
    }
    RunIdles(again, first, Start(first.brain, ready), order);
  }

  /** The model's answer matters only when a folder's content changed. */
  lemma ModelConsultedOnlyOnContentChange(sha: Sha, tree: Tree, c: Call, other: Backend, similar: bool, b: Brain, p: string)
    requires Evaluated(sha, tree, b, p).outcome != ContentChanged
    ensures RegenFolder(sha, tree, c.(reply := c.reply.(backend := other, tooSimilar := similar)), b, p)
      == RegenFolder(sha, tree, c, b, p)
  {
    hide Rehash, Regenerate;
    var e := Evaluated(sha, tree, b, p);
    RehashIgnoresModel(c, other, similar, b, p, Restated(e), true, SkippedBackfill);
    RehashIgnoresModel(c, other, similar, b, p, Restated(e), true, SkippedUnchanged);
    RehashIgnoresModel(c, other, similar, b, p, Restated(e), false, SkippedRename);
  }

  lemma RehashIgnoresModel(
    c: Call, other: Backend, similar: bool, b: Brain, p: string, meta: Meta, keepError: bool, action: Action)
    ensures Rehash(c.(reply := c.reply.(backend := other, tooSimilar := similar)), b, p, meta, keepError, action)
      == Rehash(c, b, p, meta, keepError, action)
  {
  }

  /** The log names folders of the order only, and no folder twice. */
  ghost predicate LogOver(log: seq<(string, Verdict)>, visited: seq<string>) {
    && (forall i :: 0 <= i < |log| ==> log[i].0 in visited)
    && (forall i, j :: 0 <= i < j < |log| ==> log[i].0 != log[j].0)
  }

  /** Each folder is processed at most once per run. */
  lemma {:induction false} EachFolderAtMostOnce(env: Env, run: Run, order: seq<string>, k: nat)
    requires Distinct(order) && k <= |order| && LogOver(run.log, order[..k])
    ensures LogOver(RunOrder(env, run, order[k..]).log, order)
    decreases |order| - k
  {
    if k < |order| {
      var next := Visit(env, run, order[k]);
      assert order[k..][1..] == order[k + 1..];
      assert order[..k + 1] == order[..k] + [order[k]];
      assert next.log == run.log || (|next.log| == |run.log| + 1 && next.log[..|run.log|] == run.log && next.log[|run.log|].0 == order[k]);
      assert order[k] !in order[..k];
      EachFolderAtMostOnce(env, next, order, k + 1);
    } else {
      assert order[..k] == order;
    }
  }

  // ---------- the bounded walk-up ----------

  lemma {:induction false} NothingDirtyAhead(env: Env, run: Run, order: seq<string>)
    requires forall q :: q in order ==> q !in run.dirty
    ensures RunOrder(env, run, order) == run
    decreases |order|
  {
    if order != [] {
      assert order[0] in order;
      NothingDirtyAhead(env, run, order[1..]);
    }
  }

  lemma ChainFront(p: string, n: nat)
    requires p != "" && 0 < n <= |Chain(p)|
    ensures |Chain(p)| == 1 + |Chain(ParentPath(p))|
    ensures Chain(p)[..n] == [p] + Chain(ParentPath(p))[..n - 1]
    ensures forall i :: 0 < i < |Chain(p)| ==> Chain(p)[i] == Chain(ParentPath(p))[i - 1]
  {
    hide ParentPath;
  }

  lemma ProcessDirties(env: Env, run: Run, p: string)
    ensures Process(env, run, p).dirty ==
      if Continues(env, run, p) && p != "" then run.dirty + {ParentPath(p)} else run.dirty
  {
  }

  /** Of the chain above p, only p itself may be dirty. */
  ghost predicate OnlyLeafDirty(run: Run, p: string) {
    forall q :: q in Chain(p) && q != p ==> q !in run.dirty
  }

  lemma LeafMovesUp(env: Env, run: Run, p: string)
    requires p != "" && OnlyLeafDirty(run, p)
    ensures OnlyLeafDirty(Process(env, run, p), ParentPath(p))
    ensures OnlyLeafDirty(run, ParentPath(p))
    ensures !Continues(env, run, p) ==> forall q :: q in Chain(ParentPath(p)) ==> q !in Process(env, run, p).dirty
    ensures Continues(env, run, p) ==> ParentPath(p) in Process(env, run, p).dirty
    ensures p !in run.dirty ==> forall q :: q in Chain(ParentPath(p)) ==> q !in run.dirty
  {
    hide Process, Continues;
    var parent := ParentPath(p);
    ProcessDirties(env, run, p);
    ParentShallower(p);
    assert Chain(p) == [p] + Chain(parent);
    forall q | q in Chain(parent) ensures q in Chain(p) && q != p {
      ChainAvoidsDeeper(parent, q);
    }
  }

  /** On a leading part of a leaf-to-root chain of which only the leaf is dirty, walking up while the
      action propagates is the same run as visiting the dirty folders in order. */
  lemma {:induction false} WalkUpIsRun(env: Env, run: Run, p: string, n: nat)
    requires 0 < n <= |Chain(p)| && p in run.dirty && OnlyLeafDirty(run, p)
    ensures WalkUp(env, run, Chain(p)[..n]) == RunOrder(env, run, Chain(p)[..n])
    decreases n
  {
    hide Process, Continues, OnlyLeafDirty;
    var chain := Chain(p)[..n];
    var next := Process(env, run, p);
    assert chain[0] == p && Visit(env, run, p) == next;
    if p == "" || n == 1 {
      assert chain[1..] == [];
    } else {
      ChainFront(p, n);
      LeafMovesUp(env, run, p);
      assert chain[1..] == Chain(ParentPath(p))[..n - 1];
      if Continues(env, run, p) {
        WalkUpIsRun(env, next, ParentPath(p), n - 1);
      } else {
        NothingDirtyAhead(env, next, chain[1..]);
      }
    }
  }

  /** For one seed whose chain has at most ten entries, the bounded walk-up is the wave batch:
      same folders in the same order, same brain, same failures. */
  lemma ShortWalkUpIsTheWaveBatch(env: Env, b: Brain, p: string, waves: seq<seq<string>>)
    requires WavePlan([p], waves) && |Chain(p)| <= WALK_UP_LIMIT
    ensures WalkUp(env, Start(b, [p]), BoundedChain(p, WALK_UP_LIMIT)) == RunOrder(env, Start(b, [p]), Flatten(waves))
  {
    OneSeedWavesAreTheChain(p, waves);
    SeedAlone(b, p);
    WalkUpIsRun(env, Start(b, [p]), p, |Chain(p)|);
    assert Chain(p)[..|Chain(p)|] == Chain(p);
  }

  /** A folder seen by the run: in its log or among the refused. */
  ghost predicate Seen(run: Run, q: string) {
    q in run.refused || exists i :: 0 <= i < |run.log| && run.log[i].0 == q
  }

  lemma {:induction false} SeenInOrder(env: Env, run: Run, order: seq<string>, q: string)
    requires Seen(RunOrder(env, run, order), q)
    ensures Seen(run, q) || q in order
    decreases |order|
  {
    if order != [] {
      var next := Visit(env, run, order[0]);
      SeenInOrder(env, next, order[1..], q);
      if Seen(next, q) && q != order[0] {
        if q !in next.refused {
          var i :| 0 <= i < |next.log| && next.log[i].0 == q;
          assert run.log[i].0 == q;
        }
      }
    }
  }

  lemma {:induction false} SeenStays(env: Env, run: Run, order: seq<string>, q: string)
    requires Seen(run, q)
    ensures Seen(RunOrder(env, run, order), q)
    decreases |order|
  {
    if order != [] {
      var next := Visit(env, run, order[0]);
      if q !in run.refused {
        var i :| 0 <= i < |run.log| && run.log[i].0 == q;
        assert next.log[i].0 == q;
      }
      SeenStays(env, next, order[1..], q);
    }
  }

  lemma ProcessSees(env: Env, run: Run, q: string)
    ensures Seen(Process(env, run, q), q)
  {
    var next := Process(env, run, q);
    if !Refuses(env, run.brain, q) {
      assert next.log[|run.log|].0 == q;
    }
  }

  /** Every folder of the chain succeeds with an action that propagates. */
  predicate AllContinue(env: Env, run: Run, chain: seq<string>)
    decreases |chain|
  {
    chain == [] || (Continues(env, run, chain[0]) && AllContinue(env, Process(env, run, chain[0]), chain[1..]))
  }

  /** A walk-up over the first n folders of a chain dirties the next one exactly when all of them propagate. */
  lemma {:induction false} NextIsDirtyExactlyWhen(env: Env, run: Run, p: string, n: nat)
    requires 0 < n < |Chain(p)| && OnlyLeafDirty(run, p)
    ensures Chain(p)[n] in WalkUp(env, run, Chain(p)[..n]).dirty <==> AllContinue(env, run, Chain(p)[..n])
    decreases n
  {
    hide Process, Continues, OnlyLeafDirty;
    var chain := Chain(p)[..n];
    var next := Process(env, run, p);
    ChainFront(p, n);
    LeafMovesUp(env, run, p);
    assert chain[0] == p && chain[1..] == Chain(ParentPath(p))[..n - 1];
    assert Chain(p)[n] == Chain(ParentPath(p))[n - 1] && Chain(p)[n] in Chain(ParentPath(p));
    if Continues(env, run, p) {
      if n == 1 {
        assert WalkUp(env, next, []) == next;
      } else {
        NextIsDirtyExactlyWhen(env, next, ParentPath(p), n - 1);
      }
    }
  }

  /** For a longer chain the truncated walk-up misses work exactly when the tenth folder propagated. */
  lemma LongWalkUpIsTheWaveBatchExactlyWhen(env: Env, b: Brain, p: string, waves: seq<seq<string>>)
    requires WavePlan([p], waves) && |Chain(p)| > WALK_UP_LIMIT
    ensures
      var bounded := WalkUp(env, Start(b, [p]), BoundedChain(p, WALK_UP_LIMIT));
      bounded == RunOrder(env, Start(b, [p]), Flatten(waves)) <==> Chain(p)[WALK_UP_LIMIT] !in bounded.dirty
    ensures
      WalkUp(env, Start(b, [p]), BoundedChain(p, WALK_UP_LIMIT)) == RunOrder(env, Start(b, [p]), Flatten(waves)) <==>
        !AllContinue(env, Start(b, [p]), BoundedChain(p, WALK_UP_LIMIT))
  {
    hide WalkUp, RunOrder, Chain, WavePlan, Flatten, OnlyLeafDirty, Seen, AllContinue;
    OneSeedWavesAreTheChain(p, waves);
    SeedAlone(b, p);
    WalkUpIsRun(env, Start(b, [p]), p, WALK_UP_LIMIT);
    assert Chain(p)[..WALK_UP_LIMIT] + Chain(p)[WALK_UP_LIMIT..] == Chain(p);
    RunOrderAppend(env, Start(b, [p]), Chain(p)[..WALK_UP_LIMIT], Chain(p)[WALK_UP_LIMIT..]);
    NothingSeenYet(b, p, Chain(p)[WALK_UP_LIMIT]);
    NextIsDirtyExactlyWhen(env, Start(b, [p]), p, WALK_UP_LIMIT);
    ChainTailMatters(env, Start(b, [p]), p, WALK_UP_LIMIT);
  }

  lemma SeedAlone(b: Brain, p: string)
    ensures p in Start(b, [p]).dirty && OnlyLeafDirty(Start(b, [p]), p)
  {
    assert p in [p];
  }

  lemma NothingSeenYet(b: Brain, p: string, q: string)
    ensures !Seen(Start(b, [p]), q)
  {
  }

  /** Stopping after n folders of a chain gives the full run exactly when the next folder is clean. */
  lemma ChainTailMatters(env: Env, first: Run, p: string, n: nat)
    requires n < |Chain(p)| && OnlyLeafDirty(first, p) && !Seen(first, Chain(p)[n])
    ensures
      var bounded := RunOrder(env, first, Chain(p)[..n]);
      bounded == RunOrder(env, bounded, Chain(p)[n..]) <==> Chain(p)[n] !in bounded.dirty
  {
    hide Process, Continues, OnlyLeafDirty, Seen, RunOrder;
    var front, back := Chain(p)[..n], Chain(p)[n..];
    var bounded := RunOrder(env, first, front);
    var q := Chain(p)[n];
    if q in bounded.dirty {
      forall i | 0 <= i < |front| ensures front[i] != q {
        ChainDepths(p, i, n);
      }
      if Seen(bounded, q) {
        SeenInOrder(env, first, front, q);
      }
      DirtyHeadIsSeen(env, bounded, back);
    } else {
      DirtyStaysOnChain(env, first, p, n);
      NothingDirtyAhead(env, bounded, back);
    }
  }

  lemma DirtyHeadIsSeen(env: Env, run: Run, order: seq<string>)
    requires order != [] && order[0] in run.dirty
    ensures Seen(RunOrder(env, run, order), order[0])
  {
    ProcessSees(env, run, order[0]);
    SeenStays(env, Visit(env, run, order[0]), order[1..], order[0]);
  }

  /** A run over the first n folders of a chain dirties at most the next one. */
  lemma {:induction false} DirtyStaysOnChain(env: Env, run: Run, p: string, n: nat)
    requires n < |Chain(p)| && OnlyLeafDirty(run, p)
    ensures forall i :: n < i < |Chain(p)| ==> Chain(p)[i] !in RunOrder(env, run, Chain(p)[..n]).dirty
    decreases n
  {
    hide Process, Continues, OnlyLeafDirty;
    if n == 0 {
      AncestorsClean(run, p);
    } else {
      var next := Visit(env, run, p);
      ChainFront(p, n);
      LeafMovesUp(env, run, p);
      assert Chain(p)[..n][1..] == Chain(ParentPath(p))[..n - 1];
      DirtyStaysOnChain(env, next, ParentPath(p), n - 1);
    }
  }

  lemma AncestorsClean(run: Run, p: string)
    requires OnlyLeafDirty(run, p)
    ensures forall i :: 0 < i < |Chain(p)| ==> Chain(p)[i] !in run.dirty
  {
    forall i | 0 < i < |Chain(p)| ensures Chain(p)[i] !in run.dirty {
      ChainDepths(p, 0, i);
    }
  }

  // ---------- ownership after one folder ----------

  /** A failure after which nothing is written, not even to the lock row: the folder cannot be read, or what
      comes between planning and the claim fails. */
  predicate Unmarked(c: Call, outcome: Verdict) {
    c.reply.readFails || (outcome == ContentChanged && !c.reply.planningFails && c.reply.setupFails)
  }

  lemma UnmarkedLeavesAll(sha: Sha, tree: Tree, c: Call, b: Brain, p: string)
    requires Unmarked(c, Evaluated(sha, tree, b, p).outcome)
    ensures RegenFolder(sha, tree, c, b, p) == (b, Raised)
  {
    hide Evaluate;
  }

  /** A call without an owner neither takes nor gives ownership: only its cleanup deletes the row. */
  lemma OwnerlessRow(sha: Sha, tree: Tree, c: Call, b: Brain, p: string)
    requires c.owner == None
    requires !Unmarked(c, Evaluated(sha, tree, b, p).outcome)
    ensures
      var (after, result) := RegenFolder(sha, tree, c, b, p);
      var outcome := Evaluated(sha, tree, b, p).outcome;
      var row := LockAt(after.locks, p);
      var cleanup := outcome == MissingPath || outcome == NoContent;
      && (cleanup ==> after.locks == if result.Done? then Delete(b.locks, p) else b.locks)
      && (!cleanup ==>
            && row.Some? && row.value.owner == OwnerOf(b.locks, p)
            && row.value.status == (if result.Done? then Idle else Failed)
            && row.value.error == if result.Raised? then Some(c.reply.reason)
               else if (outcome == Unchanged || outcome == MetadataBackfill) && p in b.locks then b.locks[p].error
               else None)
  {
    hide Evaluate, Rehash, Regenerate;
    var e := Evaluated(sha, tree, b, p);
    OwnerlessRehash(c, b, p, Restated(e), true, SkippedBackfill);
    OwnerlessRehash(c, b, p, Restated(e), true, SkippedUnchanged);
    OwnerlessRehash(c, b, p, Restated(e), false, SkippedRename);
    if e.outcome == ContentChanged {
      OwnerlessRegenerate(sha, c, b, p, e);
    }
  }

  /** The row of an ownerless call that got as far as its end. */
  ghost predicate OwnerlessEnd(c: Call, b: Brain, p: string, after: Brain, result: Result, error: Option<string>) {
    var row := LockAt(after.locks, p);
    && row.Some? && row.value.owner == OwnerOf(b.locks, p)
    && row.value.status == (if result.Done? then Idle else Failed)
    && row.value.error == if result.Raised? then Some(c.reply.reason) else error
  }

  lemma OwnerlessRehash(c: Call, b: Brain, p: string, meta: Meta, keepError: bool, action: Action)
    requires c.owner == None
    ensures
      var (after, result) := Rehash(c, b, p, meta, keepError, action);
      OwnerlessEnd(c, b, p, after, result, if keepError && p in b.locks then b.locks[p].error else None)
  {
  }

  lemma OwnerlessRegenerate(sha: Sha, c: Call, b: Brain, p: string, e: Evaluation)
    requires c.owner == None
    requires c.reply.planningFails || !c.reply.setupFails
    ensures
      var (after, result) := Regenerate(sha, c, b, p, e);
      OwnerlessEnd(c, b, p, after, result, None)
  {
  }

  /** A regeneration call gives its ownership back, with two exceptions for a folder that was acquired
      beforehand: a cleanup that stops half way and a failure that writes nothing. A call without an owner
      leaves the owner of the row as it is, unless it deletes the row. */
  lemma OwnershipReturnedExactlyWhen(sha: Sha, tree: Tree, c: Call, b: Brain, p: string)
    ensures c.owner == None ==>
      var outcome := Evaluated(sha, tree, b, p).outcome;
      OwnerOf(RegenFolder(sha, tree, c, b, p).0.locks, p) ==
        if (outcome == MissingPath || outcome == NoContent) && c.reply.cleanup == CleanupOk && !Unmarked(c, outcome)
        then None else OwnerOf(b.locks, p)
    ensures c.owner.Some? ==>
      var outcome := Evaluated(sha, tree, b, p).outcome;
      OwnerOf(RegenFolder(sha, tree, c, b, p).0.locks, p) == c.owner <==>
        && OwnerOf(b.locks, p) == c.owner
        && (Unmarked(c, outcome) || ((outcome == MissingPath || outcome == NoContent) && c.reply.cleanup != CleanupOk))
  {
    hide RegenFolder, Evaluate, Unmarked;
    if Unmarked(c, Evaluated(sha, tree, b, p).outcome) {
      UnmarkedLeavesAll(sha, tree, c, b, p);
    } else if c.owner == None {
      OwnerlessRow(sha, tree, c, b, p);
      CleanUpResult(sha, tree, c, b, p);
    } else {
      OwnedCallReturns(sha, tree, c, b, p);
    }
  }

  lemma CleanUpResult(sha: Sha, tree: Tree, c: Call, b: Brain, p: string)
    requires !Unmarked(c, Evaluated(sha, tree, b, p).outcome)
    ensures Evaluated(sha, tree, b, p).outcome == MissingPath || Evaluated(sha, tree, b, p).outcome == NoContent ==>
      (RegenFolder(sha, tree, c, b, p).1.Done? <==> c.reply.cleanup == CleanupOk)
  {
  }

  lemma OwnedCallReturns(sha: Sha, tree: Tree, c: Call, b: Brain, p: string)
    requires c.owner.Some?
    requires !Unmarked(c, Evaluated(sha, tree, b, p).outcome)
    ensures
      var outcome := Evaluated(sha, tree, b, p).outcome;
      OwnerOf(RegenFolder(sha, tree, c, b, p).0.locks, p) == c.owner <==>
        && (outcome == MissingPath || outcome == NoContent)
        && c.reply.cleanup != CleanupOk
        && OwnerOf(b.locks, p) == c.owner
  {
    var e := Evaluated(sha, tree, b, p);
    match e.outcome
    case MissingPath =>
    case NoContent =>
    case MetadataBackfill => RehashReturns(c, b, p, Restated(e), true, SkippedBackfill);
    case Unchanged => RehashReturns(c, b, p, Restated(e), true, SkippedUnchanged);
    case StructureOnly => RehashReturns(c, b, p, Restated(e), false, SkippedRename);
    case ContentChanged => RegenerateReturns(sha, c, b, p, e);
  }

  lemma RehashReturns(c: Call, b: Brain, p: string, meta: Meta, keepError: bool, action: Action)
    requires c.owner.Some?
    ensures OwnerOf(Rehash(c, b, p, meta, keepError, action).0.locks, p) != c.owner
  {
  }

  /** A terminal row never names the caller. */
  lemma TerminalReturns(c: Call, locks: Locks, p: string, started: Started, status: Status, error: Option<string>)
    requires c.owner.Some?
    ensures OwnerOf(Terminal(c, locks, p, started, status, error), p) != c.owner
    ensures ForeignRow(c, locks, p) ==> Terminal(c, locks, p, started, status, error) == locks
    ensures !ForeignRow(c, locks, p) ==>
      var row := LockAt(Terminal(c, locks, p, started, status, error), p);
      row.Some? && row.value.status == status && row.value.owner == None && row.value.error == error
  {
  }

  lemma ClaimedRow(c: Call, locks: Locks, p: string)
    requires c.owner.Some?
    ensures ClaimRefused(c, locks, p) ==>
      OwnerOf(Claimed(c, locks, p), p) == OwnerOf(locks, p) && OwnerOf(locks, p).Some? && OwnerOf(locks, p) != c.owner
    ensures !ClaimRefused(c, locks, p) ==>
      OwnerOf(SaveUnowned(Claimed(c, locks, p), p, At(c.now), Running, None), p) == c.owner
  {
  }

  lemma CommitRow(
    c: Call, b: Brain, p: string, meta: Meta, written: Option<string>, journal: Option<string>, action: Action)
    requires c.owner.Some? && OwnerOf(b.locks, p) == c.owner
    ensures
      var (after, result) := Commit(c, b, p, meta, written, journal, action);
      var row := LockAt(after.locks, p);
      && row.Some? && row.value.owner == None
      && (result.Done? ==> row.value.status == Idle && row.value.error == None)
      && (result.Raised? ==> row.value.status == Failed && row.value.error == Some(c.reply.reason))
  {
    hide Terminal;
    TerminalReturns(c, b.locks, p, At(c.now), Failed, Some(c.reply.reason));
    TerminalReturns(c, b.locks, p, At(c.now), Idle, None);
  }

  lemma RegenerateReturns(sha: Sha, c: Call, b: Brain, p: string, e: Evaluation)
    requires c.owner.Some?
    requires c.reply.planningFails || !c.reply.setupFails
    ensures OwnerOf(Regenerate(sha, c, b, p, e).0.locks, p) != c.owner
  {
    hide ClaimRefused;
    RegenerateRow(sha, c, b, p, e);
    if ForeignRow(c, b.locks, p) {
      ForeignStays(sha, c, b, p, e);
    }
  }

  lemma ForeignStays(sha: Sha, c: Call, b: Brain, p: string, e: Evaluation)
    requires c.owner.Some? && ForeignRow(c, b.locks, p)
    requires c.reply.planningFails || !c.reply.setupFails
    ensures OwnerOf(Regenerate(sha, c, b, p, e).0.locks, p) != c.owner
  {
    hide Terminal, Claimed, ClaimRefused, Commit, SaveUnowned;
    RegeneratePaths(sha, c, b, p, e);
    TerminalReturns(c, b.locks, p, At(c.now), Failed, Some(c.reply.reason));
    ClaimedRow(c, b.locks, p);
  }

  /** The planning failure of a folder whose row is owned by a stale session finds a row that is neither
      free nor its own, and leaves it. */
  predicate ForeignRow(c: Call, locks: Locks, p: string) {
    OwnerOf(locks, p).Some? && OwnerOf(locks, p) != c.owner
  }

  /** Who a terminal row names: nobody after a call with an owner, whoever it named before otherwise. */
  function LeftOwner(c: Call, locks: Locks, p: string): Option<string> {
    if c.owner.Some? then None else OwnerOf(locks, p)
  }

  /** The lock row tells how the call ended: gone after a cleanup, idle and free after success, failed
      and free with the reason after a failure; a refused call leaves the other owner in place, and a failure
      that writes nothing leaves the row. A call without an owner leaves the owner the row had. */
  lemma LockRowTellsTheOutcome(sha: Sha, tree: Tree, c: Call, b: Brain, p: string)
    ensures
      var (after, result) := RegenFolder(sha, tree, c, b, p);
      var outcome := Evaluated(sha, tree, b, p).outcome;
      var row := LockAt(after.locks, p);
      var cleanup := outcome == MissingPath || outcome == NoContent;
      && (result.Done? && cleanup ==> row == None)
      && (result.Done? && !cleanup ==> row.Some? && row.value.status == Idle && row.value.owner == LeftOwner(c, b.locks, p))
      && (result.Done? && (outcome == StructureOnly || outcome == ContentChanged) ==> row.value.error == None)
      && (result.Done? && (outcome == Unchanged || outcome == MetadataBackfill) ==>
            row.value.error == if p in b.locks then b.locks[p].error else None)
      && (!cleanup && ClaimRefused(c, b.locks, p) ==> result.Raised? && OwnerOf(after.locks, p) == OwnerOf(b.locks, p))
      && (Unmarked(c, outcome) ==> result.Raised? && after.locks == b.locks)
      && (!cleanup && !Unmarked(c, outcome) && result.Raised? && (c.owner == None || !ForeignRow(c, b.locks, p)) ==>
            && row.Some? && row.value.status == Failed && row.value.owner == LeftOwner(c, b.locks, p)
            && row.value.error == Some(c.reply.reason))
  {
    hide RegenFolder, Evaluate, Unmarked;
    if Unmarked(c, Evaluated(sha, tree, b, p).outcome) {
      UnmarkedLeavesAll(sha, tree, c, b, p);
    } else if c.owner == None {
      OwnerlessRow(sha, tree, c, b, p);
    } else {
      OwnedLockRow(sha, tree, c, b, p);
    }
  }

  lemma OwnedLockRow(sha: Sha, tree: Tree, c: Call, b: Brain, p: string)
    requires c.owner.Some?
    requires !Unmarked(c, Evaluated(sha, tree, b, p).outcome)
    ensures
      var (after, result) := RegenFolder(sha, tree, c, b, p);
      var outcome := Evaluated(sha, tree, b, p).outcome;
      var row := LockAt(after.locks, p);
      var cleanup := outcome == MissingPath || outcome == NoContent;
      && (result.Done? && cleanup ==> row == None)
      && (result.Done? && !cleanup ==> row.Some? && row.value.status == Idle && row.value.owner == None)
      && (result.Done? && (outcome == StructureOnly || outcome == ContentChanged) ==> row.value.error == None)
      && (result.Done? && (outcome == Unchanged || outcome == MetadataBackfill) ==>
            row.value.error == if p in b.locks then b.locks[p].error else None)
      && (!cleanup && ClaimRefused(c, b.locks, p) ==> result.Raised? && OwnerOf(after.locks, p) == OwnerOf(b.locks, p))
      && (!cleanup && result.Raised? && !ForeignRow(c, b.locks, p) ==>
            row.Some? && row.value.status == Failed && row.value.owner == None && row.value.error == Some(c.reply.reason))
  {
    var e := Evaluated(sha, tree, b, p);
    match e.outcome
    case MissingPath =>
    case NoContent =>
    case MetadataBackfill => RehashRow(c, b, p, Restated(e), true, SkippedBackfill);
    case Unchanged => RehashRow(c, b, p, Restated(e), true, SkippedUnchanged);
    case StructureOnly => RehashRow(c, b, p, Restated(e), false, SkippedRename);
    case ContentChanged => RegenerateRow(sha, c, b, p, e);
  }

  lemma RehashRow(c: Call, b: Brain, p: string, meta: Meta, keepError: bool, action: Action)
    requires c.owner.Some?
    ensures
      var (after, result) := Rehash(c, b, p, meta, keepError, action);
      var row := LockAt(after.locks, p);
      && (result.Done? ==> row.Some? && row.value.status == Idle && row.value.owner == None)
      && (result.Done? ==> row.value.error == if keepError && p in b.locks then b.locks[p].error else None)
      && (ClaimRefused(c, b.locks, p) ==> result.Raised? && OwnerOf(after.locks, p) == OwnerOf(b.locks, p))
      && (result.Raised? && !ForeignRow(c, b.locks, p) ==>
            row.Some? && row.value.status == Failed && row.value.owner == None && row.value.error == Some(c.reply.reason))
  {
  }

  /** Where a regeneration leaves the locks: planning failed, the claim was refused, or the claimed and
      running row reached a terminal state. */
  lemma RegeneratePaths(sha: Sha, c: Call, b: Brain, p: string, e: Evaluation)
    requires c.owner.Some?
    requires c.reply.planningFails || !c.reply.setupFails
    ensures
      var (after, result) := Regenerate(sha, c, b, p, e);
      if c.reply.planningFails then result.Raised? && after.locks == MarkedFailed(c, b.locks, p, At(c.now))
      else if ClaimRefused(c, b.locks, p) then result.Raised? && after.locks == Claimed(c, b.locks, p)
      else
        var row := LockAt(after.locks, p);
        && row.Some? && row.value.owner == None
        && (result.Done? ==> row.value.status == Idle && row.value.error == None)
        && (result.Raised? ==> row.value.status == Failed && row.value.error == Some(c.reply.reason))
  {
    hide Terminal, Claimed, ClaimRefused, Commit, SaveUnowned;
    ClaimedRow(c, b.locks, p);
    if !c.reply.planningFails && !ClaimRefused(c, b.locks, p) {
      var running := SaveUnowned(Claimed(c, b.locks, p), p, At(c.now), Running, None);
      TerminalReturns(c, running, p, At(c.now), Failed, Some(c.reply.reason));
      if c.reply.backend.Output? && |c.reply.backend.summary| >= MIN_SUMMARY {
        var kept := KeepsSummary(c, b, p);
        var summary := if kept then b.summaries[p] else c.reply.backend.summary;
        var meta := Meta(Some(e.contentHash), Some(sha(summary).Hex()), Some(e.structureHash), Some(c.now));
        CommitRow(c, Brain(b.summaries, b.metas, b.journals, running), p, meta,
          if kept then None else Some(summary), c.reply.backend.journal,
          if kept then SkippedSimilarity else Regenerated);
      }
    }
  }

  lemma RegenerateRow(sha: Sha, c: Call, b: Brain, p: string, e: Evaluation)
    requires c.owner.Some?
    requires c.reply.planningFails || !c.reply.setupFails
    ensures
      var (after, result) := Regenerate(sha, c, b, p, e);
      var row := LockAt(after.locks, p);
      && (result.Done? ==> row.Some? && row.value.status == Idle && row.value.owner == None && row.value.error == None)
      && (ClaimRefused(c, b.locks, p) ==> result.Raised? && OwnerOf(after.locks, p) == OwnerOf(b.locks, p))
      && (result.Raised? && !ForeignRow(c, b.locks, p) ==>
            row.Some? && row.value.status == Failed && row.value.owner == None && row.value.error == Some(c.reply.reason))
  {
    hide Terminal, Claimed, ClaimRefused, Commit, SaveUnowned, Regenerate;
    RegeneratePaths(sha, c, b, p, e);
    TerminalReturns(c, b.locks, p, At(c.now), Failed, Some(c.reply.reason));
    ClaimedRow(c, b.locks, p);
  }
}
