/** The event queue in front of the engine. The class keeps a ghost trace of its timed events; its
    fields are always the replay of that trace, so the theorems of module QueueTiming apply to it. */
module RegenQueue {
  import opened Basics
  import opened Topology
  import opened Evaluation
  import opened RegenLocks
  import opened RegenEngine
  import opened RegenSoundness
  import opened RegenConsistency
  import opened RegenRuns
  import opened QueueTiming

  /** time.monotonic(): any clock that does not run backwards. */
  class Clock {
    var time: int

    constructor ()
      ensures time == 0
    {
      time := 0;
    }

    method Monotonic() returns (now: int)
      modifies this
      ensures old(time) <= time == now
    {
      var step :| 0 <= step;
      time := time + step;
      now := time;
    }
  }

  lemma {:induction false} LiveAtMostLength(times: seq<int>, cutoff: int)
    ensures Live(times, cutoff) <= |times|
  {
    if times != [] {
      LiveAtMostLength(times[..|times| - 1], cutoff);
    }
  }

  lemma {:induction false} LiveShrinks(times: seq<int>, early: int, late: int)
    requires early <= late
    ensures Live(times, late) <= Live(times, early)
  {
    if times != [] {
      LiveShrinks(times[..|times| - 1], early, late);
    }
  }

  /** What became of p's latest attempt. */
  function Fate(tr: seq<Event>, p: string): Option<Event> {
    if tr == [] then None
    else
      var e := tr[|tr| - 1];
      if (e.Completed? || e.FailedAt? || e.Skipped?) && e.path == p then Some(e) else Fate(tr[..|tr| - 1], p)
  }

  lemma FateAfter(tr: seq<Event>, e: Event, p: string)
    requires (e.Completed? || e.FailedAt? || e.Skipped?) && e.path == p
    ensures Fate(tr + [e], p) == Some(e)
    ensures forall q :: q != p ==> Fate(tr + [e], q) == Fate(tr, q)
  {
    assert (tr + [e])[..|tr + [e]| - 1] == tr;
  }

  /** The batch's result for p and the queue's record of it agree. */
  ghost predicate Agrees(run: Run, tr: seq<Event>, p: string) {
    && Fate(tr, p).Some?
    && (Fate(tr, p).value.FailedAt? <==> p in run.failed)
    && (Fate(tr, p).value.Skipped? <==> p in run.refused)
  }

  /** The surroundings of a guarded batch: ownership is taken with twice the cooldown as threshold. */
  ghost predicate Guards(env: Env, cfg: Config) {
    env.guarded && env.guardThreshold == cfg.cooldown * 2
  }

  class RegenQueue {
    const cfg: Config
    const clock: Clock
    const engine: Engine
    var pending: map<string, PendingRegen>
    var retryCounts: map<string, nat>
    var lastRegen: map<string, int>
    var regenTimes: seq<int>
    ghost var trace: seq<Event>

    constructor (cfg: Config, clock: Clock, engine: Engine)
      requires clock.time >= 0
      ensures Consistent() && Idle() && pending == map[]
      ensures this.cfg == cfg && this.clock == clock && this.engine == engine
    {
      this.cfg, this.clock, this.engine := cfg, clock, engine;
      pending, retryCounts, lastRegen, regenTimes, trace := map[], map[], map[], [], [];
    }

    function Fields(): Queue
      reads this
    {
      Queue(pending, retryCounts, lastRegen, regenTimes)
    }

    ghost predicate Consistent()
      reads this, clock
    {
      Valid(cfg, trace) && Replay(cfg, trace) == Fields() && Time(trace) <= clock.time
    }

    ghost predicate Idle()
      reads this
    {
      InFlight(trace) == {}
    }

    /** Enqueue, or reset the debounce timer and keep the retry count. */
    method Enqueue(p: string)
      requires Consistent()
      modifies this, clock
      ensures Consistent() && trace == old(trace) + [Enqueued(p, clock.time)]
      ensures p in pending && pending[p].fireAt == clock.time + cfg.debounce
    {
      var now := clock.Monotonic();
      var fireAt := now + cfg.debounce;
      if p in pending {
        pending := pending[p := pending[p].(fireAt := fireAt)];
      } else {
        pending := pending[p := PendingRegen(fireAt, 0)];
      }
      Extend(cfg, trace, Enqueued(p, now));
      trace := trace + [Enqueued(p, now)];
    }

    method IsRateLimited() returns (limited: bool)
      modifies this`regenTimes, clock
      ensures old(clock.time) <= clock.time
      ensures regenTimes == DropExpired(old(regenTimes), clock.time - HOUR)
      ensures limited <==> |regenTimes| >= cfg.maxPerHour
    {
      var now := clock.Monotonic();
      var cutoff := now - HOUR;
      while regenTimes != [] && regenTimes[0] <= cutoff
        invariant old(clock.time) <= clock.time == now
        invariant DropExpired(regenTimes, cutoff) == DropExpired(old(regenTimes), cutoff)
        decreases |regenTimes|
      {
        regenTimes := regenTimes[1..];
      }
      limited := |regenTimes| >= cfg.maxPerHour;
    }

    method IsOnCooldown(p: string) returns (cooling: bool)
      modifies clock
      ensures old(clock.time) <= clock.time
      ensures cooling <==> !Cooled(cfg, Fields(), p, clock.time)
    {
      cooling := false;
      if p in lastRegen {
        var now := clock.Monotonic();
        cooling := now - lastRegen[p] < cfg.cooldown;
      }
    }

    /** p is due, off cooldown and under the cap at the given time. */
    ghost predicate Qualifies(p: string, now: int)
      reads this
    {
      && p in pending && pending[p].fireAt <= now && Cooled(cfg, Fields(), p, now)
      && Live(Completions(trace), now - HOUR) < cfg.maxPerHour
    }

    /** That is: its timer has passed, its last run, if it had one, was at least the cooldown ago, and in the
        last hour fewer runs than the cap were completed. */
    lemma QualifiesExactly(p: string, now: int)
      requires Consistent()
      ensures Qualifies(p, now) <==>
        && p in pending && pending[p].fireAt <= now
        && (LastRun(trace, p).Some? ==> LastRun(trace, p).value + cfg.cooldown <= now)
        && |set i | 0 <= i < |Completions(trace)| && Completions(trace)[i] > now - 3600| < cfg.maxPerHour
    {
      hide Valid, Replay, Completions, Live;
      LastRunIsRemembered(cfg, trace, p);
      LiveCounts(Completions(trace), now - HOUR);
    }

    /** One reading of the rate limit inside the pop_ready loop. */
    method CheckRate(ghost taken: set<string>, ghost now: int, ghost counts: map<string, nat>) returns (limited: bool)
      requires Taking(cfg, trace, Fields(), counts, taken, now, clock.time)
      modifies this`regenTimes, this`trace, clock
      ensures Taking(cfg, trace, Fields(), counts, taken, now, clock.time)
      ensures old(clock.time) <= clock.time && Completions(trace) == Completions(old(trace))
      ensures limited <==> |regenTimes| >= cfg.maxPerHour
      ensures limited ==> Live(Completions(trace), clock.time - HOUR) >= cfg.maxPerHour
    {
      hide Taking;
      ghost var time := clock.time;
      ghost var q := Fields();
      limited := IsRateLimited();
      TakingPruned(cfg, trace, q, counts, taken, now, time, clock.time);
      trace := trace + [Pruned(clock.time)];
    }

    /** The three checks of the loop, and the remembered retry count of a path that passes them. */
    method Consider(p: string, now: int, ghost taken: set<string>, ghost counts: map<string, nat>) returns (deferred: bool)
      requires Taking(cfg, trace, Fields(), counts, taken, now, clock.time) && p in pending
      modifies this`regenTimes, this`retryCounts, this`trace, clock
      ensures old(clock.time) <= clock.time && Completions(trace) == Completions(old(trace))
      ensures Taking(cfg, trace, Fields(), counts, if deferred then taken else taken + {p}, now, clock.time)
      ensures deferred ==>
        || now < pending[p].fireAt
        || !Cooled(cfg, Fields(), p, old(clock.time))
        || Live(Completions(trace), clock.time - HOUR) >= cfg.maxPerHour
    {
      hide Taking, Valid, Replay, InFlight, Time, Completions, Live;
      ghost var time := clock.time;
      deferred := now < pending[p].fireAt;
      if deferred {
        return;
      }
      deferred := IsOnCooldown(p);
      TakingLater(cfg, trace, Fields(), counts, taken, now, time, clock.time);
      if deferred {
        return;
      }
      ghost var checked := clock.time;
      deferred := CheckRate(taken, now, counts);
      if deferred {
        return;
      }
      TakingOneMore(cfg, trace, Fields(), counts, taken, now, clock.time, p);
      retryCounts := retryCounts[p := pending[p].retryCount];
    }

    /** The loop over the pending entries. */
    method CollectReady(now: int, ghost start: int)
      returns (ready: seq<string>, stillPending: map<string, PendingRegen>)
      requires Consistent() && Idle() && start <= now <= clock.time
      modifies this`regenTimes, this`retryCounts, this`trace, clock
      ensures Taking(cfg, trace, Fields(), old(retryCounts), Elements(ready), now, clock.time)
      ensures Completions(trace) == Completions(old(trace)) && Distinct(ready)
      ensures stillPending == pending - Elements(ready)
      ensures forall p :: p in stillPending ==> !old(Qualifies(p, start))
    {
      hide Taking, Valid, Replay, InFlight, Time, Completions, Live, Elements, Distinct, StillThere;
      ready, stillPending := [], map[];
      ghost var done := Completions(trace);
      var rest := pending.Keys;
      NothingTaken(cfg, trace, Fields(), now, clock.time);
      ElementsOfNone();
      NothingSorted(pending);
      while rest != {}
        invariant rest <= pending.Keys && Completions(trace) == done && now <= clock.time
        invariant Taking(cfg, trace, Fields(), old(retryCounts), Elements(ready), now, clock.time)
        invariant StillThere(pending, stillPending, rest, Elements(ready)) && Distinct(ready)
        invariant forall p :: p in stillPending ==> !old(Qualifies(p, start))
        decreases |rest|
      {
        var p :| p in rest;
        SortedOne(pending, stillPending, rest, Elements(ready), p);
        rest := rest - {p};
        var deferred := Consider(p, now, Elements(ready), old(retryCounts));
        if deferred {
          LiveShrinks(done, start - HOUR, clock.time - HOUR);
          stillPending := stillPending[p := pending[p]];
        } else {
          ElementsOfSnoc(ready, p);
          ready := ready + [p];
        }
      }
      AllSorted(pending, stillPending, Elements(ready));
    }

    /** Everything that qualified before the call is popped, and what is popped qualifies: its timer had
        fired, it is off cooldown and the window is below the cap. */
    method PopReady() returns (ready: seq<string>)
      requires Consistent() && Idle()
      modifies this, clock
      ensures Consistent() && Distinct(ready)
      ensures Completions(trace) == Completions(old(trace))
      ensures InFlight(trace) == Elements(ready)
      ensures pending == old(pending) - Elements(ready)
      ensures retryCounts == Remembered(old(pending), old(retryCounts), Elements(ready))
      ensures lastRegen == old(lastRegen)
      ensures forall p :: p in pending ==> !old(Qualifies(p, clock.time))
      ensures forall p :: p in Elements(ready) ==>
        p in old(pending) && old(pending)[p].fireAt <= clock.time && Cooled(cfg, Fields(), p, clock.time)
      ensures Elements(ready) != {} ==> Live(Completions(trace), clock.time - HOUR) < cfg.maxPerHour
    {
      hide Valid, Replay, InFlight, Time, Completions, Live, Elements, Distinct, Remembered;
      ghost var start, q := clock.time, Fields();
      var now := clock.Monotonic();
      var stillPending;
      ready, stillPending := CollectReady(now, start);
      TakingDone(cfg, trace, Fields(), q.retryCounts, Elements(ready), now, clock.time);
      trace := trace + [Popped(Elements(ready), now, clock.time)];
      pending := stillPending;
    }

    /** next_fire_in: the time until the earliest timer, 0 when it has passed already. */
    method NextFireIn() returns (wait: Option<nat>)
      modifies clock
      ensures wait == None <==> pending == map[]
      ensures wait == Some(0) <==> exists p :: p in pending && pending[p].fireAt <= clock.time
      ensures wait.Some? && wait.value > 0 ==>
        && (exists p :: p in pending && pending[p].fireAt == clock.time + wait.value)
        && (forall p :: p in pending ==> clock.time + wait.value <= pending[p].fireAt)
    {
      if pending == map[] {
        return None;
      }
      var now := clock.Monotonic();
      var earliest :| earliest in pending;
      var rest := pending.Keys - {earliest};
      while rest != {}
        invariant rest <= pending.Keys && earliest in pending && clock.time == now
        invariant forall p :: p in pending.Keys - rest ==> pending[earliest].fireAt <= pending[p].fireAt
        decreases |rest|
      {
        var p :| p in rest;
        if pending[p].fireAt < pending[earliest].fireAt {
          earliest := p;
        }
        rest := rest - {p};
      }
      wait := Some(if pending[earliest].fireAt <= now then 0 else pending[earliest].fireAt - now);
    }

    // ---------- running a batch ----------

    /** Guarded acquisition, then the engine. */
    method VisitFolder(env: Env, p: string, ghost run: Run) returns (refused: bool, result: Result)
      requires env.guarded && engine.State() == run.brain
      modifies engine, engine.locks
      ensures refused <==> Refuses(env, run.brain, p)
      ensures refused ==> engine.State() == Entered(env, run.brain, p)
      ensures !refused ==> engine.State() == Outcome(env, run.brain, p).0 && result == Outcome(env, run.brain, p).1
    {
      var c := env.call(p);
      result := Raised;
      var acquired := engine.locks.AcquireRegenOwnership(p, GuardOwner(c), c.now, env.guardThreshold, c.badSortsLow);
      refused := !acquired;
      if acquired {
        result := engine.RegenSingleFolder(env.sha, env.tree, c, p);
      }
    }

    /** Schedule a retry with backoff, or give up after the last one and leave the row failed. */
    method HandleFailure(p: string, owner: Option<string>, reason: string)
      requires Consistent() && p in InFlight(trace)
      modifies this`pending, this`trace, clock, engine.locks
      ensures Consistent() && InFlight(trace) == old(InFlight(trace)) - {p}
      ensures trace == old(trace) + [FailedAt(p, clock.time)]
      ensures 1 <= Attempts(old(trace), p) <= 4
      ensures Attempts(old(trace), p) <= 3 ==>
        && pending == old(pending)[p := PendingRegen(clock.time + RetryWait(Attempts(old(trace), p)), Attempts(old(trace), p))]
        && engine.locks.rows == old(engine.locks.rows)
      ensures Attempts(old(trace), p) == 4 ==>
        pending == old(pending) && engine.locks.rows == GaveUp(old(engine.locks.rows), p, owner, reason)
      ensures engine.locks.rows ==
        if RetryOf(Fields(), p) < MAX_RETRIES then old(engine.locks.rows) else GaveUp(old(engine.locks.rows), p, owner, reason)
    {
      hide GaveUp, Replay, Valid, Time, InFlight, Attempts;
      CountsAreAttempts(cfg, trace, p);
      var retry := if p in retryCounts then retryCounts[p] else 0;
      if retry < MAX_RETRIES {
        var now := clock.Monotonic();
        pending := pending[p := PendingRegen(now + Backoff(retry), retry + 1)];
      } else {
        GiveUp(p, owner, reason);
      }
      Extend(cfg, trace, FailedAt(p, clock.time));
      trace := trace + [FailedAt(p, clock.time)];
    }

    /** The terminal lock row after the last retry; a release that fails or a foreign owner is only logged. */
    method GiveUp(p: string, owner: Option<string>, reason: string)
      modifies engine.locks
      ensures engine.locks.rows == GaveUp(old(engine.locks.rows), p, owner, reason)
    {
      var row := LockAt(engine.locks.rows, p);
      if row == None || row.value.owner == None {
        var started := if row.Some? then row.value.started else NoStart;
        var _ := engine.locks.SaveRegenLock(p, Lock(Failed, started, None, Some(reason)));
      } else if row.value.owner == owner {
        var _ := engine.locks.ReleaseRegenOwnership(p, owner.value, Failed, Some(reason));
      }
    }

    /** Cooldown, window and retry bookkeeping of a path whose batch ran. */
    method RecordCompletion(p: string)
      requires Consistent() && p in InFlight(trace)
      modifies this`retryCounts, this`lastRegen, this`regenTimes, this`trace, clock
      ensures Consistent() && InFlight(trace) == old(InFlight(trace)) - {p}
      ensures |trace| == |old(trace)| + 1 && trace[..|old(trace)|] == old(trace)
      ensures trace[|old(trace)|].Completed? && trace[|old(trace)|].path == p
      ensures retryCounts == old(retryCounts) - {p}
    {
      var at := clock.Monotonic();
      lastRegen := lastRegen[p := at];
      var counted := clock.Monotonic();
      regenTimes := regenTimes + [counted];
      retryCounts := retryCounts - {p};
      Extend(cfg, trace, Completed(p, at, counted));
      trace := trace + [Completed(p, at, counted)];
    }

    /** One folder of a wave: bookkeeping only for paths that were enqueued themselves. */
    method WaveStep(env: Env, p: string, isReady: bool, ghost run: Run, ghost todo: set<string>)
      returns (regenerated: bool, propagates: bool)
      requires Consistent() && Guards(env, cfg) && engine.State() == run.brain && InFlight(trace) == todo
      requires isReady <==> p in todo
      requires isReady ==> p !in run.failed && p !in run.refused
      requires p in env.giveUp <==> p in todo && RetryOf(Fields(), p) >= MAX_RETRIES
      requires p in env.giveUp ==> env.giveUp[p] == p
      modifies this`pending, this`retryCounts, this`lastRegen, this`regenTimes, this`trace, clock, engine, engine.locks
      ensures Consistent() && InFlight(trace) == todo - {p}
      ensures forall q :: q != p ==> RetryOf(Fields(), q) == old(RetryOf(Fields(), q))
      ensures
        var next := Process(env, run, p);
        && engine.State() == next.brain
        && next.regenerated == (if regenerated then run.regenerated + 1 else run.regenerated)
        && next.dirty == (if propagates && p != "" then run.dirty + {ParentPath(p)} else run.dirty)
        && next.failed <= run.failed + {p} && next.refused <= run.refused + {p}
        && run.failed <= next.failed && run.refused <= next.refused
        && (isReady ==> Agrees(next, trace, p))
      ensures forall q :: q != p ==> Fate(trace, q) == Fate(old(trace), q)
    {
      hide Process, Continues, Outcome, Refuses, GaveUp, Valid, Replay, Time, InFlight, Fate;
      GuardedStep(env, run, p);
      regenerated, propagates := false, false;
      var refused, result := VisitFolder(env, p, run);
      ghost var e := Skipped(p);
      ghost var tr := trace;
      if refused {
        if isReady {
          Extend(cfg, trace, e);
          trace := trace + [e];
        }
      } else if result.Raised? {
        if isReady {
          HandleFailure(p, env.call(p).owner, env.call(p).reply.reason);
          e := FailedAt(p, clock.time);
        }
      } else {
        regenerated := result.action == Regenerated;
        propagates := PropagatesUp(result.action);
        if isReady {
          RecordCompletion(p);
          e := trace[|tr|];
          assert trace == tr + [e];
        }
      }
      FateAfter(tr, e, p);
    }

    /** The state of a wave batch between two folders: rest is still to come. */
    ghost predicate Sweeping(env: Env, run: Run, rest: seq<string>, ready: seq<string>, dirty: set<string>, counts: Queue)
      reads this, clock, engine, engine.locks
    {
      && Consistent() && engine.State() == run.brain && dirty == run.dirty && Elements(ready) <= run.dirty
      && InFlight(trace) == Elements(ready) * Elements(rest)
      && (forall p :: p in Elements(rest) ==>
            p !in run.failed && p !in run.refused && RetryOf(Fields(), p) == RetryOf(counts, p))
      && (forall p :: p in Elements(ready) && p !in Elements(rest) ==> Agrees(run, trace, p))
    }

    /** One iteration of the wave loop. */
    method SweepOne(env: Env, p: string, ready: seq<string>, dirty: set<string>,
      ghost run: Run, ghost rest: seq<string>, ghost counts: Queue)
      returns (regenerated: bool, grown: set<string>)
      requires Guards(env, cfg) && env.giveUp == ReadyGiveUp(ready, counts)
      requires Sweeping(env, run, [p] + rest, ready, dirty, counts) && p !in Elements(rest)
      modifies this`pending, this`retryCounts, this`lastRegen, this`regenTimes, this`trace, clock, engine, engine.locks
      ensures Sweeping(env, Visit(env, run, p), rest, ready, grown, counts)
      ensures Visit(env, run, p).regenerated == (if regenerated then run.regenerated + 1 else run.regenerated)
    {
      hide Valid, Replay, Time, InFlight, Fate, Process, Elements;
      ElementsOfCons(p, rest);
      ElementsOf(ready, p);
      regenerated, grown := false, dirty;
      if p in dirty {
        var propagates;
        regenerated, propagates := WaveStep(env, p, p in ready, run, InFlight(trace));
        if propagates && p != "" {
          grown := dirty + {ParentPath(p)};
        }
      }
    }

    /** _process_wave: the same run as the engine-level batch, and every ready path is decided once. */
    method ProcessWave(env: Env, d: BatchDecision) returns (total: nat)
      requires Consistent() && Guards(env, cfg)
      requires WavePlan(d.readyPaths, d.waves)
      requires InFlight(trace) == Elements(d.readyPaths)
      requires env.giveUp == ReadyGiveUp(d.readyPaths, Fields())
      modifies this, clock, engine, engine.locks
      ensures Consistent() && Idle()
      ensures
        var run := RunOrder(env, Start(old(engine.State()), d.readyPaths), Flatten(d.waves));
        && engine.State() == run.brain
        && total == run.regenerated
        && forall p :: p in Elements(d.readyPaths) ==> Agrees(run, trace, p)
    {
      hide Valid, Replay, Time, InFlight, Fate, Visit, WavePlan, Flatten, Elements, Schedule, Distinct, Sweeping, Agrees;
      ghost var order := Flatten(d.waves);
      ghost var run := Start(engine.State(), d.readyPaths);
      ghost var goal := RunOrder(env, run, order);
      ghost var counts := Fields();
      var dirty := Elements(d.readyPaths);
      SweepStarts(this, env, d, run);
      total := 0;
      var w := 0;
      while w < |d.waves|
        invariant w <= |d.waves| && total == run.regenerated
        invariant Distinct(Flatten(d.waves[w..])) && goal == RunOrder(env, run, Flatten(d.waves[w..]))
        invariant Sweeping(env, run, Flatten(d.waves[w..]), d.readyPaths, dirty, counts)
      {
        var wave := d.waves[w];
        ghost var later := Flatten(d.waves[w + 1..]);
        FlattenFrom(d.waves, w);
        assert wave[0..] == wave;
        var i := 0;
        while i < |wave|
          invariant i <= |wave| && total == run.regenerated
          invariant Distinct(wave[i..] + later) && goal == RunOrder(env, run, wave[i..] + later)
          invariant Sweeping(env, run, wave[i..] + later, d.readyPaths, dirty, counts)
        {
          var p := wave[i];
          ghost var rest := wave[i + 1..] + later;
          assert wave[i..] + later == [p] + rest && ([p] + rest)[1..] == rest;
          DistinctTail(p, rest);
          var regenerated;
          regenerated, dirty := SweepOne(env, p, d.readyPaths, dirty, run, rest, counts);
          run := Visit(env, run, p);
          if regenerated {
            total := total + 1;
          }
          i := i + 1;
        }
        assert wave[i..] + later == later;
        w := w + 1;
      }
      FlattenNone(d.waves[w..]);
      SweepEnds(this, env, run, d.readyPaths, dirty, counts);
    }

    /** process_ready: pop, choose the strategy, run it. For one ready path the batch is the bounded
        walk-up, for several it is the wave batch over their ancestor closure. */
    method ProcessReady(sha: Sha, tree: Tree, call: string -> Call)
      returns (total: nat, ghost env: Env, ghost d: BatchDecision)
      requires Consistent() && Idle()
      modifies this, clock, engine, engine.locks
      ensures Consistent() && Idle() && Guards(env, cfg)
      ensures forall p :: old(Qualifies(p, clock.time)) ==> p in Elements(d.readyPaths)
      ensures forall p :: p in Elements(d.readyPaths) ==> p in old(pending)
      ensures d.readyPaths == [] ==> total == 0 && engine.State() == old(engine.State())
      ensures |d.readyPaths| == 1 ==>
        var walk := WalkUp(env, Start(old(engine.State()), d.readyPaths), BoundedChain(d.readyPaths[0], WALK_UP_LIMIT));
        engine.State() == walk.brain && total == if walk.failed != {} then 0 else walk.regenerated
      ensures |d.readyPaths| > 1 ==>
        var run := RunOrder(env, Start(old(engine.State()), d.readyPaths), Flatten(d.waves));
        && WavePlan(d.readyPaths, d.waves) && engine.State() == run.brain && total == run.regenerated
        && forall p :: p in Elements(d.readyPaths) ==> Agrees(run, trace, p)
    {
      hide Valid, Replay, Time, InFlight, Fate, WavePlan, Flatten, Elements, Live, Completions, Agrees, Unique, Remembered;
      env := Env(sha, tree, true, cfg.cooldown * 2, map[], call);
      var ready := PopReady();
      d := BatchDecision(WaveBatch, [], [], []);
      ElementsOfNone();
      if ready == [] {
        total := 0;
        return;
      }
      var decision := DecideQueueBatch(ready);
      d := decision;
      UniqueElements(ready);
      if decision.strategy == SinglePathWalkUp {
        ElementsOfOne(decision.readyPaths);
        var batch := Env(sha, tree, true, cfg.cooldown * 2, SeedGivesUp(decision, RetryOf(Fields(), decision.readyPaths[0])), call);
        env := batch;
        total := ProcessSingleWalkUp(batch, decision);
      } else {
        var batch := Env(sha, tree, true, cfg.cooldown * 2, ReadyGiveUp(decision.readyPaths, Fields()), call);
        env := batch;
        total := ProcessWave(batch, decision);
      }
    }

    /** _process_single_walk_up: a refused or non-propagating step ends the walk and still counts as a
        completion of the seed; a failure anywhere on the chain is charged to the seed. */
    method ProcessSingleWalkUp(env: Env, d: BatchDecision) returns (total: nat)
      requires Consistent() && Guards(env, cfg)
      requires |d.readyPaths| == 1 && d.scheduledPaths == BoundedChain(d.readyPaths[0], WALK_UP_LIMIT)
      requires InFlight(trace) == {d.readyPaths[0]}
      requires env.giveUp == SeedGivesUp(d, RetryOf(Fields(), d.readyPaths[0]))
      modifies this, clock, engine, engine.locks
      ensures Consistent() && Idle()
      ensures
        var seed := d.readyPaths[0];
        var walk := WalkUp(env, Start(old(engine.State()), d.readyPaths), d.scheduledPaths);
        && engine.State() == walk.brain
        && total == (if walk.failed != {} then 0 else walk.regenerated)
        && |trace| == |old(trace)| + 1 && trace[..|old(trace)|] == old(trace)
        && (if walk.failed != {} then trace[|old(trace)|].FailedAt? else trace[|old(trace)|].Completed?)
        && trace[|old(trace)|].path == seed
    {
      hide Process, Continues, Outcome, Refuses, AfterFailure;
      var seed := d.readyPaths[0];
      var chain := d.scheduledPaths;
      ghost var run := Start(engine.State(), d.readyPaths);
      ghost var goal := WalkUp(env, run, chain);
      total := 0;
      var i := 0;
      while i < |chain|
        invariant i <= |chain| && engine.State() == run.brain && total == run.regenerated && run.failed == {}
        invariant goal == WalkUp(env, run, chain[i..])
        invariant Consistent() && trace == old(trace) && Fields() == old(Fields())
      {
        var p := chain[i];
        assert chain[i..][0] == p && chain[i..][1..] == chain[i + 1..];
        GuardedStep(env, run, p);
        var refused, result := VisitFolder(env, p, run);
        run := Process(env, run, p);
        if refused {
          break;
        }
        if result.Raised? {
          SeedBlamed(env, d, engine.State(), p, RetryOf(Fields(), seed));
          HandleFailure(seed, env.call(p).owner, env.call(p).reply.reason);
          return 0;
        }
        if result.action == Regenerated {
          total := total + 1;
        }
        if !PropagatesUp(result.action) {
          break;
        }
        i := i + 1;
      }
      RecordCompletion(seed);
    }
  }

  /** Ready paths whose retries are spent. */
  function ReadyGiveUp(ready: seq<string>, q: Queue): map<string, string> {
    map p | p in Elements(ready) && RetryOf(q, p) >= MAX_RETRIES :: p
  }

  lemma SweepStarts(queue: RegenQueue, env: Env, d: BatchDecision, run: Run)
    requires queue.Consistent() && WavePlan(d.readyPaths, d.waves) && run == Start(queue.engine.State(), d.readyPaths)
    requires InFlight(queue.trace) == Elements(d.readyPaths)
    ensures Distinct(Flatten(d.waves)) && d.waves[0..] == d.waves
    ensures queue.Sweeping(env, run, Flatten(d.waves), d.readyPaths, Elements(d.readyPaths), queue.Fields())
  {
    hide Valid, Replay, Time, InFlight, Fate, WavePlan;
    WavePlanIsSchedule(d.readyPaths, d.waves);
    ReadyIsScheduled(d.readyPaths, d.waves);
    assert Elements(d.readyPaths) <= Elements(Flatten(d.waves));
  }

  lemma SweepEnds(queue: RegenQueue, env: Env, run: Run, ready: seq<string>, dirty: set<string>, counts: Queue)
    requires queue.Sweeping(env, run, [], ready, dirty, counts)
    ensures queue.Consistent() && queue.Idle() && queue.engine.State() == run.brain
    ensures forall p :: p in Elements(ready) ==> Agrees(run, queue.trace, p)
  {
    hide Valid, Replay, Time, InFlight, Fate;
    ElementsOfNone();
    assert Elements(ready) * Elements([]) == {};
  }

  lemma FlattenNone(waves: seq<seq<string>>)
    requires waves == []
    ensures Flatten(waves) == []
  {
  }

  lemma FlattenFrom(waves: seq<seq<string>>, w: nat)
    requires w < |waves|
    ensures Flatten(waves[w..]) == waves[w] + Flatten(waves[w + 1..])
  {
    assert waves[w..][0] == waves[w] && waves[w..][1..] == waves[w + 1..];
  }

  lemma DistinctTail(p: string, rest: seq<string>)
    requires Distinct([p] + rest)
    ensures p !in Elements(rest) && Distinct(rest)
  {
    var s := [p] + rest;
    forall i | 0 <= i < |rest| ensures rest[i] != p {
      assert s[0] != s[i + 1];
    }
    forall i, j | 0 <= i < j < |rest| ensures rest[i] != rest[j] {
      assert s[i + 1] != s[j + 1];
    }
  }

  lemma UniqueElements(s: seq<string>)
    ensures Elements(Unique(s)) == Elements(s)
    ensures s != [] ==> Unique(s) != []
  {
    if s != [] {
      assert s[0] in Unique(s);
    }
  }

  lemma ElementsOfOne(s: seq<string>)
    requires |s| == 1
    ensures Elements(s) == {s[0]}
  {
  }

  lemma ElementsOfCons(p: string, rest: seq<string>)
    ensures Elements([p] + rest) == {p} + Elements(rest)
  {
  }

  lemma ElementsOf(s: seq<string>, p: string)
    ensures p in Elements(s) <==> p in s
  {
  }

  /** Failures of a walk-up are charged to its seed; the last retry leaves the seed's row failed. */
  function SeedGivesUp(d: BatchDecision, retry: nat): map<string, string>
    requires |d.readyPaths| == 1
  {
    if retry < MAX_RETRIES then map[] else map p | p in Elements(d.scheduledPaths) :: d.readyPaths[0]
  }

  lemma SeedBlamed(env: Env, d: BatchDecision, b: Brain, p: string, retry: nat)
    requires |d.readyPaths| == 1 && p in d.scheduledPaths && env.giveUp == SeedGivesUp(d, retry)
    ensures AfterFailure(env, b, p) ==
      if retry < MAX_RETRIES then b
      else Brain(b.summaries, b.metas, b.journals,
        GaveUp(b.locks, d.readyPaths[0], env.call(p).owner, env.call(p).reply.reason))
  {
  }

  /** What processing one folder of a guarded run amounts to. */
  lemma GuardedStep(env: Env, run: Run, p: string)
    ensures
      var next := Process(env, run, p);
      if Refuses(env, run.brain, p) then
        && next == run.(brain := Entered(env, run.brain, p), refused := run.refused + {p})
        && !Continues(env, run, p)
      else
        var (after, result) := Outcome(env, run.brain, p);
        && next.refused == run.refused
        && next.failed == (if result.Raised? then run.failed + {p} else run.failed)
        && next.brain == (if result.Raised? then AfterFailure(env, after, p) else after)
        && next.regenerated == (if result.Done? && result.action == Regenerated then run.regenerated + 1 else run.regenerated)
        && next.dirty == (if result.Done? && PropagatesUp(result.action) && p != "" then run.dirty + {ParentPath(p)} else run.dirty)
        && (Continues(env, run, p) <==> result.Done? && PropagatesUp(result.action))
  {
    hide Outcome, Entered, AfterFailure, Evaluated, GuardRefuses;
    var result := Outcome(env, run.brain, p).1;
    assert result.Done? || result.Raised?;
  }

  /** Of the entries outside rest, the taken ones are gone and the others are still there. */
  ghost predicate StillThere(
    pending: map<string, PendingRegen>, still: map<string, PendingRegen>, rest: set<string>, taken: set<string>)
  {
    && rest <= pending.Keys && taken <= pending.Keys && taken !! rest
    && still.Keys == pending.Keys - rest - taken
    && forall p :: p in still ==> still[p] == pending[p]
  }

  lemma NothingSorted(pending: map<string, PendingRegen>)
    ensures StillThere(pending, map[], pending.Keys, {})
  {
  }

  lemma SortedOne(
    pending: map<string, PendingRegen>, still: map<string, PendingRegen>, rest: set<string>, taken: set<string>, p: string)
    requires StillThere(pending, still, rest, taken) && p in rest
    ensures p in pending && p !in taken
    ensures StillThere(pending, still[p := pending[p]], rest - {p}, taken)
    ensures StillThere(pending, still, rest - {p}, taken + {p})
  {
  }

  lemma AllSorted(pending: map<string, PendingRegen>, still: map<string, PendingRegen>, taken: set<string>)
    requires StillThere(pending, still, {}, taken)
    ensures still == pending - taken
  {
  }

  function Elements(s: seq<string>): set<string> {
    set p | p in s
  }

  lemma ElementsOfNone()
    ensures Elements([]) == {}
    ensures Distinct<string>([])
  {
  }

  lemma ElementsOfSnoc(s: seq<string>, p: string)
    ensures Elements(s + [p]) == Elements(s) + {p}
    ensures Distinct(s) && p !in Elements(s) ==> Distinct(s + [p])
  {
  }

  /** The state inside the pop_ready loop: the trace is still that of the fields before the pop, except
      that the retry counts of the taken paths are already remembered. */
  ghost predicate Taking(
    cfg: Config, tr: seq<Event>, q: Queue, counts: map<string, nat>, taken: set<string>, now: int, time: int)
  {
    && Valid(cfg, tr) && Time(tr) <= time && InFlight(tr) == {} && now <= time
    && Replay(cfg, tr) == Queue(q.pending, counts, q.lastRegen, q.regenTimes)
    && q.retryCounts == Remembered(q.pending, counts, taken)
    && (taken != {} ==> |q.regenTimes| < cfg.maxPerHour)
    && forall p :: p in taken ==> p in q.pending && q.pending[p].fireAt <= now && Cooled(cfg, q, p, time)
  }

  lemma NothingTaken(cfg: Config, tr: seq<Event>, q: Queue, now: int, time: int)
    requires Valid(cfg, tr) && Time(tr) <= time && InFlight(tr) == {} && now <= time && Replay(cfg, tr) == q
    ensures Taking(cfg, tr, q, q.retryCounts, {}, now, time)
  {
    assert Remembered(q.pending, q.retryCounts, {}) == q.retryCounts;
  }

  lemma TakingLater(
    cfg: Config, tr: seq<Event>, q: Queue, counts: map<string, nat>, taken: set<string>, now: int, time: int, later: int)
    requires Taking(cfg, tr, q, counts, taken, now, time) && time <= later
    ensures Taking(cfg, tr, q, counts, taken, now, later)
  {
  }

  lemma TakingPruned(
    cfg: Config, tr: seq<Event>, q: Queue, counts: map<string, nat>, taken: set<string>, now: int, time: int, later: int)
    requires Taking(cfg, tr, q, counts, taken, now, time) && time <= later
    ensures
      var kept := DropExpired(q.regenTimes, later - HOUR);
      && Taking(cfg, tr + [Pruned(later)], q.(regenTimes := kept), counts, taken, now, later)
      && Completions(tr + [Pruned(later)]) == Completions(tr)
      && |kept| == Live(Completions(tr), later - HOUR)
  {
    hide Replay, Valid, Time, InFlight, Completions, Live, DropExpired, Remembered;
    PrunedLengthCountsTheLastHour(cfg, tr, later);
    DropExpiredShrinks(q.regenTimes, later - HOUR);
    Extend(cfg, tr, Pruned(later));
    CompletionsOfExtension(tr, Pruned(later));
  }

  lemma TakingOneMore(
    cfg: Config, tr: seq<Event>, q: Queue, counts: map<string, nat>, taken: set<string>, now: int, time: int, p: string)
    requires Taking(cfg, tr, q, counts, taken, now, time)
    requires p in q.pending && q.pending[p].fireAt <= now && Cooled(cfg, q, p, time) && |q.regenTimes| < cfg.maxPerHour
    ensures Taking(cfg, tr, q.(retryCounts := q.retryCounts[p := q.pending[p].retryCount]), counts, taken + {p}, now, time)
  {
    hide Remembered, Valid, Replay, InFlight, Time;
    RememberOneMore(q.pending, counts, taken, p);
  }

  lemma RememberOneMore(pending: map<string, PendingRegen>, counts: map<string, nat>, taken: set<string>, p: string)
    requires p in pending
    ensures Remembered(pending, counts, taken + {p}) == Remembered(pending, counts, taken)[p := pending[p].retryCount]
  {
  }

  /** Installing the remaining pending entries completes the event the whole call amounts to. */
  lemma TakingDone(
    cfg: Config, tr: seq<Event>, q: Queue, counts: map<string, nat>, taken: set<string>, now: int, time: int)
    requires Taking(cfg, tr, q, counts, taken, now, time)
    ensures
      var longer := tr + [Popped(taken, now, time)];
      && Valid(cfg, longer) && Time(longer) == time && InFlight(longer) == taken
      && Replay(cfg, longer) == q.(pending := q.pending - taken)
      && Completions(longer) == Completions(tr)
      && q.retryCounts == Remembered(q.pending, counts, taken)
      && (taken != {} ==> Live(Completions(tr), time - HOUR) < cfg.maxPerHour)
      && forall p :: p in taken ==> p in q.pending && q.pending[p].fireAt <= now && Cooled(cfg, q, p, time)
  {
    LiveAtMostLength(q.regenTimes, time - HOUR);
    PrunedLengthCountsTheLastHour(cfg, tr, time);
    Extend(cfg, tr, Popped(taken, now, time));
    CompletionsOfExtension(tr, Popped(taken, now, time));
  }

  lemma DropExpiredShrinks(times: seq<int>, cutoff: int)
    ensures |DropExpired(times, cutoff)| <= |times|
  {
    var _ := DropExpiredIsSuffix(times, cutoff);
  }

  lemma CompletionsOfExtension(tr: seq<Event>, e: Event)
    ensures Completions(tr + [e]) == if e.Completed? then Completions(tr) + [e.counted] else Completions(tr)
  {
    assert (tr + [e])[..|tr + [e]| - 1] == tr;
  }
}
