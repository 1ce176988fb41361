/** The regen_locks table: guarded ownership of one regeneration slot per knowledge path. */
module RegenLocks {
  import opened Basics

  datatype Status = Idle | Running | Failed

  /** regen_started_utc: absent, not a timestamp, or a time in seconds. */
  datatype Started = NoStart | BadStart | At(t: int)

  datatype Lock = Lock(status: Status, started: Started, owner: Option<string>, error: Option<string>)

  type Locks = map<string, Lock>

  datatype SaveResult = Saved(locks: Locks) | OwnershipError

  const STALE_THRESHOLD: int := 600

  function OwnerOf(locks: Locks, p: string): Option<string> {
    if p in locks then locks[p].owner else None
  }

  /** SQL text comparison `regen_started_utc < cutoff`: NULL is never smaller; how an unparsable
      text compares is not known here, so badSortsLow ranges over both answers. */
  predicate StartedBefore(s: Started, cutoff: int, badSortsLow: bool) {
    match s
    case NoStart => false
    case BadStart => badSortsLow
    case At(t) => t < cutoff
  }

  /** Python-side test of reclaim_stale_running_states: unusable timestamps count as stale. */
  predicate Stale(s: Started, cutoff: int) {
    match s
    case NoStart => true
    case BadStart => true
    case At(t) => t < cutoff
  }

  predicate CanAcquire(locks: Locks, p: string, owner: string, now: int, threshold: int, badSortsLow: bool) {
    p in locks ==>
      || locks[p].owner == None
      || locks[p].owner == Some(owner)
      || (locks[p].status == Running && StartedBefore(locks[p].started, now - threshold, badSortsLow))
  }

  /** INSERT OR IGNORE an idle row, then the guarded UPDATE. */
  function Acquire(locks: Locks, p: string, owner: string, now: int, threshold: int, badSortsLow: bool): Locks {
    var rows := if p in locks then locks else locks[p := Lock(Idle, NoStart, None, None)];
    if CanAcquire(locks, p, owner, now, threshold, badSortsLow)
    then rows[p := Lock(Running, At(now), Some(owner), rows[p].error)]
    else rows
  }

  /** save_regen_lock: keeps the row's owner, refuses to claim or to transfer it. */
  function Save(locks: Locks, p: string, lock: Lock): SaveResult {
    var existing := OwnerOf(locks, p);
    if lock.owner != None && lock.owner != existing then OwnershipError
    else Saved(locks[p := lock.(owner := existing)])
  }

  predicate CanRelease(locks: Locks, p: string, owner: string) {
    OwnerOf(locks, p) == Some(owner)
  }

  function Release(locks: Locks, p: string, owner: string, status: Status, error: Option<string>): Locks {
    if CanRelease(locks, p, owner)
    then locks[p := Lock(status, locks[p].started, None, error)]
    else locks
  }

  function Delete(locks: Locks, p: string): Locks {
    locks - {p}
  }

  function Freed(lock: Lock): Lock {
    lock.(status := Idle, owner := None)
  }

  predicate Reclaimable(lock: Lock, cutoff: int) {
    lock.status == Running && Stale(lock.started, cutoff)
  }

  function Reclaim(locks: Locks, now: int, threshold: int): Locks {
    map p | p in locks :: if Reclaimable(locks[p], now - threshold) then Freed(locks[p]) else locks[p]
  }

  function SessionExit(locks: Locks, owner: string): Locks {
    map p | p in locks ::
      if locks[p].status == Running && locks[p].owner == Some(owner) then Freed(locks[p]) else locks[p]
  }

  // ---------- renaming a folder ----------

  /** The path is the folder or lies below it. */
  predicate Inside(p: string, folder: string) {
    p == folder || folder + "/" <= p
  }

  function Renamed(p: string, src: string, dest: string): string
    requires Inside(p, src)
  {
    dest + p[|src|..]
  }

  /** UPDATE OR REPLACE for one fetched path; the row may be gone by then. */
  function RenameRow(locks: Locks, p: string, src: string, dest: string): Locks {
    if p in locks && Inside(p, src) then (locks - {p})[Renamed(p, src, dest) := locks[p]] else locks
  }

  /** Row by row, over paths fetched before the first update. */
  function RenameRows(locks: Locks, order: seq<string>, src: string, dest: string): Locks
    decreases |order|
  {
    if order == [] then locks else RenameRows(RenameRow(locks, order[0], src, dest), order[1..], src, dest)
  }

  // ---------- the table as the source keeps it: rows updated in place ----------

  class LockTable {
    var rows: Locks

    constructor ()
      ensures rows == map[]
    {
      rows := map[];
    }

    method AcquireRegenOwnership(p: string, owner: string, now: int, threshold: int, badSortsLow: bool)
      returns (acquired: bool)
      modifies this
      ensures acquired == CanAcquire(old(rows), p, owner, now, threshold, badSortsLow)
      ensures rows == Acquire(old(rows), p, owner, now, threshold, badSortsLow)
      ensures acquired ==> OwnerOf(rows, p) == Some(owner)
      ensures !acquired ==> OwnerOf(rows, p) == OwnerOf(old(rows), p)
    {
      if p !in rows {
        rows := rows[p := Lock(Idle, NoStart, None, None)];
      }
      var row := rows[p];
      acquired :=
        || row.owner == None
        || row.owner == Some(owner)
        || (row.status == Running && StartedBefore(row.started, now - threshold, badSortsLow));
      if acquired {
        rows := rows[p := row.(owner := Some(owner), status := Running, started := At(now))];
      }
    }

    method SaveRegenLock(p: string, lock: Lock) returns (saved: bool)
      modifies this
      ensures saved == Save(old(rows), p, lock).Saved?
      ensures rows == if saved then Save(old(rows), p, lock).locks else old(rows)
      ensures OwnerOf(rows, p) == OwnerOf(old(rows), p)
    {
      var existing := if p in rows then rows[p].owner else None;
      saved := lock.owner == None || lock.owner == existing;
      if saved {
        rows := rows[p := lock.(owner := existing)];
      }
    }

    method ReleaseRegenOwnership(p: string, owner: string, status: Status, error: Option<string>)
      returns (released: bool)
      modifies this
      ensures released == CanRelease(old(rows), p, owner)
      ensures rows == Release(old(rows), p, owner, status, error)
    {
      released := p in rows && rows[p].owner == Some(owner);
      if released {
        rows := rows[p := Lock(status, rows[p].started, None, error)];
      }
    }

    method DeleteRegenLock(p: string)
      modifies this`rows
      ensures rows == Delete(old(rows), p)
    {
      rows := rows - {p};
    }

    /** rename_knowledge_path_prefix; order is the order in which the rows were fetched. */
    method RenameKnowledgePathPrefix(order: seq<string>, src: string, dest: string)
      modifies this
      ensures rows == if src == "" || dest == "" then old(rows) else RenameRows(old(rows), order, src, dest)
    {
      if src == "" || dest == "" {
        return;
      }
      var i := 0;
      assert order[0..] == order;
      while i < |order|
        invariant i <= |order|
        invariant RenameRows(rows, order[i..], src, dest) == RenameRows(old(rows), order, src, dest)
      {
        var p := order[i];
        assert order[i..][1..] == order[i + 1..];
        if p in rows && (p == src || src + "/" <= p) {
          var row := rows[p];
          rows := (rows - {p})[dest + p[|src|..] := row];
        }
        i := i + 1;
      }
    }

    /** Collects the stale paths first, then frees each of them. */
    method ReclaimStaleRunningStates(now: int, threshold: int) returns (count: nat)
      modifies this
      ensures rows == Reclaim(old(rows), now, threshold)
      ensures count == |set p | p in old(rows) && Reclaimable(old(rows)[p], now - threshold)|
    {
      var stale := set p | p in rows && Reclaimable(rows[p], now - threshold);
      count := |stale|;
      var rest := stale;
      ghost var done: set<string> := {};
      while rest != {}
        invariant rest !! done && rest + done == stale && stale <= rows.Keys
        invariant Freeing(old(rows), rows, done)
        decreases |rest|
      {
        var p :| p in rest;
        FreeingOne(old(rows), rows, done, p);
        rows := rows[p := Freed(rows[p])];
        rest := rest - {p};
        done := done + {p};
      }
      FreeingAll(old(rows), rows, now, threshold);
    }

    method ReleaseOwnedRunningStates(owner: string)
      modifies this
      ensures rows == SessionExit(old(rows), owner)
    {
      rows := map p | p in rows ::
        if rows[p].status == Running && rows[p].owner == Some(owner) then Freed(rows[p]) else rows[p];
    }
  }

  ghost predicate Freeing(before: Locks, after: Locks, done: set<string>) {
    && after.Keys == before.Keys
    && forall p :: p in after ==> after[p] == if p in done then Freed(before[p]) else before[p]
  }

  lemma FreeingOne(before: Locks, now: Locks, done: set<string>, p: string)
    requires Freeing(before, now, done) && p in now && p !in done
    ensures Freeing(before, now[p := Freed(now[p])], done + {p})
  {
  }

  lemma FreeingAll(before: Locks, after: Locks, now: int, threshold: int)
    requires Freeing(before, after, set p | p in before && Reclaimable(before[p], now - threshold))
    ensures after == Reclaim(before, now, threshold)
  {
  }

  // ---------- what each operation leaves behind ----------

  /** Every row but that of p is as it was. */
  ghost predicate OtherRows(before: Locks, after: Locks, p: string) {
    && (forall q :: q != p ==> (q in before <==> q in after))
    && (forall q :: q != p && q in before ==> after[q] == before[q])
  }

  /** A claim is refused exactly by a row of another session that is not running, or runs since no longer than
      the threshold allows; a granted one starts running now and keeps the error, a refused one changes nothing. */
  lemma ClaimWrites(locks: Locks, p: string, owner: string, now: int, threshold: int, badSortsLow: bool)
    ensures
      var after := Acquire(locks, p, owner, now, threshold, badSortsLow);
      var refused :=
        && p in locks && locks[p].owner.Some? && locks[p].owner != Some(owner)
        && (locks[p].status != Running || locks[p].started == NoStart
          || (locks[p].started == BadStart && !badSortsLow)
          || (locks[p].started.At? && now - locks[p].started.t <= threshold));
      && (refused <==> !CanAcquire(locks, p, owner, now, threshold, badSortsLow))
      && (refused ==> after == locks)
      && (!refused ==>
            && p in after && OtherRows(locks, after, p)
            && after[p] == Lock(Running, At(now), Some(owner), if p in locks then locks[p].error else None))
  {
  }

  /** A claim keeps every other session out for exactly the threshold. */
  lemma ClaimHoldsForTheThreshold(
    locks: Locks, p: string, a: string, since: int, threshold: int, low: bool, b: string, now: int, limit: int)
    requires CanAcquire(locks, p, a, since, threshold, low) && b != a
    ensures CanAcquire(Acquire(locks, p, a, since, threshold, low), p, b, now, limit, low) <==> now - since > limit
  {
  }

  /** Saving keeps the owner of the row, and is refused exactly when it would name another one. */
  lemma SaveWrites(locks: Locks, p: string, lock: Lock)
    ensures
      var saved := Save(locks, p, lock);
      && (saved == OwnershipError <==> lock.owner.Some? && !(p in locks && locks[p].owner == lock.owner))
      && (saved.Saved? ==>
            && p in saved.locks && OtherRows(locks, saved.locks, p)
            && saved.locks[p].owner == (if p in locks then locks[p].owner else None)
            && saved.locks[p].status == lock.status && saved.locks[p].started == lock.started
            && saved.locks[p].error == lock.error)
  {
  }

  /** A release by the owner ends the claim with the given status and error and keeps its start; afterwards
      every session may claim the row. Anybody else's release changes nothing. */
  lemma ReleaseWrites(locks: Locks, p: string, owner: string, status: Status, error: Option<string>)
    ensures
      var after := Release(locks, p, owner, status, error);
      && (p in locks && locks[p].owner == Some(owner) ==>
            && p in after && OtherRows(locks, after, p)
            && after[p].status == status && after[p].error == error
            && after[p].started == locks[p].started && after[p].owner == None)
      && (!(p in locks && locks[p].owner == Some(owner)) ==> after == locks)
  {
  }

  lemma ReleasedIsFree(
    locks: Locks, p: string, owner: string, status: Status, error: Option<string>, b: string, now: int, limit: int, low: bool)
    requires p in locks && locks[p].owner == Some(owner)
    ensures CanAcquire(Release(locks, p, owner, status, error), p, b, now, limit, low)
  {
  }

  /** A freed row is idle and unowned and keeps its start and its error. */
  ghost predicate IsFreed(before: Lock, after: Lock) {
    after.status == Idle && after.owner == None && after.started == before.started && after.error == before.error
  }

  /** Reclaiming frees exactly the running rows that started before the threshold or have no usable start, and
      the end of a session exactly the running rows it owns; no row comes or goes. */
  lemma FreedRows(locks: Locks, now: int, threshold: int, owner: string, p: string)
    ensures p in locks <==> p in Reclaim(locks, now, threshold)
    ensures p in locks <==> p in SessionExit(locks, owner)
    ensures p in locks ==>
      if locks[p].status == Running && !(locks[p].started.At? && now - locks[p].started.t <= threshold)
      then IsFreed(locks[p], Reclaim(locks, now, threshold)[p])
      else Reclaim(locks, now, threshold)[p] == locks[p]
    ensures p in locks ==>
      if locks[p].status == Running && locks[p].owner == Some(owner)
      then IsFreed(locks[p], SessionExit(locks, owner)[p])
      else SessionExit(locks, owner)[p] == locks[p]
  {
  }

  // ---------- every interleaving of table operations ----------

  datatype Step =
    | AcquireStep(path: string, actor: string, now: int, threshold: int, badSortsLow: bool)
    | SaveStep(path: string, lock: Lock)
    | ReleaseStep(path: string, actor: string, status: Status, error: Option<string>)
    | ReclaimStep(now: int, threshold: int)
    | ExitStep(actor: string)
    | DeleteStep(path: string, actor: string)

  function Apply(locks: Locks, s: Step): Locks {
    match s
    case AcquireStep(p, o, now, limit, low) => Acquire(locks, p, o, now, limit, low)
    case SaveStep(p, lock) => var r := Save(locks, p, lock); if r.Saved? then r.locks else locks
    case ReleaseStep(p, o, status, error) => Release(locks, p, o, status, error)
    case ReclaimStep(now, limit) => Reclaim(locks, now, limit)
    case ExitStep(o) => SessionExit(locks, o)
    case DeleteStep(p, _) => Delete(locks, p)
  }

  /** The only ways a path can stop being owned by a. */
  ghost predicate EndsOwnership(row: Lock, p: string, a: string, s: Step) {
    match s
    case AcquireStep(q, b, now, limit, low) =>
      q == p && b != a && row.status == Running && StartedBefore(row.started, now - limit, low)
    case SaveStep(_, _) => false
    case ReleaseStep(q, b, _, _) => q == p && b == a
    case ReclaimStep(now, limit) => Reclaimable(row, now - limit)
    case ExitStep(b) => b == a && row.status == Running
    case DeleteStep(q, _) => q == p
  }

  /** a loses p exactly when the step is its own release or exit, a takeover or reclaim of a running
      row whose start is too old or unusable, or a deletion of the row. */
  lemma OwnershipEndsExactlyWhen(locks: Locks, s: Step, p: string, a: string)
    requires OwnerOf(locks, p) == Some(a)
    ensures OwnerOf(Apply(locks, s), p) != Some(a) <==> EndsOwnership(locks[p], p, a, s)
  {
  }

  /** Ownership starts only by acquiring. */
  lemma OwnershipStartsOnlyByAcquiring(locks: Locks, s: Step, p: string, b: string)
    requires OwnerOf(locks, p) != Some(b) && OwnerOf(Apply(locks, s), p) == Some(b)
    ensures s.AcquireStep? && s.path == p && s.actor == b
    ensures CanAcquire(locks, p, b, s.now, s.threshold, s.badSortsLow)
  {
  }

  /** The table together with what each session believes: (session, path) held since a time. */
  datatype Shared = Shared(locks: Locks, holds: map<(string, string), int>)

  function Next(st: Shared, s: Step): Shared {
    var locks := Apply(st.locks, s);
    match s
    case AcquireStep(p, o, now, limit, low) =>
      if CanAcquire(st.locks, p, o, now, limit, low)
      then Shared(locks, st.holds[(o, p) := now]) else Shared(locks, st.holds)
    case ReleaseStep(p, o, _, _) => Shared(locks, st.holds - {(o, p)})
    case ExitStep(o) => Shared(locks, map h | h in st.holds && h.0 != o :: st.holds[h])
    case DeleteStep(p, o) => Shared(locks, st.holds - {(o, p)})
    case _ => Shared(locks, st.holds)
  }

  /** Holders finish within the threshold, lifecycle writes to a held running row keep a start no
      older than the hold, and nobody deletes a row that another session holds. */
  ghost predicate Disciplined(st: Shared, s: Step) {
    match s
    case AcquireStep(p, _, now, limit, _) => forall h :: h in st.holds && h.1 == p ==> now - limit <= st.holds[h]
    case ReclaimStep(now, limit) => forall h :: h in st.holds ==> now - limit <= st.holds[h]
    case SaveStep(p, lock) =>
      lock.status == Running ==>
        forall h :: h in st.holds && h.1 == p ==> lock.started.At? && st.holds[h] <= lock.started.t
    case DeleteStep(p, o) => forall h :: h in st.holds && h.1 == p ==> h.0 == o
    case _ => true
  }

  ghost predicate HoldsBackedByRows(st: Shared) {
    forall h :: h in st.holds ==>
      && OwnerOf(st.locks, h.1) == Some(h.0)
      && (st.locks[h.1].status == Running ==>
            st.locks[h.1].started.At? && st.holds[h] <= st.locks[h.1].started.t)
  }

  function RunSteps(st: Shared, steps: seq<Step>): Shared
    decreases |steps|
  {
    if steps == [] then st else RunSteps(Next(st, steps[0]), steps[1..])
  }

  ghost predicate DisciplinedRun(st: Shared, steps: seq<Step>)
    decreases |steps|
  {
    steps == [] || (Disciplined(st, steps[0]) && DisciplinedRun(Next(st, steps[0]), steps[1..]))
  }

  lemma StepKeepsHolds(st: Shared, s: Step)
    requires HoldsBackedByRows(st) && Disciplined(st, s)
    ensures HoldsBackedByRows(Next(st, s))
  {
    var next := Next(st, s);
    forall h | h in next.holds
      ensures OwnerOf(next.locks, h.1) == Some(h.0)
      ensures next.locks[h.1].status == Running ==>
        next.locks[h.1].started.At? && next.holds[h] <= next.locks[h.1].started.t
    {
      if h in st.holds && next.holds[h] == st.holds[h] && !(s.AcquireStep? && h == (s.actor, s.path)) {
        OwnershipEndsExactlyWhen(st.locks, s, h.1, h.0);
      }
    }
  }

  /** Over every disciplined run, two different sessions never hold the same path. */
  lemma {:induction false} NoSharedPath(st: Shared, steps: seq<Step>, p: string, a: string, b: string)
    requires HoldsBackedByRows(st) && DisciplinedRun(st, steps)
    requires (a, p) in RunSteps(st, steps).holds && (b, p) in RunSteps(st, steps).holds
    ensures a == b
    decreases |steps|
  {
    if steps != [] {
      StepKeepsHolds(st, steps[0]);
      NoSharedPath(Next(st, steps[0]), steps[1..], p, a, b);
    }
  }

  // ---------- the same without any discipline ----------

  /** Every hold is what the row says. */
  ghost predicate Named(st: Shared) {
    forall a, p :: (a, p) in st.holds ==> OwnerOf(st.locks, p) == Some(a)
  }

  /** The session gives its own holds up, and knows it. */
  predicate GivesUp(s: Step, a: string) {
    match s
    case ReleaseStep(_, b, _, _) => b == a
    case ExitStep(b) => b == a
    case DeleteStep(_, b) => b == a
    case _ => false
  }

  /** The step ends a's hold on p without a's doing: a takeover or reclaim of its running row, or the
      deletion of the row by somebody else. */
  ghost predicate EndsHoldOf(st: Shared, s: Step, a: string, p: string) {
    (a, p) in st.holds && p in st.locks && !GivesUp(s, a) && EndsOwnership(st.locks[p], p, a, s)
  }

  ghost predicate EndsSomebodysHold(st: Shared, s: Step) {
    exists a, p :: EndsHoldOf(st, s, a, p)
  }

  lemma HoldsNext(st: Shared, s: Step, a: string, p: string)
    requires Named(st)
    ensures (a, p) in Next(st, s).holds <==>
      || ((a, p) in st.holds && !(GivesUp(s, a) && (s.ExitStep? || s.path == p)))
      || (s.AcquireStep? && s.actor == a && s.path == p && CanAcquire(st.locks, p, a, s.now, s.threshold, s.badSortsLow))
  {
    hide Apply;
  }

  lemma AcquiredIsNamed(st: Shared, s: Step)
    requires s.AcquireStep? && CanAcquire(st.locks, s.path, s.actor, s.now, s.threshold, s.badSortsLow)
    ensures OwnerOf(Apply(st.locks, s), s.path) == Some(s.actor)
  {
  }

  /** A step keeps every hold what the row says exactly when it ends nobody else's hold. */
  lemma StepKeepsNamedExactlyWhen(st: Shared, s: Step)
    requires Named(st)
    ensures Named(Next(st, s)) <==> !EndsSomebodysHold(st, s)
  {
    hide Apply, EndsOwnership, CanAcquire, Next;
    var next := Next(st, s);
    NextLocks(st, s);
    if EndsSomebodysHold(st, s) {
      var a, p :| EndsHoldOf(st, s, a, p);
      OwnershipEndsExactlyWhen(st.locks, s, p, a);
      HoldsNext(st, s, a, p);
      assert (a, p) in next.holds;
    } else {
      forall a, p | (a, p) in next.holds ensures OwnerOf(next.locks, p) == Some(a) {
        HoldsNext(st, s, a, p);
        if s.AcquireStep? && s.actor == a && s.path == p && CanAcquire(st.locks, p, a, s.now, s.threshold, s.badSortsLow) {
          AcquiredIsNamed(st, s);
        } else {
          OwnershipEndsExactlyWhen(st.locks, s, p, a);
          assert !EndsHoldOf(st, s, a, p);
          OwnStepElsewhere(st.locks[p], s, a, p);
        }
      }
    }
  }

  lemma NextLocks(st: Shared, s: Step)
    ensures Next(st, s).locks == Apply(st.locks, s)
  {
  }

  /** A session's own release or deletion of another path does not end its hold of p. */
  lemma OwnStepElsewhere(row: Lock, s: Step, a: string, p: string)
    ensures GivesUp(s, a) && !s.ExitStep? && s.path != p ==> !EndsOwnership(row, p, a, s)
  {
  }

  lemma {:induction false} RunStepsSnoc(st: Shared, steps: seq<Step>, k: nat)
    requires k < |steps|
    ensures RunSteps(st, steps[..k + 1]) == Next(RunSteps(st, steps[..k]), steps[k])
    decreases k
  {
    hide Next;
    assert steps[..k + 1][1..] == steps[1..][..k];
    if k == 0 {
      assert steps[..0] == [] && RunSteps(Next(st, steps[0]), []) == Next(st, steps[0]);
    } else {
      assert steps[..k][1..] == steps[1..][..k - 1];
      RunStepsSnoc(Next(st, steps[0]), steps[1..], k - 1);
    }
  }

  ghost predicate EndsAt(st: Shared, steps: seq<Step>, k: nat)
    requires k < |steps|
  {
    EndsSomebodysHold(RunSteps(st, steps[..k]), steps[k])
  }

  lemma {:induction false} NamedSoFar(st: Shared, steps: seq<Step>, k: nat)
    requires Named(st) && k <= |steps| && forall i :: 0 <= i < k ==> !EndsAt(st, steps, i)
    ensures Named(RunSteps(st, steps[..k]))
  {
    hide Next, Named, EndsSomebodysHold;
    if k == 0 {
      assert steps[..0] == [];
    } else {
      NamedSoFar(st, steps, k - 1);
      assert !EndsAt(st, steps, k - 1);
      RunStepsSnoc(st, steps, k - 1);
      StepKeepsNamedExactlyWhen(RunSteps(st, steps[..k - 1]), steps[k - 1]);
    }
  }

  /** Over every interleaving: every hold is what the row says, at every point of the run, exactly when no
      step ends the hold of another session. */
  lemma NamedOverRuns(st: Shared, steps: seq<Step>)
    requires Named(st)
    ensures (forall k :: 0 <= k <= |steps| ==> Named(RunSteps(st, steps[..k]))) <==>
      forall k :: 0 <= k < |steps| ==> !EndsAt(st, steps, k)
  {
    hide RunSteps, Next, Named, EndsSomebodysHold;
    if forall k :: 0 <= k <= |steps| ==> Named(RunSteps(st, steps[..k])) {
      forall k | 0 <= k < |steps| ensures !EndsAt(st, steps, k) {
        assert Named(RunSteps(st, steps[..k])) && Named(RunSteps(st, steps[..k + 1]));
        RunStepsSnoc(st, steps, k);
        StepKeepsNamedExactlyWhen(RunSteps(st, steps[..k]), steps[k]);
      }
    }
    if forall k :: 0 <= k < |steps| ==> !EndsAt(st, steps, k) {
      forall k | 0 <= k <= |steps| ensures Named(RunSteps(st, steps[..k])) {
        NamedSoFar(st, steps, k);
      }
    }
  }

  /** Two sessions hold one path only if somewhere before a step ended a hold of another session. */
  lemma SharedOnlyAfterEnding(st: Shared, steps: seq<Step>, p: string, a: string, b: string)
    requires Named(st) && a != b
    requires (a, p) in RunSteps(st, steps).holds && (b, p) in RunSteps(st, steps).holds
    ensures exists k :: 0 <= k < |steps| && EndsAt(st, steps, k)
  {
    hide RunSteps, EndsAt, Named;
    assert steps[..|steps|] == steps;
    if forall k :: 0 <= k < |steps| ==> !EndsAt(st, steps, k) {
      NamedSoFar(st, steps, |steps|);
      OneNamed(RunSteps(st, steps), p, a, b);
    }
  }

  lemma OneNamed(st: Shared, p: string, a: string, b: string)
    requires Named(st) && (a, p) in st.holds && (b, p) in st.holds
    ensures a == b
  {
  }

  /** delete_regen_lock ignores the owner: an outsider's cleanup lets two sessions hold one path. */
  lemma DeletionBreaksExclusion()
    ensures
      var st := Shared(map[], map[]);
      var steps := [AcquireStep("a", "s1", 0, STALE_THRESHOLD, false), DeleteStep("a", "s2"), AcquireStep("a", "s3", 1, STALE_THRESHOLD, false)];
      ("s1", "a") in RunSteps(st, steps).holds && ("s3", "a") in RunSteps(st, steps).holds
  {
    var st := Shared(map[], map[]);
    var s0 := AcquireStep("a", "s1", 0, STALE_THRESHOLD, false);
    var s1 := DeleteStep("a", "s2");
    var s2 := AcquireStep("a", "s3", 1, STALE_THRESHOLD, false);
    var st1 := Next(st, s0);
    var st2 := Next(st1, s1);
    var st3 := Next(st2, s2);
    assert ("s1", "a") in st1.holds && "s2" != "s1";
    assert ("s1", "a") in st2.holds && "a" !in st2.locks;
    assert [s0, s1, s2][1..] == [s1, s2] && [s1, s2][1..] == [s2] && [s2][1..] == [];
    assert RunSteps(st3, []) == st3;
    assert RunSteps(st2, [s2]) == st3;
    assert RunSteps(st1, [s1, s2]) == st3;
    assert RunSteps(st, [s0, s1, s2]) == st3;
    assert "s3" != "s1" && ("s1", "a") in st3.holds;
  }

  /** Some fetched row inside the folder is renamed to q. */
  ghost predicate IsTarget(paths: set<string>, q: string, src: string, dest: string) {
    exists p :: p in paths && Inside(p, src) && Renamed(p, src, dest) == q
  }

  /** The rows of done renamed all at once: each keeps its content, a row in the way is replaced, and
      everything else is untouched. */
  ghost predicate RenamedAtOnce(before: Locks, after: Locks, done: set<string>, src: string, dest: string) {
    && (forall p :: p in done && p in before && Inside(p, src) ==>
          Renamed(p, src, dest) in after && after[Renamed(p, src, dest)] == before[p])
    && (forall q :: !IsTarget(before.Keys * done, q, src, dest) ==>
          (q in after <==> q in before && !(q in done && Inside(q, src))) && (q in after ==> after[q] == before[q]))
  }

  lemma RenamedInjective(p: string, q: string, src: string, dest: string)
    requires Inside(p, src) && Inside(q, src) && Renamed(p, src, dest) == Renamed(q, src, dest)
    ensures p == q
  {
    assert p[|src|..] == Renamed(p, src, dest)[|dest|..] && q[|src|..] == Renamed(q, src, dest)[|dest|..];
    assert p == src + p[|src|..] && q == src + q[|src|..];
  }

  lemma NestedFolders(src: string, dest: string, suffix: string)
    requires suffix == "" || suffix[0] == '/'
    requires Inside(dest + suffix, src)
    ensures Inside(dest, src) || Inside(src, dest)
  {
    var q := dest + suffix;
    assert src <= q && q[..|dest|] == dest;
    if |src| < |dest| {
      assert q[|src|] == '/' && dest[|src|] == '/' && src <= dest;
      assert src + "/" <= dest;
    } else {
      assert dest == src[..|dest|];
      if |src| > |dest| {
        assert src[|dest|] == q[|dest|] == suffix[0];
        assert dest + "/" <= src;
      } else {
        assert src == dest;
      }
    }
  }

  /** With neither folder inside the other, no row lands inside the old folder. */
  lemma TargetsLeaveTheFolder(p: string, src: string, dest: string)
    requires Inside(p, src) && !Inside(dest, src) && !Inside(src, dest)
    ensures !Inside(Renamed(p, src, dest), src)
  {
    var suffix := p[|src|..];
    assert suffix == "" || suffix[0] == '/';
    if Inside(Renamed(p, src, dest), src) {
      NestedFolders(src, dest, suffix);
    }
  }

  lemma RenameStep(before: Locks, now: Locks, done: set<string>, p: string, src: string, dest: string)
    requires RenamedAtOnce(before, now, done, src, dest) && p in before && p !in done
    requires Inside(p, src) ==> !IsTarget(before.Keys * done, p, src, dest)
    ensures RenamedAtOnce(before, RenameRow(now, p, src, dest), done + {p}, src, dest)
  {
    var after := RenameRow(now, p, src, dest);
    if Inside(p, src) {
      forall q | q in done + {p} && q in before && Inside(q, src)
        ensures Renamed(q, src, dest) in after && after[Renamed(q, src, dest)] == before[q]
      {
        if q != p {
          assert q in before.Keys * done;
          if Renamed(q, src, dest) == Renamed(p, src, dest) {
            RenamedInjective(q, p, src, dest);
          }
        }
      }
    }
    forall q | !IsTarget(before.Keys * (done + {p}), q, src, dest)
      ensures (q in after <==> q in before && !(q in done + {p} && Inside(q, src))) && (q in after ==> after[q] == before[q])
    {
      FewerTargets(before, done, p, q, src, dest);
    }
  }

  lemma TargetsGrow(before: Locks, done: set<string>, p: string, q: string, src: string, dest: string)
    ensures IsTarget(before.Keys * done, q, src, dest) ==> IsTarget(before.Keys * (done + {p}), q, src, dest)
  {
    if IsTarget(before.Keys * done, q, src, dest) {
      var r :| r in before.Keys * done && Inside(r, src) && Renamed(r, src, dest) == q;
      assert r in before.Keys * (done + {p});
    }
  }

  lemma FewerTargets(before: Locks, done: set<string>, p: string, q: string, src: string, dest: string)
    requires p in before && !IsTarget(before.Keys * (done + {p}), q, src, dest)
    ensures !IsTarget(before.Keys * done, q, src, dest)
    ensures Inside(p, src) ==> Renamed(p, src, dest) != q
  {
    TargetsGrow(before, done, p, q, src, dest);
    if Inside(p, src) {
      assert p in before.Keys * (done + {p});
    }
  }

  /** No row inside the folder is renamed onto one that is still to be renamed. */
  predicate NoneOverwritten(order: seq<string>, src: string, dest: string) {
    forall i, j :: 0 <= i < j < |order| && Inside(order[i], src) && Inside(order[j], src) ==>
      Renamed(order[i], src, dest) != order[j]
  }

  lemma {:induction false} RenameRowsAtOnce(
    before: Locks, now: Locks, done: set<string>, order: seq<string>, src: string, dest: string)
    requires RenamedAtOnce(before, now, done, src, dest) && Distinct(order) && NoneOverwritten(order, src, dest)
    requires forall p :: p in order ==> p in before && p !in done
    requires forall p :: p in order && Inside(p, src) ==> !IsTarget(before.Keys * done, p, src, dest)
    ensures RenamedAtOnce(before, RenameRows(now, order, src, dest), done + (set p | p in order), src, dest)
    decreases |order|
  {
    hide RenamedAtOnce, RenameRow, Inside;
    if order == [] {
      assert done + (set p | p in order) == done;
    } else {
      var p, rest := order[0], order[1..];
      assert order == [p] + rest;
      RenameStep(before, now, done, p, src, dest);
      forall i, j | 0 <= i < j < |rest| && Inside(rest[i], src) && Inside(rest[j], src)
        ensures Renamed(rest[i], src, dest) != rest[j]
      {
        assert order[i + 1] == rest[i] && order[j + 1] == rest[j];
      }
      forall q | q in rest
        ensures q in before && q !in done + {p}
        ensures Inside(q, src) ==> !IsTarget(before.Keys * (done + {p}), q, src, dest)
      {
        assert q in order;
        var j :| 0 <= j < |rest| && rest[j] == q;
        assert order[j + 1] == q;
        if Inside(q, src) {
          OneMoreTarget(before, done, p, q, src, dest);
        }
      }
      RenameRowsAtOnce(before, RenameRow(now, p, src, dest), done + {p}, rest, src, dest);
      assert done + (set q | q in order) == done + {p} + (set q | q in rest);
    }
  }

  lemma OneMoreTarget(before: Locks, done: set<string>, p: string, q: string, src: string, dest: string)
    requires !IsTarget(before.Keys * done, q, src, dest) && (Inside(p, src) ==> Renamed(p, src, dest) != q)
    ensures !IsTarget(before.Keys * (done + {p}), q, src, dest)
  {
  }

  lemma {:induction false} RenameRowsAppend(locks: Locks, a: seq<string>, b: seq<string>, src: string, dest: string)
    ensures RenameRows(locks, a + b, src, dest) == RenameRows(RenameRows(locks, a, src, dest), b, src, dest)
    decreases |a|
  {
    if a == [] {
      assert a + b == b;
    } else {
      assert (a + b)[1..] == a[1..] + b;
      RenameRowsAppend(RenameRow(locks, a[0], src, dest), a[1..], b, src, dest);
    }
  }

  lemma {:induction false} StaysAbsent(locks: Locks, order: seq<string>, q: string, src: string, dest: string)
    requires q !in locks && forall r :: r in order && Inside(r, src) ==> Renamed(r, src, dest) != q
    ensures q !in RenameRows(locks, order, src, dest)
    decreases |order|
  {
    if order != [] {
      assert order[0] in order;
      StaysAbsent(RenameRow(locks, order[0], src, dest), order[1..], q, src, dest);
    }
  }

  /** A row renamed onto one that is renamed later is carried along with it: nothing is left at its target. */
  lemma OverwrittenIsLost(locks: Locks, order: seq<string>, i: nat, j: nat, src: string, dest: string)
    requires Distinct(order) && i < j < |order| && Inside(order[i], src) && Inside(order[j], src)
    requires Renamed(order[i], src, dest) == order[j]
    ensures order[j] !in RenameRows(locks, order, src, dest)
  {
    var q := order[j];
    var front, back := order[..j], order[j + 1..];
    assert order == front + ([q] + back);
    RenameRowsAppend(locks, front, [q] + back, src, dest);
    var now := RenameRows(locks, front, src, dest);
    if Renamed(q, src, dest) == q {
      RenamedInjective(order[i], q, src, dest);
    }
    forall r | r in back && Inside(r, src) ensures Renamed(r, src, dest) != q {
      if Renamed(r, src, dest) == q {
        RenamedInjective(r, order[i], src, dest);
      }
    }
    assert ([q] + back)[1..] == back;
    StaysAbsent(RenameRow(now, q, src, dest), back, q, src, dest);
  }

  /** The row-by-row rename is a rename of all rows at once exactly when no row of the folder is renamed
      onto another one that is fetched after it. */
  lemma RenameIsExactExactlyWhen(locks: Locks, order: seq<string>, src: string, dest: string)
    requires Distinct(order) && forall p :: p in order <==> p in locks
    ensures RenamedAtOnce(locks, RenameRows(locks, order, src, dest), locks.Keys, src, dest) <==>
      NoneOverwritten(order, src, dest)
  {
    hide RenameRows;
    if NoneOverwritten(order, src, dest) {
      assert RenamedAtOnce(locks, locks, {}, src, dest);
      RenameRowsAtOnce(locks, locks, {}, order, src, dest);
      assert {} + (set p | p in order) == locks.Keys;
    } else {
      var i, j :| 0 <= i < j < |order| && Inside(order[i], src) && Inside(order[j], src) &&
        Renamed(order[i], src, dest) == order[j];
      OverwrittenIsLost(locks, order, i, j, src, dest);
      assert order[i] in locks.Keys;
    }
  }

  /** A directory move never puts one of the two folders inside the other; then it is exact in whatever
      order the rows were fetched. */
  lemma FolderRenameIsExact(locks: Locks, order: seq<string>, src: string, dest: string)
    requires Distinct(order) && forall p :: p in order <==> p in locks
    requires !Inside(dest, src) && !Inside(src, dest)
    ensures RenamedAtOnce(locks, RenameRows(locks, order, src, dest), locks.Keys, src, dest)
  {
    hide RenamedAtOnce, RenameRows;
    forall i, j | 0 <= i < j < |order| && Inside(order[i], src) && Inside(order[j], src)
      ensures Renamed(order[i], src, dest) != order[j]
    {
      TargetsLeaveTheFolder(order[i], src, dest);
    }
    RenameIsExactExactlyWhen(locks, order, src, dest);
  }

  /** The other case as the function would treat it, were a folder renamed into itself: the outer row
      overwrites the inner one and is then renamed again. */
  lemma NestedRenameLosesARow(outer: Lock, inner: Lock)
    ensures
      var locks := map["a" := outer, "a/b" := inner];
      RenameRows(locks, ["a", "a/b"], "a", "a/b") == map["a/b/b" := outer]
  {
    var locks := map["a" := outer, "a/b" := inner];
    assert "a" + "/" <= "a/b";
    assert Renamed("a", "a", "a/b") == "a/b" && Renamed("a/b", "a", "a/b") == "a/b/b";
    var once := RenameRow(locks, "a", "a", "a/b");
    assert once == map["a/b" := outer];
    var twice := RenameRow(once, "a/b", "a", "a/b");
    assert twice == map["a/b/b" := outer];
    assert ["a", "a/b"][1..] == ["a/b"] && ["a/b"][1..] == [];
    assert RenameRows(twice, [], "a", "a/b") == twice;
    assert RenameRows(once, ["a/b"], "a", "a/b") == twice;
  }
}
