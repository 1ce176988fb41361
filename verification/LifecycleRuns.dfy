/** Several processes at once: every interleaving of the single database transactions, fenced sections
    and manifest writes that the lifecycle commands are made of. */
module LifecycleRuns {
  import opened Basics
  import opened Topology
  import opened Manifests
  import opened SourceLeases
  import opened SourceInvariant
  import Lifecycle

  /** One atomic step on one source. The clock of the step is given separately. An update of the sync
      settings writes back the whole manifest it read before. */
  datatype Step =
    | TakeLease(id: string, until: int)
    | RenewLease(id: string, until: int)
    | DropLease(id: string)
    | Commit(id: string, prepared: Prepared)
    | ObserveGone(id: string)
    | Revive(id: string)
    | RepairPath(id: string)
    | FolderPath(id: string, src: string, dest: string)
    | FinishMove(id: string)
    | WriteFound(id: string, found: string)
    | WriteArea(id: string, area: string)
    | DropRow(id: string)
    | StripRow(id: string)
    | DropPolling(id: string)
    | SavePolling(id: string)
    | Unregister(id: string)
    | RegisterNew(id: string, path: string)
    | WriteSettings(id: string, read: Manifest)
    | ChangeFiles(files: Files)

  function OrSame(after: Option<World>, w: World): World {
    if after.Some? then after.value else w
  }

  function Apply(w: World, actor: string, s: Step, now: int): World {
    match s
    case TakeLease(id, until) => Acquire(w, id, actor, now, until)
    case RenewLease(id, until) => Renew(w, id, actor, until)
    case DropLease(id) => ClearLease(w, id, actor)
    case Commit(id, p) => Materialize(w, id, actor, p)
    case ObserveGone(id) => Observe(w, id, now)
    case Revive(id) => OrSame(Reappear(w, id, now), w)
    case RepairPath(id) => OrSame(Repair(w, id, now), w)
    case FolderPath(id, src, dest) => MoveWithFolder(w, id, src, dest, now)
    case FinishMove(id) => EndMove(w, id, actor)
    case WriteFound(id, found) => OrSame(SyncManifest(w, id, found), w)
    case WriteArea(id, area) => OrSame(SourceLeases.WithArea(w, id, area), w)
    case DropRow(id) => DeleteRow(w, id)
    case StripRow(id) =>
      if id in w.runtime then w.(runtime := w.runtime[id := Stripped(w.runtime[id])]) else w
    case DropPolling(id) => DeletePolling(w, id)
    case SavePolling(id) => EnsurePolling(w, id)
    case Unregister(id) => DeleteRegistration(w, id)
    case RegisterNew(id, path) => Register(w, id, Manifest(path, Awaiting, None, None, None))
    case WriteSettings(id, m) => if Validates(m) then Register(w, id, m) else w
    case ChangeFiles(files) => WithFiles(w, files)
  }

  /** Steps that check the lease inside their own transaction. */
  predicate Fenced(s: Step) {
    s.TakeLease? || s.RenewLease? || s.DropLease? || s.Commit? || s.ObserveGone? || s.Revive? ||
    s.RepairPath? || s.FolderPath? || s.FinishMove?
  }

  predicate HeldBy(w: World, id: string, a: string, now: int) {
    LeaseOwner(w, id) == Some(a) && w.runtime[id].expires.Some? && w.runtime[id].expires.value >= now
  }

  ghost predicate SameManifest(w: World, after: World, id: string) {
    (id in w.manifests <==> id in after.manifests) && (id in w.manifests ==> w.manifests[id] == after.manifests[id])
  }

  /** No assumption needed: while an unexpired lease names a, no fenced step of anybody else changes the
      source's manifest or takes the lease away. */
  lemma FencedStepsRespectLeases(w: World, actor: string, s: Step, now: int, id: string, a: string)
    requires HeldBy(w, id, a, now) && actor != a && Fenced(s)
    ensures SameManifest(w, Apply(w, actor, s, now), id)
    ensures HeldBy(Apply(w, actor, s, now), id, a, now)
  {
  }

  /** Deletes the source's row, or takes the lease out of it. */
  predicate TakesRow(s: Step, id: string) {
    s == DropRow(id) || s == StripRow(id)
  }

  /** Writes a different manifest for the source, or removes its registration. */
  predicate Overwrites(w: World, s: Step, id: string) {
    match s
    case Unregister(i) => i == id && id in w.manifests
    case RegisterNew(i, path) => i == id && Differs(w, id, Manifest(path, Awaiting, None, None, None))
    case WriteFound(i, found) => i == id && id in w.manifests && WritesOver(w, id, SyncedTo(w.manifests[id], found))
    case WriteArea(i, area) => i == id && id in w.manifests && WritesOver(w, id, Manifests.WithArea(w.manifests[id], id, area))
    case WriteSettings(i, m) => i == id && WritesOver(w, id, m)
    case _ => false
  }

  predicate Differs(w: World, id: string, m: Manifest) {
    !(id in w.manifests && w.manifests[id] == m)
  }

  predicate WritesOver(w: World, id: string, m: Manifest) {
    Validates(m) && Differs(w, id, m)
  }

  /** While an unexpired lease names a, somebody else's step takes it away exactly when it deletes or
      strips the row. */
  lemma HoldLostExactlyWhen(w: World, actor: string, s: Step, now: int, id: string, a: string)
    requires HeldBy(w, id, a, now) && actor != a
    ensures HeldBy(Apply(w, actor, s, now), id, a, now) <==> !TakesRow(s, id)
    ensures !TakesRow(s, id) ==> Apply(w, actor, s, now).runtime[id].expires == w.runtime[id].expires
  {
    hide SyncManifest, SourceLeases.WithArea, Resolve, MaterializedAs, FolderMoved, InFolder, Validates;
    if !s.ChangeFiles? {
      SyncManifestLeavesRows(w, s.id);
      WithAreaLeavesRows(w, s.id);
    }
  }

  lemma SyncManifestLeavesRows(w: World, id: string)
    ensures forall found :: SyncManifest(w, id, found).Some? ==> SyncManifest(w, id, found).value.runtime == w.runtime
  {
  }

  lemma WithAreaLeavesRows(w: World, id: string)
    ensures forall area :: SourceLeases.WithArea(w, id, area).Some? ==> SourceLeases.WithArea(w, id, area).value.runtime == w.runtime
  {
  }

  /** And it changes the source's path, state or registration exactly when it is one of the unfenced
      writes, with something different to write. */
  lemma ManifestChangesExactlyWhen(w: World, actor: string, s: Step, now: int, id: string, a: string)
    requires HeldBy(w, id, a, now) && actor != a
    ensures !SameManifest(w, Apply(w, actor, s, now), id) <==> Overwrites(w, s, id)
  {
    hide Validates, SyncedTo, Manifests.WithArea, Resolve, MaterializedAs, FolderMoved, InFolder;
    if Fenced(s) {
      FencedStepsRespectLeases(w, actor, s, now, id, a);
    }
  }

  /** A lease without an expiry blocks every fence for good, yet anybody can take it. */
  lemma LeaseWithoutExpiryIsTakeable(w: World, id: string, owner: string, other: string, now: int)
    requires id in w.runtime && w.runtime[id].owner == Some(owner) && w.runtime[id].expires == None
    ensures ActiveLease(w, id, now) && CanAcquire(w, id, other, now)
  {
  }

  // ---------- takeover ----------

  /** The row comes to name an actor only by that actor's own acquisition. */
  lemma OwnershipOnlyByTaking(w: World, actor: string, s: Step, now: int, id: string, x: string)
    requires LeaseOwner(w, id) != Some(x) && LeaseOwner(Apply(w, actor, s, now), id) == Some(x)
    ensures s.TakeLease? && s.id == id && actor == x && CanAcquire(w, id, x, now)
  {
  }

  datatype Move = Move(actor: string, now: int, step: Step)

  function RunMoves(w: World, moves: seq<Move>): World
    decreases |moves|
  {
    if moves == [] then w else RunMoves(Apply(w, moves[0].actor, moves[0].step, moves[0].now), moves[1..])
  }

  lemma {:induction false} RunMovesSnoc(w: World, moves: seq<Move>, k: nat)
    requires k < |moves|
    ensures RunMoves(w, moves[..k + 1]) == Apply(RunMoves(w, moves[..k]), moves[k].actor, moves[k].step, moves[k].now)
    decreases k
  {
    hide Apply;
    var next := Apply(w, moves[0].actor, moves[0].step, moves[0].now);
    assert moves[..k + 1][1..] == moves[1..][..k];
    if k == 0 {
      assert moves[..0] == [] && RunMoves(next, []) == next;
    } else {
      assert moves[..k][1..] == moves[1..][..k - 1];
      RunMovesSnoc(next, moves[1..], k - 1);
    }
  }

  /** Once the row no longer names x, no commit of x goes through until x acquires again: after a
      takeover, the old owner's materialization is always refused and changes nothing. */
  lemma {:induction false} TakenOverCommitIsRefused(w: World, moves: seq<Move>, id: string, x: string, now: int, p: Prepared)
    requires LeaseOwner(w, id) != Some(x)
    requires forall i :: 0 <= i < |moves| ==> !(moves[i].actor == x && moves[i].step.TakeLease? && moves[i].step.id == id)
    ensures var late := RunMoves(w, moves); Apply(late, x, Commit(id, p), now) == late
    decreases |moves|
  {
    if moves != [] {
      var m := moves[0];
      var next := Apply(w, m.actor, m.step, m.now);
      if LeaseOwner(next, id) == Some(x) {
        OwnershipOnlyByTaking(w, m.actor, m.step, m.now, id, x);
      }
      TakenOverCommitIsRefused(next, moves[1..], id, x, now, p);
    }
  }

  // ---------- valid manifests and polling rows over all interleavings ----------

  /** Arguments as the surrounding code supplies them. */
  ghost predicate WellFormed(s: Step) {
    match s
    case Commit(_, p) => Fetched(p)
    case FolderPath(_, _, dest) => dest != ""
    case RegisterNew(_, path) => path != ""
    case WriteSettings(_, m) => Sound(m)
    case _ => true
  }

  lemma StepKeepsSound(w: World, actor: string, s: Step, now: int)
    requires AllSound(w) && WellFormed(s)
    ensures AllSound(Apply(w, actor, s, now))
  {
    hide Resolve, MaterializedAs, Manifests.WithArea, FileName, ChildPath, SyncManifest, FolderMoved, InFolder, Sound, Found;
    match s
    case Commit(id, p) => if id in w.manifests { MaterializedIsSound(w.manifests[id], p); }
    case WriteArea(id, area) => if id in w.manifests { WithAreaSound(w.manifests[id], id, area); }
    case FolderPath(id, src, dest) => if id in w.manifests { FolderMovedIsSound(w.manifests[id], src, dest); }
    case WriteFound(id, found) => SyncKeepsSound(w, id);
    case Revive(id) => ReviveKeepsSound(w, id, now);
    case RepairPath(id) => RepairKeepsSound(w, id, now);
    case ObserveGone(id) => if id in w.manifests { MissingIsSound(w.manifests[id]); }
    case RegisterNew(id, path) => NewIsSound(path);
    case _ =>
  }

  lemma SyncKeepsSound(w: World, id: string)
    requires AllSound(w)
    ensures forall found :: SyncManifest(w, id, found).Some? ==> AllSound(SyncManifest(w, id, found).value)
  {
  }

  lemma ReviveKeepsSound(w: World, id: string, now: int)
    requires AllSound(w)
    ensures Reappear(w, id, now).Some? ==> AllSound(Reappear(w, id, now).value)
  {
    hide Resolve, Found;
    SyncKeepsSound(w, id);
  }

  lemma RepairKeepsSound(w: World, id: string, now: int)
    requires AllSound(w)
    ensures Repair(w, id, now).Some? ==> AllSound(Repair(w, id, now).value)
  {
    hide Resolve, Found;
    SyncKeepsSound(w, id);
  }

  lemma FolderMovedIsSound(m: Manifest, src: string, dest: string)
    requires Sound(m) && dest != ""
    ensures InFolder(m, src) ==> Sound(FolderMoved(m, src, dest))
  {
  }

  lemma MissingIsSound(m: Manifest)
    requires Sound(m)
    ensures Sound(MarkMissing(m))
  {
  }

  lemma NewIsSound(path: string)
    requires path != ""
    ensures Sound(Manifest(path, Awaiting, None, None, None))
  {
  }

  /** Every manifest stays valid over every interleaving, with no assumption about leases. */
  lemma {:induction false} SoundOverRuns(w: World, moves: seq<Move>)
    requires AllSound(w) && forall i :: 0 <= i < |moves| ==> WellFormed(moves[i].step)
    ensures AllSound(RunMoves(w, moves))
    decreases |moves|
  {
    hide Apply, AllSound, WellFormed;
    if moves != [] {
      var m := moves[0];
      StepKeepsSound(w, m.actor, m.step, m.now);
      SoundOverRuns(Apply(w, m.actor, m.step, m.now), moves[1..]);
    }
  }

  /** What a step must find so that polling rows stay with registered sources that are not missing. */
  predicate PollingGuard(w: World, actor: string, s: Step) {
    match s
    case Commit(id, _) => Owns(w, id, actor) ==> id in w.manifests
    case SavePolling(id) => id in w.manifests && w.manifests[id].state != Missing
    case Unregister(id) => id !in w.polling
    case WriteSettings(id, m) => id in w.polling && Validates(m) ==> m.state != Missing
    case _ => true
  }

  lemma StepKeepsPollingExactlyWhen(w: World, actor: string, s: Step, now: int)
    requires PollingOk(w)
    ensures PollingOk(Apply(w, actor, s, now)) <==> PollingGuard(w, actor, s)
  {
    hide Resolve, Validates, InFolder, SyncManifest, Reappear, Repair, SourceLeases.WithArea, MoveWithFolder, Observe;
    var after := Apply(w, actor, s, now);
    match s
    case Revive(id) => RepairsKeepPolling(w, id, now);
    case RepairPath(id) => RepairsKeepPolling(w, id, now);
    case WriteFound(id, found) => SyncKeepsPolling(w, id, found);
    case WriteArea(id, area) => AreaKeepsPolling(w, id, area);
    case FolderPath(id, src, dest) => FolderKeepsPolling(w, id, src, dest, now);
    case ObserveGone(id) => ObserveKeepsPolling(w, id, now);
    case Commit(id, p) => assert Owns(w, id, actor) ==> id in after.polling;
    case SavePolling(id) => assert id in after.polling;
    case Unregister(id) => assert id in w.polling ==> id in after.polling && id !in after.manifests;
    case WriteSettings(id, m) => assert id in w.polling ==> id in after.polling;
    case _ =>
  }

  lemma SyncKeepsPolling(w: World, id: string, found: string)
    requires PollingOk(w)
    ensures SyncManifest(w, id, found).Some? ==> PollingOk(SyncManifest(w, id, found).value)
  {
    hide Validates;
  }

  lemma RepairsKeepPolling(w: World, id: string, now: int)
    requires PollingOk(w)
    ensures Reappear(w, id, now).Some? ==> PollingOk(Reappear(w, id, now).value)
    ensures Repair(w, id, now).Some? ==> PollingOk(Repair(w, id, now).value)
  {
    hide Validates, Resolve, Found;
  }

  lemma AreaKeepsPolling(w: World, id: string, area: string)
    requires PollingOk(w)
    ensures SourceLeases.WithArea(w, id, area).Some? ==> PollingOk(SourceLeases.WithArea(w, id, area).value)
  {
    hide Validates, FileName, ChildPath;
  }

  lemma FolderKeepsPolling(w: World, id: string, src: string, dest: string, now: int)
    requires PollingOk(w)
    ensures PollingOk(MoveWithFolder(w, id, src, dest, now))
  {
    hide InFolder;
  }

  lemma ObserveKeepsPolling(w: World, id: string, now: int)
    requires PollingOk(w)
    ensures PollingOk(Observe(w, id, now))
  {
  }

  /** Over every interleaving: polling rows belong to registered sources that are not missing, at every
      point of the run, exactly when every step met its guard. */
  lemma {:induction false} PollingOverRuns(w: World, moves: seq<Move>)
    requires PollingOk(w)
    ensures (forall k :: 0 <= k <= |moves| ==> PollingOk(RunMoves(w, moves[..k]))) <==>
      forall k :: 0 <= k < |moves| ==> PollingGuard(RunMoves(w, moves[..k]), moves[k].actor, moves[k].step)
  {
    hide Apply, PollingOk, PollingGuard;
    if forall k :: 0 <= k <= |moves| ==> PollingOk(RunMoves(w, moves[..k])) {
      forall k | 0 <= k < |moves| ensures PollingGuard(RunMoves(w, moves[..k]), moves[k].actor, moves[k].step) {
        assert PollingOk(RunMoves(w, moves[..k])) && PollingOk(RunMoves(w, moves[..k + 1]));
        RunMovesSnoc(w, moves, k);
        StepKeepsPollingExactlyWhen(RunMoves(w, moves[..k]), moves[k].actor, moves[k].step, moves[k].now);
      }
    }
    if forall k :: 0 <= k < |moves| ==> PollingGuard(RunMoves(w, moves[..k]), moves[k].actor, moves[k].step) {
      forall k | 0 <= k <= |moves| ensures PollingOk(RunMoves(w, moves[..k])) {
        GuardedSoFar(w, moves, k);
      }
    }
  }

  lemma {:induction false} GuardedSoFar(w: World, moves: seq<Move>, k: nat)
    requires PollingOk(w) && k <= |moves|
    requires forall i :: 0 <= i < k ==> PollingGuard(RunMoves(w, moves[..i]), moves[i].actor, moves[i].step)
    ensures PollingOk(RunMoves(w, moves[..k]))
  {
    hide Apply, PollingOk, PollingGuard;
    if k == 0 {
      assert moves[..0] == [];
    } else {
      GuardedSoFar(w, moves, k - 1);
      RunMovesSnoc(w, moves, k - 1);
      StepKeepsPollingExactlyWhen(RunMoves(w, moves[..k - 1]), moves[k - 1].actor, moves[k - 1].step, moves[k - 1].now);
    }
  }

  // ---------- exclusion over all interleavings ----------

  /** The shared state with what each actor believes: the leases it holds and until when. */
  datatype Shared = Shared(world: World, holds: map<(string, string), int>)

  function Next(st: Shared, m: Move): Shared {
    Shared(Apply(st.world, m.actor, m.step, m.now), NextHolds(st, m))
  }

  function NextHolds(st: Shared, m: Move): map<(string, string), int> {
    match m.step
    case TakeLease(id, until) =>
      if CanAcquire(st.world, id, m.actor, m.now) then st.holds[(m.actor, id) := until] else st.holds
    case RenewLease(id, until) =>
      if Owns(st.world, id, m.actor) then st.holds[(m.actor, id) := until] else st.holds - {(m.actor, id)}
    case DropLease(id) => st.holds - {(m.actor, id)}
    case FinishMove(id) => st.holds - {(m.actor, id)}
    case Commit(id, _) => st.holds - {(m.actor, id)}
    case DropRow(id) => st.holds - {(m.actor, id)}
    case StripRow(id) => st.holds - {(m.actor, id)}
    case _ => st.holds
  }

  predicate Holding(st: Shared, a: string, id: string, now: int) {
    (a, id) in st.holds && st.holds[(a, id)] >= now
  }

  /** Every unexpired hold is what the row says; in particular at most one actor holds a source. */
  ghost predicate Backed(st: Shared, now: int) {
    forall a, id :: Holding(st, a, id, now) ==> RowSays(st, a, id)
  }

  ghost predicate RowSays(st: Shared, a: string, id: string) {
    LeaseOwner(st.world, id) == Some(a) && (a, id) in st.holds && st.world.runtime[id].expires == Some(st.holds[(a, id)])
  }

  /** The move deletes or strips the row of a source that somebody else holds. */
  ghost predicate Breaks(st: Shared, m: Move) {
    (m.step.DropRow? || m.step.StripRow?) && exists a :: a != m.actor && Holding(st, a, m.step.id, m.now)
  }

  lemma OthersHoldSurvives(st: Shared, m: Move, a: string, id: string)
    requires Backed(st, m.now) && Holding(st, a, id, m.now) && m.actor != a && !Breaks(st, m)
    ensures RowSays(Next(st, m), a, id)
  {
    hide Apply;
    assert RowSays(st, a, id);
    assert !TakesRow(m.step, id);
    HoldLostExactlyWhen(st.world, m.actor, m.step, m.now, id, a);
  }

  lemma OwnHold(st: Shared, m: Move, id: string)
    requires Backed(st, m.now) && Holding(Next(st, m), m.actor, id, m.now)
    ensures RowSays(Next(st, m), m.actor, id)
  {
    hide SyncManifest, SourceLeases.WithArea, Resolve, MaterializedAs, FolderMoved, InFolder, Validates;
    if !m.step.ChangeFiles? {
      SyncManifestLeavesRows(st.world, m.step.id);
      WithAreaLeavesRows(st.world, m.step.id);
    }
    assert Holding(st, m.actor, id, m.now) ==> RowSays(st, m.actor, id);
  }

  /** A move keeps every hold backed by its row exactly when it does not break somebody else's. */
  lemma StepKeepsBackedExactlyWhen(st: Shared, m: Move)
    requires Backed(st, m.now)
    ensures Backed(Next(st, m), m.now) <==> !Breaks(st, m)
  {
    hide Apply, RowSays;
    var next := Next(st, m);
    if Breaks(st, m) {
      var a :| a != m.actor && Holding(st, a, m.step.id, m.now);
      assert Holding(next, a, m.step.id, m.now);
      RowIsTaken(st, m, a);
    } else {
      forall a, id | Holding(next, a, id, m.now) ensures RowSays(next, a, id) {
        if a == m.actor {
          OwnHold(st, m, id);
        } else {
          assert Holding(st, a, id, m.now);
          OthersHoldSurvives(st, m, a, id);
        }
      }
    }
  }

  lemma RowIsTaken(st: Shared, m: Move, a: string)
    requires m.step.DropRow? || m.step.StripRow?
    ensures !RowSays(Next(st, m), a, m.step.id)
  {
  }

  function RunShared(st: Shared, moves: seq<Move>): Shared
    decreases |moves|
  {
    if moves == [] then st else RunShared(Next(st, moves[0]), moves[1..])
  }

  lemma {:induction false} RunSharedSnoc(st: Shared, moves: seq<Move>, k: nat)
    requires k < |moves|
    ensures RunShared(st, moves[..k + 1]) == Next(RunShared(st, moves[..k]), moves[k])
    decreases k
  {
    hide Next;
    assert moves[..k + 1][1..] == moves[1..][..k];
    if k == 0 {
      assert moves[..0] == [] && RunShared(Next(st, moves[0]), []) == Next(st, moves[0]);
    } else {
      assert moves[..k][1..] == moves[1..][..k - 1];
      RunSharedSnoc(Next(st, moves[0]), moves[1..], k - 1);
    }
  }

  /** The clock after the first k moves of a run that starts at now. */
  function TimeAt(moves: seq<Move>, now: int, k: nat): int
    requires k <= |moves|
  {
    if k == 0 then now else moves[k - 1].now
  }

  ghost predicate Ordered(moves: seq<Move>, now: int) {
    forall k :: 0 <= k < |moves| ==> TimeAt(moves, now, k) <= moves[k].now
  }

  ghost predicate BackedAt(st: Shared, moves: seq<Move>, now: int, k: nat)
    requires k <= |moves|
  {
    Backed(RunShared(st, moves[..k]), TimeAt(moves, now, k))
  }

  ghost predicate BreaksAt(st: Shared, moves: seq<Move>, k: nat)
    requires k < |moves|
  {
    Breaks(RunShared(st, moves[..k]), moves[k])
  }

  lemma MoveKeepsBackedExactlyWhen(st: Shared, moves: seq<Move>, now: int, k: nat)
    requires k < |moves| && Ordered(moves, now) && BackedAt(st, moves, now, k)
    ensures Backed(RunShared(st, moves[..k]), moves[k].now)
    ensures BackedAt(st, moves, now, k + 1) <==> !BreaksAt(st, moves, k)
  {
    hide Next, Breaks;
    var at := RunShared(st, moves[..k]);
    assert TimeAt(moves, now, k) <= moves[k].now;
    forall a, id | Holding(at, a, id, moves[k].now) ensures RowSays(at, a, id) {
      assert Holding(at, a, id, TimeAt(moves, now, k));
    }
    RunSharedSnoc(st, moves, k);
    StepKeepsBackedExactlyWhen(at, moves[k]);
  }

  lemma {:induction false} BackedSoFar(st: Shared, moves: seq<Move>, now: int, k: nat)
    requires k <= |moves| && Ordered(moves, now) && Backed(st, now)
    requires forall i :: 0 <= i < k ==> !BreaksAt(st, moves, i)
    ensures BackedAt(st, moves, now, k)
  {
    hide Next, Breaks, Backed;
    if k == 0 {
      assert moves[..0] == [];
    } else {
      BackedSoFar(st, moves, now, k - 1);
      MoveKeepsBackedExactlyWhen(st, moves, now, k - 1);
    }
  }

  /** Over every interleaving, with no discipline assumed: every unexpired hold is what the row says, at
      every point of the run, exactly when no move deletes or strips a row that somebody else holds. */
  lemma BackedOverRuns(st: Shared, moves: seq<Move>, now: int)
    requires Backed(st, now) && Ordered(moves, now)
    ensures (forall k :: 0 <= k <= |moves| ==> BackedAt(st, moves, now, k)) <==>
      forall k :: 0 <= k < |moves| ==> !BreaksAt(st, moves, k)
  {
    hide BackedAt, BreaksAt, Backed;
    if forall k :: 0 <= k <= |moves| ==> BackedAt(st, moves, now, k) {
      forall k | 0 <= k < |moves| ensures !BreaksAt(st, moves, k) {
        assert BackedAt(st, moves, now, k) && BackedAt(st, moves, now, k + 1);
        MoveKeepsBackedExactlyWhen(st, moves, now, k);
      }
    }
    if forall k :: 0 <= k < |moves| ==> !BreaksAt(st, moves, k) {
      forall k | 0 <= k <= |moves| ensures BackedAt(st, moves, now, k) {
        BackedSoFar(st, moves, now, k);
      }
    }
  }

  lemma OneHolder(st: Shared, now: int, a: string, b: string, id: string)
    requires Backed(st, now) && Holding(st, a, id, now) && Holding(st, b, id, now)
    ensures a == b
  {
    assert RowSays(st, a, id) && RowSays(st, b, id);
  }

  /** Lease exclusion: two actors hold one source at once only if somewhere before a row was deleted or
      stripped under somebody else's unexpired lease. */
  lemma ExclusionOverRuns(st: Shared, moves: seq<Move>, now: int, a: string, b: string, id: string)
    requires Backed(st, now) && Ordered(moves, now) && a != b
    requires Holding(RunShared(st, moves), a, id, TimeAt(moves, now, |moves|))
    requires Holding(RunShared(st, moves), b, id, TimeAt(moves, now, |moves|))
    ensures exists k :: 0 <= k < |moves| && BreaksAt(st, moves, k)
  {
    hide Next, BreaksAt, Backed, Holding;
    assert moves[..|moves|] == moves;
    if forall k :: 0 <= k < |moves| ==> !BreaksAt(st, moves, k) {
      BackedSoFar(st, moves, now, |moves|);
      OneHolder(RunShared(st, moves), TimeAt(moves, now, |moves|), a, b, id);
    }
  }

  /** Step by step along such a run: while a holds a source, the next move of anybody else changes its
      path, its state or its registration exactly when it is an unfenced write with something different
      to write. */
  lemma HeldSourceOverRuns(st: Shared, moves: seq<Move>, k: nat, now: int, a: string, id: string)
    requires Backed(st, now) && Ordered(moves, now) && k < |moves|
    requires forall i :: 0 <= i < k ==> !BreaksAt(st, moves, i)
    requires Holding(RunShared(st, moves[..k]), a, id, moves[k].now) && moves[k].actor != a
    ensures !SameManifest(RunShared(st, moves[..k]).world, RunShared(st, moves[..k + 1]).world, id) <==>
      Overwrites(RunShared(st, moves[..k]).world, moves[k].step, id)
  {
    hide Apply, BreaksAt, Overwrites, SameManifest;
    BackedSoFar(st, moves, now, k);
    MoveKeepsBackedExactlyWhen(st, moves, now, k);
    var at := RunShared(st, moves[..k]);
    assert RowSays(at, a, id);
    RunSharedSnoc(st, moves, k);
    ManifestChangesExactlyWhen(at.world, moves[k].actor, moves[k].step, moves[k].now, id, a);
  }

  /** The steps that write without a look at the lease. */
  predicate Unfenced(s: Step, id: string) {
    match s
    case Unregister(i) => i == id
    case RegisterNew(i, _) => i == id
    case WriteFound(i, _) => i == id
    case WriteArea(i, _) => i == id
    case WriteSettings(i, _) => i == id
    case _ => false
  }

  /** Along such a run, where the unfenced writes come from holders only, as those of a move inside its
      lease do, nobody else changes a held source. */
  lemma HoldersWriteAlone(st: Shared, moves: seq<Move>, k: nat, now: int, a: string, id: string)
    requires Backed(st, now) && Ordered(moves, now) && k < |moves|
    requires forall i :: 0 <= i < k ==> !BreaksAt(st, moves, i)
    requires Unfenced(moves[k].step, id) ==> Holding(RunShared(st, moves[..k]), moves[k].actor, id, moves[k].now)
    requires Holding(RunShared(st, moves[..k]), a, id, moves[k].now) && moves[k].actor != a
    ensures SameManifest(RunShared(st, moves[..k]).world, RunShared(st, moves[..k + 1]).world, id)
  {
    hide Apply, Next, BreaksAt, Holding, Backed;
    HeldSourceOverRuns(st, moves, k, now, a, id);
    BackedSoFar(st, moves, now, k);
    MoveKeepsBackedExactlyWhen(st, moves, now, k);
    if Unfenced(moves[k].step, id) {
      OneHolder(RunShared(st, moves[..k]), moves[k].now, a, moves[k].actor, id);
    }
  }

  /** The move in which b is granted the lease. */
  predicate Grants(st: Shared, m: Move, b: string, id: string) {
    m.actor == b && m.step.TakeLease? && m.step.id == id && CanAcquire(st.world, id, b, m.now)
  }

  /** A row that does not name b comes to name it only by a grant: a deregistration that deleted its row
      meets a holder when it deletes the registration only if that one was granted the lease since. */
  lemma {:induction false} NamedSince(st: Shared, moves: seq<Move>, k: nat, b: string, id: string)
    requires k <= |moves| && LeaseOwner(st.world, id) != Some(b)
    requires LeaseOwner(RunShared(st, moves[..k]).world, id) == Some(b)
    ensures exists i :: 0 <= i < k && Grants(RunShared(st, moves[..i]), moves[i], b, id)
  {
    hide Apply, CanAcquire;
    assert moves[..0] == [];
    if k > 0 {
      var at := RunShared(st, moves[..k - 1]);
      RunSharedSnoc(st, moves, k - 1);
      if LeaseOwner(at.world, id) == Some(b) {
        NamedSince(st, moves, k - 1, b, id);
      } else {
        OwnershipOnlyByTaking(at.world, moves[k - 1].actor, moves[k - 1].step, moves[k - 1].now, id, b);
        assert Grants(at, moves[k - 1], b, id);
      }
    }
  }

  lemma HolderCameSince(st: Shared, moves: seq<Move>, now: int, b: string, id: string)
    requires Backed(st, now) && Ordered(moves, now) && id !in st.world.runtime
    requires forall i :: 0 <= i < |moves| ==> !BreaksAt(st, moves, i)
    requires Holding(RunShared(st, moves), b, id, TimeAt(moves, now, |moves|))
    ensures exists i :: 0 <= i < |moves| && Grants(RunShared(st, moves[..i]), moves[i], b, id)
  {
    hide Next, BreaksAt, Grants;
    assert moves[..|moves|] == moves;
    BackedSoFar(st, moves, now, |moves|);
    assert RowSays(RunShared(st, moves), b, id);
    NamedSince(st, moves, |moves|, b, id);
  }

  // ---------- runs of the failures ----------

  /** The move leaves everybody else's holds, and the sources they are on, alone. */
  ghost predicate Disciplined(st: Shared, m: Move) {
    !Breaks(st, m) && forall a, id :: a != m.actor && Holding(st, a, id, m.now) ==> !Overwrites(st.world, m.step, id)
  }

  ghost predicate DisciplinedRun(st: Shared, moves: seq<Move>, now: int)
    decreases |moves|
  {
    moves == [] || (now <= moves[0].now && Disciplined(st, moves[0]) && DisciplinedRun(Next(st, moves[0]), moves[1..], moves[0].now))
  }


  const PLAIN := Manifest("s.md", Awaiting, None, None, None)
  const NO_FILES := Files({}, map[], map[])

  function Single(runtime: map<string, Runtime>): World {
    World(map["s" := PLAIN], {"s"}, runtime, NO_FILES)
  }

  /** remove and finalize delete the runtime row, and with it their lease, before the registration: in
      between another process can acquire the source, and then loses its registration under its lease. */
  lemma DeregistrationWindow()
    ensures
      var st := Shared(Single(map[]), map[]);
      var before := RunShared(st, [
        Move("remove", 0, TakeLease("s", 600)), Move("remove", 1, DropPolling("s")), Move("remove", 1, DropRow("s")),
        Move("sync", 1, TakeLease("s", 31))]);
      var after := Next(before, Move("remove", 1, Unregister("s")));
      && Holding(before, "sync", "s", 1) && "s" in before.world.manifests
      && Holding(after, "sync", "s", 1) && "s" !in after.world.manifests
  {
    var st := Shared(Single(map[]), map[]);
    var m0, m1, m2, m3 := Move("remove", 0, TakeLease("s", 600)), Move("remove", 1, DropPolling("s")),
      Move("remove", 1, DropRow("s")), Move("sync", 1, TakeLease("s", 31));
    var st1 := Shared(World(map["s" := PLAIN], {"s"}, map["s" := Leased("remove", 600)], NO_FILES), map[("remove", "s") := 600]);
    var st2 := Shared(World(map["s" := PLAIN], {}, map["s" := Leased("remove", 600)], NO_FILES), map[("remove", "s") := 600]);
    var st3 := Shared(World(map["s" := PLAIN], {}, map[], NO_FILES), map[]);
    FirstLease(st, "remove", 0, 600);
    DropsPolling(st1, "remove", 1);
    DropsRow(st2, "remove", 1, 600);
    FirstLease(st3, "sync", 1, 31);
    FourMoves(st, m0, m1, m2, m3);
  }

  function Leased(owner: string, until: int): Runtime {
    Runtime(None, None, Some(owner), Some(until))
  }

  /** Without a row, a lease is granted. */
  lemma FirstLease(st: Shared, actor: string, now: int, until: int)
    requires st.world.runtime == map[] && st.holds == map[]
    ensures Next(st, Move(actor, now, TakeLease("s", until))) ==
      Shared(World(st.world.manifests, st.world.polling, map["s" := Leased(actor, until)], st.world.files),
        map[(actor, "s") := until])
  {
  }

  lemma DropsPolling(st: Shared, actor: string, now: int)
    requires st.world.polling == {"s"}
    ensures Next(st, Move(actor, now, DropPolling("s"))) ==
      Shared(World(st.world.manifests, {}, st.world.runtime, st.world.files), st.holds)
  {
  }

  lemma DropsRow(st: Shared, actor: string, now: int, until: int)
    requires st.world.runtime == map["s" := Leased(actor, until)] && st.holds == map[(actor, "s") := until]
    ensures Next(st, Move(actor, now, DropRow("s"))) ==
      Shared(World(st.world.manifests, st.world.polling, map[], st.world.files), map[])
  {
    assert st.world.runtime - {"s"} == map[];
    assert st.holds - {(actor, "s")} == map[];
  }

  lemma FourMoves(st: Shared, m0: Move, m1: Move, m2: Move, m3: Move)
    ensures RunShared(st, [m0, m1, m2, m3]) == Next(Next(Next(Next(st, m0), m1), m2), m3)
  {
    hide Next;
    assert [m0, m1, m2, m3][1..] == [m1, m2, m3] && [m1, m2, m3][1..] == [m2, m3];
    assert [m2, m3][1..] == [m3] && [m3][1..] == [];
    var a := Next(st, m0);
    var b := Next(a, m1);
    var c := Next(b, m2);
    assert RunShared(Next(c, m3), []) == Next(c, m3);
    assert RunShared(c, [m3]) == Next(c, m3);
    assert RunShared(b, [m2, m3]) == Next(c, m3);
    assert RunShared(a, [m1, m2, m3]) == Next(c, m3);
  }

  /** reconcile reads an expired row and deletes it later without looking again: a lease acquired in
      between is lost, and two processes hold the source at once. */
  lemma StaleRowDeletion()
    ensures
      var st := Shared(Single(map["s" := Runtime(None, None, Some("old"), Some(3))]), map[]);
      var after := RunShared(st, [
        Move("sync", 5, TakeLease("s", 35)), Move("reconcile", 5, DropRow("s")), Move("move", 6, TakeLease("s", 606))]);
      && !ActiveLease(st.world, "s", 5)
      && Holding(after, "sync", "s", 6) && Holding(after, "move", "s", 6)
  {
    var st := Shared(Single(map["s" := Runtime(None, None, Some("old"), Some(3))]), map[]);
    var m0, m1, m2 := Move("sync", 5, TakeLease("s", 35)), Move("reconcile", 5, DropRow("s")), Move("move", 6, TakeLease("s", 606));
    var st2 := Next(Next(st, m0), m1);
    assert CanAcquire(st.world, "s", "sync", 5);
    assert "s" !in st2.world.runtime && CanAcquire(st2.world, "s", "move", 6);
    ThreeMoves(st, m0, m1, m2);
  }

  lemma ThreeMoves(st: Shared, m0: Move, m1: Move, m2: Move)
    ensures RunShared(st, [m0, m1, m2]) == Next(Next(Next(st, m0), m1), m2)
  {
    hide Next;
    assert [m0, m1, m2][1..] == [m1, m2] && [m1, m2][1..] == [m2] && [m2][1..] == [];
    var a := Next(st, m0);
    var b := Next(a, m1);
    assert RunShared(Next(b, m2), []) == Next(b, m2);
    assert RunShared(b, [m2]) == Next(b, m2);
    assert RunShared(a, [m1, m2]) == Next(b, m2);
  }

  lemma DisciplinedCons(st: Shared, m: Move, rest: seq<Move>, now: int)
    requires now <= m.now && Disciplined(st, m) && DisciplinedRun(Next(st, m), rest, m.now)
    ensures DisciplinedRun(st, [m] + rest, now)
    ensures RunShared(st, [m] + rest) == RunShared(Next(st, m), rest)
  {
    hide Next, Disciplined;
    assert ([m] + rest)[1..] == rest;
  }

  /** A sync commits, a removal runs from start to end, then the sync saves its progress. */
  function SyncAroundRemoval(p: Prepared): seq<Move> {
    [Move("sync", 0, TakeLease("s", 30))] + ([Move("sync", 1, Commit("s", p))] + RemovalThenSave())
  }

  function RemovalThenSave(): seq<Move> {
    [Move("remove", 2, TakeLease("s", 602))] + ([Move("remove", 2, DropPolling("s"))] +
    ([Move("remove", 2, DropRow("s"))] + ([Move("remove", 2, Unregister("s"))] + ([Move("sync", 3, SavePolling("s"))] + []))))
  }

  lemma RemovalThenSaveRun(m: Manifest)
    ensures
      var st := Shared(World(map["s" := m], {"s"}, map[], NO_FILES), map[]);
      && DisciplinedRun(st, RemovalThenSave(), 1)
      && RunShared(st, RemovalThenSave()).world == World(map[], {"s"}, map[], NO_FILES)
  {
    var st := Shared(World(map["s" := m], {"s"}, map[], NO_FILES), map[]);
    var m0, m1, m2 := Move("remove", 2, TakeLease("s", 602)), Move("remove", 2, DropPolling("s")), Move("remove", 2, DropRow("s"));
    var m3, m4 := Move("remove", 2, Unregister("s")), Move("sync", 3, SavePolling("s"));
    var st1 := Shared(World(map["s" := m], {"s"}, map["s" := Leased("remove", 602)], NO_FILES), map[("remove", "s") := 602]);
    var st2 := Shared(World(map["s" := m], {}, map["s" := Leased("remove", 602)], NO_FILES), map[("remove", "s") := 602]);
    var st3 := Shared(World(map["s" := m], {}, map[], NO_FILES), map[]);
    var st4 := Shared(World(map[], {}, map[], NO_FILES), map[]);
    FirstLease(st, "remove", 2, 602);
    DropsPolling(st1, "remove", 2);
    DropsRow(st2, "remove", 2, 602);
    assert Next(st2, m2) == st3;
    UnregisterThenSave(m);
    DisciplinedCons(st2, m2, [m3] + ([m4] + []), 2);
    DisciplinedCons(st1, m1, [m2] + ([m3] + ([m4] + [])), 2);
    DisciplinedCons(st, m0, [m1] + ([m2] + ([m3] + ([m4] + []))), 1);
  }

  lemma UnregisterThenSave(m: Manifest)
    ensures
      var st := Shared(World(map["s" := m], {}, map[], NO_FILES), map[]);
      var rest := [Move("remove", 2, Unregister("s"))] + ([Move("sync", 3, SavePolling("s"))] + []);
      && DisciplinedRun(st, rest, 2)
      && RunShared(st, rest) == Shared(World(map[], {"s"}, map[], NO_FILES), map[])
  {
    var st := Shared(World(map["s" := m], {}, map[], NO_FILES), map[]);
    var m3, m4 := Move("remove", 2, Unregister("s")), Move("sync", 3, SavePolling("s"));
    var st4 := Shared(World(map[], {}, map[], NO_FILES), map[]);
    assert map["s" := m] - {"s"} == map[];
    assert Next(st, m3) == st4 && Disciplined(st, m3);
    assert Next(st4, m4) == Shared(World(map[], {"s"}, map[], NO_FILES), map[]) && Disciplined(st4, m4);
    DisciplinedCons(st4, m4, [], 2);
    DisciplinedCons(st, m3, [m4] + [], 2);
  }

  /** The sync progress is saved without a look at the registration: a source removed in the meantime
      keeps a polling row, although every lease was respected. */
  lemma OrphanPollingRow(p: Prepared)
    ensures
      var st := Shared(Single(map[]), map[]);
      && PollingOk(st.world) && DisciplinedRun(st, SyncAroundRemoval(p), 0)
      && !PollingOk(RunShared(st, SyncAroundRemoval(p)).world)
  {
    hide RemovalThenSave;
    var st := Shared(Single(map[]), map[]);
    var m0, m1 := Move("sync", 0, TakeLease("s", 30)), Move("sync", 1, Commit("s", p));
    var m := MaterializedAs(PLAIN, p);
    var st1 := Shared(Single(map["s" := Runtime(None, None, Some("sync"), Some(30))]), map[("sync", "s") := 30]);
    var st2 := Shared(World(map["s" := m], {"s"}, map[], NO_FILES), map[]);
    assert Next(st, m0) == st1 && Disciplined(st, m0);
    CommitOfPlain(p);
    assert Next(st1, m1) == st2 && Disciplined(st1, m1);
    RemovalThenSaveRun(m);
    DisciplinedCons(st1, m1, RemovalThenSave(), 0);
    DisciplinedCons(st, m0, [m1] + RemovalThenSave(), 0);
    assert "s" in RunShared(st, SyncAroundRemoval(p)).world.polling;
  }

  lemma CommitOfPlain(p: Prepared)
    ensures
      Materialize(Single(map["s" := Runtime(None, None, Some("sync"), Some(30))]), "s", "sync", p) ==
        World(map["s" := MaterializedAs(PLAIN, p)], {"s"}, map[], NO_FILES)
  {
    hide MaterializedAs;
    var w := Single(map["s" := Runtime(None, None, Some("sync"), Some(30))]);
    var cleared := ClearLease(World(map["s" := MaterializedAs(PLAIN, p)], {"s"}, w.runtime, NO_FILES), "s", "sync");
    assert cleared.runtime["s"] == Runtime(None, None, None, None);
    assert cleared.runtime - {"s"} == map[];
    assert w.manifests["s" := MaterializedAs(PLAIN, p)] == map["s" := MaterializedAs(PLAIN, p)];
    assert w.polling + {"s"} == {"s"};
  }

  /** An update of the sync settings takes no lease: one that read the manifest before a removal brings
      the registration back as it was. */
  lemma SettingsBringBackRegistration(w: World, id: string, owner: string, now: int, files: Files, other: string)
    requires id in w.manifests && Validates(w.manifests[id]) && CanAcquire(w, id, owner, now)
    ensures
      var removed := Lifecycle.RemoveSource(w, id, owner, now, files).0;
      && id !in removed.manifests
      && Apply(removed, other, WriteSettings(id, w.manifests[id]), now).manifests == w.manifests
  {
    hide Validates;
    Lifecycle.RemovalErases(w, id, owner, now, files);
  }

  // ---------- the commands are runs of these steps ----------

  /** One actor's steps at one time, with nobody in between. */
  function RunSteps(w: World, actor: string, now: int, steps: seq<Step>): World
    decreases |steps|
  {
    if steps == [] then w else RunSteps(Apply(w, actor, steps[0], now), actor, now, steps[1..])
  }

  lemma OneStep(w: World, actor: string, now: int, s: Step, rest: seq<Step>)
    ensures RunSteps(w, actor, now, [s] + rest) == RunSteps(Apply(w, actor, s, now), actor, now, rest)
  {
    hide Apply;
    assert ([s] + rest)[1..] == rest;
  }

  function RemovalSteps(id: string, now: int, files: Files): seq<Step> {
    [TakeLease(id, now + Lifecycle.LONG_LEASE)] + ([ChangeFiles(files)] + ([DropPolling(id)] +
    ([DropRow(id)] + ([Unregister(id)] + ([DropLease(id)] + [])))))
  }

  /** Uninterrupted, the steps of a removal are the command. */
  lemma RemoveIsItsSteps(w: World, id: string, owner: string, now: int, files: Files)
    requires id in w.manifests && CanAcquire(w, id, owner, now)
    ensures Lifecycle.RemoveSource(w, id, owner, now, files).0 == RunSteps(w, owner, now, RemovalSteps(id, now, files))
  {
    hide Acquire, ClearLease, DeletePolling, DeleteRow, DeleteRegistration, WithFiles;
    var w1 := Acquire(w, id, owner, now, now + Lifecycle.LONG_LEASE);
    var w2 := WithFiles(w1, files);
    var w3 := DeletePolling(w2, id);
    var w4 := DeleteRow(w3, id);
    var w5 := DeleteRegistration(w4, id);
    var w6 := ClearLease(w5, id, owner);
    OneStep(w, owner, now, TakeLease(id, now + Lifecycle.LONG_LEASE), [ChangeFiles(files)] + ([DropPolling(id)] + ([DropRow(id)] + ([Unregister(id)] + ([DropLease(id)] + [])))));
    OneStep(w1, owner, now, ChangeFiles(files), [DropPolling(id)] + ([DropRow(id)] + ([Unregister(id)] + ([DropLease(id)] + []))));
    OneStep(w2, owner, now, DropPolling(id), [DropRow(id)] + ([Unregister(id)] + ([DropLease(id)] + [])));
    OneStep(w3, owner, now, DropRow(id), [Unregister(id)] + ([DropLease(id)] + []));
    OneStep(w4, owner, now, Unregister(id), [DropLease(id)] + []);
    OneStep(w5, owner, now, DropLease(id), []);
    assert RunSteps(w6, owner, now, []) == w6;
  }

  function SyncSteps(id: string, now: int, p: Prepared, files: Files): seq<Step> {
    [TakeLease(id, now + Lifecycle.LEASE)] + ([Commit(id, p)] + ([ChangeFiles(files)] + ([SavePolling(id)] + [])))
  }

  /** Uninterrupted, the steps of a materializing sync are the command. */
  lemma SyncIsItsSteps(w: World, id: string, owner: string, now: int, p: Prepared, files: Files)
    requires id in w.manifests && w.manifests[id].state != Missing && CanAcquire(w, id, owner, now)
    ensures Lifecycle.SyncSource(w, id, owner, now, Lifecycle.Fetch(p), files).0 ==
      RunSteps(w, owner, now, SyncSteps(id, now, p, files))
  {
    hide Materialize, Acquire;
    var w1 := Acquire(w, id, owner, now, now + Lifecycle.LEASE);
    var w2 := Materialize(w1, id, owner, p);
    var w3 := WithFiles(w2, files);
    var w4 := EnsurePolling(w3, id);
    OneStep(w, owner, now, TakeLease(id, now + Lifecycle.LEASE), [Commit(id, p)] + ([ChangeFiles(files)] + ([SavePolling(id)] + [])));
    OneStep(w1, owner, now, Commit(id, p), [ChangeFiles(files)] + ([SavePolling(id)] + []));
    OneStep(w2, owner, now, ChangeFiles(files), [SavePolling(id)] + []);
    OneStep(w3, owner, now, SavePolling(id), []);
    assert RunSteps(w4, owner, now, []) == w4;
  }

  /** A move writes its manifest in one of three ways, after renewing the lease. moved is the tree once
      the file was moved. */
  function MoveSteps(w: World, id: string, now: int, to: string, moved: Files): seq<Step>
    requires id in w.manifests
  {
    var r := Resolve(w.files, id, w.manifests[id]);
    var write :=
      if !Found(r) then [WriteArea(id, to)]
      else if ParentPath(r.path) == to then [WriteFound(id, r.path)]
      else [WriteFound(id, ChildPath(to, FileName(r.path)))];
    var files := if Found(r) && ParentPath(r.path) != to then [ChangeFiles(moved)] else [];
    var renew := [RenewLease(id, now + Lifecycle.LONG_LEASE)];
    [TakeLease(id, now + Lifecycle.LONG_LEASE)] + (files + (renew + (renew + (renew + (write + [FinishMove(id)])))))
  }

  lemma RunStepsAppend(w: World, actor: string, now: int, s: seq<Step>, rest: seq<Step>)
    requires |s| <= 1
    ensures RunSteps(w, actor, now, s + rest) == RunSteps(RunSteps(w, actor, now, s), actor, now, rest)
  {
    hide Apply;
    if s == [] {
      assert s + rest == rest;
    } else {
      OneStep(w, actor, now, s[0], rest);
      OneStep(w, actor, now, s[0], []);
      assert [s[0]] + [] == s && [s[0]] + rest == s + rest;
    }
  }

  /** Uninterrupted, the steps of a move that succeeds are the command. */
  lemma MoveIsItsSteps(w: World, id: string, owner: string, now: int, to: string, moved: Files)
    requires Lifecycle.MoveSource(w, id, owner, now, to, moved).1 == Lifecycle.Ok
    ensures Lifecycle.MoveSource(w, id, owner, now, to, moved).0 == RunSteps(w, owner, now, MoveSteps(w, id, now, to, moved))
  {
    hide Resolve, SyncManifest, SourceLeases.WithArea, EndMove, FileName, ChildPath, ParentPath, RunSteps, Apply;
    var until := now + Lifecycle.LONG_LEASE;
    var r := Resolve(w.files, id, w.manifests[id]);
    var files := if Found(r) && ParentPath(r.path) != to then [ChangeFiles(moved)] else [];
    var write :=
      if !Found(r) then [WriteArea(id, to)]
      else if ParentPath(r.path) == to then [WriteFound(id, r.path)]
      else [WriteFound(id, ChildPath(to, FileName(r.path)))];
    var w1 := Acquire(w, id, owner, now, until);
    var w2 := if files == [] then w1 else WithFiles(w1, moved);
    var w3 := RunSteps(w2, owner, now, write);
    LeaseSteps(w, id, owner, now, until);
    LeaseSteps(w2, id, owner, now, until);
    LeaseSteps(w3, id, owner, now, until);
    FileSteps(w1, owner, now, moved);
    RenewAgain(w2, id, owner, until);
    WriteSteps(w2, id, owner, now, to, "");
    if Found(r) {
      WriteSteps(w2, id, owner, now, to, ChildPath(to, FileName(r.path)));
      WriteSteps(w2, id, owner, now, to, r.path);
    }
    MoveChain(w, owner, now, [TakeLease(id, until)], files, [RenewLease(id, until)], write, [FinishMove(id)]);
  }

  lemma LeaseSteps(w: World, id: string, owner: string, now: int, until: int)
    ensures RunSteps(w, owner, now, [TakeLease(id, until)]) == Acquire(w, id, owner, now, until)
    ensures RunSteps(w, owner, now, [RenewLease(id, until)]) == Renew(w, id, owner, until)
    ensures RunSteps(w, owner, now, [FinishMove(id)]) == EndMove(w, id, owner)
  {
    hide Acquire, Renew, EndMove, RunSteps;
    SingleStep(w, owner, now, TakeLease(id, until));
    SingleStep(w, owner, now, RenewLease(id, until));
    SingleStep(w, owner, now, FinishMove(id));
  }

  lemma FileSteps(w: World, owner: string, now: int, files: Files)
    ensures RunSteps(w, owner, now, []) == w
    ensures RunSteps(w, owner, now, [ChangeFiles(files)]) == WithFiles(w, files)
  {
    SingleStep(w, owner, now, ChangeFiles(files));
  }

  lemma WriteSteps(w: World, id: string, owner: string, now: int, area: string, found: string)
    ensures RunSteps(w, owner, now, [WriteArea(id, area)]) == OrSame(SourceLeases.WithArea(w, id, area), w)
    ensures RunSteps(w, owner, now, [WriteFound(id, found)]) == OrSame(SyncManifest(w, id, found), w)
  {
    hide SyncManifest, SourceLeases.WithArea, RunSteps;
    SingleStep(w, owner, now, WriteArea(id, area));
    SingleStep(w, owner, now, WriteFound(id, found));
  }

  lemma MoveChain(w: World, owner: string, now: int, take: seq<Step>, files: seq<Step>, renew: seq<Step>, write: seq<Step>, finish: seq<Step>)
    requires |take| <= 1 && |files| <= 1 && |renew| <= 1 && |write| <= 1
    requires var w2 := RunSteps(RunSteps(w, owner, now, take), owner, now, files); RunSteps(w2, owner, now, renew) == w2
    ensures
      var w2 := RunSteps(RunSteps(w, owner, now, take), owner, now, files);
      RunSteps(w, owner, now, take + (files + (renew + (renew + (renew + (write + finish)))))) ==
        RunSteps(RunSteps(w2, owner, now, write), owner, now, finish)
  {
    hide RunSteps;
    var w1 := RunSteps(w, owner, now, take);
    var w2 := RunSteps(w1, owner, now, files);
    RunStepsAppend(w, owner, now, take, files + (renew + (renew + (renew + (write + finish)))));
    RunStepsAppend(w1, owner, now, files, renew + (renew + (renew + (write + finish))));
    RunStepsAppend(w2, owner, now, renew, renew + (renew + (write + finish)));
    RunStepsAppend(w2, owner, now, renew, renew + (write + finish));
    RunStepsAppend(w2, owner, now, renew, write + finish);
    RunStepsAppend(w2, owner, now, write, finish);
  }

  lemma SingleStep(w: World, actor: string, now: int, s: Step)
    ensures RunSteps(w, actor, now, [s]) == Apply(w, actor, s, now)
  {
    hide Apply;
    OneStep(w, actor, now, s, []);
    assert [s] + [] == [s];
  }

  function FinalizationSteps(id: string, now: int): seq<Step> {
    [TakeLease(id, now + Lifecycle.LEASE)] + ([DropPolling(id)] + ([DropRow(id)] + ([Unregister(id)] + [])))
  }

  /** Uninterrupted, the steps of a finalization that finalizes are the command. */
  lemma FinalizeIsItsSteps(w: World, id: string, owner: string, now: int)
    requires Lifecycle.Finalize(w, id, owner, now).1 == Lifecycle.Finalized
    ensures Lifecycle.Finalize(w, id, owner, now).0 == RunSteps(w, owner, now, FinalizationSteps(id, now))
  {
    hide Resolve, SyncManifest, DeletePolling, DeleteRow, DeleteRegistration;
    var w1 := Acquire(w, id, owner, now, now + Lifecycle.LEASE);
    var w2 := DeletePolling(w1, id);
    var w3 := DeleteRow(w2, id);
    var w4 := DeleteRegistration(w3, id);
    OneStep(w, owner, now, TakeLease(id, now + Lifecycle.LEASE), [DropPolling(id)] + ([DropRow(id)] + ([Unregister(id)] + [])));
    OneStep(w1, owner, now, DropPolling(id), [DropRow(id)] + ([Unregister(id)] + []));
    OneStep(w2, owner, now, DropRow(id), [Unregister(id)] + []);
    OneStep(w3, owner, now, Unregister(id), []);
    assert RunSteps(w4, owner, now, []) == w4;
  }
}
