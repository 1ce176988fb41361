/** Source commands one after the other: what every command keeps, how a registration can end, and
    where a command can raise. */
module Lifecycle {
  import opened Basics
  import opened Topology
  import opened Manifests
  import opened SourceLeases
  import opened SourceInvariant
  import opened Reconcile

  const LEASE: int := 30
  const LONG_LEASE: int := 600

  datatype Reply = Ok | AlreadyRegistered | NotRegistered | LeaseConflict | SyncFailed | NotMissing | Finalized | Raised

  /** What the remote side answers during one sync: gone, an error (a failed commit included), nothing
      new, or a prepared materialization. */
  datatype Remote = Gone | Failed | Unchanged | Fetch(prepared: Prepared)

  // ---------- commands ----------

  function AddSource(w: World, id: string, path: string): (World, Reply) {
    if id in w.manifests then (w, AlreadyRegistered)
    else (EnsurePolling(Register(w, id, Manifest(path, Awaiting, None, None, None)), id), Ok)
  }

  /** _deregister_source: polling row, runtime row, registration, in this order. */
  function Deregister(w: World, id: string): World {
    DeleteRegistration(DeleteRow(DeletePolling(w, id), id), id)
  }

  function RemoveSource(w: World, id: string, owner: string, now: int, files: Files): (World, Reply) {
    if id !in w.manifests then (w, NotRegistered)
    else if !CanAcquire(w, id, owner, now) then (w, LeaseConflict)
    else (ClearLease(Deregister(WithFiles(Acquire(w, id, owner, now, now + LONG_LEASE), files), id), id, owner), Ok)
  }

  /** sync_active_source_once around process_source. */
  function SyncSource(w: World, id: string, owner: string, now: int, remote: Remote, files: Files): (World, Reply) {
    if id !in w.manifests || w.manifests[id].state == Missing then (w, NotRegistered)
    else if !CanAcquire(w, id, owner, now) then (w, LeaseConflict)
    else
      var held := Acquire(w, id, owner, now, now + LEASE);
      match remote
      case Gone => (Observe(ClearLease(held, id, owner), id, now), Ok)
      case Failed => (EnsurePolling(ClearLease(held, id, owner), id), SyncFailed)
      case Unchanged => (EnsurePolling(ClearLease(held, id, owner), id), Ok)
      case Fetch(p) => (EnsurePolling(WithFiles(Materialize(held, id, owner, p), files), id), Ok)
  }

  /** The manifest write of a move. files is the tree after a file was moved. */
  function MoveWrite(w: World, id: string, to: string, files: Files): Option<World>
    requires id in w.manifests
  {
    var r := Resolve(w.files, id, w.manifests[id]);
    if !Found(r) then SourceLeases.WithArea(w, id, to)
    else if ParentPath(r.path) == to then SyncManifest(w, id, r.path)
    else if ChildPath(to, FileName(r.path)) in w.files.present then None
    else SyncManifest(WithFiles(w, files), id, ChildPath(to, FileName(r.path)))
  }

  function MoveSource(w: World, id: string, owner: string, now: int, to: string, files: Files): (World, Reply) {
    if id !in w.manifests then (w, NotRegistered)
    else if !CanAcquire(w, id, owner, now) then (w, LeaseConflict)
    else
      var held := Acquire(w, id, owner, now, now + LONG_LEASE);
      var written := MoveWrite(held, id, to, files);
      if written == None then (EndMove(held, id, owner), Raised) else (EndMove(written.value, id, owner), Ok)
  }

  function MoveFolder(w: World, order: seq<string>, src: string, dest: string, now: int): World
    decreases |order|
  {
    if order == [] then w else MoveFolder(MoveWithFolder(w, order[0], src, dest, now), order[1..], src, dest, now)
  }

  /** finalize_missing */
  function Finalize(w: World, id: string, owner: string, now: int): (World, Reply) {
    if !CanAcquire(w, id, owner, now) then (w, LeaseConflict)
    else
      var held := Acquire(w, id, owner, now, now + LEASE);
      if id !in w.manifests then (DeleteRow(held, id), NotRegistered)
      else
        var r := Resolve(w.files, id, w.manifests[id]);
        if Found(r) then
          var synced := SyncManifest(held, id, r.path);
          if synced == None then (ClearLease(held, id, owner), Raised)
          else (EnsurePolling(DeleteRow(synced.value, id), id), NotMissing)
        else if w.manifests[id].state != Missing then (DeleteRow(held, id), NotMissing)
        else (Deregister(held, id), Finalized)
  }

  datatype Command =
    | Add(id: string, path: string)
    | Remove(id: string, owner: string, files: Files)
    | Sync(id: string, owner: string, remote: Remote, files: Files)
    | Move(id: string, owner: string, to: string, files: Files)
    | FolderMove(order: seq<string>, src: string, dest: string)
    | FinalizeMissing(id: string, owner: string)
    | ObserveMissing(id: string)
    | ReconcileSources(order: seq<string>)

  predicate Listed(w: World, c: Command) {
    c.ReconcileSources? ==> forall id :: id in c.order ==> id in w.manifests
  }

  function Execute(w: World, c: Command, now: int): (World, Reply)
    requires Listed(w, c)
  {
    match c
    case Add(id, path) => AddSource(w, id, path)
    case Remove(id, owner, files) => RemoveSource(w, id, owner, now, files)
    case Sync(id, owner, remote, files) => SyncSource(w, id, owner, now, remote, files)
    case Move(id, owner, to, files) => MoveSource(w, id, owner, now, to, files)
    case FolderMove(order, src, dest) => (MoveFolder(w, order, src, dest, now), Ok)
    case FinalizeMissing(id, owner) => Finalize(w, id, owner, now)
    case ObserveMissing(id) => (Observe(w, id, now), Ok)
    case ReconcileSources(order) =>
      var p := ReconcileAll(w, order, now);
      (p.world, if p.raised then Raised else Ok)
  }

  /** Arguments as the surrounding code supplies them. */
  ghost predicate WellFormed(w: World, c: Command) {
    match c
    case Add(_, path) => path != ""
    case Remove(_, _, files) => ValidFiles(files)
    case Sync(_, _, remote, files) => ValidFiles(files) && (remote.Fetch? ==> Fetched(remote.prepared))
    case Move(_, _, _, files) => ValidFiles(files)
    case FolderMove(_, _, dest) => dest != ""
    case ReconcileSources(order) => Lists(order, w.manifests)
    case _ => true
  }

  // ---------- every command keeps the invariant ----------

  lemma WithAreaKeeps(w: World, id: string, area: string)
    requires Invariant(w) && SourceLeases.WithArea(w, id, area).Some?
    ensures
      var after := SourceLeases.WithArea(w, id, area).value;
      Invariant(after) && after.manifests.Keys == w.manifests.Keys
  {
    hide FileName, ChildPath, Validates;
    WithAreaSound(w.manifests[id], id, area);
  }

  lemma MaterializeKeeps(w: World, id: string, owner: string, p: Prepared)
    requires Invariant(w) && id in w.manifests && Fetched(p)
    ensures Invariant(Materialize(w, id, owner, p))
    ensures Materialize(w, id, owner, p).manifests.Keys == w.manifests.Keys
    ensures Owns(w, id, owner) ==> Materialize(w, id, owner, p).manifests[id].state == Materialized
  {
    MaterializedIsSound(w.manifests[id], p);
  }

  lemma {:induction false} MoveFolderKeeps(w: World, order: seq<string>, src: string, dest: string, now: int)
    requires Invariant(w) && dest != ""
    ensures Invariant(MoveFolder(w, order, src, dest, now))
    ensures MoveFolder(w, order, src, dest, now).manifests.Keys == w.manifests.Keys
    decreases |order|
  {
    if order != [] {
      var next := MoveWithFolder(w, order[0], src, dest, now);
      assert Invariant(next);
      MoveFolderKeeps(next, order[1..], src, dest, now);
    }
  }

  lemma SyncKeeps(w: World, id: string, owner: string, now: int, remote: Remote, files: Files)
    requires Invariant(w) && ValidFiles(files) && (remote.Fetch? ==> Fetched(remote.prepared))
    ensures Invariant(SyncSource(w, id, owner, now, remote, files).0)
    ensures SyncSource(w, id, owner, now, remote, files).0.manifests.Keys == w.manifests.Keys
  {
    if id in w.manifests && w.manifests[id].state != Missing && CanAcquire(w, id, owner, now) {
      var held := Acquire(w, id, owner, now, now + LEASE);
      LeasesKeep(w, id, owner, now, now + LEASE);
      LeasesKeep(held, id, owner, now, now);
      match remote
      case Gone => ObserveKeeps(ClearLease(held, id, owner), id, now);
      case Failed =>
      case Unchanged =>
      case Fetch(p) => MaterializeKeeps(held, id, owner, p);
    }
  }

  lemma MoveWriteKeeps(w: World, id: string, to: string, files: Files)
    requires Invariant(w) && id in w.manifests && ValidFiles(files)
    ensures MoveWrite(w, id, to, files).Some? ==>
      Invariant(MoveWrite(w, id, to, files).value) && MoveWrite(w, id, to, files).value.manifests.Keys == w.manifests.Keys
  {
    hide SyncManifest, SourceLeases.WithArea, Resolve, FileName, ChildPath;
    var r := Resolve(w.files, id, w.manifests[id]);
    if MoveWrite(w, id, to, files).Some? {
      if !Found(r) {
        WithAreaKeeps(w, id, to);
      } else if ParentPath(r.path) == to {
        SyncManifestKeeps(w, id, r.path);
      } else {
        SyncManifestKeeps(WithFiles(w, files), id, ChildPath(to, FileName(r.path)));
      }
    }
  }

  lemma ChildNotEmpty(area: string, name: string)
    requires name != ""
    ensures ChildPath(area, name) != ""
  {
  }

  lemma WithAreaNeverRaises(w: World, id: string, area: string)
    requires Invariant(w) && id in w.manifests
    ensures SourceLeases.WithArea(w, id, area).Some?
  {
    hide FileName, ChildPath, Validates;
    WithAreaSound(w.manifests[id], id, area);
  }

  /** A move raises exactly when a file of that name is in the way, or when it would revive a source
      that has no hashes. */
  lemma MoveRaisesExactlyWhen(w: World, id: string, owner: string, now: int, to: string, files: Files)
    requires Invariant(w) && ValidFiles(files) && ProperNames(w.files)
    ensures MoveSource(w, id, owner, now, to, files).1 == Raised <==>
      && id in w.manifests && CanAcquire(w, id, owner, now) && Found(Resolve(w.files, id, w.manifests[id]))
      && var path := Resolve(w.files, id, w.manifests[id]).path;
         || (ParentPath(path) != to && ChildPath(to, FileName(path)) in w.files.present)
         || (w.manifests[id].state == Missing && !HashesSet(w.manifests[id]))
  {
    hide SyncManifest, SourceLeases.WithArea, FileName, ChildPath, ParentPath, HashesSet;
    if id in w.manifests && CanAcquire(w, id, owner, now) {
      var held := Acquire(w, id, owner, now, now + LONG_LEASE);
      var r := Resolve(w.files, id, w.manifests[id]);
      LeasesKeep(w, id, owner, now, now + LONG_LEASE);
      WithAreaNeverRaises(held, id, to);
      if Found(r) {
        SyncManifestRaisesExactlyWhen(held, id, r.path);
        ChildNotEmpty(to, FileName(r.path));
        SyncManifestRaisesExactlyWhen(WithFiles(held, files), id, ChildPath(to, FileName(r.path)));
      }
    }
  }

  lemma FinalizeKeeps(w: World, id: string, owner: string, now: int)
    requires Invariant(w)
    ensures Invariant(Finalize(w, id, owner, now).0)
  {
    hide SyncManifest, Resolve;
    if CanAcquire(w, id, owner, now) && id in w.manifests {
      var held := Acquire(w, id, owner, now, now + LEASE);
      var r := Resolve(w.files, id, w.manifests[id]);
      LeasesKeep(w, id, owner, now, now + LEASE);
      LeasesKeep(held, id, owner, now, now);
      if Found(r) && SyncManifest(held, id, r.path).Some? {
        SyncManifestKeeps(held, id, r.path);
      }
    }
  }

  /** Every command keeps the invariant, whatever the file tree, the remote side and the leases say. */
  lemma CommandKeepsInvariant(w: World, c: Command, now: int)
    requires Invariant(w) && WellFormed(w, c)
    ensures Invariant(Execute(w, c, now).0)
  {
    hide Materialize, Observe, SyncManifest, MoveWrite, MoveFolder, ReconcileAll;
    match c
    case Add(id, path) =>
    case Remove(id, owner, files) =>
    case Sync(id, owner, remote, files) => SyncKeeps(w, id, owner, now, remote, files);
    case Move(id, owner, to, files) => MoveKeeps(w, id, owner, now, to, files);
    case FolderMove(order, src, dest) => MoveFolderKeeps(w, order, src, dest, now);
    case FinalizeMissing(id, owner) => FinalizeKeeps(w, id, owner, now);
    case ObserveMissing(id) => ObserveKeeps(w, id, now);
    case ReconcileSources(order) => PassFollowsFates(w, order, now);
  }

  lemma MoveKeeps(w: World, id: string, owner: string, now: int, to: string, files: Files)
    requires Invariant(w) && ValidFiles(files)
    ensures Invariant(MoveSource(w, id, owner, now, to, files).0)
    ensures MoveSource(w, id, owner, now, to, files).0.manifests.Keys == w.manifests.Keys
  {
    hide MoveWrite;
    if id in w.manifests && CanAcquire(w, id, owner, now) {
      var held := Acquire(w, id, owner, now, now + LONG_LEASE);
      LeasesKeep(w, id, owner, now, now + LONG_LEASE);
      LeasesKeep(held, id, owner, now, now);
      if MoveWrite(held, id, to, files).Some? {
        MoveWriteKeeps(held, id, to, files);
        LeasesKeep(MoveWrite(held, id, to, files).value, id, owner, now, now);
      }
    }
  }

  /** A registration disappears only by removing the source, or by finalizing one that is missing and
      whose file cannot be resolved. */
  lemma RegistrationEndsExactlyWhen(w: World, c: Command, now: int, id: string)
    requires Invariant(w) && WellFormed(w, c) && id in w.manifests
    ensures id !in Execute(w, c, now).0.manifests <==>
      || (c.Remove? && c.id == id && CanAcquire(w, id, c.owner, now))
      || (c.FinalizeMissing? && c.id == id && CanAcquire(w, id, c.owner, now)
          && w.manifests[id].state == Missing && Resolve(w.files, id, w.manifests[id]) == NotFound)
  {
    hide Materialize, Observe, MoveWrite, MoveFolder, ReconcileAll;
    match c
    case Add(_, _) =>
    case Remove(_, _, _) =>
    case Sync(i, owner, remote, files) => SyncKeeps(w, i, owner, now, remote, files);
    case Move(i, owner, to, files) => MoveKeeps(w, i, owner, now, to, files);
    case FolderMove(order, src, dest) => MoveFolderKeeps(w, order, src, dest, now);
    case FinalizeMissing(i, owner) => FinalizedExactlyWhen(w, i, owner, now);
    case ObserveMissing(i) => ObserveKeeps(w, i, now);
    case ReconcileSources(order) => PassFollowsFates(w, order, now);
  }

  lemma FinalizedExactlyWhen(w: World, id: string, owner: string, now: int)
    requires Invariant(w)
    ensures Finalize(w, id, owner, now).1 == Finalized <==>
      && CanAcquire(w, id, owner, now) && id in w.manifests
      && w.manifests[id].state == Missing && !Found(Resolve(w.files, id, w.manifests[id]))
    ensures Finalize(w, id, owner, now).0.manifests.Keys ==
      if Finalize(w, id, owner, now).1 == Finalized then w.manifests.Keys - {id} else w.manifests.Keys
    ensures Finalize(w, id, owner, now).1 == Raised <==>
      && CanAcquire(w, id, owner, now) && id in w.manifests && Found(Resolve(w.files, id, w.manifests[id]))
      && w.manifests[id].state == Missing && !HashesSet(w.manifests[id])
  {
    hide SyncManifest;
    if CanAcquire(w, id, owner, now) && id in w.manifests {
      var held := Acquire(w, id, owner, now, now + LEASE);
      var r := Resolve(w.files, id, w.manifests[id]);
      LeasesKeep(w, id, owner, now, now + LEASE);
      if Found(r) {
        SyncManifestRaisesExactlyWhen(held, id, r.path);
        if SyncManifest(held, id, r.path).Some? {
          SyncManifestKeeps(held, id, r.path);
        }
      }
    }
  }

  // ---------- runs ----------

  ghost predicate RunOk(w: World, commands: seq<(Command, int)>)
    decreases |commands|
  {
    commands == [] || (
      && WellFormed(w, commands[0].0) && Listed(w, commands[0].0)
      && RunOk(Execute(w, commands[0].0, commands[0].1).0, commands[1..]))
  }

  /** Commands in sequence, each with the clock at which it runs. */
  ghost function Run(w: World, commands: seq<(Command, int)>): World
    requires RunOk(w, commands)
    decreases |commands|
  {
    if commands == [] then w else Run(Execute(w, commands[0].0, commands[0].1).0, commands[1..])
  }

  /** The invariant holds after every sequence of commands. */
  lemma {:induction false} RunKeepsInvariant(w: World, commands: seq<(Command, int)>)
    requires Invariant(w) && RunOk(w, commands)
    ensures Invariant(Run(w, commands))
    decreases |commands|
  {
    hide Execute, Invariant;
    if commands != [] {
      CommandKeepsInvariant(w, commands[0].0, commands[0].1);
      RunKeepsInvariant(Execute(w, commands[0].0, commands[0].1).0, commands[1..]);
    }
  }

  // ---------- what each command achieves ----------

  /** A lease conflict is reported exactly when another owner's lease is unexpired, and changes nothing. */
  lemma ConflictChangesNothing(w: World, id: string, owner: string, now: int, to: string, remote: Remote, files: Files)
    requires id in w.manifests && w.manifests[id].state != Missing
    ensures RemoveSource(w, id, owner, now, files).1 == LeaseConflict <==> !CanAcquire(w, id, owner, now)
    ensures SyncSource(w, id, owner, now, remote, files).1 == LeaseConflict <==> !CanAcquire(w, id, owner, now)
    ensures MoveSource(w, id, owner, now, to, files).1 == LeaseConflict <==> !CanAcquire(w, id, owner, now)
    ensures Finalize(w, id, owner, now).1 == LeaseConflict <==> !CanAcquire(w, id, owner, now)
    ensures !CanAcquire(w, id, owner, now) ==>
      && RemoveSource(w, id, owner, now, files).0 == w && SyncSource(w, id, owner, now, remote, files).0 == w
      && MoveSource(w, id, owner, now, to, files).0 == w && Finalize(w, id, owner, now).0 == w
  {
    hide MoveWrite, Materialize, Observe, SyncManifest, Resolve;
  }

  /** A command on a source that is not registered says so and changes nothing; only finalizing one under
      somebody else's lease reports the conflict first. A missing source is not synced. */
  lemma UnknownSourceIsRefused(w: World, id: string, owner: string, now: int, to: string, remote: Remote, files: Files)
    ensures id !in w.manifests ==>
      && RemoveSource(w, id, owner, now, files) == (w, NotRegistered)
      && MoveSource(w, id, owner, now, to, files) == (w, NotRegistered)
      && Finalize(w, id, owner, now).1 == (if CanAcquire(w, id, owner, now) then NotRegistered else LeaseConflict)
    ensures id !in w.manifests || w.manifests[id].state == Missing ==>
      SyncSource(w, id, owner, now, remote, files) == (w, NotRegistered)
    ensures id in w.manifests && CanAcquire(w, id, owner, now) ==>
      && RemoveSource(w, id, owner, now, files).1 == Ok
      && (w.manifests[id].state != Missing ==>
            SyncSource(w, id, owner, now, remote, files).1 == if remote.Failed? then SyncFailed else Ok)
      && (MoveSource(w, id, owner, now, to, files).1 == Ok || MoveSource(w, id, owner, now, to, files).1 == Raised)
  {
    hide MoveWrite, Resolve, SyncManifest, MaterializedAs;
  }

  /** Reconciling raises exactly when some unleased source is back without its hashes. */
  lemma ReconcileRaisesExactlyWhen(w: World, order: seq<string>, now: int)
    requires Invariant(w) && Lists(order, w.manifests)
    ensures
      var reply := Execute(w, ReconcileSources(order), now).1;
      && (reply == Raised <==> exists i :: 0 <= i < |order| && FateOf(w, order[i], now) == Raises)
      && (reply != Raised ==> reply == Ok)
  {
    hide ReconcileAll, FateOf;
    PassFollowsFates(w, order, now);
  }

  /** A removal leaves no trace of the source in any table. */
  lemma RemovalErases(w: World, id: string, owner: string, now: int, files: Files)
    requires RemoveSource(w, id, owner, now, files).1 == Ok
    ensures
      var after := RemoveSource(w, id, owner, now, files).0;
      && after == World(w.manifests - {id}, w.polling - {id}, w.runtime - {id}, files)
  {
    assert Deregister(Acquire(w, id, owner, now, now + LONG_LEASE), id).runtime == w.runtime - {id};
  }

  /** A sync that fetched settles the source where the file was written, keeps it polled and gives the
      lease back, whatever state it was in before. */
  lemma SyncMaterializes(w: World, id: string, owner: string, now: int, p: Prepared, files: Files)
    requires SyncSource(w, id, owner, now, Fetch(p), files).1 == Ok
    ensures
      var after := SyncSource(w, id, owner, now, Fetch(p), files).0;
      && id in after.polling && LeaseOwner(after, id) == None
      && after.manifests == w.manifests[id := MaterializedAs(w.manifests[id], p)]
      && var m := after.manifests[id];
      && m.state == Materialized && m.path == p.path
      && m.contentHash == Some(p.contentHash) && m.fingerprint == Some(p.fingerprint)
      && m.materializedAt == (if p.fileChanged || p.path != w.manifests[id].path || w.manifests[id].materializedAt == None
           then Some(p.checkedAt) else w.manifests[id].materializedAt)
      && (forall other :: other != id ==> (other in after.runtime <==> other in w.runtime))
  {
    hide MaterializedAs;
    MaterializationStores(w.manifests[id], p);
  }

  /** A sync that fetched nothing leaves every manifest alone, but for a source that is gone at its origin,
      which becomes missing and is no longer polled; the lease is given back in every case. */
  lemma SyncWithoutFetch(w: World, id: string, owner: string, now: int, remote: Remote, files: Files)
    requires id in w.manifests && w.manifests[id].state != Missing && CanAcquire(w, id, owner, now) && !remote.Fetch?
    ensures
      var (after, reply) := SyncSource(w, id, owner, now, remote, files);
      && LeaseOwner(after, id) == None && after.files == w.files
      && (reply == SyncFailed <==> remote == Failed) && (reply != SyncFailed ==> reply == Ok)
      && (remote == Gone ==>
            && after.manifests == w.manifests[id := w.manifests[id].(state := Missing)] && after.polling == w.polling - {id}
            && id in after.runtime && after.runtime[id].last == Some(now))
      && (remote != Gone ==> after.manifests == w.manifests && after.polling == w.polling + {id})
  {
  }

  /** A new source waits for its first sync at the given path and is polled; a registered one is left as it is. */
  lemma AddRegisters(w: World, id: string, path: string)
    ensures
      var (after, reply) := AddSource(w, id, path);
      && id in after.manifests && (reply == Ok <==> id !in w.manifests) && (reply != Ok ==> after == w)
      && (reply == Ok ==>
            && after.manifests[id].path == path && after.manifests[id].state == Awaiting
            && after.manifests[id].contentHash == None && after.manifests[id].fingerprint == None
            && id in after.polling
            && after.manifests - {id} == w.manifests && after.polling - {id} == w.polling - {id}
            && after.runtime == w.runtime)
  {
  }

  /** The manifest write of a move touches one manifest: it keeps the hashes, and writes the path of the file
      where there is one and the new area where there is none. */
  lemma MoveWriteTells(w: World, id: string, to: string, files: Files)
    requires id in w.manifests && MoveWrite(w, id, to, files).Some?
    ensures
      var after := MoveWrite(w, id, to, files).value;
      && id in after.manifests && SameHashes(w.manifests[id], after.manifests[id])
      && after.manifests - {id} == w.manifests - {id} && after.polling == w.polling && after.runtime == w.runtime
      && var r := Resolve(w.files, id, w.manifests[id]);
      && (Found(r) ==>
            after.manifests[id].path == (if ParentPath(r.path) == to then r.path else ChildPath(to, FileName(r.path))))
      && (Found(r) ==> after.manifests[id] == SyncedTo(w.manifests[id], after.manifests[id].path))
      && (!Found(r) ==> after.manifests[id] == Manifests.WithArea(w.manifests[id], id, to))
  {
    hide Resolve, FileName, ChildPath, ParentPath, Validates, Manifests.WithArea;
    OthersKeepHashes(w.manifests[id], id, "", to, "", "");
    var r := Resolve(w.files, id, w.manifests[id]);
    if Found(r) {
      OthersKeepHashes(w.manifests[id], id, r.path, to, "", "");
      OthersKeepHashes(w.manifests[id], id, ChildPath(to, FileName(r.path)), to, "", "");
    }
  }

  /** What a move changes besides the area: a missing source is found again only at a file, and a settled
      one becomes stale exactly when its path changed; hashes stay, and so does every other source. */
  lemma MoveTells(w: World, id: string, owner: string, now: int, to: string, files: Files)
    requires MoveSource(w, id, owner, now, to, files).1 == Ok
    ensures
      var after := MoveSource(w, id, owner, now, to, files).0;
      && id in w.manifests && id in after.manifests && SameHashes(w.manifests[id], after.manifests[id])
      && after.manifests - {id} == w.manifests - {id} && after.polling == w.polling && LeaseOwner(after, id) != Some(owner)
      && var r := Resolve(w.files, id, w.manifests[id]);
      && (Found(r) ==>
            after.manifests[id].path == (if ParentPath(r.path) == to then r.path else ChildPath(to, FileName(r.path))))
      && (Found(r) ==> after.manifests[id] == SyncedTo(w.manifests[id], after.manifests[id].path))
      && (!Found(r) ==> after.manifests[id] == Manifests.WithArea(w.manifests[id], id, to))
  {
    hide MoveWrite, Resolve, FileName, ChildPath, ParentPath, SyncedTo, SameHashes, Manifests.WithArea;
    var held := Acquire(w, id, owner, now, now + LONG_LEASE);
    assert held.manifests == w.manifests && held.files == w.files && held.polling == w.polling;
    MoveWriteTells(held, id, to, files);
  }

  lemma FileNameIsName(path: string)
    ensures FileName(path) != "" ==> ValidName(FileName(path))
  {
    assert forall i :: 0 <= i < |FileName(path)| ==> FileName(path)[i] == path[LastSlash(path) + 1 + i];
  }

  lemma AreaOfWithArea(m: Manifest, id: string, area: string)
    requires '/' !in id
    ensures TargetPath(Manifests.WithArea(m, id, area)) == area
  {
    var name := if FileName(m.path) == "" then id + ".md" else FileName(m.path);
    FileNameIsName(m.path);
    assert '/' !in ".md";
    assert ValidName(name);
    ParentOfChild(area, name);
  }

  /** A move that succeeds ends in the requested area, whether the file was there, moved, or missing. */
  lemma MoveArrives(w: World, id: string, owner: string, now: int, to: string, files: Files)
    requires MoveSource(w, id, owner, now, to, files).1 == Ok && '/' !in id
    requires ValidFiles(w.files) && ProperNames(w.files)
    ensures id in MoveSource(w, id, owner, now, to, files).0.manifests
    ensures TargetPath(MoveSource(w, id, owner, now, to, files).0.manifests[id]) == to
  {
    hide MoveWrite;
    var held := Acquire(w, id, owner, now, now + LONG_LEASE);
    MoveWriteArrives(held, id, to, files);
  }

  lemma MoveWriteArrives(w: World, id: string, to: string, files: Files)
    requires id in w.manifests && MoveWrite(w, id, to, files).Some? && '/' !in id
    requires ValidFiles(w.files) && ProperNames(w.files)
    ensures id in MoveWrite(w, id, to, files).value.manifests
    ensures TargetPath(MoveWrite(w, id, to, files).value.manifests[id]) == to
  {
    hide FileName, ChildPath, LastSlash, Validates, ParentPath;
    var m := w.manifests[id];
    var r := Resolve(w.files, id, m);
    AreaOfWithArea(m, id, to);
    if Found(r) {
      FileNameIsName(r.path);
      ParentOfChild(to, FileName(r.path));
    }
  }

  /** What one manifest becomes in a folder move. */
  function AfterFolderMove(w: World, id: string, src: string, dest: string, now: int): Manifest
    requires id in w.manifests
  {
    if InFolder(w.manifests[id], src) && !ActiveLease(w, id, now)
    then FolderMoved(w.manifests[id], src, dest) else w.manifests[id]
  }

  /** A folder move rewrites exactly the unleased manifests below the folder, each once and independently
      of the others. */
  lemma {:induction false} FolderMoveIsPointwise(w: World, order: seq<string>, src: string, dest: string, now: int)
    requires Distinct(order)
    ensures
      var after := MoveFolder(w, order, src, dest, now);
      && after == w.(manifests := after.manifests) && after.manifests.Keys == w.manifests.Keys
      && forall id :: id in w.manifests ==>
           after.manifests[id] == if id in order then AfterFolderMove(w, id, src, dest, now) else w.manifests[id]
    decreases |order|
  {
    hide InFolder, FolderMoved;
    if order != [] {
      var id, rest := order[0], order[1..];
      var next := MoveWithFolder(w, id, src, dest, now);
      assert order == [id] + rest && id !in rest;
      FolderMoveIsPointwise(next, rest, src, dest, now);
    }
  }
}
