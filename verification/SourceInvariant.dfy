/** What every lifecycle command keeps: valid manifests, and polling only for live registrations. */
module SourceInvariant {
  import opened Basics
  import opened Manifests
  import opened SourceLeases

  ghost predicate AllSound(w: World) {
    forall id :: id in w.manifests ==> Sound(w.manifests[id])
  }

  /** Polling rows exist only for registered sources that are not missing. */
  ghost predicate PollingOk(w: World) {
    forall id :: id in w.polling ==> id in w.manifests && w.manifests[id].state != Missing
  }

  ghost predicate Invariant(w: World) {
    AllSound(w) && PollingOk(w) && ValidFiles(w.files)
  }

  lemma SyncManifestKeeps(w: World, id: string, found: string)
    requires Invariant(w) && SyncManifest(w, id, found).Some?
    ensures
      var after := SyncManifest(w, id, found).value;
      && Invariant(after) && after == w.(manifests := after.manifests) && after.manifests.Keys == w.manifests.Keys
      && after.manifests[id].state != Missing
  {
  }

  /** Writing a repaired path raises exactly when it would revive a source that has no hashes. */
  lemma SyncManifestRaisesExactlyWhen(w: World, id: string, found: string)
    requires AllSound(w) && id in w.manifests && found != ""
    ensures SyncManifest(w, id, found) == None <==>
      w.manifests[id].state == Missing && !HashesSet(w.manifests[id])
  {
    SyncValidatesExactlyWhen(w.manifests[id], found);
  }

  /** A run of it: a source is registered, reported missing before its first sync, and then its file turns
      up. Reviving it raises. */
  lemma AwaitingSourceCannotReturn(id: string, path: string, now: int)
    requires path != ""
    ensures
      var w := World(map[id := Manifest(path, Awaiting, None, None, None)], {id}, map[], Files({}, map[], map[]));
      var gone := Observe(w, id, now);
      && Invariant(w) && gone.manifests[id].state == Missing
      && Reappear(WithFiles(gone, Files({path}, map[], map[])), id, now) == None
  {
  }

  lemma ObserveKeeps(w: World, id: string, now: int)
    requires Invariant(w)
    ensures Invariant(Observe(w, id, now)) && Observe(w, id, now).manifests.Keys == w.manifests.Keys
  {
  }

  lemma LeasesKeep(w: World, id: string, owner: string, now: int, expires: int)
    requires Invariant(w)
    ensures Invariant(Acquire(w, id, owner, now, expires)) && Invariant(ClearLease(w, id, owner))
    ensures Invariant(DeleteRow(w, id)) && Invariant(EndMove(w, id, owner))
  {
  }
}
