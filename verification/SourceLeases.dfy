/** The runtime side of a source: its lifecycle row with the lease, the polling row, and the fenced
    commit sections. Each function is one database transaction. */
module SourceLeases {
  import opened Basics
  import opened Manifests

  /** source_lifecycle_runtime: missing-observation times and the lease. */
  datatype Runtime = Runtime(first: Option<int>, last: Option<int>, owner: Option<string>, expires: Option<int>)

  datatype World = World(
    manifests: map<string, Manifest>, polling: set<string>, runtime: map<string, Runtime>, files: Files)

  // ---------- the lease ----------

  /** has_active_conflicting_lease: a lease without expiry counts as active. */
  predicate Active(row: Runtime, now: int) {
    row.owner.Some? && (row.expires == None || row.expires.value >= now)
  }

  predicate ActiveLease(w: World, id: string, now: int) {
    id in w.runtime && Active(w.runtime[id], now)
  }

  function LeaseOwner(w: World, id: string): Option<string> {
    if id in w.runtime then w.runtime[id].owner else None
  }

  function Row(w: World, id: string): Runtime {
    if id in w.runtime then w.runtime[id] else Runtime(None, None, None, None)
  }

  /** acquire_source_lifecycle_lease refuses only an unexpired lease of somebody else; one without an
      expiry can be taken. */
  predicate CanAcquire(w: World, id: string, owner: string, now: int) {
    id in w.runtime && w.runtime[id].owner.Some? && w.runtime[id].owner.value != owner ==>
      !(w.runtime[id].expires.Some? && w.runtime[id].expires.value >= now)
  }

  function Acquire(w: World, id: string, owner: string, now: int, expires: int): World {
    if CanAcquire(w, id, owner, now)
    then w.(runtime := w.runtime[id := Runtime(Row(w, id).first, Row(w, id).last, Some(owner), Some(expires))])
    else w
  }

  predicate Owns(w: World, id: string, owner: string) {
    LeaseOwner(w, id) == Some(owner)
  }

  /** renew_source_lifecycle_lease: whoever the row still names, expired or not. */
  function Renew(w: World, id: string, owner: string, expires: int): World {
    if Owns(w, id, owner)
    then w.(runtime := w.runtime[id := w.runtime[id].(expires := Some(expires))])
    else w
  }

  /** Renewing to the expiry the lease already has changes nothing. */
  lemma RenewAgain(w: World, id: string, owner: string, until: int)
    requires LeaseOwner(w, id) == Some(owner) && w.runtime[id].expires == Some(until)
    ensures Renew(w, id, owner, until) == w
  {
    assert w.runtime[id := w.runtime[id]] == w.runtime;
  }

  function ClearLease(w: World, id: string, owner: string): World {
    if Owns(w, id, owner)
    then w.(runtime := w.runtime[id := w.runtime[id].(owner := None, expires := None)])
    else w
  }

  function DeleteRow(w: World, id: string): World {
    w.(runtime := w.runtime - {id})
  }

  function PruneRow(w: World, id: string): World {
    if id in w.runtime && w.runtime[id] == Runtime(None, None, None, None) then DeleteRow(w, id) else w
  }

  // ---------- fenced commit sections ----------

  /** The commit of process_prepared_source: the row must still name the owner. An unregistered source's
      manifest is not written, but its polling row is. */
  function Materialize(w: World, id: string, owner: string, p: Prepared): World {
    if !Owns(w, id, owner) then w
    else
      var manifests := if id in w.manifests then w.manifests[id := MaterializedAs(w.manifests[id], p)] else w.manifests;
      PruneRow(ClearLease(World(manifests, w.polling + {id}, w.runtime, w.files), id, owner), id)
  }

  predicate Observable(w: World, id: string, now: int) {
    id in w.manifests && !ActiveLease(w, id, now)
  }

  /** record_missing_confirmation */
  function Confirmed(row: Runtime, now: int): Runtime {
    row.(first := if row.first == None then Some(now) else row.first, last := Some(now))
  }

  /** observe_missing_source */
  function Observe(w: World, id: string, now: int): World {
    if !Observable(w, id, now) then w
    else World(
      w.manifests[id := MarkMissing(w.manifests[id])], w.polling - {id},
      w.runtime[id := Confirmed(Row(w, id), now)], w.files)
  }

  /** sync_manifest_to_found_path; None when the manifest is gone or the write fails validation. */
  function SyncManifest(w: World, id: string, found: string): Option<World> {
    if id !in w.manifests then None
    else
      var m := SyncedTo(w.manifests[id], found);
      if m == w.manifests[id] then Some(w)
      else if Validates(m) then Some(w.(manifests := w.manifests[id := m]))
      else None
  }

  /** reconcile's fence for a missing source whose file is back. None when it raises. */
  function Reappear(w: World, id: string, now: int): Option<World> {
    if !Observable(w, id, now) || !Found(Resolve(w.files, id, w.manifests[id])) then Some(w)
    else
      var synced := SyncManifest(w, id, Resolve(w.files, id, w.manifests[id]).path);
      if synced == None then None
      else
        var s := synced.value;
        Some(World(s.manifests, s.polling + {id}, s.runtime - {id}, s.files))
  }

  /** reconcile's fence for a settled source whose file was found. */
  function Repair(w: World, id: string, now: int): Option<World> {
    if !Observable(w, id, now) || !Found(Resolve(w.files, id, w.manifests[id])) then Some(w)
    else SyncManifest(w, id, Resolve(w.files, id, w.manifests[id]).path)
  }

  /** One manifest of a folder move. */
  function MoveWithFolder(w: World, id: string, src: string, dest: string, now: int): World {
    if !Observable(w, id, now) || !InFolder(w.manifests[id], src) then w
    else w.(manifests := w.manifests[id := FolderMoved(w.manifests[id], src, dest)])
  }

  /** A row without its lease. */
  function Stripped(row: Runtime): Runtime {
    row.(owner := None, expires := None)
  }

  /** The fence that ends a move. */
  function EndMove(w: World, id: string, owner: string): World {
    PruneRow(ClearLease(w, id, owner), id)
  }

  // ---------- what the transactions write ----------

  ghost predicate OtherRows(before: map<string, Runtime>, after: map<string, Runtime>, id: string) {
    forall o :: o != id ==> (o in after <==> o in before) && (o in before ==> after[o] == before[o])
  }

  /** An acquisition is granted unless somebody else's lease has an expiry that is not past. It then names
      the owner until the given time and keeps the missing-observation times. */
  lemma AcquireWrites(w: World, id: string, owner: string, now: int, expires: int)
    ensures
      var after := Acquire(w, id, owner, now, expires);
      && (CanAcquire(w, id, owner, now) <==>
            !(&& LeaseOwner(w, id).Some? && LeaseOwner(w, id) != Some(owner)
              && w.runtime[id].expires.Some? && w.runtime[id].expires.value >= now))
      && after == w.(runtime := after.runtime) && OtherRows(w.runtime, after.runtime, id)
      && (CanAcquire(w, id, owner, now) ==>
            && id in after.runtime && after.runtime[id].owner == Some(owner) && after.runtime[id].expires == Some(expires)
            && (id in w.runtime ==> after.runtime[id].first == w.runtime[id].first && after.runtime[id].last == w.runtime[id].last)
            && (id !in w.runtime ==> after.runtime[id].first == None && after.runtime[id].last == None))
      && (!CanAcquire(w, id, owner, now) ==> after == w)
  {
  }

  /** Clearing and renewing touch the lease only, and only for whom the row names; an emptied row goes when
      a fence ends. */
  lemma LeaseUpdatesWrite(w: World, id: string, owner: string, expires: int)
    ensures !Owns(w, id, owner) ==> ClearLease(w, id, owner) == w && Renew(w, id, owner, expires) == w
    ensures Owns(w, id, owner) ==>
      var cleared, renewed := ClearLease(w, id, owner), Renew(w, id, owner, expires);
      && cleared == w.(runtime := cleared.runtime) && OtherRows(w.runtime, cleared.runtime, id) && id in cleared.runtime
      && cleared.runtime[id] == Runtime(w.runtime[id].first, w.runtime[id].last, None, None)
      && renewed == w.(runtime := renewed.runtime) && OtherRows(w.runtime, renewed.runtime, id) && id in renewed.runtime
      && renewed.runtime[id] == Runtime(w.runtime[id].first, w.runtime[id].last, Some(owner), Some(expires))
    ensures OtherRows(w.runtime, PruneRow(w, id).runtime, id)
    ensures id in PruneRow(w, id).runtime <==>
      id in w.runtime && (w.runtime[id].owner.Some? || w.runtime[id].expires.Some? || w.runtime[id].first.Some? || w.runtime[id].last.Some?)
    ensures id in PruneRow(w, id).runtime ==> PruneRow(w, id) == w
  {
  }

  /** Observing a registered source as missing, unless a lease is active: the state becomes missing, the
      first observation keeps its time, the latest gets this one, and the source is no longer polled. */
  lemma ObservationWrites(w: World, id: string, now: int)
    ensures
      var after := Observe(w, id, now);
      if id in w.manifests && !ActiveLease(w, id, now) then
        && after.manifests == w.manifests[id := w.manifests[id].(state := Missing)]
        && after.polling == w.polling - {id} && after.files == w.files
        && OtherRows(w.runtime, after.runtime, id) && id in after.runtime && after.runtime[id].last == Some(now)
        && after.runtime[id].first == (if id in w.runtime && w.runtime[id].first.Some? then w.runtime[id].first else Some(now))
        && (id in w.runtime ==> after.runtime[id].owner == w.runtime[id].owner && after.runtime[id].expires == w.runtime[id].expires)
      else after == w
  {
  }

  /** Neither fence does anything to an unregistered or leased source, or to one whose file is not found. */
  lemma NothingToRepair(w: World, id: string, now: int)
    requires !Observable(w, id, now) || !Found(Resolve(w.files, id, w.manifests[id]))
    ensures Reappear(w, id, now) == Some(w) && Repair(w, id, now) == Some(w)
    ensures Observable(w, id, now) <==> id in w.manifests && !ActiveLease(w, id, now)
  {
  }

  /** A missing source whose file is back is synced to it, polled again, and forgets its observations;
      any other found source is only synced. */
  lemma RepairsWrite(w: World, id: string, now: int)
    requires id in w.manifests && !ActiveLease(w, id, now) && Found(Resolve(w.files, id, w.manifests[id]))
    ensures
      var found := Resolve(w.files, id, w.manifests[id]).path;
      var m := SyncedTo(w.manifests[id], found);
      && (Reappear(w, id, now).Some? ==>
            Reappear(w, id, now).value == World(w.manifests[id := m], w.polling + {id}, w.runtime - {id}, w.files))
      && (Repair(w, id, now).Some? ==> Repair(w, id, now).value == w.(manifests := w.manifests[id := m]))
  {
    hide Resolve, SyncedTo, Validates;
    assert w.manifests[id := w.manifests[id]] == w.manifests;
  }

  // ---------- single unfenced writes ----------

  function WithArea(w: World, id: string, area: string): Option<World> {
    if id !in w.manifests then None
    else
      var m := Manifests.WithArea(w.manifests[id], id, area);
      if Validates(m) then Some(w.(manifests := w.manifests[id := m])) else None
  }

  function DeletePolling(w: World, id: string): World {
    w.(polling := w.polling - {id})
  }

  function EnsurePolling(w: World, id: string): World {
    w.(polling := w.polling + {id})
  }

  function DeleteRegistration(w: World, id: string): World {
    w.(manifests := w.manifests - {id})
  }

  function Register(w: World, id: string, m: Manifest): World {
    w.(manifests := w.manifests[id := m])
  }

  function WithFiles(w: World, files: Files): World {
    w.(files := files)
  }
}
