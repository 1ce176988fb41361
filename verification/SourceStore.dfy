/** The lifecycle as it runs: manifests, polling rows, runtime rows and files updated in place. Every
    method is tied to the specification functions of the lifecycle modules. */
module SourceStore {
  import opened Basics
  import opened Topology
  import opened Manifests
  import opened SourceLeases
  import opened SourceInvariant
  import opened Reconcile
  import opened Lifecycle

  class Store {
    var manifests: map<string, Manifest>
    var polling: set<string>
    var runtime: map<string, Runtime>
    var files: Files

    constructor (w: World)
      ensures State() == w
    {
      manifests, polling, runtime, files := w.manifests, w.polling, w.runtime, w.files;
    }

    ghost function State(): World
      reads this
    {
      World(manifests, polling, runtime, files)
    }

    // ---------- the lease ----------

    method AcquireLease(id: string, owner: string, now: int, expires: int) returns (acquired: bool)
      modifies this`runtime
      ensures acquired == CanAcquire(old(State()), id, owner, now)
      ensures State() == Acquire(old(State()), id, owner, now, expires)
      ensures acquired ==> Owns(State(), id, owner)
    {
      if id in runtime && runtime[id].owner.Some? && runtime[id].owner.value != owner {
        if runtime[id].expires.Some? && runtime[id].expires.value >= now {
          return false;
        }
      }
      var first := if id in runtime then runtime[id].first else None;
      var last := if id in runtime then runtime[id].last else None;
      runtime := runtime[id := Runtime(first, last, Some(owner), Some(expires))];
      acquired := true;
    }

    method RenewLease(id: string, owner: string, expires: int) returns (renewed: bool)
      modifies this`runtime
      ensures renewed == Owns(old(State()), id, owner)
      ensures State() == Renew(old(State()), id, owner, expires)
    {
      renewed := id in runtime && runtime[id].owner == Some(owner);
      if renewed {
        runtime := runtime[id := runtime[id].(expires := Some(expires))];
      }
    }

    /** _renew_owned_lease_or_raise_conflict while the lease is held: the renewal goes through. */
    method KeepLease(id: string, owner: string, until: int)
      requires LeaseOwner(State(), id) == Some(owner) && runtime[id].expires == Some(until)
      modifies this`runtime
      ensures State() == old(State())
    {
      RenewAgain(State(), id, owner, until);
      var renewed := RenewLease(id, owner, until);
      assert renewed;
    }

    method ClearOwnedLease(id: string, owner: string)
      modifies this`runtime
      ensures State() == ClearLease(old(State()), id, owner)
    {
      if id in runtime && runtime[id].owner == Some(owner) {
        runtime := runtime[id := runtime[id].(owner := None, expires := None)];
      }
    }

    method DeleteRuntimeRow(id: string)
      modifies this`runtime
      ensures State() == DeleteRow(old(State()), id)
    {
      runtime := runtime - {id};
    }

    method PruneEmptyRow(id: string)
      modifies this`runtime
      ensures State() == PruneRow(old(State()), id)
    {
      if id in runtime && runtime[id] == Runtime(None, None, None, None) {
        runtime := runtime - {id};
      }
    }

    // ---------- fenced commits ----------

    method CommitMaterialization(id: string, owner: string, expires: int, p: Prepared) returns (committed: bool)
      modifies this
      ensures committed == Owns(old(State()), id, owner)
      ensures State() == Materialize(old(State()), id, owner, p)
    {
      committed := RenewLease(id, owner, expires);
      if !committed {
        return;
      }
      if id in manifests {
        var m := manifests[id];
        var at := if p.fileChanged || m.path != p.path || m.materializedAt == None then Some(p.checkedAt) else m.materializedAt;
        manifests := manifests[id := Manifest(p.path, Materialized, Some(p.contentHash), Some(p.fingerprint), at)];
      }
      polling := polling + {id};
      ClearOwnedLease(id, owner);
      PruneEmptyRow(id);
      ClearedAnyway(old(State()), id, owner, expires, p);
    }

    /** newly is None when nothing was observed. */
    method ObserveMissingSource(id: string, now: int) returns (newly: Option<bool>)
      modifies this
      ensures State() == Observe(old(State()), id, now)
      ensures newly.Some? <==> Observable(old(State()), id, now)
      ensures newly == None ==> State() == old(State())
      ensures newly.Some? ==> (newly.value <==> old(manifests)[id].state != Missing)
    {
      if id !in manifests || (id in runtime && Active(runtime[id], now)) {
        return None;
      }
      var first := manifests[id].state != Missing;
      if first {
        manifests := manifests[id := manifests[id].(state := Missing)];
      }
      var row := if id in runtime then runtime[id] else Runtime(None, None, None, None);
      if row.first == None {
        row := row.(first := Some(now));
      }
      runtime := runtime[id := row.(last := Some(now))];
      polling := polling - {id};
      newly := Some(first);
      assert manifests == old(manifests)[id := MarkMissing(old(manifests)[id])];
    }

    /** Writes only a change, and only one that validates. */
    method SyncManifestToFoundPath(id: string, found: string) returns (written: bool)
      modifies this`manifests
      ensures written == SyncManifest(old(State()), id, found).Some?
      ensures written ==> State() == SyncManifest(old(State()), id, found).value
      ensures !written ==> State() == old(State())
    {
      if id !in manifests {
        return false;
      }
      var m := manifests[id];
      var pathChanged := m.path != found;
      var changed := pathChanged;
      var next := m.(path := found);
      if m.state == Missing {
        next := next.(state := Stale);
        changed := true;
      } else if pathChanged && m.state != Awaiting && m.state != Stale {
        next := next.(state := Stale);
      }
      assert next == SyncedTo(m, found) && (changed <==> next != m);
      written := true;
      if changed {
        if !Validates(next) {
          return false;
        }
        manifests := manifests[id := next];
      }
    }

    method SetSourceAreaPath(id: string, area: string) returns (written: bool)
      modifies this`manifests
      ensures written == SourceLeases.WithArea(old(State()), id, area).Some?
      ensures written ==> State() == SourceLeases.WithArea(old(State()), id, area).value
      ensures !written ==> State() == old(State())
    {
      if id !in manifests {
        return false;
      }
      var next := Manifests.WithArea(manifests[id], id, area);
      written := Validates(next);
      if written {
        manifests := manifests[id := next];
      }
    }

    /** apply_folder_move over the manifests that lie in the folder. */
    method ApplyFolderMove(order: seq<string>, src: string, dest: string, now: int)
      modifies this`manifests
      ensures State() == MoveFolder(old(State()), order, src, dest, now)
    {
      var i := 0;
      assert order[0..] == order;
      while i < |order|
        invariant i <= |order|
        invariant MoveFolder(State(), order[i..], src, dest, now) == MoveFolder(old(State()), order, src, dest, now)
      {
        hide FolderMoved;
        var id := order[i];
        assert order[i..][1..] == order[i + 1..];
        if id in manifests && InFolder(manifests[id], src) && !(id in runtime && Active(runtime[id], now)) {
          manifests := manifests[id := FolderMoved(manifests[id], src, dest)];
        }
        i := i + 1;
      }
    }

    // ---------- commands ----------

    method AddNewSource(id: string, path: string) returns (reply: Reply)
      modifies this
      ensures State() == AddSource(old(State()), id, path).0 && reply == AddSource(old(State()), id, path).1
    {
      if id in manifests {
        return AlreadyRegistered;
      }
      manifests := manifests[id := Manifest(path, Awaiting, None, None, None)];
      polling := polling + {id};
      reply := Ok;
    }

    method DeregisterSource(id: string)
      modifies this
      ensures State() == Deregister(old(State()), id)
    {
      polling := polling - {id};
      DeleteRuntimeRow(id);
      manifests := manifests - {id};
    }

    method RemoveOneSource(id: string, owner: string, now: int, filesAfter: Files) returns (reply: Reply)
      modifies this
      ensures State() == RemoveSource(old(State()), id, owner, now, filesAfter).0
      ensures reply == RemoveSource(old(State()), id, owner, now, filesAfter).1
    {
      if id !in manifests {
        return NotRegistered;
      }
      var acquired := AcquireLease(id, owner, now, now + LONG_LEASE);
      if !acquired {
        return LeaseConflict;
      }
      files := filesAfter;
      DeregisterSource(id);
      ClearOwnedLease(id, owner);
      reply := Ok;
    }

    method SyncActiveSourceOnce(id: string, owner: string, now: int, remote: Remote, filesAfter: Files) returns (reply: Reply)
      modifies this
      ensures State() == SyncSource(old(State()), id, owner, now, remote, filesAfter).0
      ensures reply == SyncSource(old(State()), id, owner, now, remote, filesAfter).1
    {
      hide Materialize, Observe;
      if id !in manifests || manifests[id].state == Missing {
        return NotRegistered;
      }
      var acquired := AcquireLease(id, owner, now, now + LEASE);
      if !acquired {
        return LeaseConflict;
      }
      match remote {
        case Gone =>
          ClearOwnedLease(id, owner);
          var _ := ObserveMissingSource(id, now);
          reply := Ok;
        case Failed =>
          ClearOwnedLease(id, owner);
          polling := polling + {id};
          reply := SyncFailed;
        case Unchanged =>
          ClearOwnedLease(id, owner);
          polling := polling + {id};
          reply := Ok;
        case Fetch(p) =>
          var _ := CommitMaterialization(id, owner, now + LEASE, p);
          files := filesAfter;
          polling := polling + {id};
          reply := Ok;
      }
    }

    method MoveOneSource(id: string, owner: string, now: int, to: string, filesAfter: Files) returns (reply: Reply)
      modifies this
      ensures State() == MoveSource(old(State()), id, owner, now, to, filesAfter).0
      ensures reply == MoveSource(old(State()), id, owner, now, to, filesAfter).1
    {
      hide SyncManifest, SourceLeases.WithArea, Resolve, FileName, ChildPath, ParentPath;
      if id !in manifests {
        return NotRegistered;
      }
      var acquired := AcquireLease(id, owner, now, now + LONG_LEASE);
      if !acquired {
        return LeaseConflict;
      }
      var until := now + LONG_LEASE;
      var r := Resolve(files, id, manifests[id]);
      var moves := Found(r) && ParentPath(r.path) != to;
      var written := !(moves && ChildPath(to, FileName(r.path)) in files.present);
      if written {
        var filesBefore := files;
        if moves {
          files := filesAfter;
        }
        KeepLease(id, owner, until);
        KeepLease(id, owner, until);
        KeepLease(id, owner, until);
        if moves {
          written := SyncManifestToFoundPath(id, ChildPath(to, FileName(r.path)));
        } else if Found(r) {
          written := SyncManifestToFoundPath(id, r.path);
        } else {
          written := SetSourceAreaPath(id, to);
        }
        if !written {
          files := filesBefore;
        }
      }
      reply := if written then Ok else Raised;
      ClearOwnedLease(id, owner);
      PruneEmptyRow(id);
    }

    method FinalizeMissingSource(id: string, owner: string, now: int) returns (reply: Reply)
      modifies this
      ensures State() == Finalize(old(State()), id, owner, now).0 && reply == Finalize(old(State()), id, owner, now).1
    {
      hide SyncManifest, Resolve;
      var acquired := AcquireLease(id, owner, now, now + LEASE);
      if !acquired {
        return LeaseConflict;
      }
      if id !in manifests {
        DeleteRuntimeRow(id);
        return NotRegistered;
      }
      var r := Resolve(files, id, manifests[id]);
      if Found(r) {
        var synced := SyncManifestToFoundPath(id, r.path);
        if !synced {
          ClearOwnedLease(id, owner);
          return Raised;
        }
        DeleteRuntimeRow(id);
        polling := polling + {id};
        return NotMissing;
      }
      if manifests[id].state != Missing {
        DeleteRuntimeRow(id);
        return NotMissing;
      }
      DeregisterSource(id);
      reply := Finalized;
    }

    // ---------- reconcile ----------

    /** The first loop of reconcile_sources. */
    method RevalidateRuntimeRows(now: int)
      modifies this`runtime
      ensures State() == RevalidateRows(old(State()), now)
    {
      var rest := runtime.Keys;
      ghost var rows := runtime;
      ghost var done: set<string> := {};
      while rest != {}
        invariant rest !! done && rest + done == rows.Keys
        invariant Swept(rows, runtime, manifests, done, now)
        decreases |rest|
      {
        hide Swept;
        var id :| id in rest;
        SweptStep(rows, runtime, manifests, done, id, now);
        rest := rest - {id};
        done := done + {id};
        RevalidateOne(id, now);
      }
      SweptAll(old(State()), runtime, now);
    }

    method RevalidateOne(id: string, now: int)
      requires id in runtime
      modifies this`runtime
      ensures runtime == AfterSweep(old(runtime), manifests, id, now)
    {
      var row := runtime[id];
      if Active(row, now) {
        return;
      }
      if id !in manifests || manifests[id].state != Missing {
        runtime := runtime - {id};
        return;
      }
      if row.owner != None || row.expires != None {
        runtime := runtime[id := row.(owner := None, expires := None)];
      }
      assert Stripped(row) == row ==> runtime[id := Stripped(row)] == runtime;
    }

    /** One source of the pass. The fences read the manifest again before they write. */
    method ReconcileOne(id: string, seen: Manifest, now: int, before: Report) returns (report: Report, raised: bool)
      modifies this
      ensures Pass(State(), report, raised) == ReconcileSource(Pass(old(State()), before, false), id, seen, now)
    {
      hide SyncManifest, Observe, Resolve;
      report, raised := before, false;
      var r := Resolve(files, id, seen);
      if r.Unmaterialized? {
        report := before.(same := before.same + 1);
      } else if Found(r) {
        if id !in manifests || (id in runtime && Active(runtime[id], now)) || !Found(Resolve(files, id, manifests[id])) {
          report := before.(same := before.same + 1);
          return;
        }
        var m := manifests[id];
        var again := Resolve(files, id, m);
        var written := SyncManifestToFoundPath(id, again.path);
        if !written {
          raised := true;
        } else if seen.state == Missing {
          DeleteRuntimeRow(id);
          polling := polling + {id};
          report := before.(reappeared := before.reappeared + [id]);
        } else if ParentPath(again.path) != TargetPath(m) || !again.Direct? {
          report := before.(updated := before.updated + [id]);
        } else {
          report := before.(same := before.same + 1);
        }
      } else {
        var newly := ObserveMissingSource(id, now);
        if newly == None {
          report := before.(same := before.same + 1);
        } else {
          report := before.(
            notFound := before.notFound + [id],
            markedMissing := if seen.state != Missing then before.markedMissing + [id] else before.markedMissing);
        }
      }
    }

    /** reconcile_sources; a manifest that fails validation ends the pass. */
    method ReconcileAllSources(order: seq<string>, now: int) returns (report: Report, raised: bool)
      requires forall id :: id in order ==> id in manifests
      modifies this
      ensures Pass(State(), report, raised) == ReconcileAll(old(State()), order, now)
    {
      hide ReconcileSource, RevalidateRows;
      var all := manifests;
      RevalidateRuntimeRows(now);
      report, raised := NOTHING, false;
      ghost var start := Pass(State(), report, raised);
      var i := 0;
      assert order[0..] == order;
      while i < |order| && !raised
        invariant i <= |order|
        invariant ReconcileEach(Pass(State(), report, raised), all, order[i..], now) == ReconcileEach(start, all, order, now)
      {
        assert order[i..][1..] == order[i + 1..] && order[i..][0] == order[i];
        report, raised := ReconcileOne(order[i], all[order[i]], now, report);
        i := i + 1;
      }
      if !raised {
        polling := polling * all.Keys;
      }
    }
  }

  /** One row revalidated. */
  function AfterSweep(rows: map<string, Runtime>, manifests: map<string, Manifest>, id: string, now: int): map<string, Runtime>
    requires id in rows
  {
    if Active(rows[id], now) then rows
    else if MissingSource(manifests, id) then rows[id := Stripped(rows[id])]
    else rows - {id}
  }

  ghost predicate Swept(
    before: map<string, Runtime>, now_: map<string, Runtime>, manifests: map<string, Manifest>, done: set<string>, now: int)
  {
    && (forall id :: id in now_ <==> id in before && (id !in done || Active(before[id], now) || MissingSource(manifests, id)))
    && (forall id :: id in now_ ==>
          now_[id] == if id in done && !Active(before[id], now) then Stripped(before[id]) else before[id])
  }

  lemma SweptStep(
    before: map<string, Runtime>, rows: map<string, Runtime>, manifests: map<string, Manifest>, done: set<string>, id: string, now: int)
    requires Swept(before, rows, manifests, done, now) && id in before && id !in done
    ensures id in rows
    ensures Swept(before, AfterSweep(rows, manifests, id, now), manifests, done + {id}, now)
  {
  }

  lemma SweptAll(w: World, rows: map<string, Runtime>, now: int)
    requires Swept(w.runtime, rows, w.manifests, w.runtime.Keys, now)
    ensures World(w.manifests, w.polling, rows, w.files) == RevalidateRows(w, now)
  {
    assert rows == RevalidateRows(w, now).runtime;
  }

  /** Renewing before clearing leaves no trace. */
  lemma ClearedAnyway(w: World, id: string, owner: string, expires: int, p: Prepared)
    ensures Materialize(Renew(w, id, owner, expires), id, owner, p) == Materialize(w, id, owner, p)
  {
    if Owns(w, id, owner) {
      var r := w.runtime[id := w.runtime[id].(expires := Some(expires))];
      assert r[id := r[id].(owner := None, expires := None)] == w.runtime[id := w.runtime[id].(owner := None, expires := None)];
    }
  }
}
