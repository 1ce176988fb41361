/** Reconciling all registered sources with the files on disk. */
module Reconcile {
  import opened Basics
  import opened Topology
  import opened Manifests
  import opened SourceLeases
  import opened SourceInvariant

  datatype Report = Report(
    updated: seq<string>, notFound: seq<string>, same: nat, markedMissing: seq<string>, reappeared: seq<string>)

  /** A reconcile pass so far; raised when a manifest write failed validation. */
  datatype Pass = Pass(world: World, report: Report, raised: bool)

  const NOTHING := Report([], [], 0, [], [])

  // ---------- runtime rows ----------

  predicate MissingSource(manifests: map<string, Manifest>, id: string) {
    id in manifests && manifests[id].state == Missing
  }

  /** Inactive rows lose their lease; only those of missing sources are kept at all. */
  function RevalidateRows(w: World, now: int): World {
    w.(runtime := map id | id in w.runtime && (Active(w.runtime[id], now) || MissingSource(w.manifests, id)) ::
      if Active(w.runtime[id], now) then w.runtime[id] else Stripped(w.runtime[id]))
  }

  // ---------- one source ----------

  function Unchanged(p: Pass): Pass {
    p.(report := p.report.(same := p.report.same + 1))
  }

  /** A source whose file was not found: observed missing unless a lease is active. */
  function NotThere(p: Pass, id: string, newly: bool, now: int): Pass {
    if !Observable(p.world, id, now) then Unchanged(p)
    else
      Pass(Observe(p.world, id, now),
        p.report.(
          notFound := p.report.notFound + [id],
          markedMissing := if newly then p.report.markedMissing + [id] else p.report.markedMissing),
        p.raised)
  }

  function Reappeared(p: Pass, id: string, now: int): Pass {
    if !Observable(p.world, id, now) || !Found(Resolve(p.world.files, id, p.world.manifests[id])) then Unchanged(p)
    else
      var after := Reappear(p.world, id, now);
      if after == None then p.(raised := true)
      else Pass(after.value, p.report.(reappeared := p.report.reappeared + [id]), p.raised)
  }

  function Repaired(p: Pass, id: string, now: int): Pass {
    if !Observable(p.world, id, now) || !Found(Resolve(p.world.files, id, p.world.manifests[id])) then Unchanged(p)
    else
      var m := p.world.manifests[id];
      var r := Resolve(p.world.files, id, m);
      var after := Repair(p.world, id, now);
      if after == None then p.(raised := true)
      else if ParentPath(r.path) != TargetPath(m) || !r.Direct?
      then Pass(after.value, p.report.(updated := p.report.updated + [id]), p.raised)
      else Unchanged(p.(world := after.value))
  }

  /** seen is the manifest read at the start of the pass; the fences read it again. */
  function ReconcileSource(p: Pass, id: string, seen: Manifest, now: int): Pass {
    var r := Resolve(p.world.files, id, seen);
    if r.Unmaterialized? then Unchanged(p)
    else if Found(r) then (if seen.state == Missing then Reappeared(p, id, now) else Repaired(p, id, now))
    else NotThere(p, id, seen.state != Missing, now)
  }

  function ReconcileEach(p: Pass, all: map<string, Manifest>, order: seq<string>, now: int): Pass
    requires forall id :: id in order ==> id in all
    decreases |order|
  {
    if order == [] || p.raised then p
    else ReconcileEach(ReconcileSource(p, order[0], all[order[0]], now), all, order[1..], now)
  }

  /** reconcile_sources; order is the order in which the manifests are listed. */
  function ReconcileAll(w: World, order: seq<string>, now: int): Pass
    requires forall id :: id in order ==> id in w.manifests
  {
    var p := ReconcileEach(Pass(RevalidateRows(w, now), NOTHING, false), w.manifests, order, now);
    if p.raised then p else p.(world := p.world.(polling := p.world.polling * w.manifests.Keys))
  }

  ghost predicate Lists(order: seq<string>, manifests: map<string, Manifest>) {
    Distinct(order) && forall id :: id in order <==> id in manifests
  }

  // ---------- what becomes of each source ----------

  datatype Fate = Kept | Updated | Back | StillMissing | NewlyMissing | Raises

  /** Decided from the state at the start of the pass alone. */
  function FateOf(w: World, id: string, now: int): Fate
    requires id in w.manifests
  {
    var m := w.manifests[id];
    var r := Resolve(w.files, id, m);
    if r.Unmaterialized? || ActiveLease(w, id, now) then Kept
    else if Found(r) then
      if m.state == Missing then (if HashesSet(m) then Back else Raises)
      else if ParentPath(r.path) != TargetPath(m) || !r.Direct? then Updated
      else Kept
    else if m.state == Missing then StillMissing
    else NewlyMissing
  }

  function FateManifest(w: World, id: string, now: int): Manifest
    requires id in w.manifests
  {
    var m := w.manifests[id];
    var r := Resolve(w.files, id, m);
    match FateOf(w, id, now)
    case Updated => SyncedTo(m, r.path)
    case Back => SyncedTo(m, r.path)
    case NewlyMissing => MarkMissing(m)
    case _ => m
  }

  /** p differs from w only in the sources of done, each of which met its fate. */
  ghost predicate Progress(w: World, p: Pass, done: seq<string>, now: int) {
    && !p.raised && Invariant(p.world) && p.world.files == w.files
    && p.world.manifests.Keys == w.manifests.Keys
    && (forall id :: id in w.manifests ==>
          p.world.manifests[id] == if id in done then FateManifest(w, id, now) else w.manifests[id])
    && (forall id :: id in w.manifests && id !in done ==> (ActiveLease(p.world, id, now) <==> ActiveLease(w, id, now)))
    && (forall id :: id in p.world.runtime && p.world.runtime[id].owner.Some? ==> ActiveLease(w, id, now))
    && Reported(w, p.report, done, now)
  }

  ghost predicate Reported(w: World, report: Report, done: seq<string>, now: int) {
    && |report.updated| + report.same + |report.notFound| + |report.reappeared| == |done|
    && (forall id :: id in report.updated <==> id in done && id in w.manifests && FateOf(w, id, now) == Updated)
    && (forall id :: id in report.reappeared <==> id in done && id in w.manifests && FateOf(w, id, now) == Back)
    && (forall id :: id in report.markedMissing <==> id in done && id in w.manifests && FateOf(w, id, now) == NewlyMissing)
    && (forall id :: id in report.notFound <==>
          id in done && id in w.manifests && (FateOf(w, id, now) == StillMissing || FateOf(w, id, now) == NewlyMissing))
  }

  /** One source, processed from the state in which the pass found it. */
  ghost predicate Meets(w: World, p: Pass, id: string, now: int, q: Pass)
    requires id in w.manifests
  {
    var fate := FateOf(w, id, now);
    && q.world.files == p.world.files && Invariant(q.world)
    && q.world.manifests == p.world.manifests[id := FateManifest(w, id, now)]
    && (q.raised <==> fate == Raises)
    && (forall i :: i != id ==> (i in q.world.runtime <==> i in p.world.runtime))
    && (forall i :: i != id && i in p.world.runtime ==> q.world.runtime[i] == p.world.runtime[i])
    && (id in q.world.runtime && q.world.runtime[id].owner.Some? ==> LeaseOwner(p.world, id).Some?)
    && (fate != Raises ==> q.report == p.report.(
          updated := if fate == Updated then p.report.updated + [id] else p.report.updated,
          reappeared := if fate == Back then p.report.reappeared + [id] else p.report.reappeared,
          markedMissing := if fate == NewlyMissing then p.report.markedMissing + [id] else p.report.markedMissing,
          notFound := if fate == NewlyMissing || fate == StillMissing then p.report.notFound + [id] else p.report.notFound,
          same := if fate == Kept then p.report.same + 1 else p.report.same))
  }

  /** The pass finds the source as it was at the start. */
  ghost predicate Ready(w: World, p: Pass, id: string, now: int) {
    && Invariant(p.world) && !p.raised && p.world.files == w.files && id in w.manifests
    && id in p.world.manifests && p.world.manifests[id] == w.manifests[id]
    && (ActiveLease(p.world, id, now) <==> ActiveLease(w, id, now))
  }

  lemma NotThereMeetsFate(w: World, p: Pass, id: string, now: int)
    requires Ready(w, p, id, now) && Resolve(w.files, id, w.manifests[id]).NotFound?
    ensures Meets(w, p, id, now, NotThere(p, id, w.manifests[id].state != Missing, now))
  {
    hide Invariant;
    ObserveKeeps(p.world, id, now);
    assert p.world.manifests[id := w.manifests[id]] == p.world.manifests;
  }

  lemma BackMeetsFate(w: World, p: Pass, id: string, now: int)
    requires Ready(w, p, id, now) && Found(Resolve(w.files, id, w.manifests[id])) && w.manifests[id].state == Missing
    ensures Meets(w, p, id, now, Reappeared(p, id, now))
  {
    var r := Resolve(w.files, id, w.manifests[id]);
    SyncManifestRaisesExactlyWhen(p.world, id, r.path);
    if SyncManifest(p.world, id, r.path).Some? {
      SyncManifestKeeps(p.world, id, r.path);
    }
    assert p.world.manifests[id := w.manifests[id]] == p.world.manifests;
  }

  lemma RepairMeetsFate(w: World, p: Pass, id: string, now: int)
    requires Ready(w, p, id, now) && Found(Resolve(w.files, id, w.manifests[id])) && w.manifests[id].state != Missing
    ensures Meets(w, p, id, now, Repaired(p, id, now))
  {
    var r := Resolve(w.files, id, w.manifests[id]);
    SyncManifestRaisesExactlyWhen(p.world, id, r.path);
    if SyncManifest(p.world, id, r.path).Some? {
      SyncManifestKeeps(p.world, id, r.path);
    }
    assert p.world.manifests[id := w.manifests[id]] == p.world.manifests;
  }

  lemma SourceMeetsFate(w: World, p: Pass, id: string, now: int)
    requires Ready(w, p, id, now)
    ensures Meets(w, p, id, now, ReconcileSource(p, id, w.manifests[id], now))
  {
    hide Reappeared, Repaired, NotThere;
    var m := w.manifests[id];
    var r := Resolve(w.files, id, m);
    if r.Unmaterialized? {
      assert p.world.manifests[id := m] == p.world.manifests;
    } else if !Found(r) {
      NotThereMeetsFate(w, p, id, now);
    } else if m.state == Missing {
      BackMeetsFate(w, p, id, now);
    } else {
      RepairMeetsFate(w, p, id, now);
    }
  }

  lemma ProgressStep(w: World, p: Pass, done: seq<string>, id: string, now: int)
    requires Progress(w, p, done, now) && id in w.manifests && id !in done
    ensures
      var q := ReconcileSource(p, id, w.manifests[id], now);
      && Invariant(q.world) && q.world.manifests.Keys == w.manifests.Keys
      && (q.raised <==> FateOf(w, id, now) == Raises)
      && (!q.raised ==> Progress(w, q, done + [id], now))
  {
    hide ReconcileSource, FateOf, FateManifest, Invariant, Reported;
    SourceMeetsFate(w, p, id, now);
    var q := ReconcileSource(p, id, w.manifests[id], now);
    if !q.raised {
      ReportedStep(w, p, q, done, id, now);
      WorldStep(w, p, q, done, id, now);
    }
  }

  lemma WorldStep(w: World, p: Pass, q: Pass, done: seq<string>, id: string, now: int)
    requires Progress(w, p, done, now) && id in w.manifests && id !in done && Meets(w, p, id, now, q) && !q.raised
    requires Reported(w, q.report, done + [id], now)
    ensures Progress(w, q, done + [id], now)
  {
    hide FateOf, FateManifest, Invariant, Reported;
    forall i | i in w.manifests && i !in done + [id] ensures ActiveLease(q.world, i, now) <==> ActiveLease(w, i, now) {
      assert i != id;
    }
    forall i | i in q.world.runtime && q.world.runtime[i].owner.Some? ensures ActiveLease(w, i, now) {
      assert LeaseOwner(p.world, i).Some?;
    }
  }

  lemma ReportedStep(w: World, p: Pass, q: Pass, done: seq<string>, id: string, now: int)
    requires Reported(w, p.report, done, now) && id in w.manifests && id !in done
    requires Meets(w, p, id, now, q) && !q.raised
    ensures Reported(w, q.report, done + [id], now)
  {
    hide FateOf, FateManifest, Invariant;
    var fate := FateOf(w, id, now);
    assert fate != Raises;
    assert fate == Kept || fate == Updated || fate == Back || fate == StillMissing || fate == NewlyMissing;
  }

  ghost predicate RaisesFrom(w: World, order: seq<string>, k: nat, now: int)
    requires forall id :: id in order ==> id in w.manifests
  {
    exists i :: k <= i < |order| && FateOf(w, order[i], now) == Raises
  }

  lemma RaisesFromHere(w: World, order: seq<string>, k: nat, now: int)
    requires (forall id :: id in order ==> id in w.manifests) && k <= |order|
    ensures RaisesFrom(w, order, k, now) <==>
      k < |order| && (FateOf(w, order[k], now) == Raises || RaisesFrom(w, order, k + 1, now))
  {
    hide FateOf;
  }

  lemma {:induction false} EachFollowsFates(w: World, p: Pass, order: seq<string>, k: nat, now: int)
    requires Lists(order, w.manifests) && k <= |order| && Progress(w, p, order[..k], now)
    ensures
      var q := ReconcileEach(p, w.manifests, order[k..], now);
      && Invariant(q.world) && q.world.manifests.Keys == w.manifests.Keys
      && (q.raised <==> RaisesFrom(w, order, k, now))
      && (!q.raised ==> Progress(w, q, order, now))
    decreases |order| - k
  {
    hide ReconcileSource, FateOf, FateManifest, Progress, Invariant, Resolve, RaisesFrom;
    RaisesFromHere(w, order, k, now);
    ProgressHas(w, p, order[..k], now);
    if k == |order| {
      assert order[..k] == order;
    } else {
      var id := order[k];
      var next := ReconcileSource(p, id, w.manifests[id], now);
      assert id !in order[..k];
      ProgressStep(w, p, order[..k], id, now);
      assert order[..k + 1] == order[..k] + [id];
      assert order[k..][1..] == order[k + 1..];
      if !next.raised {
        EachFollowsFates(w, next, order, k + 1, now);
      }
    }
  }

  lemma ProgressHas(w: World, p: Pass, done: seq<string>, now: int)
    requires Progress(w, p, done, now)
    ensures Invariant(p.world) && !p.raised && p.world.manifests.Keys == w.manifests.Keys
  {
  }

  /** Revalidating the rows changes no fate. */
  lemma RevalidationKeepsFates(w: World, id: string, now: int)
    requires id in w.manifests
    ensures FateOf(RevalidateRows(w, now), id, now) == FateOf(w, id, now)
    ensures FateManifest(RevalidateRows(w, now), id, now) == FateManifest(w, id, now)
  {
    assert ActiveLease(RevalidateRows(w, now), id, now) <==> ActiveLease(w, id, now);
  }

  lemma StartsInProgress(w: World, now: int)
    requires Invariant(w)
    ensures Progress(RevalidateRows(w, now), Pass(RevalidateRows(w, now), NOTHING, false), [], now)
  {
  }

  /** The outcome of a whole pass: it raises exactly when some unleased source is back without hashes;
      otherwise every manifest meets its fate and is reported once. */
  lemma PassFollowsFates(w: World, order: seq<string>, now: int)
    requires Invariant(w) && Lists(order, w.manifests)
    ensures
      var p := ReconcileAll(w, order, now);
      && Invariant(p.world) && p.world.manifests.Keys == w.manifests.Keys
      && (p.raised <==> exists i :: 0 <= i < |order| && FateOf(w, order[i], now) == Raises)
      && (!p.raised ==> Progress(RevalidateRows(w, now), p, order, now))
  {
    hide ReconcileSource, FateOf, FateManifest;
    var w1 := RevalidateRows(w, now);
    StartsInProgress(w, now);
    assert order[..0] == [] && order[0..] == order;
    EachFollowsFates(w1, Pass(w1, NOTHING, false), order, 0, now);
    forall i | 0 <= i < |order| ensures FateOf(w1, order[i], now) == FateOf(w, order[i], now) {
      RevalidationKeepsFates(w, order[i], now);
    }
    PruneKeepsPolling(w1, ReconcileEach(Pass(w1, NOTHING, false), w1.manifests, order, now), order, now);
  }

  lemma PruneKeepsPolling(w: World, p: Pass, order: seq<string>, now: int)
    requires !p.raised ==> Progress(w, p, order, now)
    ensures !p.raised ==> p.(world := p.world.(polling := p.world.polling * w.manifests.Keys)) == p
  {
    if !p.raised {
      assert p.world.polling * w.manifests.Keys == p.world.polling;
    }
  }

  /** Every manifest is accounted for exactly once. */
  lemma EveryManifestAccountedFor(w: World, order: seq<string>, now: int)
    requires Invariant(w) && Lists(order, w.manifests) && !ReconcileAll(w, order, now).raised
    ensures
      var r := ReconcileAll(w, order, now).report;
      && |r.updated| + r.same + |r.notFound| + |r.reappeared| == |w.manifests|
      && forall id :: id in r.markedMissing ==> id in r.notFound
  {
    PassFollowsFates(w, order, now);
    DistinctSize(order, w.manifests.Keys);
  }

  lemma {:induction false} DistinctSize(s: seq<string>, keys: set<string>)
    requires Distinct(s) && forall x :: x in s <==> x in keys
    ensures |s| == |keys|
  {
    if s == [] {
      assert keys == {};
    } else {
      var front, last := s[..|s| - 1], s[|s| - 1];
      assert s == front + [last] && last !in front;
      DistinctSize(front, keys - {last});
    }
  }

  /** No lease is active. */
  ghost predicate NoLease(w: World, now: int) {
    forall id :: id in w.runtime ==> !Active(w.runtime[id], now)
  }

  /** A missing source whose file is back has its hashes. */
  ghost predicate HashesWhenBack(w: World) {
    forall id :: id in w.manifests && w.manifests[id].state == Missing && Found(Resolve(w.files, id, w.manifests[id])) ==>
      HashesSet(w.manifests[id])
  }

  /** What a second pass finds of a source that met its fate. */
  lemma FateIsFinal(w: World, w2: World, id: string, now: int, later: int)
    requires id in w.manifests && id in w2.manifests && ValidFiles(w.files) && w2.files == w.files
    requires !ActiveLease(w, id, now) && !ActiveLease(w2, id, later)
    requires FateOf(w, id, now) != Raises && w2.manifests[id] == FateManifest(w, id, now)
    ensures FateOf(w2, id, later) == Kept || FateOf(w2, id, later) == StillMissing
    ensures FateManifest(w2, id, later) == w2.manifests[id]
  {
    var m := w.manifests[id];
    var r := Resolve(w.files, id, m);
    if Found(r) {
      RepairedIsDirect(w.files, id, m);
    }
  }

  lemma NoLeaseNoRaise(w: World, order: seq<string>, now: int)
    requires Invariant(w) && Lists(order, w.manifests) && HashesWhenBack(w)
    ensures !ReconcileAll(w, order, now).raised
  {
    PassFollowsFates(w, order, now);
  }

  /** Reconcile is idempotent: with the same files, no active lease and hashes where needed, a second
      pass changes no manifest and reports nothing updated, reappeared or newly missing. */
  lemma SecondPassChangesNothing(w: World, order: seq<string>, again: seq<string>, now: int, later: int)
    requires Invariant(w) && Lists(order, w.manifests) && Lists(again, w.manifests)
    requires NoLease(w, now) && HashesWhenBack(w)
    ensures
      var first := ReconcileAll(w, order, now);
      first.world.manifests.Keys == w.manifests.Keys
    ensures
      var first := ReconcileAll(w, order, now);
      var second := ReconcileAll(first.world, again, later);
      && !first.raised && !second.raised
      && second.world.manifests == first.world.manifests
      && second.report.updated == [] && second.report.reappeared == [] && second.report.markedMissing == []
  {
    hide ReconcileAll, FateOf, FateManifest, RevalidateRows;
    NoLeaseNoRaise(w, order, now);
    PassFollowsFates(w, order, now);
    var w2 := ReconcileAll(w, order, now).world;
    FirstPassFacts(w, order, now);
    forall id | id in w2.manifests ensures
      && (FateOf(w2, id, later) == Kept || FateOf(w2, id, later) == StillMissing)
      && FateManifest(w2, id, later) == w2.manifests[id]
    {
      FateIsFinal(w, w2, id, now, later);
    }
    PassFollowsFates(w2, again, later);
    SecondPassFacts(w2, again, later);
  }

  lemma FirstPassFacts(w: World, order: seq<string>, now: int)
    requires Invariant(w) && Lists(order, w.manifests) && NoLease(w, now) && !ReconcileAll(w, order, now).raised
    ensures
      var w2 := ReconcileAll(w, order, now).world;
      && w2.files == w.files && w2.manifests.Keys == w.manifests.Keys
      && (forall id :: id in w.manifests ==> w2.manifests[id] == FateManifest(w, id, now) && FateOf(w, id, now) != Raises)
      && (forall id, t :: !ActiveLease(w2, id, t))
      && (forall id :: !ActiveLease(w, id, now))
  {
    hide ReconcileAll, FateOf, FateManifest;
    PassFollowsFates(w, order, now);
    var w1 := RevalidateRows(w, now);
    var w2 := ReconcileAll(w, order, now).world;
    forall id ensures !ActiveLease(w1, id, now) {
    }
    forall id | id in w.manifests ensures w2.manifests[id] == FateManifest(w, id, now) && FateOf(w, id, now) != Raises {
      RevalidationKeepsFates(w, id, now);
      assert id in order;
      var i :| 0 <= i < |order| && order[i] == id;
    }
  }

  lemma SecondPassFacts(w: World, order: seq<string>, now: int)
    requires Invariant(w) && Lists(order, w.manifests)
    requires forall id :: id in w.manifests ==>
      && (FateOf(w, id, now) == Kept || FateOf(w, id, now) == StillMissing)
      && FateManifest(w, id, now) == w.manifests[id]
    ensures
      var p := ReconcileAll(w, order, now);
      && !p.raised && p.world.manifests == w.manifests
      && p.report.updated == [] && p.report.reappeared == [] && p.report.markedMissing == []
  {
    hide ReconcileAll, FateOf, FateManifest;
    PassFollowsFates(w, order, now);
    var p := ReconcileAll(w, order, now);
    forall id | id in w.manifests ensures
      && FateOf(RevalidateRows(w, now), id, now) == FateOf(w, id, now)
      && FateManifest(RevalidateRows(w, now), id, now) == w.manifests[id]
    {
      RevalidationKeepsFates(w, id, now);
    }
    NoMembers(p.report.updated);
    NoMembers(p.report.reappeared);
    NoMembers(p.report.markedMissing);
  }

  lemma NoMembers(s: seq<string>)
    ensures s == [] <==> forall x :: x !in s
  {
    if s != [] {
      assert s[0] in s;
    }
  }
}
