/** What a reconcile pass does to the polling rows and the runtime rows. */
module ReconcileRows {
  import opened Basics
  import opened Topology
  import opened Manifests
  import opened SourceLeases
  import opened SourceInvariant
  import opened Reconcile

  /** The pass begins with the runtime rows: an unexpired lease keeps its row as it is; without one a row stays
      only for a missing source, loses its lease and keeps its observation times. */
  lemma RevalidationTells(w: World, now: int, id: string)
    ensures
      var after := RevalidateRows(w, now);
      var active := ActiveLease(w, id, now);
      && after.manifests == w.manifests && after.polling == w.polling && after.files == w.files
      && (id in after.runtime <==>
            id in w.runtime && (active || (id in w.manifests && w.manifests[id].state == Missing)))
      && (id in after.runtime && active ==> after.runtime[id] == w.runtime[id])
      && (id in after.runtime && !active ==>
            && after.runtime[id].owner == None && after.runtime[id].expires == None
            && after.runtime[id].first == w.runtime[id].first && after.runtime[id].last == w.runtime[id].last)
  {
  }

  /** Nothing about the source differs between the two worlds. */
  ghost predicate SameAt(a: World, b: World, id: string) {
    && a.files == b.files
    && (id in a.manifests <==> id in b.manifests) && (id in a.manifests ==> a.manifests[id] == b.manifests[id])
    && (id in a.polling <==> id in b.polling)
    && (id in a.runtime <==> id in b.runtime) && (id in a.runtime ==> a.runtime[id] == b.runtime[id])
  }

  /** What becomes of the rows of a source with its fate: one that is back is polled again and forgets its
      observations; one that is not there is no longer polled and observed now, the first time kept. */
  ghost predicate RowsMeet(before: World, after: World, id: string, now: int)
    requires id in before.manifests
  {
    match FateOf(before, id, now)
    case Back => id in after.polling && id !in after.runtime
    case StillMissing => ObservedNow(before, after, id, now)
    case NewlyMissing => ObservedNow(before, after, id, now)
    case Raises => true
    case _ => (id in after.polling <==> id in before.polling) && RowOf(after, id) == RowOf(before, id)
  }

  function RowOf(w: World, id: string): Option<Runtime> {
    if id in w.runtime then Some(w.runtime[id]) else None
  }

  ghost predicate ObservedNow(before: World, after: World, id: string, now: int) {
    && id !in after.polling && id in after.runtime && after.runtime[id].last == Some(now)
    && after.runtime[id].first == (if id in before.runtime && before.runtime[id].first.Some? then before.runtime[id].first else Some(now))
    && after.runtime[id].owner == LeaseOwner(before, id)
  }

  lemma OthersUntouched(p: Pass, id: string, seen: Manifest, now: int, other: string)
    requires other != id
    ensures SameAt(p.world, ReconcileSource(p, id, seen, now).world, other)
  {
    hide Resolve, SyncedTo, Validates;
  }

  lemma OneMeets(p: Pass, id: string, now: int)
    requires id in p.world.manifests && !p.raised
    ensures
      var q := ReconcileSource(p, id, p.world.manifests[id], now);
      !q.raised ==> RowsMeet(p.world, q.world, id, now)
  {
    hide Resolve, SyncedTo, Validates;
  }

  lemma {:induction false} LaterOnesLeaveIt(p: Pass, all: map<string, Manifest>, order: seq<string>, id: string, now: int)
    requires (forall o :: o in order ==> o in all) && id !in order
    ensures SameAt(p.world, ReconcileEach(p, all, order, now).world, id)
    decreases |order|
  {
    hide ReconcileSource;
    if order != [] && !p.raised {
      assert order == [order[0]] + order[1..];
      OthersUntouched(p, order[0], all[order[0]], now, id);
      LaterOnesLeaveIt(ReconcileSource(p, order[0], all[order[0]], now), all, order[1..], id, now);
    }
  }

  lemma {:induction false} NeverUnraised(p: Pass, all: map<string, Manifest>, order: seq<string>, now: int)
    requires (forall o :: o in order ==> o in all) && p.raised
    ensures ReconcileEach(p, all, order, now).raised
  {
  }

  lemma SameMeets(a: World, b: World, c: World, d: World, id: string, now: int)
    requires id in b.manifests && SameAt(a, b, id) && SameAt(c, d, id) && RowsMeet(b, c, id, now)
    ensures id in a.manifests && RowsMeet(a, d, id, now)
  {
    hide Resolve;
    assert ActiveLease(a, id, now) <==> ActiveLease(b, id, now);
    assert FateOf(a, id, now) == FateOf(b, id, now);
  }

  lemma {:induction false} EachMeets(p: Pass, all: map<string, Manifest>, order: seq<string>, id: string, now: int)
    requires (forall o :: o in order ==> o in all) && Distinct(order) && id in order && !p.raised
    requires id in p.world.manifests && p.world.manifests[id] == all[id]
    ensures
      var q := ReconcileEach(p, all, order, now);
      !q.raised ==> RowsMeet(p.world, q.world, id, now)
    decreases |order|
  {
    hide ReconcileSource, RowsMeet;
    var first, rest := order[0], order[1..];
    assert order == [first] + rest;
    var next := ReconcileSource(p, first, all[first], now);
    if next.raised {
      NeverUnraised(next, all, rest, now);
    } else if first == id {
      OneMeets(p, id, now);
      LaterOnesLeaveIt(next, all, rest, id, now);
      SameMeets(p.world, p.world, next.world, ReconcileEach(next, all, rest, now).world, id, now);
    } else {
      OthersUntouched(p, first, all[first], now, id);
      EachMeets(next, all, rest, id, now);
      var q := ReconcileEach(next, all, rest, now);
      if !q.raised {
        SameMeets(p.world, next.world, q.world, q.world, id, now);
      }
    }
  }

  /** A pass that does not raise leaves the rows of every registered source as its fate says, and polls nothing
      that is not registered. */
  lemma RowsFollowFates(w: World, order: seq<string>, id: string, now: int)
    requires Lists(order, w.manifests) && id in w.manifests && !ReconcileAll(w, order, now).raised
    ensures RowsMeet(RevalidateRows(w, now), ReconcileAll(w, order, now).world, id, now)
    ensures ReconcileAll(w, order, now).world.polling <= w.manifests.Keys
  {
    hide ReconcileEach, FateOf;
    var start := Pass(RevalidateRows(w, now), NOTHING, false);
    EachMeets(start, w.manifests, order, id, now);
  }

  /** Polling rows of sources that are not registered go at the end of a pass, which a raise keeps from
      being reached. */
  lemma UnregisteredRowsGo(w: World, order: seq<string>, id: string, now: int)
    requires Lists(order, w.manifests) && id !in w.manifests
    ensures
      var pass := ReconcileAll(w, order, now);
      id in pass.world.polling <==> pass.raised && id in w.polling
  {
    hide ReconcileEach;
    LaterOnesLeaveIt(Pass(RevalidateRows(w, now), NOTHING, false), w.manifests, order, id, now);
  }
}
