/** The deadline scheduler: a lazy-deletion heap that refines a plain map from keys to deadlines. */
module Scheduler {
  import opened Basics
  import opened MinHeap

  const MAX_FUTURE_CLAMP: real := 2592000.0

  /** The persisted next check: absent, not a timestamp, or this far in the future. */
  datatype Persisted = Absent | Unparsable | DueIn(delta: real)

  /** Far futures fall back to the interval, the past is now. */
  function PersistedDelay(next: Persisted, interval: Option<int>): (delay: real)
    ensures 0.0 <= delay
    ensures interval.None? || interval.value as real <= MAX_FUTURE_CLAMP ==> delay <= MAX_FUTURE_CLAMP
    ensures next.DueIn? && 0.0 <= next.delta <= MAX_FUTURE_CLAMP ==> delay == next.delta
    ensures !next.DueIn? || next.delta < 0.0 ==> delay == 0.0
    ensures next.DueIn? && next.delta > MAX_FUTURE_CLAMP ==>
      delay == if interval.Some? && interval.value > 0 then interval.value as real else 0.0
  {
    match next
    case Absent => 0.0
    case Unparsable => 0.0
    case DueIn(d) =>
      var delta :=
        if d > MAX_FUTURE_CLAMP then (if interval.Some? then interval.value as real else 0.0) else d;
      if delta < 0.0 then 0.0 else delta
  }

  /** interval ± 20% */
  predicate Jittered(interval: nat, delay: real) {
    interval as real * 0.8 <= delay <= interval as real * 1.2
  }

  class Scheduler {
    var heap: seq<Check>
    var scheduledKeys: set<string>
    var scheduledDeadlines: map<string, real>

    constructor ()
      ensures Valid() && Plan() == map[]
    {
      heap, scheduledKeys, scheduledDeadlines := [], {}, map[];
    }

    /** What a caller sees: every scheduled key with its current deadline. */
    function Plan(): map<string, real>
      reads this
    {
      scheduledDeadlines
    }

    /** Every current deadline is backed by an entry; other entries are stale and may repeat. */
    ghost predicate Valid()
      reads this
    {
      && IsHeap(heap)
      && scheduledKeys == scheduledDeadlines.Keys
      && Backed(scheduledDeadlines, heap)
    }

    predicate IsLive(e: Check)
      reads this
    {
      e.key in scheduledKeys && e.key in scheduledDeadlines && scheduledDeadlines[e.key] == e.due
    }

    method Schedule(key: string, delay: real, now: real)
      requires Valid()
      modifies this
      ensures Valid()
      ensures Plan() == if key in old(Plan()) then old(Plan()) else old(Plan())[key := now + delay]
    {
      hide IsHeap;
      if key in scheduledKeys {
        return;
      }
      var nextCheck := now + delay;
      heap := Push(heap, Check(nextCheck, key));
      scheduledKeys := scheduledKeys + {key};
      scheduledDeadlines := scheduledDeadlines[key := nextCheck];
    }

    method Remove(key: string)
      requires Valid()
      modifies this
      ensures Valid() && Plan() == old(Plan()) - {key}
    {
      hide IsHeap;
      scheduledKeys := scheduledKeys - {key};
      scheduledDeadlines := scheduledDeadlines - {key};
    }

    method ScheduleImmediate(key: string, now: real)
      requires Valid()
      modifies this
      ensures Valid() && Plan() == old(Plan())[key := now]
    {
      hide IsHeap;
      Remove(key);
      Schedule(key, 0.0, now);
    }

    method Reschedule(key: string, interval: nat, delay: real, now: real)
      requires Valid() && Jittered(interval, delay)
      modifies this
      ensures Valid() && Plan() == old(Plan())[key := now + delay]
      ensures now + interval as real * 0.8 <= Plan()[key] <= now + interval as real * 1.2
    {
      hide IsHeap;
      Remove(key);
      Schedule(key, delay, now);
    }

    method ScheduleFromPersisted(key: string, next: Persisted, interval: Option<int>, now: real)
      requires Valid()
      modifies this
      ensures Valid()
      ensures Plan() == if key in old(Plan()) then old(Plan()) else old(Plan())[key := now + PersistedDelay(next, interval)]
    {
      if key in scheduledKeys {
        return;
      }
      if !next.DueIn? {
        Schedule(key, 0.0, now);
        return;
      }
      var delta := next.delta;
      if delta > MAX_FUTURE_CLAMP {
        delta := if interval.Some? && interval.value != 0 then interval.value as real else 0.0;
      }
      if delta < 0.0 {
        delta := 0.0;
      }
      Schedule(key, delta, now);
    }

    /** Exactly the keys whose current deadline has passed, once each, in deadline order. */
    method PopDue(now: real) returns (due: seq<string>)
      requires Valid()
      modifies this
      ensures Valid()
      ensures Distinct(due)
      ensures forall k :: k in due <==> k in old(Plan()) && old(Plan())[k] <= now
      ensures forall i, j :: 0 <= i < j < |due| ==> old(Plan())[due[i]] <= old(Plan())[due[j]]
      ensures Plan() == old(Plan()) - set k | k in due
    {
      hide IsHeap;
      due := [];
      ghost var plan := Plan();
      hide PopState, Backed;
      NothingPopped(plan, heap, now);
      while heap != [] && heap[0].due <= now
        invariant Valid() && PopState(plan, Plan(), due, heap, now)
        decreases |heap|
      {
        RootIsMinimum(heap);
        ghost var before := heap;
        var e;
        e, heap := Pop(heap);
        assert |multiset(heap)| == |heap| && |multiset(before)| == |before|;
        PopKeepsBound(plan, Plan(), due, before, heap, e, now);
        BackedAfter(Plan(), before, heap, e);
        if IsLive(e) {
          PopTakes(plan, Plan(), due, heap, e, now);
          scheduledKeys := scheduledKeys - {e.key};
          scheduledDeadlines := scheduledDeadlines - {e.key};
          due := due + [e.key];
        }
      }
      if heap != [] {
        RootIsMinimum(heap);
      }
      PopDone(plan, Plan(), due, heap, now);
    }

    /** The true minimum, or nothing exactly when nothing is scheduled, whatever stale entries remain. */
    method NextDueIn(now: real) returns (wait: Option<real>)
      requires Valid()
      modifies this`heap
      ensures Valid()
      ensures wait == None <==> Plan() == map[]
      ensures wait == Some(0.0) <==> exists k :: k in Plan() && Plan()[k] <= now
      ensures wait.Some? && wait.value != 0.0 ==>
        && wait.value > 0.0
        && (exists k :: k in Plan() && Plan()[k] == now + wait.value)
        && (forall k :: k in Plan() ==> now + wait.value <= Plan()[k])
    {
      hide IsHeap;
      while heap != []
        invariant Valid()
        decreases |heap|
      {
        var head := heap[0];
        if IsLive(head) {
          RootIsMinimum(heap);
          assert Plan()[head.key] == head.due;
          return Some(if head.due <= now then 0.0 else head.due - now);
        }
        ghost var before := heap;
        var _, rest := Pop(heap);
        assert |multiset(rest)| == |rest| && |multiset(before)| == |before|;
        heap := rest;
      }
      wait := None;
    }
  }

  /** Every current deadline has its entry in the heap. */
  ghost predicate Backed(deadlines: map<string, real>, heap: seq<Check>) {
    forall k :: k in deadlines ==> Check(deadlines[k], k) in multiset(heap)
  }

  /** Dropping an entry leaves all keys backed, but for the key the entry was live for. */
  lemma BackedAfter(deadlines: map<string, real>, before: seq<Check>, after: seq<Check>, e: Check)
    requires Backed(deadlines, before) && multiset(after) == multiset(before) - multiset{e}
    ensures Backed(deadlines - {e.key}, after)
    ensures !(e.key in deadlines && deadlines[e.key] == e.due) ==> Backed(deadlines, after)
  {
  }

  /** What pop_due has done so far: the popped keys were due, in order, before everything still in the heap. */
  ghost predicate PopState(plan: map<string, real>, left: map<string, real>, due: seq<string>, heap: seq<Check>, now: real) {
    && Distinct(due)
    && (forall k :: k in due ==> k in plan && plan[k] <= now)
    && (forall i, j :: 0 <= i < j < |due| ==> plan[due[i]] <= plan[due[j]])
    && left == plan - (set k | k in due)
    && (forall k, e :: k in due && e in heap ==> plan[k] <= e.due)
  }

  lemma NothingPopped(plan: map<string, real>, heap: seq<Check>, now: real)
    ensures PopState(plan, plan, [], heap, now)
  {
  }

  lemma PopDone(plan: map<string, real>, left: map<string, real>, due: seq<string>, heap: seq<Check>, now: real)
    requires PopState(plan, left, due, heap, now) && Backed(left, heap)
    requires forall x :: x in heap ==> x.due > now
    ensures Distinct(due) && left == plan - set k | k in due
    ensures forall k :: k in due <==> k in plan && plan[k] <= now
    ensures forall i, j :: 0 <= i < j < |due| ==> plan[due[i]] <= plan[due[j]]
  {
    forall k | k in plan && k !in due ensures plan[k] > now {
      assert k in left && Check(left[k], k) in heap;
    }
  }

  lemma PopKeepsBound(
    plan: map<string, real>, left: map<string, real>, due: seq<string>, before: seq<Check>, after: seq<Check>, e: Check, now: real)
    requires PopState(plan, left, due, before, now) && multiset(after) == multiset(before) - multiset{e}
    ensures PopState(plan, left, due, after, now)
    ensures forall x :: x in after ==> x in before
    ensures e in before ==> forall k :: k in due ==> plan[k] <= e.due
  {
    forall x | x in after ensures x in before {
      assert x in multiset(after);
    }
  }

  lemma PopTakes(plan: map<string, real>, left: map<string, real>, due: seq<string>, heap: seq<Check>, e: Check, now: real)
    requires PopState(plan, left, due, heap, now) && e.due <= now && e.key in left && left[e.key] == e.due
    requires forall x :: x in heap ==> e.due <= x.due
    requires forall k :: k in due ==> plan[k] <= e.due
    ensures PopState(plan, left - {e.key}, due + [e.key], heap, now)
  {
  }
}
