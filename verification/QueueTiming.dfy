/** The regeneration queue's timing as a trace of timed events: debounce, cooldown, the sliding
    one-hour window and the bounded retries. Class RegenQueue produces such traces. */
module QueueTiming {
  import opened Basics

  datatype PendingRegen = PendingRegen(fireAt: int, retryCount: nat)

  /** Seconds throughout. */
  datatype Config = Config(debounce: nat, cooldown: nat, maxPerHour: nat)

  const HOUR: nat := 3600
  const MAX_RETRIES: nat := 3

  function Backoff(retry: nat): nat {
    if retry == 0 then 30 else if retry == 1 then 60 else 120
  }

  datatype Queue = Queue(
    pending: map<string, PendingRegen>, retryCounts: map<string, nat>,
    lastRegen: map<string, int>, regenTimes: seq<int>)

  /** Popped covers one pop_ready call: `from` is its first clock reading, `to` its last. Completed
      carries the two readings taken for the cooldown and for the window. Skipped is a folder whose
      ownership another session held. */
  datatype Event =
    | Enqueued(path: string, at: int)
    | Pruned(at: int)
    | Popped(ready: set<string>, from: int, to: int)
    | Completed(path: string, at: int, counted: int)
    | FailedAt(path: string, at: int)
    | Skipped(path: string)

  // ---------- the queue's state ----------

  /** The popleft loop: drop leading entries that are an hour old. */
  function DropExpired(times: seq<int>, cutoff: int): seq<int> {
    if times != [] && times[0] <= cutoff then DropExpired(times[1..], cutoff) else times
  }

  function RetryOf(q: Queue, p: string): nat {
    if p in q.retryCounts then q.retryCounts[p] else 0
  }

  function Apply(cfg: Config, q: Queue, e: Event): Queue {
    match e
    case Enqueued(p, at) =>
      var retry := if p in q.pending then q.pending[p].retryCount else 0;
      Queue(q.pending[p := PendingRegen(at + cfg.debounce, retry)], q.retryCounts, q.lastRegen, q.regenTimes)
    case Pruned(at) => Queue(q.pending, q.retryCounts, q.lastRegen, DropExpired(q.regenTimes, at - HOUR))
    case Popped(ready, _, _) =>
      Queue(q.pending - ready, Remembered(q.pending, q.retryCounts, ready), q.lastRegen, q.regenTimes)
    case Completed(p, at, counted) =>
      Queue(q.pending, q.retryCounts - {p}, q.lastRegen[p := at], q.regenTimes + [counted])
    case FailedAt(p, at) =>
      var retry := RetryOf(q, p);
      if retry < MAX_RETRIES
      then Queue(q.pending[p := PendingRegen(at + Backoff(retry), retry + 1)], q.retryCounts, q.lastRegen, q.regenTimes)
      else q
    case Skipped(_) => q
  }

  /** Popping remembers each path's retry count until the attempt is decided. */
  function Remembered(pending: map<string, PendingRegen>, counts: map<string, nat>, ready: set<string>): map<string, nat> {
    counts + map p | p in ready && p in pending :: pending[p].retryCount
  }

  const EMPTY := Queue(map[], map[], map[], [])

  function Replay(cfg: Config, tr: seq<Event>): Queue {
    if tr == [] then EMPTY else Apply(cfg, Replay(cfg, tr[..|tr| - 1]), tr[|tr| - 1])
  }

  // ---------- which events can happen ----------

  function Live(times: seq<int>, cutoff: int): nat {
    if times == [] then 0 else Live(times[..|times| - 1], cutoff) + if times[|times| - 1] > cutoff then 1 else 0
  }

  /** The reading of the clock after the event. */
  function TimeOf(e: Event, time: int): int {
    match e
    case Enqueued(_, at) => at
    case Pruned(at) => at
    case Popped(_, _, to) => to
    case Completed(_, _, counted) => counted
    case FailedAt(_, at) => at
    case Skipped(_) => time
  }

  function Time(tr: seq<Event>): int {
    if tr == [] then 0 else TimeOf(tr[|tr| - 1], Time(tr[..|tr| - 1]))
  }

  /** Paths popped and not decided yet: batches run one at a time. */
  function InFlight(tr: seq<Event>): set<string> {
    if tr == [] then {}
    else
      var before := InFlight(tr[..|tr| - 1]);
      match tr[|tr| - 1]
      case Popped(ready, _, _) => ready
      case Completed(p, _, _) => before - {p}
      case FailedAt(p, _) => before - {p}
      case Skipped(p) => before - {p}
      case _ => before
  }

  predicate Cooled(cfg: Config, q: Queue, p: string, now: int) {
    p in q.lastRegen ==> now - q.lastRegen[p] >= cfg.cooldown
  }

  /** pop_ready takes only paths whose timer has fired and that are off cooldown, and only when some
      reading of the clock during the call found fewer than maxPerHour entries in the window. */
  predicate MayPop(cfg: Config, q: Queue, ready: set<string>, from: int, to: int) {
    && from <= to
    && (forall p :: p in ready ==> p in q.pending && q.pending[p].fireAt <= from && Cooled(cfg, q, p, to))
    && (ready != {} ==> Live(q.regenTimes, to - HOUR) < cfg.maxPerHour)
  }

  predicate Enabled(cfg: Config, q: Queue, inFlight: set<string>, time: int, e: Event) {
    match e
    case Enqueued(_, at) => time <= at
    case Pruned(at) => time <= at
    case Popped(ready, from, to) => time <= to && inFlight == {} && MayPop(cfg, q, ready, from, to)
    case Completed(p, at, counted) => time <= at <= counted && p in inFlight
    case FailedAt(p, at) => time <= at && p in inFlight
    case Skipped(p) => p in inFlight
  }

  predicate Valid(cfg: Config, tr: seq<Event>) {
    tr == [] ||
      var front := tr[..|tr| - 1];
      Valid(cfg, front) && Enabled(cfg, Replay(cfg, front), InFlight(front), Time(front), tr[|tr| - 1])
  }

  lemma Extend(cfg: Config, tr: seq<Event>, e: Event)
    requires Valid(cfg, tr) && Enabled(cfg, Replay(cfg, tr), InFlight(tr), Time(tr), e)
    ensures Valid(cfg, tr + [e])
    ensures Replay(cfg, tr + [e]) == Apply(cfg, Replay(cfg, tr), e)
    ensures Time(tr + [e]) == TimeOf(e, Time(tr))
    ensures InFlight(tr + [e]) ==
      match e
      case Popped(ready, _, _) => ready
      case Completed(p, _, _) => InFlight(tr) - {p}
      case FailedAt(p, _) => InFlight(tr) - {p}
      case Skipped(p) => InFlight(tr) - {p}
      case _ => InFlight(tr)
  {
    assert (tr + [e])[..|tr + [e]| - 1] == tr;
  }

  // ---------- the sliding window ----------

  /** When each completion was counted, oldest first. */
  function Completions(tr: seq<Event>): seq<int> {
    if tr == [] then []
    else
      var before := Completions(tr[..|tr| - 1]);
      match tr[|tr| - 1]
      case Completed(_, _, counted) => before + [counted]
      case _ => before
  }

  lemma {:induction false} DropExpiredIsSuffix(times: seq<int>, cutoff: int) returns (k: nat)
    ensures k <= |times| && DropExpired(times, cutoff) == times[k..]
    ensures forall i :: 0 <= i < k ==> times[i] <= cutoff
    ensures k < |times| ==> times[k] > cutoff
  {
    if times != [] && times[0] <= cutoff {
      var rest := DropExpiredIsSuffix(times[1..], cutoff);
      k := rest + 1;
      assert times[1..][rest..] == times[k..];
      forall i | 0 <= i < k ensures times[i] <= cutoff {
        if i > 0 {
          assert times[i] == times[1..][i - 1];
        }
      }
    } else {
      k := 0;
    }
  }

  ghost predicate InOrder(all: seq<int>, time: int) {
    && (forall i :: 0 <= i < |all| ==> all[i] <= time)
    && (forall i, j :: 0 <= i < j < |all| ==> all[i] <= all[j])
  }

  /** The first k entries are gone, and each of them was an hour old. */
  ghost predicate DroppedTo(all: seq<int>, kept: seq<int>, k: nat, time: int) {
    k <= |all| && kept == all[k..] && forall i :: 0 <= i < k ==> all[i] <= time - HOUR
  }

  /** The deque is what is left of all completions after dropping expired ones. */
  ghost predicate WindowOf(all: seq<int>, kept: seq<int>, time: int) {
    InOrder(all, time) && exists k: nat :: DroppedTo(all, kept, k, time)
  }

  lemma WindowAfterPrune(all: seq<int>, kept: seq<int>, time: int, now: int)
    requires WindowOf(all, kept, time) && time <= now
    ensures WindowOf(all, DropExpired(kept, now - HOUR), now)
  {
    hide DropExpired;
    var k: nat :| DroppedTo(all, kept, k, time);
    var d := DropExpiredIsSuffix(kept, now - HOUR);
    assert kept[d..] == all[k + d..];
    forall i | 0 <= i < k + d ensures all[i] <= now - HOUR {
      if i >= k {
        assert all[i] == kept[i - k];
      }
    }
    assert DroppedTo(all, kept[d..], k + d, now);
  }

  lemma WindowLater(all: seq<int>, kept: seq<int>, time: int, now: int)
    requires WindowOf(all, kept, time) && time <= now
    ensures WindowOf(all, kept, now)
  {
    var k: nat :| DroppedTo(all, kept, k, time);
    assert DroppedTo(all, kept, k, now);
  }

  lemma WindowAfterCompletion(all: seq<int>, kept: seq<int>, time: int, now: int)
    requires WindowOf(all, kept, time) && time <= now
    ensures WindowOf(all + [now], kept + [now], now)
  {
    var k: nat :| DroppedTo(all, kept, k, time);
    assert (all + [now])[k..] == kept + [now];
    assert DroppedTo(all + [now], kept + [now], k, now);
  }

  lemma {:induction false} TimeAdvances(cfg: Config, tr: seq<Event>)
    requires Valid(cfg, tr)
    ensures WindowOf(Completions(tr), Replay(cfg, tr).regenTimes, Time(tr))
  {
    if tr == [] {
      var none: seq<int> := [];
      assert DroppedTo(none, none, 0, 0);
    } else {
      var front, e := tr[..|tr| - 1], tr[|tr| - 1];
      TimeAdvances(cfg, front);
      var all, kept := Completions(front), Replay(cfg, front).regenTimes;
      match e
      case Pruned(at) => WindowAfterPrune(all, kept, Time(front), at);
      case Completed(_, _, counted) => WindowAfterCompletion(all, kept, Time(front), counted);
      case _ => WindowLater(all, kept, Time(front), Time(tr));
    }
  }

  lemma {:induction false} LiveOfSuffix(all: seq<int>, k: nat, cutoff: int)
    requires k <= |all|
    requires forall i :: 0 <= i < k ==> all[i] <= cutoff
    ensures Live(all[k..], cutoff) == Live(all, cutoff)
    decreases |all|
  {
    if k < |all| {
      var front := all[..|all| - 1];
      assert all[k..][..|all[k..]| - 1] == front[k..];
      LiveOfSuffix(front, k, cutoff);
    } else {
      LiveNone(all, cutoff);
    }
  }

  lemma {:induction false} LiveNone(times: seq<int>, cutoff: int)
    requires forall i :: 0 <= i < |times| ==> times[i] <= cutoff
    ensures Live(times, cutoff) == 0
  {
    if times != [] {
      LiveNone(times[..|times| - 1], cutoff);
    }
  }

  lemma {:induction false} LiveAll(times: seq<int>, cutoff: int)
    requires forall i :: 0 <= i < |times| ==> times[i] > cutoff
    ensures Live(times, cutoff) == |times|
  {
    if times != [] {
      LiveAll(times[..|times| - 1], cutoff);
    }
  }

  lemma {:induction false} LiveCounts(times: seq<int>, cutoff: int)
    ensures Live(times, cutoff) == |set i | 0 <= i < |times| && times[i] > cutoff|
  {
    if times != [] {
      var n := |times| - 1;
      LiveCounts(times[..n], cutoff);
      var before := set i | 0 <= i < n && times[..n][i] > cutoff;
      assert (set i | 0 <= i < |times| && times[i] > cutoff) == before + (if times[n] > cutoff then {n} else {});
    }
  }

  /** When the last run of p was over. */
  function LastRun(tr: seq<Event>, p: string): Option<int> {
    if tr == [] then None
    else
      match tr[|tr| - 1]
      case Completed(q, at, _) => if q == p then Some(at) else LastRun(tr[..|tr| - 1], p)
      case _ => LastRun(tr[..|tr| - 1], p)
  }

  lemma {:induction false} LastRunIsRemembered(cfg: Config, tr: seq<Event>, p: string)
    ensures
      var known := Replay(cfg, tr).lastRegen;
      LastRun(tr, p) == if p in known then Some(known[p]) else None
  {
    if tr != [] {
      LastRunIsRemembered(cfg, tr[..|tr| - 1], p);
    }
  }

  /** However the deque was pruned on the way, pruning it now leaves exactly the completions of the
      last hour. */
  lemma PrunedLengthCountsTheLastHour(cfg: Config, tr: seq<Event>, now: int)
    requires Valid(cfg, tr) && Time(tr) <= now
    ensures |DropExpired(Replay(cfg, tr).regenTimes, now - HOUR)| == Live(Completions(tr), now - HOUR)
    ensures Live(Replay(cfg, tr).regenTimes, now - HOUR) == Live(Completions(tr), now - HOUR)
  {
    hide Valid, Replay, Completions;
    TimeAdvances(cfg, tr);
    WindowCount(Completions(tr), Replay(cfg, tr).regenTimes, Time(tr), now);
  }

  lemma WindowCount(all: seq<int>, kept: seq<int>, time: int, now: int)
    requires WindowOf(all, kept, time) && time <= now
    ensures |DropExpired(kept, now - HOUR)| == Live(all, now - HOUR)
    ensures Live(kept, now - HOUR) == Live(all, now - HOUR)
  {
    hide Live, DropExpired;
    var k: nat :| DroppedTo(all, kept, k, time);
    LiveOfSuffix(all, k, now - HOUR);
    forall i, j | 0 <= i < j < |kept| ensures kept[i] <= kept[j] {
      assert kept[i] == all[k + i] && kept[j] == all[k + j];
    }
    OrderedLive(kept, now - HOUR);
  }

  lemma OrderedLive(times: seq<int>, cutoff: int)
    requires forall i, j :: 0 <= i < j < |times| ==> times[i] <= times[j]
    ensures |DropExpired(times, cutoff)| == Live(times, cutoff)
  {
    var d := DropExpiredIsSuffix(times, cutoff);
    LiveOfSuffix(times, d, cutoff);
    LiveAll(times[d..], cutoff);
  }

  // ---------- cooldown and debounce ----------

  /** The clock reading of p's latest completion. */
  function LastCompletion(tr: seq<Event>, p: string): Option<int> {
    if tr == [] then None
    else
      match tr[|tr| - 1]
      case Completed(q, at, _) => if q == p then Some(at) else LastCompletion(tr[..|tr| - 1], p)
      case _ => LastCompletion(tr[..|tr| - 1], p)
  }

  lemma {:induction false} LastRegenIsLastCompletion(cfg: Config, tr: seq<Event>, p: string)
    ensures var q := Replay(cfg, tr);
      LastCompletion(tr, p) == if p in q.lastRegen then Some(q.lastRegen[p]) else None
  {
    if tr != [] {
      LastRegenIsLastCompletion(cfg, tr[..|tr| - 1], p);
    }
  }

  /** A pop hands out work only below the hourly cap and past each path's cooldown. */
  lemma PopsRespectCapAndCooldown(cfg: Config, tr: seq<Event>, ready: set<string>, from: int, to: int, p: string)
    requires Valid(cfg, tr + [Popped(ready, from, to)]) && p in ready
    ensures Live(Completions(tr), to - HOUR) < cfg.maxPerHour
    ensures LastCompletion(tr, p).Some? ==> to - LastCompletion(tr, p).value >= cfg.cooldown
  {
    var longer := tr + [Popped(ready, from, to)];
    assert longer[..|longer| - 1] == tr;
    PrunedLengthCountsTheLastHour(cfg, tr, to);
    LastRegenIsLastCompletion(cfg, tr, p);
  }

  /** When p was last enqueued. */
  function LastEnqueue(tr: seq<Event>, p: string): Option<int> {
    if tr == [] then None
    else
      match tr[|tr| - 1]
      case Enqueued(q, at) => if q == p then Some(at) else LastEnqueue(tr[..|tr| - 1], p)
      case _ => LastEnqueue(tr[..|tr| - 1], p)
  }

  lemma {:induction false} EnqueuesAreEarlier(cfg: Config, tr: seq<Event>, p: string)
    requires Valid(cfg, tr)
    ensures LastEnqueue(tr, p).Some? ==> LastEnqueue(tr, p).value <= Time(tr)
  {
    if tr != [] {
      EnqueuesAreEarlier(cfg, tr[..|tr| - 1], p);
    }
  }

  /** Timers never fire before the shorter of the debounce and the first backoff. */
  lemma {:induction false} FireAfterEnqueue(cfg: Config, tr: seq<Event>, p: string)
    requires Valid(cfg, tr) && cfg.debounce <= 30
    ensures p in Replay(cfg, tr).pending && LastEnqueue(tr, p).Some? ==>
      Replay(cfg, tr).pending[p].fireAt >= LastEnqueue(tr, p).value + cfg.debounce
  {
    if tr != [] {
      FireAfterEnqueue(cfg, tr[..|tr| - 1], p);
      EnqueuesAreEarlier(cfg, tr[..|tr| - 1], p);
    }
  }

  /** With a debounce of at most 30 seconds nothing is popped within the debounce window of its
      latest enqueue, retries included. */
  lemma DebounceHolds(cfg: Config, tr: seq<Event>, ready: set<string>, from: int, to: int, p: string)
    requires Valid(cfg, tr + [Popped(ready, from, to)]) && p in ready
    requires cfg.debounce <= 30 && LastEnqueue(tr, p).Some?
    ensures from >= LastEnqueue(tr, p).value + cfg.debounce
  {
    var longer := tr + [Popped(ready, from, to)];
    assert longer[..|longer| - 1] == tr;
    FireAfterEnqueue(cfg, tr, p);
  }

  /** The run behind DebounceCanBreak: p is enqueued again while its attempt is running, then fails. */
  function EarlyRetry(cfg: Config, p: string): seq<Event> {
    var d := cfg.debounce;
    [Enqueued(p, 0), Popped({p}, d, d), Enqueued(p, d), FailedAt(p, d), Popped({p}, d + 30, d + 30)]
  }

  /** For every longer debounce the window can be broken: the first retry fires after 30 seconds. */
  lemma DebounceCanBreak(cfg: Config, p: string)
    requires cfg.debounce > 30 && cfg.maxPerHour > 0
    ensures Valid(cfg, EarlyRetry(cfg, p))
    ensures LastEnqueue(EarlyRetry(cfg, p)[..4], p) == Some(cfg.debounce as int)
    ensures EarlyRetry(cfg, p)[4].from < cfg.debounce + cfg.debounce
  {
    hide Replay, Valid, Time, InFlight, LastEnqueue;
    var d := cfg.debounce;
    var e0, e1, e2, e3, e4 := Enqueued(p, 0), Popped({p}, d, d), Enqueued(p, d), FailedAt(p, d), Popped({p}, d + 30, d + 30);
    NothingHappened(cfg);
    Extend(cfg, [], e0);
    var q1 := Apply(cfg, EMPTY, e0);
    assert [] + [e0] == [e0];
    Extend(cfg, [e0], e1);
    var q2 := Apply(cfg, q1, e1);
    assert [e0] + [e1] == [e0, e1];
    assert q2.retryCounts[p] == 0;
    Extend(cfg, [e0, e1], e2);
    assert [e0, e1] + [e2] == [e0, e1, e2];
    var q3 := Apply(cfg, q2, e2);
    Extend(cfg, [e0, e1, e2], e3);
    assert [e0, e1, e2] + [e3] == [e0, e1, e2, e3];
    var q4 := Apply(cfg, q3, e3);
    assert q4.pending[p] == PendingRegen(d + 30, 1);
    Extend(cfg, [e0, e1, e2, e3], e4);
    assert [e0, e1, e2, e3] + [e4] == EarlyRetry(cfg, p);
    assert EarlyRetry(cfg, p)[..4] == [e0, e1, e2, e3];
    EnqueuedThird(e0, e1, e2, e3, p);
  }

  lemma NothingHappened(cfg: Config)
    ensures Valid(cfg, []) && Replay(cfg, []) == EMPTY && Time([]) == 0 && InFlight([]) == {}
  {
  }

  lemma EnqueuedThird(e0: Event, e1: Event, e2: Event, e3: Event, p: string)
    requires e2.Enqueued? && e2.path == p && e3.FailedAt?
    ensures LastEnqueue([e0, e1, e2, e3], p) == Some(e2.at)
  {
    assert [e0, e1, e2, e3][..3] == [e0, e1, e2];
  }

  // ---------- retries ----------

  /** How often p was popped since it was last enqueued. */
  function PopsSince(tr: seq<Event>, p: string): nat {
    if tr == [] then 0
    else
      var before := PopsSince(tr[..|tr| - 1], p);
      match tr[|tr| - 1]
      case Enqueued(q, _) => if q == p then 0 else before
      case Popped(ready, _, _) => before + if p in ready then 1 else 0
      case _ => before
  }

  /** While p waits, it was popped at most as often as its retry count says; while its attempt runs,
      at most once more. */
  lemma {:induction false} RetriesBoundPops(cfg: Config, tr: seq<Event>, p: string)
    requires Valid(cfg, tr)
    ensures var q := Replay(cfg, tr);
      && (p in q.pending ==> q.pending[p].retryCount <= MAX_RETRIES && PopsSince(tr, p) <= q.pending[p].retryCount)
      && (p in InFlight(tr) ==> p in q.retryCounts && PopsSince(tr, p) <= q.retryCounts[p] + 1)
      && (p in q.retryCounts ==> q.retryCounts[p] <= MAX_RETRIES)
      && PopsSince(tr, p) <= MAX_RETRIES + 1
  {
    if tr != [] {
      var front := tr[..|tr| - 1];
      RetriesBoundPops(cfg, front, p);
    }
  }

  /** How often p was tried since its entry was made: a pop counts one, an enqueue of a path that waits or
      runs keeps the count, and completing, skipping or failing for the fourth time ends it. */
  function Attempts(tr: seq<Event>, p: string): nat {
    if tr == [] then 0
    else
      var before := Attempts(tr[..|tr| - 1], p);
      match tr[|tr| - 1]
      case Popped(ready, _, _) => before + if p in ready then 1 else 0
      case Completed(q, _, _) => if q == p then 0 else before
      case Skipped(q) => if q == p then 0 else before
      case FailedAt(q, _) => if q == p && before == 4 then 0 else before
      case _ => before
  }

  /** The attempts are what the counts say: as many as the entry's count while p waits, one more than the
      remembered count while its attempt runs, and none while it is neither waiting nor running. An entry
      made while an attempt runs starts from none. */
  lemma {:induction false} CountsAreAttempts(cfg: Config, tr: seq<Event>, p: string)
    requires Valid(cfg, tr)
    ensures var q := Replay(cfg, tr);
      && (p in InFlight(tr) ==> p in q.retryCounts && Attempts(tr, p) == q.retryCounts[p] + 1 <= 4)
      && (p in InFlight(tr) && p in q.pending ==> q.pending[p].retryCount == 0)
      && (p !in InFlight(tr) && p in q.pending ==> Attempts(tr, p) == q.pending[p].retryCount <= 3)
      && (p !in InFlight(tr) && p !in q.pending ==> Attempts(tr, p) == 0)
  {
    if tr != [] {
      CountsAreAttempts(cfg, tr[..|tr| - 1], p);
    }
  }

  /** The wait before the next attempt, by the number of attempts that failed. */
  function RetryWait(attempts: nat): nat
    requires 1 <= attempts <= 3
  {
    [30, 60, 120][attempts - 1]
  }

  /** A failed path is tried again, after 30, 60 and 120 seconds, until its fourth attempt failed; then
      nothing is scheduled for it any more. Nothing else changes. */
  lemma FailureIsRetried(cfg: Config, tr: seq<Event>, p: string, at: int)
    requires Valid(cfg, tr + [FailedAt(p, at)])
    ensures
      var q, after := Replay(cfg, tr), Replay(cfg, tr + [FailedAt(p, at)]);
      var n := Attempts(tr, p);
      && 1 <= n <= 4
      && after == q.(pending := after.pending)
      && (n <= 3 ==> after.pending == q.pending[p := PendingRegen(at + RetryWait(n), n)])
      && (n == 4 ==> after.pending == q.pending)
  {
    var longer := tr + [FailedAt(p, at)];
    assert longer[..|longer| - 1] == tr;
    CountsAreAttempts(cfg, tr, p);
  }

  /** An enqueue starts the timer anew and keeps the count of an entry that is waiting already. */
  lemma EnqueueResetsTimer(cfg: Config, tr: seq<Event>, p: string, at: int)
    requires Valid(cfg, tr + [Enqueued(p, at)])
    ensures
      var q, after := Replay(cfg, tr), Replay(cfg, tr + [Enqueued(p, at)]);
      && p in after.pending && after.pending[p].fireAt == at + cfg.debounce
      && (p in q.pending ==> after.pending[p].retryCount == q.pending[p].retryCount)
      && (p !in q.pending ==> after.pending[p].retryCount == 0)
      && (forall o :: o != p ==> (o in after.pending <==> o in q.pending) && (o in q.pending ==> after.pending[o] == q.pending[o]))
      && after == q.(pending := after.pending)
  {
    var longer := tr + [Enqueued(p, at)];
    assert longer[..|longer| - 1] == tr;
  }

  /** A path leaves the queue by being popped, and in no other way. */
  lemma LeavesOnlyByPop(cfg: Config, tr: seq<Event>, e: Event, p: string)
    requires Valid(cfg, tr + [e]) && p in Replay(cfg, tr).pending
    ensures p !in Replay(cfg, tr + [e]).pending <==> e.Popped? && p in e.ready
  {
    assert (tr + [e])[..|tr + [e]| - 1] == tr;
  }

  /** Without new enqueues a path is attempted at most four times, and retry counts stay at most 3. */
  lemma AtMostFourAttempts(cfg: Config, tr: seq<Event>, p: string)
    requires Valid(cfg, tr)
    ensures PopsSince(tr, p) <= 4
    ensures p in Replay(cfg, tr).pending ==> Replay(cfg, tr).pending[p].retryCount <= 3
  {
    RetriesBoundPops(cfg, tr, p);
  }
}
