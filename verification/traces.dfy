/**
 Runs of the tracker: observations and timer callbacks interleaved as the
 Node.js event loop delivers them.
 */
module Traces {
  import opened Geo
  import opened Tracker
  import opened Hydrate

  /** One thing the event loop runs: an observed attack, or a timer's
      callback. */
  datatype Step =
    | Saw(ip: string, geo: string -> Attributes, now: nat)
    | Fired(timer: Timer)

  function Apply(s: State, st: Step): State {
    match st
    case Saw(ip, geo, now) => Observe(s, ip, geo, now)
    case Fired(t) => Fire(s, t)
  }

  /** The state after running `steps` in order. */
  function Run(s: State, steps: seq<Step>): State
    decreases |steps|
  {
    if |steps| == 0 then s
    else Apply(Run(s, steps[..|steps| - 1]), steps[|steps| - 1])
  }

  /** How many of `steps` are observations. */
  function Observations(steps: seq<Step>): (n: nat)
    ensures n <= |steps|
    decreases |steps|
  {
    if |steps| == 0 then 0
    else Observations(steps[..|steps| - 1]) + (if steps[|steps| - 1].Saw? then 1 else 0)
  }

  /** Every observation adds one to the total and nothing else changes it,
      so the total grows by exactly the number of observations. */
  lemma {:induction false} RunTotal(s: State, steps: seq<Step>)
    ensures Run(s, steps).totalAttacks == s.totalAttacks + Observations(steps)
    decreases |steps|
  {
    if |steps| > 0 {
      RunTotal(s, steps[..|steps| - 1]);
    }
  }

  /** From server start, the total is the number of observations so far. */
  lemma TotalFromStart(steps: seq<Step>)
    ensures Run(Init(), steps).totalAttacks == Observations(steps)
  {
    RunTotal(Init(), steps);
  }

  /** The total never goes down along a run. */
  lemma {:induction false} TotalMonotone(s: State, steps: seq<Step>, n: nat)
    requires n <= |steps|
    ensures Run(s, steps[..n]).totalAttacks <= Run(s, steps).totalAttacks
  {
    RunTotal(s, steps[..n]);
    RunTotal(s, steps);
    ObservationsPrefix(steps, n);
  }

  lemma {:induction false} ObservationsPrefix(steps: seq<Step>, n: nat)
    requires n <= |steps|
    ensures Observations(steps[..n]) <= Observations(steps)
    decreases |steps|
  {
    if n < |steps| {
      assert steps[..|steps| - 1][..n] == steps[..n];
      ObservationsPrefix(steps[..|steps| - 1], n);
    } else {
      assert steps[..n] == steps;
    }
  }

  /** Every run keeps the invariant. */
  lemma {:induction false} RunKeepsWellFormed(s: State, steps: seq<Step>)
    requires WellFormed(s)
    ensures WellFormed(Run(s, steps))
    decreases |steps|
  {
    if |steps| > 0 {
      var prefix := Run(s, steps[..|steps| - 1]);
      RunKeepsWellFormed(s, steps[..|steps| - 1]);
      match steps[|steps| - 1]
      case Saw(ip, geo, now) => ObserveKeepsWellFormed(prefix, ip, geo, now);
      case Fired(t) => FireKeepsWellFormed(prefix, t);
    }
  }

  /** One step never lowers a surviving entry's count and never changes its
      attributes or first sighting. */
  lemma StepKeepsEntryHistory(s: State, st: Step, k: string)
    requires k in s.tracked && k in Apply(s, st).tracked
    ensures var e, e' := s.tracked[k], Apply(s, st).tracked[k];
      e'.count >= e.count && e'.attrs == e.attrs && e'.firstSeen == e.firstSeen
  {
    match st
    case Saw(ip, geo, now) =>
      if ip in s.tracked {
        ObserveUpdates(s, ip, geo, now);
      } else {
        ObserveCreates(s, ip, geo, now);
      }
    case Fired(t) =>
      if t in s.timers {
        var s1 := s.(timers := s.timers - multiset{t});
        if t.ip in s1.tracked {
          RemoveIpDeletes(s1, t.ip);
        }
      }
  }

  /** An observation of `ip` at `now`, seen from that IP alone: before it
      runs, `ip`'s own removal timer has run if it is due by `now` (a tie at
      the deadline goes to the timer). Other IPs' due timers are not run
      here; `ExpireAll` and `Run` cover them, and `ObserveAtLeavesOthers`
      shows this step does not touch their entries. */
  function ObserveAt(s: State, ip: string, geo: string -> Attributes, now: nat): (r: State)
    ensures r.totalAttacks == s.totalAttacks + 1
    ensures ip in r.tracked && r.tracked[ip].lastSeen == now
  {
    Observe(Expire(s, ip, now), ip, geo, now)
  }

  /** An observation of `ip` leaves every other IP's entry as it was, and
      every other IP tracked exactly when it was before. */
  lemma ObserveAtLeavesOthers(s: State, ip: string, geo: string -> Attributes, now: nat, k: string)
    requires WellFormed(s) && k != ip
    ensures var r := ObserveAt(s, ip, geo, now);
      && (k in r.tracked <==> k in s.tracked)
      && (k in r.tracked ==> r.tracked[k] == s.tracked[k])
  {
    ExpireRemovesIffDue(s, ip, now);
    var s1 := Expire(s, ip, now);
    if ip in s1.tracked {
      ObserveUpdates(s1, ip, geo, now);
    } else {
      ObserveCreates(s1, ip, geo, now);
    }
  }

  /** An observation at `now` creates a fresh entry, announced with
      `attack`, exactly when the IP is not tracked or has been quiet for a
      full cooldown; otherwise it is announced with `updateCount`. */
  lemma ObserveAtCreatesIff(s: State, ip: string, geo: string -> Attributes, now: nat)
    requires WellFormed(s)
    ensures var r := ObserveAt(s, ip, geo, now);
      && |r.log| > 0
      && (r.log[|r.log| - 1].Attack? <==> ip !in s.tracked || s.tracked[ip].lastSeen + COOLDOWN_MS <= now)
      && (r.log[|r.log| - 1].UpdateCount? <==> ip in s.tracked && now < s.tracked[ip].lastSeen + COOLDOWN_MS)
  {
    ExpireRemovesIffDue(s, ip, now);
    var s1 := Expire(s, ip, now);
    if ip in s1.tracked {
      ObserveUpdates(s1, ip, geo, now);
    } else {
      ObserveCreates(s1, ip, geo, now);
    }
  }

  /** A sighting a full cooldown after the last one finds the entry already
      removed and starts over with count 1. */
  lemma ObserveAfterGap(s: State, ip: string, geo: string -> Attributes, now: nat)
    requires WellFormed(s)
    requires ip in s.tracked && s.tracked[ip].lastSeen + COOLDOWN_MS <= now
    ensures var r := ObserveAt(s, ip, geo, now);
      && r.tracked[ip] == Entry(ip, 1, geo(ip), now, now, TimerFor(ip, now))
      && r.log == s.log + [Remove(ip), Total(s.totalAttacks + 1), Attack(ip, 1, geo(ip), now)]
  {
    ExpireRemovesIffDue(s, ip, now);
    var s1 := Expire(s, ip, now);
    ObserveCreates(s1, ip, geo, now);
    AppendOneThenTwo(s.log, Remove(ip), Total(s.totalAttacks + 1), Attack(ip, 1, geo(ip), now));
  }

  /** A sighting of an untracked IP creates its entry and broadcasts the
      new total and `attack` with count 1. */
  lemma ObserveAtFresh(s: State, ip: string, geo: string -> Attributes, now: nat)
    requires ip !in s.tracked
    ensures var r := ObserveAt(s, ip, geo, now);
      && r.tracked[ip] == Entry(ip, 1, geo(ip), now, now, TimerFor(ip, now))
      && r.totalAttacks == s.totalAttacks + 1
      && r.log == s.log + [Total(s.totalAttacks + 1), Attack(ip, 1, geo(ip), now)]
  {
    ObserveCreates(s, ip, geo, now);
  }

  /** A sighting before the entry's timer is due updates the entry in
      place and broadcasts the new total and `updateCount`. */
  lemma ObserveAtWithinCooldown(s: State, ip: string, geo: string -> Attributes, now: nat)
    requires ip in s.tracked
    requires s.tracked[ip].timer == TimerFor(ip, s.tracked[ip].lastSeen)
    requires now < s.tracked[ip].lastSeen + COOLDOWN_MS
    ensures var r, e := ObserveAt(s, ip, geo, now), s.tracked[ip];
      && r.tracked[ip] == e.(count := e.count + 1, lastSeen := now, timer := TimerFor(ip, now))
      && r.totalAttacks == s.totalAttacks + 1
      && r.log == s.log + [Total(s.totalAttacks + 1), UpdateCount(ip, e.count + 1, e.attrs, now)]
  {
    ObserveUpdates(s, ip, geo, now);
  }

  /** `observeAttack` for `ip` at each of `times` in turn, each running
      only `ip`'s own due timer first, as in `ObserveAt`. */
  function Burst(s: State, ip: string, geo: string -> Attributes, times: seq<nat>): (r: State)
    ensures r.totalAttacks == s.totalAttacks + |times|
    ensures |times| > 0 ==> ip in r.tracked && r.tracked[ip].lastSeen == times[|times| - 1]
    decreases |times|
  {
    if |times| == 0 then s
    else ObserveAt(Burst(s, ip, geo, times[..|times| - 1]), ip, geo, times[|times| - 1])
  }

  /** The events a burst of sightings of one new IP should broadcast: after
      each sighting the new total, then `attack` with count 1 for the first
      and `updateCount` with the running count for the others. */
  function BurstEvents(ip: string, a: Attributes, times: seq<nat>, total: nat): (es: seq<Event>)
    ensures |es| == 2 * |times|
    decreases |times|
  {
    if |times| == 0 then []
    else
      var n := |times|;
      BurstEvents(ip, a, times[..n - 1], total)
      + [Total(total + n), if n == 1 then Attack(ip, 1, a, times[0]) else UpdateCount(ip, n, a, times[n - 1])]
  }

  /** A burst of sightings never announces a removal, and announces exactly
      one creation: the first. */
  lemma {:induction false} BurstEventsShape(ip: string, a: Attributes, times: seq<nat>, total: nat)
    ensures forall e :: e in BurstEvents(ip, a, times, total) ==> !e.Remove?
    ensures forall i :: 0 <= i < |BurstEvents(ip, a, times, total)| ==>
      (BurstEvents(ip, a, times, total)[i].Attack? <==> i == 1)
    decreases |times|
  {
    if |times| > 0 {
      BurstEventsShape(ip, a, times[..|times| - 1], total);
    }
  }

  lemma BurstEventsStep(ip: string, a: Attributes, times: seq<nat>, total: nat)
    requires |times| >= 2
    ensures BurstEvents(ip, a, times, total)
      == BurstEvents(ip, a, times[..|times| - 1], total)
         + [Total(total + |times|), UpdateCount(ip, |times|, a, times[|times| - 1])]
  {
  }

  /** Each of `times` comes less than a cooldown after the one before. */
  ghost predicate Steady(times: seq<nat>) {
    forall i, j {:trigger times[i], times[j]} :: 0 <= i && j == i + 1 && j < |times| ==> times[j] < times[i] + COOLDOWN_MS
  }

  lemma SteadyPrefix(times: seq<nat>)
    requires Steady(times) && |times| >= 2
    ensures Steady(times[..|times| - 1])
    ensures times[|times| - 1] < times[|times| - 2] + COOLDOWN_MS
  {
    var front := times[..|times| - 1];
    forall i, j | 0 <= i && j == i + 1 && j < |front| ensures front[j] < front[i] + COOLDOWN_MS {
      assert front[i] == times[i] && front[j] == times[j];
    }
    assert times[|times| - 1] < times[|times| - 2] + COOLDOWN_MS;
  }

  /** Sightings of a new IP whose gaps all stay under the cooldown keep one
      entry alive: its count is the number of sightings, its first sighting
      the first time, its timer due one cooldown after the last, and the
      broadcast is exactly one `attack` followed by `updateCount`s, with no
      `remove`. */
  lemma {:induction false} BurstKeepsEntry(s: State, ip: string, geo: string -> Attributes, times: seq<nat>)
    requires ip !in s.tracked
    requires |times| >= 1
    requires Steady(times)
    ensures var r := Burst(s, ip, geo, times);
      && ip in r.tracked
      && r.tracked[ip] == Entry(ip, |times|, geo(ip), times[0], times[|times| - 1], TimerFor(ip, times[|times| - 1]))
      && r.totalAttacks == s.totalAttacks + |times|
      && r.log == s.log + BurstEvents(ip, geo(ip), times, s.totalAttacks)
    decreases |times|
  {
    var n := |times|;
    BurstUnfold(s, ip, geo, times);
    if n == 1 {
      assert times[..0] == [];
      ObserveAtFresh(s, ip, geo, times[0]);
    } else {
      var front := times[..n - 1];
      SteadyPrefix(times);
      BurstKeepsEntry(s, ip, geo, front);
      var p := Burst(s, ip, geo, front);
      BurstStep(p, ip, geo(ip), geo, n - 1, times[0], times[n - 2], times[n - 1]);
      BurstExtend(s, p, ObserveAt(p, ip, geo, times[n - 1]), ip, geo(ip), times);
    }
  }

  lemma BurstUnfold(s: State, ip: string, geo: string -> Attributes, times: seq<nat>)
    requires |times| >= 1
    ensures Burst(s, ip, geo, times) == ObserveAt(Burst(s, ip, geo, times[..|times| - 1]), ip, geo, times[|times| - 1])
  {
  }

  /** The bookkeeping of the inductive step of `BurstKeepsEntry`: what a
      burst of all but the last time left, extended by the last sighting. */
  lemma BurstExtend(s: State, p: State, r: State, ip: string, a: Attributes, times: seq<nat>)
    requires |times| >= 2
    requires ip in p.tracked
    requires p.tracked[ip] == Entry(ip, |times| - 1, a, times[0], times[|times| - 2], TimerFor(ip, times[|times| - 2]))
    requires p.totalAttacks == s.totalAttacks + |times| - 1
    requires p.log == s.log + BurstEvents(ip, a, times[..|times| - 1], s.totalAttacks)
    requires ip in r.tracked
    requires r.tracked[ip] == Entry(ip, |times| - 1 + 1, a, times[0], times[|times| - 1], TimerFor(ip, times[|times| - 1]))
    requires r.totalAttacks == p.totalAttacks + 1
    requires r.log == p.log + [Total(p.totalAttacks + 1), UpdateCount(ip, |times| - 1 + 1, a, times[|times| - 1])]
    ensures r.tracked[ip] == Entry(ip, |times|, a, times[0], times[|times| - 1], TimerFor(ip, times[|times| - 1]))
    ensures r.totalAttacks == s.totalAttacks + |times|
    ensures r.log == s.log + BurstEvents(ip, a, times, s.totalAttacks)
  {
    BurstLogStep(s.log, p.log, r.log, ip, a, times, s.totalAttacks);
  }

  /** The inductive step of `BurstKeepsEntry`: one more sighting, within
      the cooldown of the previous one, of the entry a shorter burst left. */
  lemma BurstStep(p: State, ip: string, a: Attributes, geo: string -> Attributes, count: nat, first: nat, last: nat, now: nat)
    requires ip in p.tracked && p.tracked[ip] == Entry(ip, count, a, first, last, TimerFor(ip, last))
    requires now < last + COOLDOWN_MS
    ensures var r := ObserveAt(p, ip, geo, now);
      && ip in r.tracked
      && r.tracked[ip] == Entry(ip, count + 1, a, first, now, TimerFor(ip, now))
      && r.totalAttacks == p.totalAttacks + 1
      && r.log == p.log + [Total(p.totalAttacks + 1), UpdateCount(ip, count + 1, a, now)]
  {
    ObserveAtWithinCooldown(p, ip, geo, now);
  }

  lemma BurstLogStep(start: seq<Event>, mid: seq<Event>, end: seq<Event>, ip: string, a: Attributes, times: seq<nat>, total: nat)
    requires |times| >= 2
    requires mid == start + BurstEvents(ip, a, times[..|times| - 1], total)
    requires end == mid + [Total(total + |times|), UpdateCount(ip, |times|, a, times[|times| - 1])]
    ensures end == start + BurstEvents(ip, a, times, total)
  {
    BurstEventsStep(ip, a, times, total);
    AppendAssoc(start, BurstEvents(ip, a, times[..|times| - 1], total),
      [Total(total + |times|), UpdateCount(ip, |times|, a, times[|times| - 1])]);
  }

  lemma AppendOneThenTwo(a: seq<Event>, x: Event, y: Event, z: Event)
    ensures (a + [x]) + [y, z] == a + [x, y, z]
  {
  }

  lemma AppendAssoc(a: seq<Event>, b: seq<Event>, c: seq<Event>)
    ensures (a + b) + c == a + (b + c)
  {
  }

  /** The runtime reaches `now` and runs the due timers of `ips`, in that
      order. */
  function ExpireAll(s: State, ips: seq<string>, now: nat): (r: State)
    ensures r.totalAttacks == s.totalAttacks
    decreases |ips|
  {
    if |ips| == 0 then s
    else ExpireAll(Expire(s, ips[0], now), ips[1..], now)
  }

  /** The entries of `m` not yet quiet for a full cooldown at `now`. */
  function Live(m: map<string, Entry>, now: nat): map<string, Entry> {
    map k | k in m && now < m[k].lastSeen + COOLDOWN_MS :: m[k]
  }

  lemma {:induction false} ExpireAllKeepsWellFormed(s: State, ips: seq<string>, now: nat)
    requires WellFormed(s)
    ensures WellFormed(ExpireAll(s, ips, now))
    decreases |ips|
  {
    if |ips| > 0 {
      ExpireKeepsWellFormed(s, ips[0], now);
      ExpireAllKeepsWellFormed(Expire(s, ips[0], now), ips[1..], now);
    }
  }

  /** Running the due timers of `ips` removes exactly those of `ips` whose
      cooldown has run out and leaves every other entry as it was. */
  lemma {:induction false} ExpireAllRemovesDue(s: State, ips: seq<string>, now: nat)
    requires WellFormed(s)
    ensures var r := ExpireAll(s, ips, now);
      && (forall k :: k in r.tracked <==> k in s.tracked && (k !in ips || now < s.tracked[k].lastSeen + COOLDOWN_MS))
      && (forall k :: k in r.tracked ==> r.tracked[k] == s.tracked[k])
    decreases |ips|
  {
    if |ips| > 0 {
      var s1 := Expire(s, ips[0], now);
      ExpireRemovesIffDue(s, ips[0], now);
      ExpireKeepsWellFormed(s, ips[0], now);
      ExpireAllRemovesDue(s1, ips[1..], now);
      var r := ExpireAll(s1, ips[1..], now);
      assert ExpireAll(s, ips, now) == r;
      forall k ensures k in ips <==> k == ips[0] || k in ips[1..] {
        assert ips == [ips[0]] + ips[1..];
      }
    }
  }

  /** A client connecting at `now`, once the due timers have run, is sent
      the total and exactly the entries last seen less than a cooldown ago. */
  lemma HydrateShowsLive(s: State, ips: seq<string>, now: nat)
    requires WellFormed(s)
    requires forall k :: k in s.tracked ==> k in ips
    ensures var h := Connect(ExpireAll(s, ips, now));
      && h.totalAttacks == s.totalAttacks
      && |h.tracked| == |Live(s.tracked, now)|
      && forall v :: v in h.tracked <==> v.ip in Live(s.tracked, now) && v == ViewOf(s.tracked[v.ip])
  {
    var r := ExpireAll(s, ips, now);
    ExpireAllRemovesDue(s, ips, now);
    ExpireAllKeepsWellFormed(s, ips, now);
    assert r.tracked == Live(s.tracked, now);
    SnapshotExact(r);
  }
}
