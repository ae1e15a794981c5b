/**
 The attack tracker of the CyberEye backend: a map from attacker IP to its
 live entry, a global attack counter, the armed removal timers, and the
 sequence of events broadcast to every connected client.

 Time is an explicit `now` in milliseconds. A `setTimeout` is modelled as
 adding a `Timer` with its deadline to the multiset of armed timers,
 `clearTimeout` as taking it out again, and the runtime running a timer's
 callback as `Fire`.
 */
module Tracker {
  import opened Geo
  import opened KeyOrder

  /** How long an IP stays listed after its latest sighting. */
  const COOLDOWN_MS: nat := 30 * 1000

  /** An armed `setTimeout(() => removeIp(ip), COOLDOWN_MS)`, due at `due`. */
  datatype Timer = Timer(ip: string, due: nat)

  /** One tracked attacker IP; `timer` is the handle of its removal timer. */
  datatype Entry = Entry(
    ip: string,
    count: nat,
    attrs: Attributes,
    firstSeen: nat,
    lastSeen: nat,
    timer: Timer)

  /** Messages broadcast to all clients with `io.emit`. */
  datatype Event =
    | Total(totalAttacks: nat)
    | Attack(ip: string, count: nat, attrs: Attributes, firstSeen: nat)
    | UpdateCount(ip: string, count: nat, attrs: Attributes, lastSeen: nat)
    | Remove(ip: string)

  /** The server state: `tracked` with its insertion `order`, the attack
      counter, the armed timers and the broadcast log. */
  datatype State = State(
    tracked: map<string, Entry>,
    order: seq<string>,
    totalAttacks: nat,
    timers: multiset<Timer>,
    log: seq<Event>)

  /** The state at server start: nothing tracked, nothing counted. */
  function Init(): (s: State)
    ensures WellFormed(s)
    ensures s.totalAttacks == 0 && s.tracked == map[] && s.log == []
  {
    State(map[], [], 0, multiset{}, [])
  }

  /** The removal timer an entry last seen at `lastSeen` must hold. */
  function TimerFor(ip: string, lastSeen: nat): Timer {
    Timer(ip, lastSeen + COOLDOWN_MS)
  }

  /** An entry stored under `ip` is about `ip`, has been seen at least once,
      and its timer is due one cooldown after its latest sighting. */
  ghost predicate EntryOk(ip: string, e: Entry) {
    e.ip == ip && e.count >= 1 && e.timer == TimerFor(ip, e.lastSeen)
  }

  /** Every armed timer belongs to a live entry and is that entry's own
      handle, armed exactly once; so every live entry has exactly one armed
      timer and no dead IP has any. */
  ghost predicate OneTimerEach(s: State) {
    forall t {:trigger Armed(s.timers, t)} ::
      Armed(s.timers, t) == (if t.ip in s.tracked && s.tracked[t.ip].timer == t then 1 else 0)
  }

  /** How many times `t` is armed. */
  function Armed(timers: multiset<Timer>, t: Timer): nat {
    timers[t]
  }

  /** The invariant every reachable state keeps. */
  ghost predicate WellFormed(s: State) {
    && (forall ip :: ip in s.tracked ==> EntryOk(ip, s.tracked[ip]))
    && NoDups(s.order)
    && (forall ip :: ip in s.order <==> ip in s.tracked)
    && OneTimerEach(s)
  }

  /** `observeAttack(ip)` at time `now`; `geo` resolves the attributes of an
      IP that is not yet tracked, and is not consulted otherwise. What each
      branch does is stated by `ObserveUpdates` and `ObserveCreates`. */
  function Observe(s: State, ip: string, geo: string -> Attributes, now: nat): (r: State)
    ensures r.totalAttacks == s.totalAttacks + 1
    ensures ip in r.tracked && r.tracked[ip].lastSeen == now && r.tracked[ip].timer == TimerFor(ip, now)
  {
    var counted := s.(totalAttacks := s.totalAttacks + 1, log := s.log + [Total(s.totalAttacks + 1)]);
    if ip in s.tracked then
      var prev := s.tracked[ip];
      var e := prev.(count := prev.count + 1, lastSeen := now, timer := TimerFor(ip, now));
      counted.(
        tracked := s.tracked[ip := e],
        timers := s.timers - multiset{prev.timer} + multiset{e.timer},
        log := counted.log + [UpdateCount(ip, e.count, e.attrs, e.lastSeen)])
    else
      var a := geo(ip);
      var e := Entry(ip, 1, a, now, now, TimerFor(ip, now));
      counted.(
        tracked := s.tracked[ip := e],
        order := s.order + [ip],
        timers := s.timers + multiset{e.timer},
        log := counted.log + [Attack(ip, e.count, e.attrs, e.firstSeen)])
  }

  /** Re-observing a tracked IP: its count goes up by one and its last
      sighting becomes `now`; its attributes and first sighting stay; its old
      timer is cleared and exactly one new one armed; the broadcast is the
      new total then `updateCount`; no other entry changes. */
  lemma ObserveUpdates(s: State, ip: string, geo: string -> Attributes, now: nat)
    requires ip in s.tracked
    ensures var r, prev := Observe(s, ip, geo, now), s.tracked[ip];
      && r.tracked.Keys == s.tracked.Keys
      && r.tracked[ip] == prev.(count := prev.count + 1, lastSeen := now, timer := TimerFor(ip, now))
      && (forall k :: k in s.tracked && k != ip ==> r.tracked[k] == s.tracked[k])
      && r.log == s.log + [Total(s.totalAttacks + 1), UpdateCount(ip, prev.count + 1, prev.attrs, now)]
      && r.order == s.order
      && r.timers == s.timers - multiset{prev.timer} + multiset{TimerFor(ip, now)}
  {
  }

  /** Observing an untracked IP: exactly one entry is added, with count 1,
      first and last sighting `now` and the attributes of one lookup; one
      timer is armed; the broadcast is the new total then `attack`; it is
      appended to the key order; no other entry changes. */
  lemma ObserveCreates(s: State, ip: string, geo: string -> Attributes, now: nat)
    requires ip !in s.tracked
    ensures var r := Observe(s, ip, geo, now);
      && r.tracked == s.tracked[ip := Entry(ip, 1, geo(ip), now, now, TimerFor(ip, now))]
      && r.log == s.log + [Total(s.totalAttacks + 1), Attack(ip, 1, geo(ip), now)]
      && r.order == s.order + [ip]
      && r.timers == s.timers + multiset{TimerFor(ip, now)}
  {
  }

  /** `removeIp(ip)`: clear the entry's timer, forget the entry and announce
      the removal; nothing happens when `ip` is not tracked. */
  function RemoveIp(s: State, ip: string): (r: State)
    ensures ip !in s.tracked ==> r == s
    ensures ip !in r.tracked
    ensures r.totalAttacks == s.totalAttacks
  {
    if ip !in s.tracked then s
    else
      var entry := s.tracked[ip];
      s.(
        timers := s.timers - multiset{entry.timer},
        tracked := s.tracked - {ip},
        order := Without(s.order, ip),
        log := s.log + [Remove(ip)])
  }

  /** Removing a tracked IP deletes only that key, clears its timer, drops it
      from the key order and broadcasts one `remove`. */
  lemma RemoveIpDeletes(s: State, ip: string)
    requires ip in s.tracked
    ensures var r := RemoveIp(s, ip);
      && r.tracked == s.tracked - {ip}
      && r.log == s.log + [Remove(ip)]
      && r.order == Without(s.order, ip)
      && r.timers == s.timers - multiset{s.tracked[ip].timer}
  {
  }

  /** The runtime runs the callback of timer `t`. A cleared timer never
      runs, so firing one that is not armed changes nothing; an armed one
      is disarmed and calls `removeIp`. */
  function Fire(s: State, t: Timer): (r: State)
    ensures t !in s.timers ==> r == s
    ensures t in s.timers ==> t.ip !in r.tracked
    ensures r.totalAttacks == s.totalAttacks
  {
    if t !in s.timers then s
    else RemoveIp(s.(timers := s.timers - multiset{t}), t.ip)
  }

  /** The runtime reaches time `now`: the removal timer of `ip` runs if it
      is due by then. */
  function Expire(s: State, ip: string, now: nat): (r: State)
    ensures r.totalAttacks == s.totalAttacks
    ensures ip !in s.tracked || now < s.tracked[ip].timer.due ==> r == s
  {
    if ip in s.tracked && s.tracked[ip].timer.due <= now then Fire(s, s.tracked[ip].timer)
    else s
  }

  /** Running an armed timer is exactly `removeIp` of its IP: only that key
      is deleted, its timer cleared, and one `remove` broadcast. */
  lemma FireIsRemoveIp(s: State, t: Timer)
    requires WellFormed(s) && t in s.timers
    ensures Fire(s, t) == RemoveIp(s, t.ip)
    ensures t.ip in s.tracked
  {
    assert Armed(s.timers, t) > 0;
  }

  /** Removing a key keeps the insertion order of the keys that remain, in
      both directions. */
  lemma RemoveIpKeepsOrder(s: State, ip: string, a: string, b: string)
    requires a != ip && b != ip
    ensures Precedes(RemoveIp(s, ip).order, a, b) <==> Precedes(s.order, a, b)
  {
    if ip in s.tracked {
      WithoutKeepsOrder(s.order, ip, a, b);
      WithoutKeepsOrderOfRest(s.order, ip, a, b);
    }
  }

  /** An entry created with the attributes `geoForIp` computes always has a
      city and a country label, "Unknown" when the record is not located. */
  lemma ObserveWithGeoLabels(s: State, ip: string, db: Option<string -> Option<GeoRecord>>, fallback: (real, real), now: nat)
    requires ip !in s.tracked
    ensures var e := Observe(s, ip, k => GeoForIp(db, k, fallback), now).tracked[ip];
      && e.attrs.city != "" && e.attrs.country != ""
      && (!Located(Lookup(db, ip)) ==> e.attrs.city == UNKNOWN && e.attrs.country == UNKNOWN)
  {
    ObserveCreates(s, ip, k => GeoForIp(db, k, fallback), now);
  }

  /** A cleared (stale) timer of a live IP cannot remove it: firing anything
      other than the entry's current handle leaves the state unchanged. */
  lemma StaleTimerIsNoop(s: State, t: Timer)
    requires WellFormed(s)
    requires t.ip in s.tracked && t != s.tracked[t.ip].timer
    ensures Fire(s, t) == s
  {
    assert Armed(s.timers, t) == 0;
  }

  /** A live entry has exactly one armed timer, due one cooldown after its
      latest sighting, and no other armed timer names its IP. */
  lemma ExactlyOneTimer(s: State, ip: string)
    requires WellFormed(s) && ip in s.tracked
    ensures s.timers[s.tracked[ip].timer] == 1
    ensures s.tracked[ip].timer.due == s.tracked[ip].lastSeen + COOLDOWN_MS
    ensures forall t :: t in s.timers && t.ip == ip ==> t == s.tracked[ip].timer
  {
    assert Armed(s.timers, s.tracked[ip].timer) == 1;
    forall t | t in s.timers && t.ip == ip ensures t == s.tracked[ip].timer {
      assert Armed(s.timers, t) > 0;
    }
  }

  lemma ObserveKeepsWellFormed(s: State, ip: string, geo: string -> Attributes, now: nat)
    requires WellFormed(s)
    ensures WellFormed(Observe(s, ip, geo, now))
  {
    if ip in s.tracked {
      ObserveTrackedKeepsWellFormed(s, ip, geo, now);
    } else {
      ObserveFreshKeepsWellFormed(s, ip, geo, now);
    }
  }

  lemma ObserveTrackedKeepsWellFormed(s: State, ip: string, geo: string -> Attributes, now: nat)
    requires WellFormed(s) && ip in s.tracked
    ensures WellFormed(Observe(s, ip, geo, now))
  {
    ObserveUpdates(s, ip, geo, now);
    var r := Observe(s, ip, geo, now);
    var prev, e := s.tracked[ip], r.tracked[ip];
    assert r.tracked == s.tracked[ip := e];
    forall t ensures Armed(r.timers, t) == (if t.ip in r.tracked && r.tracked[t.ip].timer == t then 1 else 0) {
      assert Armed(s.timers, t) == s.timers[t];
      if t.ip == ip {
        assert Armed(s.timers, prev.timer) == 1;
      } else {
        assert t != prev.timer && t != e.timer;
      }
    }
  }

  lemma ObserveFreshKeepsWellFormed(s: State, ip: string, geo: string -> Attributes, now: nat)
    requires WellFormed(s) && ip !in s.tracked
    ensures WellFormed(Observe(s, ip, geo, now))
  {
    ObserveCreates(s, ip, geo, now);
    var r := Observe(s, ip, geo, now);
    var e := r.tracked[ip];
    AppendFresh(s.order, ip);
    forall t ensures Armed(r.timers, t) == (if t.ip in r.tracked && r.tracked[t.ip].timer == t then 1 else 0) {
      assert Armed(s.timers, t) == s.timers[t];
      if t.ip != ip {
        assert t != e.timer;
      }
    }
  }

  lemma RemoveIpKeepsWellFormed(s: State, ip: string)
    requires WellFormed(s)
    ensures WellFormed(RemoveIp(s, ip))
  {
    if ip in s.tracked {
      RemoveIpDeletes(s, ip);
      var r := RemoveIp(s, ip);
      var gone := s.tracked[ip].timer;
      forall t ensures Armed(r.timers, t) == (if t.ip in r.tracked && r.tracked[t.ip].timer == t then 1 else 0) {
        assert Armed(s.timers, t) == s.timers[t];
        assert Armed(s.timers, gone) == 1;
      }
    }
  }

  lemma FireKeepsWellFormed(s: State, t: Timer)
    requires WellFormed(s)
    ensures WellFormed(Fire(s, t))
  {
    if t in s.timers {
      FireIsRemoveIp(s, t);
      RemoveIpKeepsWellFormed(s, t.ip);
    }
  }

  lemma ExpireKeepsWellFormed(s: State, ip: string, now: nat)
    requires WellFormed(s)
    ensures WellFormed(Expire(s, ip, now))
  {
    if ip in s.tracked && s.tracked[ip].timer.due <= now {
      FireKeepsWellFormed(s, s.tracked[ip].timer);
    }
  }

  /** A due armed timer removes exactly its own IP and announces it once; a
      timer that is not yet due leaves everything as it is. */
  lemma ExpireRemovesIffDue(s: State, ip: string, now: nat)
    requires WellFormed(s)
    ensures var r := Expire(s, ip, now);
      && (ip in r.tracked <==> ip in s.tracked && now < s.tracked[ip].lastSeen + COOLDOWN_MS)
      && (forall k :: k != ip ==> (k in r.tracked <==> k in s.tracked))
      && (forall k :: k in r.tracked ==> r.tracked[k] == s.tracked[k])
      && r.log == if ip in s.tracked && ip !in r.tracked then s.log + [Remove(ip)] else s.log
  {
    if ip in s.tracked && s.tracked[ip].timer.due <= now {
      var t := s.tracked[ip].timer;
      assert Armed(s.timers, t) == 1;
      var s1 := s.(timers := s.timers - multiset{t});
      RemoveIpDeletes(s1, ip);
    }
  }
}
