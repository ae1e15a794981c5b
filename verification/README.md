# CyberEye attack tracker, modelled in Dafny

The CyberEye backend keeps a live list of attacker IPs. When `observeAttack(ip)`
sees an IP, it adds one to a global attack counter and broadcasts the new
total. An IP that is already tracked has its count and last sighting updated
and its removal timer re-armed, and the server broadcasts `updateCount`. An
IP that is not tracked gets a new entry with count 1 and geo attributes
looked up once, plus a removal timer due 30 seconds later, and the server
broadcasts `attack`. When the timer fires, `removeIp` deletes the entry and
broadcasts `remove`. A client that connects is sent the current total and a
copy of every tracked entry without its timer handle.

The model is functional: every operation maps one `State` to the next.

- `tracked` is the map of entries.
- `order` lists each tracked key once, in the insertion order of the
  JavaScript `Map` that `tracked` models. A new key is appended, a re-observed
  key keeps its place, and a removal keeps the relative order of the keys that
  remain.
- `totalAttacks` is the counter.
- `timers` is the multiset of armed timers. A timer is the IP it will remove
  plus the time it is due.
- `log` is the sequence of events broadcast to all clients.

Time is an explicit `now` in milliseconds:

- `setTimeout` adds a timer to `timers`.
- `clearTimeout` takes one out.
- The runtime running a timer callback is the step `Fire`.
- `Expire` is "the clock has reached `now`, so this IP's due timer runs".

Modules:

- `Geo` (geo.dfy): `geoForIp` and its "Unknown" defaults. The GeoLite2
  database is a parameter.
- `KeyOrder` (keyorder.dfy): the key order of a `Map`, with no key listed
  twice.
- `Tracker` (tracker.dfy):
  - the state and `observeAttack`, `removeIp` and timer firing;
  - the invariant `WellFormed`: every entry has a count of at least 1, and
    every entry has exactly one armed timer, due one cooldown after its last
    sighting;
  - lemmas showing that every step keeps the invariant.
- `Hydrate` (hydrate.dfy): what the connection handler sends to a new client.
- `Traces` (traces.dfy):
  - runs of steps;
  - observations at a given time, with due timers run first;
  - bursts of sightings of one IP;
  - the live set a client sees when it connects.

The code sends the hydration as two messages: `total` first, then
`hydrate` with the entry list. `Connect` models them as one `Hydration`
value. When the geo lookup fails, the code uses random coordinates with
"Unknown" labels; it has no separate "unknown" variant. The model follows the
code and takes the fallback coordinates as a parameter.

## Model

| member | source | states |
|---|---|---|
| Geo.Label | Stack/Backend/server.js:55-56 | the label is never empty; a present non-empty name is kept, and a missing or empty one becomes "Unknown" |
| Geo.GeoForIp | Stack/Backend/server.js:48-63 | a located record gives its latitude, longitude and labelled names; otherwise (no database, no record, no numeric latitude) the result is the fallback position with "Unknown" city and country; labels are never empty |
| Tracker.Init | Stack/Backend/server.js:36-39 | the starting state satisfies the invariant, with nothing tracked, a total of 0 and nothing broadcast |
| Tracker.Observe | Stack/Backend/server.js:66-130 | every observation adds exactly one to the total and leaves the IP tracked, last seen at `now`, with its timer due one cooldown later |
| Tracker.ObserveUpdates | Stack/Backend/server.js:73-96 | re-observing a tracked IP: count + 1, lastSeen = now, attributes and firstSeen kept, no other entry or key touched, key order unchanged, old timer cleared and one new timer armed, broadcast = total then `updateCount` |
| Tracker.ObserveCreates | Stack/Backend/server.js:99-127 | observing an untracked IP adds exactly one entry (count 1, first and last sighting now, attributes from one lookup), appends the key, arms one timer, broadcasts total then `attack` |
| Tracker.RemoveIp | Stack/Backend/server.js:133-140 | removing an untracked IP changes nothing; afterwards the IP is never tracked; the total is untouched |
| Tracker.RemoveIpDeletes | Stack/Backend/server.js:133-140 | removing a tracked IP deletes only that key, clears only its timer, drops it from the key order and broadcasts exactly one `remove` |
| Tracker.Fire | Stack/Backend/server.js:133-137 | a cleared timer never runs (firing it is a no-op); an armed one leaves its IP untracked; the total never changes |
| Tracker.Expire | Stack/Backend/server.js:114 | reaching a time before the IP's deadline, or for an untracked IP, changes nothing; the total never changes |
| Tracker.FireIsRemoveIp | Stack/Backend/server.js:114 | under the invariant, running an armed timer is exactly `removeIp` of its IP, and that IP is tracked when it runs |
| Tracker.RemoveIpKeepsOrder | Stack/Backend/server.js:137 | removing a key keeps the insertion order of every pair of remaining keys, in both directions |
| Tracker.ObserveWithGeoLabels | Stack/Backend/server.js:99-107 | an entry created with the attributes `geoForIp` returns always carries non-empty city and country labels, both "Unknown" when the record is not located |
| Tracker.StaleTimerIsNoop | Stack/Backend/server.js:79-80 | a removal timer other than the entry's current handle cannot remove the live entry |
| Tracker.ExactlyOneTimer | Stack/Backend/server.js:78-80 | in every well-formed state a live entry has exactly one armed timer, due lastSeen + COOLDOWN_MS, and no other armed timer names its IP |
| Tracker.ObserveKeepsWellFormed | Stack/Backend/server.js:66-130 | `observeAttack` keeps the invariant: every tracked key listed exactly once in `order`, counts at least 1, one timer per entry and none for dead IPs |
| Tracker.ObserveTrackedKeepsWellFormed | Stack/Backend/server.js:73-96 | the re-observe branch keeps the invariant (clearTimeout then setTimeout leaves exactly one armed timer) |
| Tracker.ObserveFreshKeepsWellFormed | Stack/Backend/server.js:99-127 | the create branch keeps the invariant (the new key is not yet listed, the new timer is the only one for the IP) |
| Tracker.RemoveIpKeepsWellFormed | Stack/Backend/server.js:133-140 | `removeIp` keeps the invariant: the deleted entry leaves no armed timer behind |
| Tracker.FireKeepsWellFormed | Stack/Backend/server.js:133-137 | running any timer callback, stale or live, keeps the invariant |
| Tracker.ExpireKeepsWellFormed | Stack/Backend/server.js:114 | letting the clock reach any time keeps the invariant |
| Tracker.ExpireRemovesIffDue | Stack/Backend/server.js:133-140 | when the clock reaches `now`, the IP stays tracked exactly when it was tracked and now < lastSeen + COOLDOWN_MS; no other key appears or disappears; surviving entries are unchanged; exactly one `remove` is broadcast when it goes |
| KeyOrder.Without | Stack/Backend/server.js:137 | deleting a key from the map's order keeps exactly the other keys and keeps the list free of duplicates |
| KeyOrder.WithoutKeepsOrder | Stack/Backend/server.js:137 | deleting a key invents no new order: if one key precedes another afterwards, it did before |
| KeyOrder.WithoutKeepsOrderOfRest | Stack/Backend/server.js:137 | deleting a key loses no order among the keys that remain |
| KeyOrder.AppendFresh | Stack/Backend/server.js:116 | setting a new key appends it without creating a duplicate |
| Hydrate.Views | Stack/Backend/server.js:170-179 | when every listed key has an entry, the i-th view is the timer-less copy of the i-th key's entry, with one view per key |
| Hydrate.Connect | Stack/Backend/server.js:164-167 | a new client is first sent the current total, and building its messages changes no state (the entry list is stated by `Hydrate.SnapshotExact`) |
| Hydrate.SnapshotExact | Stack/Backend/server.js:170-180 | the hydrate list has one view per tracked IP and no IP twice, and a view is in it exactly when it equals the timer-less copy of a tracked entry |
| Hydrate.SnapshotInOrder | Stack/Backend/server.js:170 | the i-th view of the hydrate list is the i-th key of `order`, the insertion order that `Tracker.ObserveCreates`, `Tracker.ObserveUpdates` and `Tracker.RemoveIpKeepsOrder` maintain |
| Traces.RunTotal | Stack/Backend/server.js:67 | along any interleaving of observations and timer callbacks, the total grows by exactly the number of observations |
| Traces.TotalFromStart | Stack/Backend/server.js:39 | from server start, the total equals the number of observations so far |
| Traces.TotalMonotone | Stack/Backend/server.js:67 | the total never decreases along a run |
| Traces.RunKeepsWellFormed | Stack/Backend/server.js:66-140 | every interleaving of observations and timer callbacks keeps the invariant |
| Traces.StepKeepsEntryHistory | Stack/Backend/server.js:73-80 | while an entry survives a step, its count never goes down and its attributes and first sighting never change |
| Traces.ObserveAt | Stack/Backend/server.js:66-130 | an observation at `now`, after the IP's own due timer has run, adds one to the total and leaves the IP tracked with lastSeen = now |
| Traces.ObserveAtLeavesOthers | Stack/Backend/server.js:71-127 | an observation of one IP leaves every other IP's membership and entry unchanged |
| Traces.Burst | Stack/Backend/server.js:66-130 | N observations of one IP raise the total by N and leave the IP tracked with the last time as lastSeen |
| Traces.ObserveAtCreatesIff | Stack/Backend/server.js:71-127 | an observation at `now` ends with `attack` exactly when the IP was untracked or quiet for at least a cooldown, and with `updateCount` exactly when it was tracked and seen less than a cooldown ago |
| Traces.ObserveAfterGap | Stack/Backend/server.js:114 | a sighting a full cooldown after the last one broadcasts `remove`, the new total and `attack`, in that order, and starts a fresh entry with count 1 |
| Traces.ObserveAtFresh | Stack/Backend/server.js:99-127 | a sighting of an untracked IP creates its entry with count 1 and broadcasts the new total then `attack` |
| Traces.ObserveAtWithinCooldown | Stack/Backend/server.js:73-91 | a sighting before the deadline updates the entry in place (count + 1, lastSeen = now, new timer) and broadcasts the new total then `updateCount` |
| Traces.BurstEventsShape | Stack/Backend/server.js:83-127 | a burst's expected broadcast contains no `remove` and exactly one `attack`, right after the first total |
| Traces.BurstKeepsEntry | Stack/Backend/server.js:66-130 | N sightings of a new IP with every gap under the cooldown leave one entry with count N, the first time as firstSeen, the last as lastSeen and its timer due one cooldown later; the total rises by N; the broadcast is one `attack` then `updateCount`s, with no `remove` |
| Traces.BurstStep | Stack/Backend/server.js:73-91 | one more sighting within the cooldown of the burst's entry raises its count by one and keeps its first sighting and attributes |
| Traces.ExpireAll | Stack/Backend/server.js:133-137 | running due timers never changes the total |
| Traces.ExpireAllKeepsWellFormed | Stack/Backend/server.js:133-140 | running any number of due timers keeps the invariant |
| Traces.ExpireAllRemovesDue | Stack/Backend/server.js:133-140 | running the due timers of a list of IPs removes exactly the listed entries quiet for a full cooldown and leaves all other entries as they were |
| Traces.HydrateShowsLive | Stack/Backend/server.js:164-180 | a client connecting at `now`, once due timers have run, receives the unchanged total and exactly the entries with now < lastSeen + COOLDOWN_MS, each without its timer |

## Left out

- Express, Socket.IO transport and `server.listen`: broadcasts are appended to
  `log`, and a connection's messages are the value `Connect` returns. Per-client
  delivery, back-pressure and disconnects are not modelled.
- Loading the GeoLite2 database and the lookup library: the database is an
  optional function from IP to record, and `None` stands for "not loaded yet".
- `randomCoord` and its rounding with `toFixed(4)`: random numbers are outside
  the model, so the fallback position is a parameter of `GeoForIp`.
- The `setInterval` simulation and its sample IP list: any sequence of
  observations is covered by `Run` and `Burst`.
- `console.log` output.
- Traces.ObserveAt: runs only the observed IP's own due timer before the
  observation, not every timer due by `now`. Other IPs whose deadline has passed
  stay tracked in its result, and their `remove` events are absent from the
  exact logs of `Traces.ObserveAtFresh`, `Traces.ObserveAfterGap` and
  `Traces.ObserveAtCreatesIff`. `Traces.ObserveAtLeavesOthers` shows the step
  never touches other entries, and `Traces.ExpireAll` and `Run` cover the
  other timers.
- Traces.Burst: like `Traces.ObserveAt`, it runs only the burst IP's own
  timer. The log in `Traces.BurstKeepsEntry` is the burst IP's events alone,
  so "no `remove`" means no removal of that IP; other IPs' removals are not
  modelled there.
- Traces.RunTotal: the total is an unbounded natural number. `totalAttacks++`
  works on a JavaScript double, which stops going up by one past 2^53, so the
  equality holds for the program only below 2^53 observations. The same
  applies to `Traces.TotalFromStart` and to an entry's `count`.
- Traces.TotalFromStart: exact only below 2^53 observations, as for
  `Traces.RunTotal`.
- Geo.GeoForIp: latitude and longitude are `real`, not IEEE-754 doubles. The
  code checks only that the latitude is a number; it does not check the
  longitude, which may be `undefined` in a record. The model assumes every
  record's location carries a numeric longitude.
- Timer lateness: `ObserveAt` and `ExpireAll` run a timer exactly at its
  deadline, with a tie going to the timer. A late timer is still covered by
  `Run`, which allows any interleaving of `Fire` and `Observe`.
- `ExpireAll` runs due timers in the order of a given IP list rather than in
  deadline order. Each timer touches only its own IP, so the set of entries
  left does not depend on that order; only the order of `remove` events does.
- `Date.now()` is the `now` parameter, an unbounded natural number. Clock
  skew and a clock running backwards are not modelled.
- Tracker.Observe: its own contract states only what both branches share. The
  branch-specific promises are stated by `Tracker.ObserveUpdates` and
  `Tracker.ObserveCreates`, so the solver is not given them on every use.
- Tracker.RemoveIp: the exact change to the map, order, timers and log is
  stated by `Tracker.RemoveIpDeletes`, not by its own contract.
- Tracker.Expire: its frame under the invariant is stated by
  `Tracker.ExpireRemovesIffDue`, not by its own contract.
