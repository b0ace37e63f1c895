# pokepush: sighting deduplication and notification routing

pokepush polls a scan service for Pokémon sightings around configured places. It keeps the
sightings inside each place's polygon whose ids it has not reported yet, and pushes a
message to every user subscribed to a place where something new turned up. This project
models the in-memory bookkeeping behind that:

- the global cache `usedIDs` from sighting id to expiration time (Unix seconds);
- the admission loop of `scanPokevision`, which fills the cache;
- the reduction of the admitted kinds to a list without repeats;
- the eviction loop `cleanExpiredIDs`;
- the message text built by `createMessage`;
- the routing in `searchPlaces` and `sendToDevices`.

Modules:

- `Geo` (geo.dfy): points, polygons, places, and the building of a place's octagon from the eight bearings.
- `Text` (text.dfy): `StringInSlice`, `Join` (the joining rule of Go's `strings.Join`), and the
  reference sentence `Sentence` that `CreateMessage` is proved against.
- `Sightings` (sightings.dfy): the parsed record `Sighting`, and the admission loop as a fold `Admit`.
  It also holds an independent, loop-free definition of admission (`IsAdmitted`) with the
  lemmas that connect the two. `UniqueKinds` is the uniquing step, and `Sweep` is the cache
  after a sweep over several places.
- `Cache` (cache.dfy): `Unexpired`, the cache left after eviction at a given time, and its lemmas.
- `Routing` (routing.dfy): users, pushes, `Notify` (the pushes for one place) and `Route`
  (the pushes of a whole sweep).
- `App` (app.dfy): the class `Pokepush`. It holds the program's global state: its fields are
  the fixed places and users and the mutable `usedIDs` map. Its methods are `ScanPokevision`,
  `SendToDevices`, `SearchPlaces` and `CleanExpiredIDs`, each proved against the functions above.

External collaborators are parameters:

- The scan service is `responses(i)`: the already-parsed records returned for the i-th place of a sweep.
- The library's point-in-polygon test is the opaque `contains`.
- The library's point-at-distance-and-bearing is the opaque `pointAt`.
- The kind-name table `pokemonIDs[strconv.FormatInt(code, 10)]` is the total function
  `pokemonName`. It returns "" for an unknown code, as Go's map lookup does.
- Push delivery is the returned list of `Push` values.
- The wall clock is the integer `now`.

Behaviour of the code that the model keeps as written:

- The uniqued kind list comes out in Go's unspecified map order, not a deterministic one.
  The model picks keys with `:|`, and its contracts hold for every order.
- Fetch and parse errors are ignored, not handled. The model starts from parsed records.
- Coordinates are never validated.
- `createMessage` with an empty list would panic (index -1). The code never reaches that:
  `searchPlaces` only routes non-empty results, and `sendToDevices` builds the message only
  for subscribed users. The model therefore requires a non-empty list of `CreateMessage`, and
  of `SendToDevices` unless nobody is subscribed.
- Within one scan an id is never overwritten: a known id is refused, not refreshed.

## Model

| member | source | states |
|---|---|---|
| Geo.DegreesGoRound | main.go:37 | there are 8 bearings, the i-th is 45·i degrees, strictly increasing within [0, 360) |
| Geo.CreatePlace | main.go:54-63 | the place keeps name and centre; its polygon has one vertex per bearing, vertex i being the point at 0.04 km and bearing i from the centre |
| Text.Join | main.go:75 | defines the joining rule of Go's strings.Join: "" for no words, the word itself for one, otherwise the words with the separator between neighbours |
| Text.Sentence | main.go:66-76 | defines the message the copy-prefix-join of createMessage is proved to produce: one kind by itself; otherwise the first n-1 joined by ", ", then ", and " and the last |
| Sightings.Step | main.go:115-118 | defines one admission step: a record whose id is not a cache key and whose point is inside appends its kind name and caches its id with its expiration; any other record changes nothing |
| Sightings.Admit | main.go:106-119 | defines the admission loop as Step applied to the records in response order, starting from the cache before the scan and no names |
| Sightings.IsAdmitted | main.go:115-118 | defines admission without the loop: id not cached before the scan, point inside, and no earlier record of the same id inside |
| Sightings.Within | main.go:115 | defines containment in one place's polygon: the opaque point-in-polygon test applied to that polygon |
| Sightings.IsScanResult | main.go:123-132 | defines what one scan may return: the kind names the admission loop collected, each exactly once, in any order |
| Sightings.Sweep | main.go:138-139 | defines the cache after scanning places in order, each place admitting from the cache the previous ones left |
| Sightings.SweepGrows | main.go:138-139 | a sweep removes no id from the cache and changes no cached expiration |
| Routing.Subscribed | main.go:81 | defines the guard of sendToDevices: the place name occurs in the user's place list |
| Cache.Unexpired | main.go:149-155 | defines the cache after eviction at now: the entries whose expiration is not strictly before now, with their values |
| Routing.Title | main.go:85 | defines the push title "Pokemon detected at " followed by the place name |
| Routing.Notify | main.go:79-89 | defines the pushes for one place: one per user whose place list contains the name, in user order, with the title and the message of the kinds |
| Routing.Route | main.go:138-145 | defines the pushes of a sweep: per place in order, that place's Notify pushes when its result is non-empty, none otherwise |
| Text.StringInSlice | main.go:44-51 | returns true iff the string occurs in the list |
| Text.JoinSnoc | main.go:75 | joining a list with one more word appends the separator and that word |
| Text.CreateMessage | main.go:66-76 | a single kind is returned unchanged; for n ≥ 2 kinds the result is the first n-1 joined by ", ", then ", and ", then the last |
| Text.SentenceOfTwo | main.go:66-76 | ["Pidgey", "Rattata"] gives "Pidgey, and Rattata" |
| Text.SentenceOfThree | main.go:66-76 | ["Pidgey", "Rattata", "Zubat"] gives "Pidgey, Rattata, and Zubat" |
| Sightings.FirstInsideAdmitted | main.go:115-118 | for an id not cached before the scan, the first record of that id inside the polygon is admitted |
| Sightings.AdmittedOnce | main.go:115-118 | two admitted records of one response never share an id |
| Sightings.AdmittedSnoc | main.go:115-118 | the next record is admitted iff its id is neither cached nor admitted earlier in the response and its point is inside |
| Sightings.AdmitCache | main.go:106-119 | the loop removes no id, changes no cached expiration, and adds exactly the admitted ids, each with its own expiration |
| Sightings.AdmitKinds | main.go:106-119 | the loop collects exactly the kind names of the admitted records |
| Sightings.NothingFresh | main.go:115 | if every record inside already has a cached id, nothing is admitted and the cache is unchanged |
| Sightings.RescanAdmitsNothing | main.go:106-119 | scanning the same records again from the cache the first scan left admits nothing and changes nothing |
| Sightings.TwoNewRecordsAdmitted | main.go:115-118 | two new records with distinct ids, both inside, yield both kinds in order and register both ids |
| Sightings.UniqueKinds | main.go:123-132 | the result has no duplicates and holds exactly the names of the input |
| Cache.UnexpiredExactly | main.go:149-155 | eviction keeps exactly the ids whose expiration is not before now, with their values unchanged |
| Cache.UnexpiredMonotone | main.go:149-155 | an eviction at a later time keeps a subset of what an earlier one keeps, with the same values |
| Cache.UnexpiredIdempotent | main.go:149-155 | a second eviction at the same time changes nothing |
| Cache.EvictionAroundExpiry | main.go:151 | an id expiring at T survives eviction at T-1 and at T and is removed by eviction at T+1 |
| Routing.NotifyExactlySubscribers | main.go:79-89 | a push for a place goes to a user iff the user is subscribed to it, with title "Pokemon detected at " + place and the message for the kinds |
| Routing.RouteOnlyFromFinds | main.go:136-146 | every push of a sweep belongs to some place whose scan found something, and every such place's pushes are among them |
| App.Pokepush.constructor | main.go:36-42 | the cache starts empty; places and users are fixed |
| App.Pokepush.ScanPokevision | main.go:93-133 | the new cache is the admission fold of the old one: old ids and values untouched, exactly the admitted ids added; the result lists the admitted kinds, each once |
| App.Pokepush.SendToDevices | main.go:79-89 | the pushes are one per subscribed user, in user order, as Notify defines |
| App.Pokepush.SearchPlaces | main.go:136-146 | places are scanned in order, each from the cache the previous one left; a place's subscribers are notified iff its result is non-empty, in place order |
| App.Pokepush.CleanExpiredIDs | main.go:149-155 | the new cache is the old one without the entries whose expiration is strictly before now |

## Left out

- HTTP requests, the job id exchange, the 5-second sleep and JSON parsing in `scanPokevision` (main.go:94-112): network I/O and a foreign parser. The model starts from parsed records, and missing JSON fields are not modelled.
- The kind-name table `pokemonIDs` is defined in a file that is not part of this model. It is the parameter `pokemonName`.
- Geometry in `createPlace` and `Polygon.Contains`: floating-point great-circle math in an external library. Both stay opaque, and coordinates are reals rather than float64.
- SendToDevices: sends one push per subscribed user. The Pushbullet device listing and the per-device fan-out (main.go:82-86) are left out because they belong to the external service.
- CleanExpiredIDs: `now` is whole Unix seconds. With sub-second precision Go also evicts an id whose expiration equals the current second once that second has begun; the model keeps it until the next second.
- Expiration times are unbounded integers; the int64 range of the source is not modelled.
- `loadConfig` (main.go:159-191): file reading, JSON and logger setup. The constructor takes the loaded places and users.
- `main`'s cron scheduling (main.go:193-203): cron runs jobs on goroutines, so a sweep and an eviction can race on `usedIDs`. The model takes the calls one at a time.
- Logging and `fmt.Println` (main.go:121, main.go:137-142).
- SearchPlaces: its record of each place's scan result is ghost, since the source does not return it.
