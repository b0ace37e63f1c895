/** The running program: configured places and users, and the cache of seen sighting ids that
    the scan loop fills and the eviction sweep empties. Calls are taken one at a time. */
module App {
  import opened Geo
  import opened Text
  import opened Sightings
  import opened Cache
  import opened Routing

  class Pokepush {
    /** Places and users as loaded from the configuration; fixed afterwards. */
    const places: seq<Place>
    const users: seq<User>
    /** Point-in-polygon test of the geometry library. */
    const contains: (Polygon, Point) -> bool
    /** Kind name for a numeric kind code; "" for a code the name table lacks. */
    const pokemonName: int -> string
    /** Seen sighting ids, each with its expiration time in Unix seconds. */
    var usedIDs: map<string, int>

    constructor (places: seq<Place>, users: seq<User>, contains: (Polygon, Point) -> bool,
                 pokemonName: int -> string)
      ensures this.places == places && this.users == users
      ensures this.contains == contains && this.pokemonName == pokemonName
      ensures usedIDs == map[]
    {
      this.places := places;
      this.users := users;
      this.contains := contains;
      this.pokemonName := pokemonName;
      usedIDs := map[];
    }

    /** Scans one place whose response parsed to `records`: admits every record with an unknown
        id inside the polygon, registers its id, and returns the admitted kind names without
        repeats. */
    method ScanPokevision(place: Place, records: seq<Sighting>) returns (uniqAvailable: seq<string>)
      modifies this
      ensures usedIDs == Admit(old(usedIDs), records, Within(contains, place.polygon), pokemonName).used
      ensures usedIDs.Keys == old(usedIDs).Keys + AdmittedIds(old(usedIDs), records, Within(contains, place.polygon))
      ensures forall k :: k in old(usedIDs) ==> usedIDs[k] == old(usedIDs)[k]
      ensures IsScanResult(uniqAvailable, old(usedIDs), records, Within(contains, place.polygon), pokemonName)
      ensures forall x :: x in uniqAvailable <==>
                x in AdmittedKinds(old(usedIDs), records, Within(contains, place.polygon), pokemonName)
    {
      ghost var used0 := usedIDs;
      ghost var inside := Within(contains, place.polygon);
      var available: seq<string> := [];
      for i := 0 to |records|
        invariant Scan(available, usedIDs) == Admit(used0, records[..i], inside, pokemonName)
      {
        var r := records[i];
        assert records[..i + 1][..i] == records[..i];
        if r.id !in usedIDs && contains(place.polygon, r.point) {
          available := available + [pokemonName(r.pokemonId)];
          usedIDs := usedIDs[r.id := r.expiration];
        }
      }
      assert records[..|records|] == records;
      AdmitCache(used0, records, inside, pokemonName);
      AdmitKinds(used0, records, inside, pokemonName);
      uniqAvailable := UniqueKinds(available);
    }

    /** Pushes to every user subscribed to `place`, in user order. */
    method SendToDevices(place: string, pokemon: seq<string>) returns (pushes: seq<Push>)
      requires |pokemon| >= 1 || forall u :: u in users ==> !Subscribed(u, place)
      ensures pushes == Notify(users, place, pokemon)
    {
      pushes := [];
      for i := 0 to |users|
        invariant pushes == Notify(users[..i], place, pokemon)
      {
        var user := users[i];
        assert users[..i + 1][..i] == users[..i];
        var subscribed := StringInSlice(place, user.places);
        if subscribed {
          var msg := CreateMessage(pokemon);
          pushes := pushes + [Push(user.pushBulletKey, Title(place), msg)];
        }
      }
      assert users[..|users|] == users;
    }

    /** One sweep over all places in order, place i having returned `responses(i)`. A place is
        routed to its subscribers iff its scan found something; `found` records each scan's
        result. */
    method SearchPlaces(responses: nat -> seq<Sighting>) returns (pushes: seq<Push>, ghost found: seq<seq<string>>)
      modifies this
      ensures |found| == |places|
      ensures usedIDs == Sweep(old(usedIDs), places, responses, contains, pokemonName)
      ensures forall i :: 0 <= i < |places| ==>
                IsScanResult(found[i], Sweep(old(usedIDs), places[..i], responses, contains, pokemonName),
                             responses(i), Within(contains, places[i].polygon), pokemonName)
      ensures pushes == Route(places, found, users)
    {
      ghost var used0 := usedIDs;
      pushes := [];
      found := [];
      for i := 0 to |places|
        invariant |found| == i
        invariant usedIDs == Sweep(used0, places[..i], responses, contains, pokemonName)
        invariant SweepResults(used0, places[..i], responses, contains, pokemonName, found)
        invariant pushes == Route(places[..i], found, users)
      {
        var place := places[i];
        ghost var foundBefore := found;
        var availablePokemon := ScanPokevision(place, responses(i));
        found := found + [availablePokemon];
        assert found[..i] == foundBefore;
        assert places[..i + 1][..i] == places[..i];
        SweepOneMore(used0, places, responses, contains, pokemonName, i);
        RouteOneMore(places, found, users, i);
        if |availablePokemon| >= 1 {
          var sent := SendToDevices(place.name, availablePokemon);
          pushes := pushes + sent;
        }
      }
      assert places[..|places|] == places;
      forall j | 0 <= j < |places|
        ensures IsScanResult(found[j], Sweep(used0, places[..j], responses, contains, pokemonName),
                             responses(j), Within(contains, places[j].polygon), pokemonName)
      {
        SweepResultAt(used0, places, responses, contains, pokemonName, found, j);
      }
    }

    /** Evicts every id whose expiration is strictly before `now`, visiting the ids in an
        unspecified order as map iteration does. */
    method CleanExpiredIDs(now: int)
      modifies this
      ensures usedIDs == Unexpired(old(usedIDs), now)
    {
      ghost var before := usedIDs;
      var pending := usedIDs.Keys;
      while pending != {}
        invariant pending <= before.Keys
        invariant usedIDs == map id | id in before && (id in pending || now <= before[id]) :: before[id]
        decreases pending
      {
        var id :| id in pending;
        if usedIDs[id] < now {
          usedIDs := usedIDs - {id};
        }
        pending := pending - {id};
      }
    }
  }
}
