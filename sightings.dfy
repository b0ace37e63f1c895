/** The admission rule of a scan: which parsed records are new, what they add to the cache of
    seen ids, and the reduction of the admitted kinds to a list without repeats. */
module Sightings {
  import opened Geo

  /** One parsed record of a scan response: its id, numeric kind code, expiration time in Unix
      seconds and position. */
  datatype Sighting = Sighting(id: string, pokemonId: int, expiration: int, point: Point)

  /** The state of a scan in progress: the kind names admitted so far, in order, and the cache
      of seen ids with their expiration times. */
  datatype Scan = Scan(available: seq<string>, used: map<string, int>)

  /** One iteration of the admission loop: a record whose id is unknown and whose point lies
      inside the polygon adds its kind name and registers its id. */
  function Step(st: Scan, s: Sighting, inside: Point -> bool, name: int -> string): Scan
  {
    if s.id !in st.used && inside(s.point) then
      Scan(st.available + [name(s.pokemonId)], st.used[s.id := s.expiration])
    else
      st
  }

  /** The admission loop run over all records of one response, in order, from cache `used`. */
  function Admit(used: map<string, int>, records: seq<Sighting>, inside: Point -> bool,
                 name: int -> string): Scan
  {
    if records == [] then Scan([], used)
    else Step(Admit(used, records[..|records| - 1], inside, name), records[|records| - 1], inside, name)
  }

  /** Reference definition of admission, without the loop: record i is admitted iff its id was
      not cached before the scan, its point is inside, and no earlier record with the same id
      was inside. */
  predicate IsAdmitted(used: map<string, int>, records: seq<Sighting>, inside: Point -> bool, i: int)
  {
    && 0 <= i < |records|
    && records[i].id !in used
    && inside(records[i].point)
    && forall j :: 0 <= j < i && records[j].id == records[i].id ==> !inside(records[j].point)
  }

  function AdmittedIds(used: map<string, int>, records: seq<Sighting>, inside: Point -> bool): set<string>
  {
    set i | 0 <= i < |records| && IsAdmitted(used, records, inside, i) :: records[i].id
  }

  function AdmittedKinds(used: map<string, int>, records: seq<Sighting>, inside: Point -> bool,
                         name: int -> string): set<string>
  {
    set i | 0 <= i < |records| && IsAdmitted(used, records, inside, i) :: name(records[i].pokemonId)
  }

  /** The first record of an unknown id that lies inside is admitted. */
  lemma {:induction false} FirstInsideAdmitted(used: map<string, int>, records: seq<Sighting>,
                                               inside: Point -> bool, j: int)
    requires 0 <= j < |records| && records[j].id !in used && inside(records[j].point)
    ensures exists i :: 0 <= i <= j && IsAdmitted(used, records, inside, i) && records[i].id == records[j].id
    decreases j
  {
    if !IsAdmitted(used, records, inside, j) {
      var k :| 0 <= k < j && records[k].id == records[j].id && inside(records[k].point);
      FirstInsideAdmitted(used, records, inside, k);
    }
  }

  /** An id occurring several times in one response is admitted at most once. */
  lemma AdmittedOnce(used: map<string, int>, records: seq<Sighting>, inside: Point -> bool, i: int, j: int)
    requires IsAdmitted(used, records, inside, i) && IsAdmitted(used, records, inside, j)
    requires records[i].id == records[j].id
    ensures i == j
  {
  }

  /** Admission of each earlier record does not depend on the records after it. */
  lemma AdmittedInPrefix(used: map<string, int>, records: seq<Sighting>, inside: Point -> bool, n: int)
    requires 0 <= n <= |records|
    ensures forall i :: 0 <= i < n ==> (IsAdmitted(used, records[..n], inside, i) <==> IsAdmitted(used, records, inside, i))
  {
  }

  /** How the reference definition grows by one record: the last record is admitted iff its id
      is neither cached nor admitted earlier and its point is inside. */
  lemma AdmittedSnoc(used: map<string, int>, records: seq<Sighting>, inside: Point -> bool, name: int -> string)
    requires |records| >= 1
    ensures var n := |records| - 1;
            IsAdmitted(used, records, inside, n) <==>
              records[n].id !in used && records[n].id !in AdmittedIds(used, records[..n], inside) && inside(records[n].point)
    ensures var n := |records| - 1;
            AdmittedIds(used, records, inside) ==
              AdmittedIds(used, records[..n], inside) + (if IsAdmitted(used, records, inside, n) then {records[n].id} else {})
    ensures var n := |records| - 1;
            AdmittedKinds(used, records, inside, name) ==
              AdmittedKinds(used, records[..n], inside, name)
              + (if IsAdmitted(used, records, inside, n) then {name(records[n].pokemonId)} else {})
  {
    var n := |records| - 1;
    var pre := records[..n];
    var s := records[n];
    AdmittedInPrefix(used, records, inside, n);
    if !IsAdmitted(used, records, inside, n) && s.id !in used && s.id !in AdmittedIds(used, pre, inside) && inside(s.point) {
      var j :| 0 <= j < n && records[j].id == s.id && inside(records[j].point);
      FirstInsideAdmitted(used, pre, inside, j);
      assert false;
    }
  }

  /** The admission loop agrees with the reference definition on the cache: it removes no id,
      changes no cached expiration, and adds exactly the admitted ids with their expirations. */
  lemma {:induction false} AdmitCache(used: map<string, int>, records: seq<Sighting>,
                                      inside: Point -> bool, name: int -> string)
    ensures Admit(used, records, inside, name).used.Keys == used.Keys + AdmittedIds(used, records, inside)
    ensures forall k :: k in used ==> Admit(used, records, inside, name).used[k] == used[k]
    ensures forall i :: IsAdmitted(used, records, inside, i) ==>
              Admit(used, records, inside, name).used[records[i].id] == records[i].expiration
  {
    if records != [] {
      var n := |records| - 1;
      var pre := records[..n];
      AdmitCache(used, pre, inside, name);
      AdmittedSnoc(used, records, inside, name);
      AdmittedInPrefix(used, records, inside, n);
      var st := Admit(used, pre, inside, name).used;
      var s := records[n];
      var last := IsAdmitted(used, records, inside, n);
      assert Admit(used, records, inside, name).used == if last then st[s.id := s.expiration] else st;
      forall i | IsAdmitted(used, records, inside, i)
        ensures Admit(used, records, inside, name).used[records[i].id] == records[i].expiration
      {
        if i < n {
          assert IsAdmitted(used, pre, inside, i) && pre[i] == records[i];
          assert last ==> records[i].id != s.id;
        }
      }
    }
  }

  /** The admission loop collects exactly the kind names of the admitted records. */
  lemma {:induction false} AdmitKinds(used: map<string, int>, records: seq<Sighting>,
                                      inside: Point -> bool, name: int -> string)
    ensures forall x :: x in Admit(used, records, inside, name).available <==>
              x in AdmittedKinds(used, records, inside, name)
  {
    if records != [] {
      var n := |records| - 1;
      AdmitKinds(used, records[..n], inside, name);
      AdmitCache(used, records[..n], inside, name);
      AdmittedSnoc(used, records, inside, name);
    }
  }

  /** When every record inside already has a cached id, the loop admits nothing. */
  lemma {:induction false} NothingFresh(used: map<string, int>, records: seq<Sighting>,
                                        inside: Point -> bool, name: int -> string)
    requires forall i :: 0 <= i < |records| && inside(records[i].point) ==> records[i].id in used
    ensures Admit(used, records, inside, name) == Scan([], used)
  {
    if records != [] {
      NothingFresh(used, records[..|records| - 1], inside, name);
    }
  }

  /** Scanning the same records again, from the cache the first scan left, admits nothing and
      leaves the cache as it is. */
  lemma RescanAdmitsNothing(used: map<string, int>, records: seq<Sighting>,
                            inside: Point -> bool, name: int -> string)
    ensures var after := Admit(used, records, inside, name).used;
            Admit(after, records, inside, name) == Scan([], after)
  {
    var after := Admit(used, records, inside, name).used;
    AdmitCache(used, records, inside, name);
    forall i | 0 <= i < |records| && inside(records[i].point)
      ensures records[i].id in after
    {
      if records[i].id !in used {
        FirstInsideAdmitted(used, records, inside, i);
      }
    }
    NothingFresh(after, records, inside, name);
  }

  /** Two records with distinct ids, both inside, seen by an empty cache: both kinds are
      collected in response order and both ids are registered. */
  lemma TwoNewRecordsAdmitted(a: Sighting, b: Sighting, inside: Point -> bool, name: int -> string)
    requires a.id != b.id && inside(a.point) && inside(b.point)
    ensures Admit(map[], [a, b], inside, name)
            == Scan([name(a.pokemonId), name(b.pokemonId)], map[a.id := a.expiration, b.id := b.expiration])
  {
    assert [a, b][..1] == [a];
    assert [a][..0] == [];
    var first := Admit(map[], [a], inside, name);
    assert Admit(map[], [], inside, name) == Scan([], map[]);
    assert first == Step(Scan([], map[]), a, inside, name);
    assert first == Scan([name(a.pokemonId)], map[a.id := a.expiration]);
    assert Admit(map[], [a, b], inside, name) == Step(first, b, inside, name);
  }

  predicate Distinct(s: seq<string>)
  {
    forall i, j :: 0 <= i < j < |s| ==> s[i] != s[j]
  }

  /** Reduces a list of names to one without repeats through a set of keys. The keys come out
      in an unspecified order, as map iteration does. */
  method UniqueKinds(available: seq<string>) returns (uniq: seq<string>)
    ensures Distinct(uniq)
    ensures forall x :: x in uniq <==> x in available
  {
    var uniqMap: map<string, bool> := map[];
    for i := 0 to |available|
      invariant forall x :: x in uniqMap <==> x in available[..i]
    {
      uniqMap := uniqMap[available[i] := true];
    }
    assert available[..|available|] == available;
    uniq := [];
    var rest := uniqMap.Keys;
    while rest != {}
      invariant rest <= uniqMap.Keys
      invariant forall x :: x in uniq <==> x in uniqMap && x !in rest
      invariant Distinct(uniq)
      decreases rest
    {
      var key :| key in rest;
      uniq := uniq + [key];
      rest := rest - {key};
    }
  }

  /** `result` is a possible return of one scan: the admitted kind names, each once, in any order. */
  ghost predicate IsScanResult(result: seq<string>, used: map<string, int>, records: seq<Sighting>,
                         inside: Point -> bool, name: int -> string)
  {
    && Distinct(result)
    && forall x :: x in result <==> x in Admit(used, records, inside, name).available
  }

  /** The cache after the first |places| places of a sweep have been scanned, place i having
      returned `responses(i)`. */
  function Sweep(used: map<string, int>, places: seq<Place>, responses: nat -> seq<Sighting>,
                 contains: (Polygon, Point) -> bool, name: int -> string): map<string, int>
  {
    if places == [] then used
    else
      var n := |places| - 1;
      Admit(Sweep(used, places[..n], responses, contains, name), responses(n),
            Within(contains, places[n].polygon), name).used
  }

  /** A sweep only adds to the cache: no id is removed and no cached expiration changes. */
  lemma {:induction false} SweepGrows(used: map<string, int>, places: seq<Place>, responses: nat -> seq<Sighting>,
                                      contains: (Polygon, Point) -> bool, name: int -> string)
    ensures used.Keys <= Sweep(used, places, responses, contains, name).Keys
    ensures forall k :: k in used ==> Sweep(used, places, responses, contains, name)[k] == used[k]
  {
    if places != [] {
      var n := |places| - 1;
      SweepGrows(used, places[..n], responses, contains, name);
      AdmitCache(Sweep(used, places[..n], responses, contains, name), responses(n),
                 Within(contains, places[n].polygon), name);
    }
  }

  /** The cache after one more place is the admission fold of the cache before it. */
  lemma SweepOneMore(used: map<string, int>, places: seq<Place>, responses: nat -> seq<Sighting>,
                     contains: (Polygon, Point) -> bool, name: int -> string, i: int)
    requires 0 <= i < |places|
    ensures Sweep(used, places[..i + 1], responses, contains, name)
            == Admit(Sweep(used, places[..i], responses, contains, name), responses(i),
                     Within(contains, places[i].polygon), name).used
  {
    assert places[..i + 1][..i] == places[..i];
  }

  /** `found[i]` is a possible result of the scan of `places[i]`, each place scanned from the
      cache the places before it left. */
  ghost predicate SweepResults(used: map<string, int>, places: seq<Place>, responses: nat -> seq<Sighting>,
                               contains: (Polygon, Point) -> bool, name: int -> string, found: seq<seq<string>>)
  {
    if places == [] then found == []
    else
      var n := |places| - 1;
      && |found| == |places|
      && SweepResults(used, places[..n], responses, contains, name, found[..n])
      && IsScanResult(found[n], Sweep(used, places[..n], responses, contains, name), responses(n),
                      Within(contains, places[n].polygon), name)
  }

  /** Read at one place, SweepResults says that the result is that place's scan result. */
  lemma {:induction false} SweepResultAt(used: map<string, int>, places: seq<Place>, responses: nat -> seq<Sighting>,
                                         contains: (Polygon, Point) -> bool, name: int -> string,
                                         found: seq<seq<string>>, i: int)
    requires SweepResults(used, places, responses, contains, name, found)
    requires 0 <= i < |places|
    ensures |found| == |places|
    ensures IsScanResult(found[i], Sweep(used, places[..i], responses, contains, name), responses(i),
                         Within(contains, places[i].polygon), name)
  {
    var n := |places| - 1;
    if i < n {
      SweepResultAt(used, places[..n], responses, contains, name, found[..n], i);
      assert found[..n][i] == found[i];
      assert places[..n][i] == places[i];
      assert places[..n][..i] == places[..i];
    }
  }

  /** Containment in one fixed polygon. */
  function Within(contains: (Polygon, Point) -> bool, polygon: Polygon): Point -> bool
  {
    p => contains(polygon, p)
  }
}
