/** Who is notified of what: the users subscribed to a place receive one push with the
    message for the kinds found there. Delivery itself is external. */
module Routing {
  import opened Geo
  import opened Text

  /** A subscriber: a Pushbullet key and the names of the places subscribed to. */
  datatype User = User(pushBulletKey: string, places: seq<string>)

  /** One notification handed to the push service: the user's key, a title and a body. */
  datatype Push = Push(key: string, title: string, body: string)

  function Title(place: string): string
  {
    "Pokemon detected at " + place
  }

  predicate Subscribed(user: User, place: string)
  {
    place in user.places
  }

  /** The pushes for one place, one per subscribed user in user order. The message is only
      built when somebody is subscribed, so an empty kind list is harmless when nobody is. */
  function Notify(users: seq<User>, place: string, pokemon: seq<string>): seq<Push>
    requires |pokemon| >= 1 || forall u :: u in users ==> !Subscribed(u, place)
  {
    if users == [] then []
    else
      var u := users[|users| - 1];
      Notify(users[..|users| - 1], place, pokemon)
      + (if Subscribed(u, place) then [Push(u.pushBulletKey, Title(place), Sentence(pokemon))] else [])
  }

  /** Exactly the subscribed users are notified, each with the place's title and message. */
  lemma {:induction false} NotifyExactlySubscribers(users: seq<User>, place: string, pokemon: seq<string>)
    requires |pokemon| >= 1 || forall u :: u in users ==> !Subscribed(u, place)
    ensures forall p :: p in Notify(users, place, pokemon) <==>
              exists u :: u in users && Subscribed(u, place) &&
                          p == Push(u.pushBulletKey, Title(place), Sentence(pokemon))
  {
    if users != [] {
      var init := users[..|users| - 1];
      assert users == init + [users[|users| - 1]];
      NotifyExactlySubscribers(init, place, pokemon);
    }
  }

  /** The pushes of a whole sweep: place by place, in place order, the pushes for a place whose
      scan found something; `found[i]` is the scan result of `places[i]`. */
  function Route(places: seq<Place>, found: seq<seq<string>>, users: seq<User>): seq<Push>
    requires |found| == |places|
  {
    if places == [] then []
    else
      var n := |places| - 1;
      Route(places[..n], found[..n], users)
      + (if |found[n]| >= 1 then Notify(users, places[n].name, found[n]) else [])
  }

  /** The pushes after one more place are those before it followed by that place's pushes. */
  lemma RouteOneMore(places: seq<Place>, found: seq<seq<string>>, users: seq<User>, i: int)
    requires 0 <= i < |places| && |found| == i + 1
    ensures Route(places[..i + 1], found, users)
            == Route(places[..i], found[..i], users)
               + (if |found[i]| >= 1 then Notify(users, places[i].name, found[i]) else [])
  {
    assert places[..i + 1][..i] == places[..i];
  }

  /** A push of the sweep is a push for some place whose scan found something; a place whose
      scan found nothing causes no push. */
  lemma {:induction false} RouteOnlyFromFinds(places: seq<Place>, found: seq<seq<string>>, users: seq<User>)
    requires |found| == |places|
    ensures forall p :: p in Route(places, found, users) <==>
              exists i :: 0 <= i < |places| && |found[i]| >= 1 && p in Notify(users, places[i].name, found[i])
  {
    if places != [] {
      var n := |places| - 1;
      RouteOnlyFromFinds(places[..n], found[..n], users);
      assert forall i :: 0 <= i < n ==> places[..n][i] == places[i] && found[..n][i] == found[i];
    }
  }
}
