/** String helpers: membership in a list of strings and the notification sentence. */
module Text {

  /** Linear search with early return. */
  method StringInSlice(a: string, list: seq<string>) returns (found: bool)
    ensures found <==> a in list
  {
    for i := 0 to |list|
      invariant forall j :: 0 <= j < i ==> list[j] != a
    {
      if list[i] == a {
        return true;
      }
    }
    return false;
  }

  /** The elements of `words` with `sep` between each neighbouring pair. */
  function Join(words: seq<string>, sep: string): string
  {
    if |words| == 0 then ""
    else if |words| == 1 then words[0]
    else words[0] + sep + Join(words[1..], sep)
  }

  /** Appending one more word adds a separator and that word at the end. */
  lemma {:induction false} JoinSnoc(words: seq<string>, last: string, sep: string)
    requires |words| >= 1
    ensures Join(words + [last], sep) == Join(words, sep) + sep + last
  {
    if |words| == 1 {
      assert words + [last] == [words[0], last];
      assert [words[0], last][1..] == [last];
    } else {
      assert (words + [last])[1..] == words[1..] + [last];
      JoinSnoc(words[1..], last, sep);
    }
  }

  /** The message for a list of kinds: a single kind on its own; otherwise all kinds but the
      last joined by ", ", then ", and " and the last kind. */
  function Sentence(kinds: seq<string>): string
    requires |kinds| >= 1
  {
    if |kinds| == 1 then kinds[0]
    else Join(kinds[..|kinds| - 1], ", ") + ", and " + kinds[|kinds| - 1]
  }

  lemma SentenceOfTwo()
    ensures Sentence(["Pidgey", "Rattata"]) == "Pidgey, and Rattata"
  {
  }

  lemma SentenceOfThree()
    ensures Sentence(["Pidgey", "Rattata", "Zubat"]) == "Pidgey, Rattata, and Zubat"
  {
    var kinds := ["Pidgey", "Rattata", "Zubat"];
    assert kinds[..2] == ["Pidgey", "Rattata"];
    assert ["Pidgey", "Rattata"][1..] == ["Rattata"];
  }

  /** Copies the kinds into a fresh array, prefixes the last copy with "and " and joins the
      copies with ", ". The input is a value, so the caller's list is never changed. */
  method CreateMessage(pokemon: seq<string>) returns (msg: string)
    requires |pokemon| >= 1
    ensures |pokemon| == 1 ==> msg == pokemon[0]
    ensures msg == Sentence(pokemon)
  {
    var l := |pokemon|;
    if l == 1 {
      return pokemon[0];
    }
    var words := new string[l];
    for i := 0 to l
      invariant forall j :: 0 <= j < i ==> words[j] == pokemon[j]
    {
      words[i] := pokemon[i];
    }
    words[l - 1] := "and " + words[l - 1];
    assert words[..] == pokemon[..l - 1] + ["and " + pokemon[l - 1]];
    JoinSnoc(pokemon[..l - 1], "and " + pokemon[l - 1], ", ");
    msg := Join(words[..], ", ");
  }
}
