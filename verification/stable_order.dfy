/** Stable sorting by descending key, and what the first match in such an order is. */
module StableOrder {
  import opened Common

  datatype Keyed<T> = Keyed(key: nat, item: T)

  /** Before the first element whose key is not larger: earlier elements go first among equals. */
  function Place<T>(x: Keyed<T>, s: seq<Keyed<T>>): seq<Keyed<T>> {
    if s == [] || s[0].key <= x.key then [x] + s else [s[0]] + Place(x, s[1..])
  }

  function StableSort<T>(s: seq<Keyed<T>>): seq<Keyed<T>> {
    if s == [] then [] else Place(s[0], StableSort(s[1..]))
  }

  predicate Descending<T>(s: seq<Keyed<T>>) {
    forall i, j :: 0 <= i < j < |s| ==> s[i].key >= s[j].key
  }

  /** The elements with one key, in order. */
  function WithKey<T>(s: seq<Keyed<T>>, key: nat): seq<Keyed<T>> {
    if s == [] then [] else (if s[0].key == key then [s[0]] else []) + WithKey(s[1..], key)
  }

  lemma {:induction false} PlaceMembers<T>(x: Keyed<T>, s: seq<Keyed<T>>)
    ensures multiset(Place(x, s)) == multiset(s) + multiset{x}
  {
    if s == [] || s[0].key <= x.key {
    } else {
      PlaceMembers(x, s[1..]);
      assert s == [s[0]] + s[1..];
    }
  }

  lemma {:induction false} PlaceDescending<T>(x: Keyed<T>, s: seq<Keyed<T>>)
    requires Descending(s)
    ensures Descending(Place(x, s))
  {
    if s != [] && s[0].key > x.key {
      PlaceDescending(x, s[1..]);
      PlaceMembers(x, s[1..]);
      var r := Place(x, s[1..]);
      forall j | 0 <= j < |r|
        ensures s[0].key >= r[j].key
      {
        assert r[j] in multiset(r);
        if r[j] != x { assert r[j] in s[1..]; }
      }
    }
  }

  lemma {:induction false} PlaceWithKey<T>(x: Keyed<T>, s: seq<Keyed<T>>, key: nat)
    requires Descending(s)
    ensures WithKey(Place(x, s), key) == (if x.key == key then [x] else []) + WithKey(s, key)
  {
    if s == [] || s[0].key <= x.key {
      assert ([x] + s)[1..] == s;
    } else {
      PlaceWithKey(x, s[1..], key);
      var r := Place(x, s[1..]);
      assert ([s[0]] + r)[1..] == r;
      if x.key == key {
        assert s[0].key != key;
      }
    }
  }

  /** Sorting permutes, orders by descending key, and keeps the order of elements with the same key. */
  lemma {:induction false} SortMeaning<T>(s: seq<Keyed<T>>)
    ensures multiset(StableSort(s)) == multiset(s) && Descending(StableSort(s))
    ensures forall key :: WithKey(StableSort(s), key) == WithKey(s, key)
  {
    if s != [] {
      SortMeaning(s[1..]);
      PlaceMembers(s[0], StableSort(s[1..]));
      PlaceDescending(s[0], StableSort(s[1..]));
      assert s == [s[0]] + s[1..];
      forall key
        ensures WithKey(StableSort(s), key) == WithKey(s, key)
      {
        PlaceWithKey(s[0], StableSort(s[1..]), key);
      }
    }
  }

  // ---- First match

  function FirstMatch<T(!new)>(s: seq<Keyed<T>>, hits: T -> bool): Option<Keyed<T>> {
    if s == [] then None else if hits(s[0].item) then Some(s[0]) else FirstMatch(s[1..], hits)
  }

  /** The match with the largest key, the earliest of those. */
  function Best<T(!new)>(s: seq<Keyed<T>>, hits: T -> bool): Option<Keyed<T>> {
    if s == [] then None
    else
      var rest := Best(s[1..], hits);
      if hits(s[0].item) && (rest.None? || rest.value.key <= s[0].key) then Some(s[0]) else rest
  }

  function Item<T>(k: Option<Keyed<T>>): Option<T> {
    if k.None? then None else Some(k.value.item)
  }

  /** Best is a match, no match has a larger key, and it is the first of its key. */
  lemma {:induction false} BestMeaning<T(!new)>(s: seq<Keyed<T>>, hits: T -> bool)
    ensures Best(s, hits).None? <==> forall i :: 0 <= i < |s| ==> !hits(s[i].item)
    ensures Best(s, hits).Some? ==> exists i :: 0 <= i < |s| && IsBest(s, hits, i) && s[i] == Best(s, hits).value
  {
    if s != [] {
      BestMeaning(s[1..], hits);
      var b, rest := Best(s, hits), Best(s[1..], hits);
      if hits(s[0].item) && (rest.None? || rest.value.key <= s[0].key) {
        forall j | 0 < j < |s| && hits(s[j].item)
          ensures s[j].key <= s[0].key
        {
          assert hits(s[1..][j - 1].item);
        }
        assert IsBest(s, hits, 0);
      } else if rest.Some? {
        var i :| 0 <= i < |s[1..]| && IsBest(s[1..], hits, i) && s[1..][i] == rest.value;
        forall j | 0 <= j < |s| && hits(s[j].item)
          ensures s[j].key <= s[i + 1].key && (s[j].key == s[i + 1].key ==> i + 1 <= j)
        {
          if j > 0 { assert hits(s[1..][j - 1].item); }
        }
        assert IsBest(s, hits, i + 1);
      }
    }
  }

  ghost predicate IsBest<T(!new)>(s: seq<Keyed<T>>, hits: T -> bool, i: nat)
    requires i < |s|
  {
    && hits(s[i].item)
    && forall j :: 0 <= j < |s| && hits(s[j].item) ==> s[j].key <= s[i].key && (s[j].key == s[i].key ==> i <= j)
  }

  lemma {:induction false} PlaceFirst<T(!new)>(x: Keyed<T>, s: seq<Keyed<T>>, hits: T -> bool)
    requires Descending(s)
    ensures FirstMatch(Place(x, s), hits) ==
      if hits(x.item) && (FirstMatch(s, hits).None? || FirstMatch(s, hits).value.key <= x.key) then Some(x)
      else FirstMatch(s, hits)
  {
    if s == [] || s[0].key <= x.key {
      assert ([x] + s)[1..] == s;
      FirstMatchMember(s, hits);
    } else {
      var r := Place(x, s[1..]);
      assert ([s[0]] + r)[1..] == r;
      PlaceFirst(x, s[1..], hits);
    }
  }

  lemma {:induction false} FirstMatchMember<T(!new)>(s: seq<Keyed<T>>, hits: T -> bool)
    ensures FirstMatch(s, hits).Some? ==> FirstMatch(s, hits).value in s
  {
    if s != [] { FirstMatchMember(s[1..], hits); }
  }

  /** In the sorted order the first match is the best one. */
  lemma {:induction false} FirstIsBest<T(!new)>(s: seq<Keyed<T>>, hits: T -> bool)
    ensures FirstMatch(StableSort(s), hits) == Best(s, hits)
  {
    if s != [] {
      FirstIsBest(s[1..], hits);
      SortMeaning(s[1..]);
      PlaceFirst(s[0], StableSort(s[1..]), hits);
    }
  }

  /** Two keyings that agree on the matches have the same best item. */
  lemma {:induction false} BestAgree<T(!new)>(s: seq<Keyed<T>>, t: seq<Keyed<T>>, hits: T -> bool)
    requires |s| == |t| && forall i :: 0 <= i < |s| ==> s[i].item == t[i].item
    requires forall i, j :: 0 <= i < |s| && 0 <= j < |s| && hits(s[i].item) && hits(s[j].item) ==>
      (s[i].key <= s[j].key <==> t[i].key <= t[j].key)
    ensures Item(Best(s, hits)) == Item(Best(t, hits))
    ensures Best(s, hits).Some? ==>
      exists i :: 0 <= i < |s| && hits(s[i].item) && s[i] == Best(s, hits).value && t[i] == Best(t, hits).value
  {
    if s != [] {
      var a, b := s[1..], t[1..];
      BestAgree(a, b, hits);
      if Best(a, hits).Some? {
        var i :| 0 <= i < |a| && hits(a[i].item) && a[i] == Best(a, hits).value && b[i] == Best(b, hits).value;
        assert s[i + 1] == a[i] && t[i + 1] == b[i];
      }
    }
  }
}
