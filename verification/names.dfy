/** Byte order on strings and sorting by it. */
module Names {
  predicate Less(a: string, b: string) {
    if b == "" then false
    else if a == "" then true
    else if a[0] != b[0] then a[0] < b[0]
    else Less(a[1..], b[1..])
  }

  lemma {:induction false} LessTotal(a: string, b: string)
    ensures Less(a, b) || Less(b, a) || a == b
    ensures !(Less(a, b) && Less(b, a)) && !Less(a, a)
  {
    if a != "" && b != "" && a[0] == b[0] {
      LessTotal(a[1..], b[1..]);
      assert a == [a[0]] + a[1..] && b == [b[0]] + b[1..];
    }
    if a != "" { LessTotal(a[1..], a[1..]); }
  }

  lemma {:induction false} LessTransitive(a: string, b: string, c: string)
    requires Less(a, b) && Less(b, c)
    ensures Less(a, c)
  {
    if a != "" && a[0] == b[0] == c[0] { LessTransitive(a[1..], b[1..], c[1..]); }
  }

  /** Strictly ascending, so without duplicates. */
  predicate Ascending(s: seq<string>) {
    forall i, j :: 0 <= i < j < |s| ==> Less(s[i], s[j])
  }

  /** sort.Strings on names that are all different. */
  function Insert(x: string, s: seq<string>): seq<string> {
    if s == [] || Less(x, s[0]) then [x] + s else [s[0]] + Insert(x, s[1..])
  }

  function Sort(s: seq<string>): seq<string> {
    if s == [] then [] else Insert(s[0], Sort(s[1..]))
  }

  ghost predicate NoDuplicates(s: seq<string>) {
    forall i, j :: 0 <= i < j < |s| ==> s[i] != s[j]
  }

  lemma {:induction false} InsertMembers(x: string, s: seq<string>)
    ensures |Insert(x, s)| == |s| + 1 && forall y :: y in Insert(x, s) <==> y == x || y in s
  {
    if s != [] {
      assert s == [s[0]] + s[1..];
      if !Less(x, s[0]) { InsertMembers(x, s[1..]); }
    }
  }

  lemma AscendingCons(x: string, s: seq<string>)
    requires Ascending(s) && forall y :: y in s ==> Less(x, y)
    ensures Ascending([x] + s)
  {
  }

  lemma {:induction false} InsertAscending(x: string, s: seq<string>)
    requires Ascending(s) && x !in s
    ensures Ascending(Insert(x, s))
  {
    if s == [] {
    } else if Less(x, s[0]) {
      forall y | y in s
        ensures Less(x, y)
      {
        if y != s[0] { LessTransitive(x, s[0], y); }
      }
      AscendingCons(x, s);
    } else {
      LessTotal(x, s[0]);
      InsertAscending(x, s[1..]);
      InsertMembers(x, s[1..]);
      AscendingCons(s[0], Insert(x, s[1..]));
    }
  }

  /** Sorting different names yields the same names, ascending. */
  lemma {:induction false} SortAscends(s: seq<string>)
    requires NoDuplicates(s)
    ensures Ascending(Sort(s)) && |Sort(s)| == |s| && forall y :: y in Sort(s) <==> y in s
  {
    if s != [] {
      SortAscends(s[1..]);
      InsertMembers(s[0], Sort(s[1..]));
      InsertAscending(s[0], Sort(s[1..]));
      assert s == [s[0]] + s[1..];
    }
  }

  /** In order, equal names next to each other. */
  predicate Ordered(s: seq<string>) {
    forall i, j :: 0 <= i < j < |s| ==> s[i] == s[j] || Less(s[i], s[j])
  }

  lemma {:induction false} InsertOrdered(x: string, s: seq<string>)
    requires Ordered(s)
    ensures Ordered(Insert(x, s))
  {
    if s == [] {
    } else if Less(x, s[0]) {
      forall i | 0 <= i < |s|
        ensures Less(x, s[i])
      {
        if i > 0 && s[i] != s[0] { LessTransitive(x, s[0], s[i]); }
      }
    } else {
      LessTotal(x, s[0]);
      InsertOrdered(x, s[1..]);
      InsertMembers(x, s[1..]);
      var r := Insert(x, s[1..]);
      forall j | 0 <= j < |r|
        ensures s[0] == r[j] || Less(s[0], r[j])
      {
        assert r[j] in r;
        if r[j] != x {
          var i :| 0 <= i < |s[1..]| && s[1..][i] == r[j];
          assert s[i + 1] == r[j];
        }
      }
    }
  }

  /** Sorting any names yields the same names, in order. */
  lemma {:induction false} SortOrders(s: seq<string>)
    ensures Ordered(Sort(s)) && forall y :: y in Sort(s) <==> y in s
  {
    if s != [] {
      SortOrders(s[1..]);
      InsertMembers(s[0], Sort(s[1..]));
      InsertOrdered(s[0], Sort(s[1..]));
      assert s == [s[0]] + s[1..];
    }
  }

  lemma FirstIsLeast(s: seq<string>, y: string)
    requires Ascending(s) && y in s
    ensures y == s[0] || Less(s[0], y)
  {
  }

  /** An ascending list is determined by its members. */
  lemma {:induction false} AscendingUnique(s: seq<string>, t: seq<string>)
    requires Ascending(s) && Ascending(t) && |s| == |t| && forall y :: y in s <==> y in t
    ensures s == t
  {
    if s != [] {
      FirstIsLeast(s, t[0]);
      FirstIsLeast(t, s[0]);
      LessTotal(s[0], t[0]);
      forall y
        ensures y in s[1..] <==> y in t[1..]
      {
        LessTotal(s[0], s[0]);
        assert y in s <==> y == s[0] || y in s[1..];
        assert y in t <==> y == t[0] || y in t[1..];
      }
      AscendingUnique(s[1..], t[1..]);
      assert s == [s[0]] + s[1..] && t == [t[0]] + t[1..];
    }
  }

  lemma AscendingDistinct(s: seq<string>)
    requires Ascending(s)
    ensures NoDuplicates(s)
  {
    forall i, j | 0 <= i < j < |s|
      ensures s[i] != s[j]
    {
      LessTotal(s[i], s[j]);
    }
  }

  /** Every finite set of names can be listed in order. */
  lemma {:induction false} AscendingList(s: set<string>) returns (r: seq<string>)
    ensures Ascending(r) && forall y :: y in r <==> y in s
    decreases s
  {
    r := [];
    if s != {} {
      var x :| x in s;
      r := AscendingList(s - {x});
      InsertAscending(x, r);
      InsertMembers(x, r);
      r := Insert(x, r);
    }
  }

  lemma {:induction false} SameLength(a: seq<string>, b: seq<string>)
    requires NoDuplicates(a) && NoDuplicates(b) && forall x :: x in a <==> x in b
    ensures |a| == |b|
  {
    DistinctSize(a);
    DistinctSize(b);
    assert (set x | x in a) == (set x | x in b);
  }

  lemma {:induction false} DistinctSize(a: seq<string>)
    requires NoDuplicates(a)
    ensures |set x | x in a| == |a|
  {
    if a != [] {
      var n := |a| - 1;
      DistinctSize(a[..n]);
      assert (set x | x in a) == (set x | x in a[..n]) + {a[n]};
    }
  }

  /** The members of a set, ascending. */
  ghost function InOrder(s: set<string>): (r: seq<string>)
    ensures Ascending(r) && forall y :: y in r <==> y in s
  {
    OrderExists(s);
    var r :| Ascending(r) && forall y :: y in r <==> y in s;
    r
  }

  lemma OrderExists(s: set<string>)
    ensures exists r: seq<string> :: Ascending(r) && forall y :: y in r <==> y in s
  {
    var r := AscendingList(s);
  }

  lemma OrderUnique(r: seq<string>, s: set<string>)
    requires Ascending(r) && forall y :: y in r <==> y in s
    ensures r == InOrder(s)
  {
    AscendingDistinct(r);
    AscendingDistinct(InOrder(s));
    SameLength(r, InOrder(s));
    AscendingUnique(r, InOrder(s));
  }

  /** Listing a set and sorting it. */
  method SortedSet(s: set<string>) returns (r: seq<string>)
    ensures r == InOrder(s)
  {
    var todo := s;
    r := [];
    while todo != {}
      invariant NoDuplicates(r) && forall y :: y in s <==> y in todo || y in r
      invariant forall y :: y in r ==> y !in todo
      decreases todo
    {
      var y :| y in todo;
      r := r + [y];
      todo := todo - {y};
    }
    SortAscends(r);
    r := Sort(r);
    OrderUnique(r, s);
  }
}
