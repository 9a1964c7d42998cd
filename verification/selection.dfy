/** Which managed paths git ignores, and which permission covers a host path. */
module Selection {
  import opened Common
  import opened Splitting
  import opened Names
  import opened StableOrder

  predicate CleanPath(p: Path) {
    forall i :: 0 <= i < |p| ==> ValidComponent(p[i])
  }

  /** pathWithinRoot on clean absolute paths. */
  predicate Within(root: Path, candidate: Path) {
    root <= candidate
  }

  // ---- Ignore patterns

  predicate Covers(pattern: string, candidate: string) {
    pattern <= candidate
  }

  /** A candidate that no other candidate covers. */
  predicate Minimal(candidates: seq<string>, c: string) {
    c in candidates && forall d :: d in candidates && Covers(d, c) ==> d == c
  }

  /** The patterns: the minimal candidates, once each, in order. */
  ghost predicate Reduction(candidates: seq<string>, patterns: seq<string>) {
    Ascending(patterns) && forall c :: c in patterns <==> Minimal(candidates, c)
  }

  /** The pattern of a path below the project. */
  function PatternOf(relative: Path): string {
    "/" + JoinWith('/', relative) + "/"
  }

  predicate Controlled(relative: Path) {
    var text := JoinWith('/', relative);
    '\0' in text || '\r' in text || '\n' in text
  }

  /** The paths properly below the project, relative to it. */
  function Inside(project: Path, configured: seq<Path>): seq<Path> {
    if configured == [] then []
    else
      var n := |configured| - 1;
      Inside(project, configured[..n])
        + (if project < configured[n] then [configured[n][|project|..]] else [])
  }

  function Candidates(relatives: seq<Path>): seq<string> {
    if relatives == [] then []
    else Candidates(relatives[..|relatives| - 1]) + [PatternOf(relatives[|relatives| - 1])]
  }

  /** projectIgnorePatterns, for the configured paths made absolute and clean. */
  method ProjectIgnorePatterns(project: Path, configured: seq<Path>) returns (patterns: Option<seq<string>>)
    ensures patterns.None?
      <==> exists i :: 0 <= i < |Inside(project, configured)| && Controlled(Inside(project, configured)[i])
    ensures patterns.Some? ==> Reduction(Candidates(Inside(project, configured)), patterns.value)
  {
    var candidates: seq<string> := [];
    ghost var inside: seq<Path> := [];
    assert configured[..0] == [] && configured[..|configured|] == configured;
    for i := 0 to |configured|
      invariant inside == Inside(project, configured[..i]) && candidates == Candidates(inside)
      invariant forall k :: 0 <= k < |inside| ==> !Controlled(inside[k])
    {
      var target := configured[i];
      assert configured[..i + 1][..i] == configured[..i];
      if !(project < target) { continue; }
      var relative := target[|project|..];
      if Controlled(relative) {
        InsideMember(project, configured, i);
        return None;
      }
      assert (inside + [relative])[..|inside|] == inside;
      inside := inside + [relative];
      candidates := candidates + [PatternOf(relative)];
    }
    var reduced := Reduce(Sort(candidates), candidates);
    return Some(reduced);
  }

  lemma {:induction false} InsideMember(project: Path, configured: seq<Path>, i: nat)
    requires i < |configured| && project < configured[i]
    ensures exists k ::
      0 <= k < |Inside(project, configured)| && Inside(project, configured)[k] == configured[i][|project|..]
    decreases |configured|
  {
    var n := |configured| - 1;
    var all := Inside(project, configured);
    if i < n {
      InsideMember(project, configured[..n], i);
      var k :| 0 <= k < |Inside(project, configured[..n])|
        && Inside(project, configured[..n])[k] == configured[i][|project|..];
      assert all[k] == configured[i][|project|..];
    } else {
      assert all[|all| - 1] == configured[n][|project|..];
    }
  }

  lemma {:induction false} PrefixLess(a: string, b: string)
    requires a < b
    ensures Less(a, b)
  {
    if a != "" {
      assert a[1..] < b[1..];
      PrefixLess(a[1..], b[1..]);
    }
  }

  /** Some minimal candidate covers any given one: the shortest that does. */
  lemma {:induction false} MinimalCover(candidates: seq<string>, c: string) returns (m: string)
    requires c in candidates
    ensures Minimal(candidates, m) && Covers(m, c)
    decreases |c|
  {
    if Minimal(candidates, c) {
      m := c;
    } else {
      var d :| d in candidates && Covers(d, c) && d != c;
      m := MinimalCover(candidates, d);
    }
  }

  /** The greedy pass over the sorted candidates. */
  method Reduce(sorted: seq<string>, ghost candidates: seq<string>) returns (patterns: seq<string>)
    requires sorted == Sort(candidates)
    ensures Reduction(candidates, patterns)
  {
    SortOrders(candidates);
    patterns := [];
    for i := 0 to |sorted|
      invariant Reduced(candidates, sorted, i, patterns)
    {
      var covered := false;
      for j := 0 to |patterns|
        invariant covered <==> exists k :: 0 <= k < j && Covers(patterns[k], sorted[i])
      {
        if patterns[j] <= sorted[i] {
          covered := true;
          break;
        }
      }
      if covered {
        CoveredStep(candidates, sorted, i, patterns);
      } else {
        FreshStep(candidates, sorted, i, patterns);
        patterns := patterns + [sorted[i]];
      }
    }
  }

  /** After i candidates: the minimal ones among them, in order. */
  ghost predicate Reduced(candidates: seq<string>, sorted: seq<string>, i: nat, patterns: seq<string>) {
    && i <= |sorted| && Ascending(patterns)
    && forall c :: c in patterns <==> Minimal(candidates, c) && c in sorted[..i]
  }

  lemma CoveredStep(candidates: seq<string>, sorted: seq<string>, i: nat, patterns: seq<string>)
    requires i < |sorted| && Reduced(candidates, sorted, i, patterns)
    requires exists k :: 0 <= k < |patterns| && Covers(patterns[k], sorted[i])
    ensures Reduced(candidates, sorted, i + 1, patterns)
  {
    var k :| 0 <= k < |patterns| && Covers(patterns[k], sorted[i]);
    assert patterns[k] in patterns;
    assert sorted[..i + 1] == sorted[..i] + [sorted[i]];
  }

  /** A minimal candidate that properly covers the next one is a pattern already. */
  lemma EarlierPattern(candidates: seq<string>, sorted: seq<string>, i: nat, patterns: seq<string>, m: string)
    requires i < |sorted| && Reduced(candidates, sorted, i, patterns)
    requires Ordered(sorted) && m in sorted && Minimal(candidates, m)
    requires Covers(m, sorted[i]) && m != sorted[i]
    ensures m in patterns
  {
    PrefixLess(m, sorted[i]);
    LessTotal(m, sorted[i]);
    var j :| 0 <= j < |sorted| && sorted[j] == m;
    assert j < i && sorted[..i][j] == m;
  }

  lemma FreshStep(candidates: seq<string>, sorted: seq<string>, i: nat, patterns: seq<string>)
    requires i < |sorted| && Reduced(candidates, sorted, i, patterns)
    requires Ordered(sorted) && forall y :: y in sorted <==> y in candidates
    requires !exists k :: 0 <= k < |patterns| && Covers(patterns[k], sorted[i])
    ensures Reduced(candidates, sorted, i + 1, patterns + [sorted[i]])
  {
    var c := sorted[i];
    assert c in candidates;
    var m := MinimalCover(candidates, c);
    if m != c {
      EarlierPattern(candidates, sorted, i, patterns, m);
      assert false;
    }
    assert sorted[..i + 1] == sorted[..i] + [c];
    forall p | p in patterns
      ensures Less(p, c)
    {
      var j :| 0 <= j < i && sorted[..i][j] == p;
      assert sorted[j] == p;
      var k :| 0 <= k < |patterns| && patterns[k] == p;
      assert !Covers(patterns[k], c);
    }
    SnocAscending(patterns, c);
  }

  lemma SnocAscending(s: seq<string>, c: string)
    requires Ascending(s) && forall p :: p in s ==> Less(p, c)
    ensures Ascending(s + [c])
  {
    forall i, j | 0 <= i < j < |s + [c]|
      ensures Less((s + [c])[i], (s + [c])[j])
    {
      assert s[i] in s;
    }
  }

  /** Every candidate is covered by a pattern, and no pattern covers another. */
  lemma ReductionCovers(candidates: seq<string>, patterns: seq<string>)
    requires Reduction(candidates, patterns)
    ensures forall c :: c in candidates ==> exists p :: p in patterns && Covers(p, c)
    ensures forall p, q :: p in patterns && q in patterns && Covers(p, q) ==> p == q
  {
    forall c | c in candidates
      ensures exists p :: p in patterns && Covers(p, c)
    {
      var m := MinimalCover(candidates, c);
      assert m in patterns;
    }
  }

  /** One pattern covers another exactly when its directory contains the other. */
  lemma PatternCovers(a: Path, b: Path)
    requires CleanPath(a) && CleanPath(b) && a != [] && b != []
    ensures Covers(PatternOf(a), PatternOf(b)) <==> a <= b
  {
    TextPrefix(a, b);
    var x, y := JoinWith('/', a) + "/", JoinWith('/', b) + "/";
    assert PatternOf(a) == "/" + x && PatternOf(b) == "/" + y;
    PrefixAfter("/", x, y);
  }

  /** Text prefixes of directory patterns are path prefixes: the closing slash sees to that. */
  lemma {:induction false} TextPrefix(a: Path, b: Path)
    requires CleanPath(a) && CleanPath(b) && a != [] && b != []
    ensures JoinWith('/', a) + "/" <= JoinWith('/', b) + "/" <==> a <= b
    decreases |a|
  {
    var x, y := JoinWith('/', a) + "/", JoinWith('/', b) + "/";
    FirstSegment(a);
    FirstSegment(b);
    var restA := if |a| == 1 then "" else JoinWith('/', a[1..]) + "/";
    var restB := if |b| == 1 then "" else JoinWith('/', b[1..]) + "/";
    assert x == a[0] + "/" + restA && y == b[0] + "/" + restB;
    SegmentPrefix(a[0], restA, b[0], restB);
    if |a| > 1 && |b| > 1 {
      TextPrefix(a[1..], b[1..]);
    }
    if |a| > 1 && |b| == 1 {
      assert restA != "";
    }
    if a <= b {
      assert a[0] == b[0] && a[1..] <= b[1..];
    }
    if a[0] == b[0] && a[1..] <= b[1..] {
      assert a == [a[0]] + a[1..] && b == [b[0]] + b[1..];
    }
  }

  lemma FirstSegment(p: Path)
    requires p != []
    ensures JoinWith('/', p) + "/" == p[0] + "/" + (if |p| == 1 then "" else JoinWith('/', p[1..]) + "/")
  {
    if |p| > 1 {
      assert p[0] + ['/'] + JoinWith('/', p[1..]) + "/" == p[0] + "/" + (JoinWith('/', p[1..]) + "/");
    }
  }

  lemma SegmentPrefix(a: string, restA: string, b: string, restB: string)
    requires '/' !in a && '/' !in b
    ensures a + "/" + restA <= b + "/" + restB <==> a == b && restA <= restB
  {
    var x, y := a + "/" + restA, b + "/" + restB;
    if |a| != |b| {
      SegmentsDiffer(a, restA, b, restB);
    } else if a == b {
      PrefixAfter(a + "/", restA, restB);
    } else {
      assert x[..|a|] == a && y[..|a|] == b;
    }
  }

  lemma SegmentsDiffer(a: string, restA: string, b: string, restB: string)
    requires '/' !in a && '/' !in b && |a| != |b|
    ensures !(a + "/" + restA <= b + "/" + restB)
  {
    var x, y := a + "/" + restA, b + "/" + restB;
    assert x[|a|] == '/' && y[|b|] == '/';
    if |a| < |b| {
      assert y[|a|] == b[|a|] && b[|a|] in b;
    } else {
      assert x[|b|] == a[|b|] && a[|b|] in a;
    }
  }

  lemma PrefixAfter(start: string, x: string, y: string)
    ensures start + x <= start + y <==> x <= y
  {
    assert x == (start + x)[|start|..] && y == (start + y)[|start|..];
    if x <= y {
      assert (start + y)[..|start + x|] == start + y[..|x|];
    }
    if start + x <= start + y {
      assert y[..|x|] == (start + y)[..|start + x|][|start|..];
    }
  }

  // ---- Permissions

  datatype Permission = SecretsPath | ConfigPath | Downloads | MediaPath | DataPath | ProjectPath | HostMount

  /** One permission root, resolved to a clean absolute path; None when it is not configured. */
  datatype Root = Root(path: Option<Path>, permission: Permission)

  datatype Located = Located(path: Path, permission: Permission)

  /** Length in bytes of an absolute path as text. */
  function PathText(p: Path): nat {
    if p == [] then 1 else 1 + PathLength(p)
  }

  function Configured(specs: seq<Root>): seq<Located> {
    if specs == [] then []
    else
      var n := |specs| - 1;
      Configured(specs[..n])
        + (if specs[n].path.Some? then [Located(specs[n].path.value, specs[n].permission)] else [])
  }

  function ByText(roots: seq<Located>): (keyed: seq<Keyed<Located>>)
    ensures |keyed| == |roots| && forall i :: 0 <= i < |roots| ==> keyed[i] == Keyed(PathText(roots[i].path), roots[i])
  {
    if roots == [] then [] else [Keyed(PathText(roots[0].path), roots[0])] + ByText(roots[1..])
  }

  function ByDepth(roots: seq<Located>): (keyed: seq<Keyed<Located>>)
    ensures |keyed| == |roots| && forall i :: 0 <= i < |roots| ==> keyed[i] == Keyed(|roots[i].path|, roots[i])
  {
    if roots == [] then [] else [Keyed(|roots[0].path|, roots[0])] + ByDepth(roots[1..])
  }

  function Holds(path: Path): Located -> bool {
    (r: Located) => Within(r.path, path)
  }

  /** The deepest root that contains the path, the first declared among equals. */
  function Deepest(roots: seq<Located>, path: Path): Permission {
    match Best(ByDepth(roots), Holds(path)) case Some(k) => k.item.permission case None => HostMount
  }

  predicate CleanRoots(specs: seq<Root>) {
    forall i :: 0 <= i < |specs| && specs[i].path.Some? ==> CleanPath(specs[i].path.value)
  }

  /** effectiveHostPathPermission, once the roots are resolved. */
  method EffectiveHostPathPermission(specs: seq<Root>, path: Path) returns (permission: Permission)
    requires CleanRoots(specs)
    ensures permission == Deepest(Configured(specs), path)
  {
    var roots: seq<Located> := [];
    assert specs[..0] == [] && specs[..|specs|] == specs;
    for i := 0 to |specs|
      invariant roots == Configured(specs[..i])
    {
      assert specs[..i + 1][..i] == specs[..i];
      if specs[i].path.None? { continue; }
      roots := roots + [Located(specs[i].path.value, specs[i].permission)];
    }
    ConfiguredClean(specs);
    TextFindsDeepest(roots, path);
    var sorted := StableSort(ByText(roots));
    ghost var hits := Holds(path);
    assert sorted[0..] == sorted;
    for i := 0 to |sorted|
      invariant FirstMatch(sorted, hits) == FirstMatch(sorted[i..], hits)
    {
      assert sorted[i..][1..] == sorted[i + 1..];
      if Within(sorted[i].item.path, path) {
        return sorted[i].item.permission;
      }
    }
    return HostMount;
  }

  lemma {:induction false} ConfiguredClean(specs: seq<Root>)
    requires CleanRoots(specs)
    ensures forall i :: 0 <= i < |Configured(specs)| ==> CleanPath(Configured(specs)[i].path)
  {
    if specs != [] { ConfiguredClean(specs[..|specs| - 1]); }
  }

  lemma {:induction false} LongerPath(p: Path, rest: Path)
    requires CleanPath(p) && CleanPath(rest) && rest != []
    ensures PathLength(p + rest) > PathLength(p)
    decreases |p|
  {
    if p == [] {
      assert p + rest == rest;
      NotEmptyPath(rest);
    } else {
      assert (p + rest)[1..] == p[1..] + rest;
      LongerPath(p[1..], rest);
    }
  }

  lemma NotEmptyPath(p: Path)
    requires CleanPath(p) && p != []
    ensures PathLength(p) > 0
  {
  }

  /** Roots of one path are ordered alike by text and by depth. */
  lemma RootsAgree(a: Path, b: Path, path: Path)
    requires CleanPath(a) && CleanPath(b) && Within(a, path) && Within(b, path)
    ensures PathText(a) <= PathText(b) <==> |a| <= |b|
  {
    if |a| < |b| {
      assert b == a + b[|a|..];
      LongerPath(a, b[|a|..]);
    } else if |b| < |a| {
      assert a == b + a[|b|..];
      LongerPath(b, a[|b|..]);
    } else {
      assert a == b;
    }
  }

  lemma TextFindsDeepest(roots: seq<Located>, path: Path)
    requires forall i :: 0 <= i < |roots| ==> CleanPath(roots[i].path)
    ensures var first := FirstMatch(StableSort(ByText(roots)), Holds(path));
            Deepest(roots, path) == match first case Some(k) => k.item.permission case None => HostMount
  {
    var hits := Holds(path);
    forall i, j | 0 <= i < |roots| && 0 <= j < |roots| && hits(roots[i]) && hits(roots[j])
      ensures PathText(roots[i].path) <= PathText(roots[j].path) <==> |roots[i].path| <= |roots[j].path|
    {
      RootsAgree(roots[i].path, roots[j].path, path);
    }
    FirstIsBest(ByText(roots), hits);
    BestAgree(ByText(roots), ByDepth(roots), hits);
  }

  /** What the deepest root is: it contains the path, no containing root is deeper, and none as deep was declared
      before it; host-mount when no root contains the path. */
  lemma DeepestMeaning(roots: seq<Located>, path: Path)
    ensures (forall i :: 0 <= i < |roots| ==> !Within(roots[i].path, path)) ==> Deepest(roots, path) == HostMount
    ensures (exists i :: 0 <= i < |roots| && Within(roots[i].path, path)) ==>
      exists k :: 0 <= k < |roots| && IsDeepest(roots, path, k) && Deepest(roots, path) == roots[k].permission
  {
    var ranked, hits := ByDepth(roots), Holds(path);
    BestMeaning(ranked, hits);
    if i :| 0 <= i < |roots| && Within(roots[i].path, path) {
      assert hits(ranked[i].item);
      var k :| 0 <= k < |ranked| && IsBest(ranked, hits, k) && ranked[k] == Best(ranked, hits).value;
      forall j | 0 <= j < |roots| && Within(roots[j].path, path)
        ensures |roots[j].path| <= |roots[k].path| && (|roots[j].path| == |roots[k].path| ==> k <= j)
      {
        assert hits(ranked[j].item);
      }
      assert IsDeepest(roots, path, k);
    }
  }

  ghost predicate IsDeepest(roots: seq<Located>, path: Path, k: nat)
    requires k < |roots|
  {
    && Within(roots[k].path, path)
    && forall j :: 0 <= j < |roots| && Within(roots[j].path, path) ==>
         |roots[j].path| <= |roots[k].path| && (|roots[j].path| == |roots[k].path| ==> k <= j)
  }
}
