/** Authelia access rules: their construction, their order, and which one a request meets first. */
module Authelia {
  import opened Common
  import opened StableOrder

  // ---- Resource patterns

  predicate Special(c: char) {
    c in "\\.+*?()|[]{}^$"
  }

  /** regexp.QuoteMeta */
  function QuoteMeta(s: string): string {
    if s == "" then "" else (if Special(s[0]) then ['\\', s[0]] else [s[0]]) + QuoteMeta(s[1..])
  }

  /** The patterns the generator writes: everything, one route path, the bare root, and a fixed path. */
  datatype Resource = Everything | Route(path: string) | BareRoot | Below(path: string)

  function Text(r: Resource): string {
    match r
    case Everything => "^/.*$"
    case Route(p) => "^" + QuoteMeta(p) + "([/?].*)?$"
    case BareRoot => "^/$"
    case Below(p) => "^" + p + "(?:/.*)?$"
  }

  /** The pattern .* stops at a line break. */
  predicate Rest(s: string) {
    '\n' !in s
  }

  /** The requests a pattern matches. */
  predicate Accepts(r: Resource, request: string) {
    match r
    case Everything => request != "" && request[0] == '/' && Rest(request[1..])
    case Route(p) =>
      p <= request && (|p| == |request| || ((request[|p|] == '/' || request[|p|] == '?') && Rest(request[|p| + 1..])))
    case BareRoot => request == "/"
    case Below(p) => p <= request && (|p| == |request| || (request[|p|] == '/' && Rest(request[|p| + 1..])))
  }

  // ---- Rules

  datatype Rule = Rule(domain: string, resources: seq<Resource>, adminsOnly: bool, policy: string)

  /** A service of the graph, as far as routing goes; path is its route when it is routed by path. */
  datatype Service = Service(
    enabled: bool, routed: bool, conditionsMet: bool, forwardAuth: bool, adminsOnly: bool,
    host: string, path: Option<string>)

  predicate Guarded(s: Service) {
    s.enabled && s.routed && s.conditionsMet && s.forwardAuth
  }

  function SharedRule(host: string, policy: string): Rule {
    Rule(host, [BareRoot, Below("/api"), Below("/static")], true, policy)
  }

  function ResourceOf(path: string): Resource {
    if path == "/" then Everything else Route(path)
  }

  function RuleOf(s: Service, policy: string): Rule {
    Rule(s.host, if s.path.None? then [] else [ResourceOf(s.path.value)], s.adminsOnly, policy)
  }

  /** The length of the text the rules are ordered by. */
  function TextLength(r: Rule): nat {
    if r.resources == [] then 0 else |Text(r.resources[0])|
  }

  function RuleKey(r: Rule): Keyed<Rule> {
    Keyed(TextLength(r), r)
  }

  function Built(services: seq<Service>, sharedHost: string, policy: string): seq<Rule> {
    if services == [] then [SharedRule(sharedHost, policy)]
    else
      var n := |services| - 1;
      Built(services[..n], sharedHost, policy) + (if Guarded(services[n]) then [RuleOf(services[n], policy)] else [])
  }

  function Keys(rules: seq<Rule>): (keyed: seq<Keyed<Rule>>)
    ensures |keyed| == |rules| && forall i :: 0 <= i < |rules| ==> keyed[i] == RuleKey(rules[i])
  {
    if rules == [] then [] else [RuleKey(rules[0])] + Keys(rules[1..])
  }

  /** GenerateAutheliaAccessRules, with the ordering keys kept beside the rules. */
  method GenerateAutheliaAccessRules(services: seq<Service>, sharedHost: string, policy: string)
    returns (rules: seq<Keyed<Rule>>)
    ensures rules == StableSort(Keys(Built(services, sharedHost, policy)))
  {
    var built := [SharedRule(sharedHost, policy)];
    assert services[..0] == [] && services[..|services|] == services;
    for i := 0 to |services|
      invariant built == Built(services[..i], sharedHost, policy)
    {
      var s := services[i];
      assert services[..i + 1][..i] == services[..i];
      if !s.enabled { continue; }
      if !s.routed { continue; }
      if !s.conditionsMet { continue; }
      if !s.forwardAuth { continue; }
      var rule := Rule(s.host, [], false, policy);
      if s.adminsOnly {
        rule := rule.(adminsOnly := true);
      }
      if s.path.Some? {
        if s.path.value == "/" {
          rule := rule.(resources := [Everything]);
        } else {
          rule := rule.(resources := [Route(s.path.value)]);
        }
      }
      built := built + [rule];
    }
    rules := StableSort(Keys(built));
  }

  // ---- Which rule a request meets

  /** A rule applies on its host to the requests its patterns match; without patterns, to all. */
  predicate Applies(host: string, request: string, r: Rule) {
    r.domain == host && (r.resources == [] || exists i :: 0 <= i < |r.resources| && Accepts(r.resources[i], request))
  }

  function Hits(host: string, request: string): Rule -> bool {
    r => Applies(host, request, r)
  }

  /** What the ordering keys come to among the rules that apply to one request: the longer its route path the higher a
      rule ranks, but the shared rule always below any routed one. */
  function Rank(r: Rule): nat {
    if r.resources == [] then 0
    else match r.resources[0]
      case Everything => 2
      case Route(p) => |p| + 1
      case BareRoot => 1
      case Below(p) => 1
  }

  function Ranked(rules: seq<Rule>): (ranked: seq<Keyed<Rule>>)
    ensures |ranked| == |rules| && forall i :: 0 <= i < |rules| ==> ranked[i] == Keyed(Rank(rules[i]), rules[i])
  {
    if rules == [] then [] else [Keyed(Rank(rules[0]), rules[0])] + Ranked(rules[1..])
  }

  /** Validated route paths start with a slash. */
  predicate RoutePath(p: string) {
    p != "" && p[0] == '/'
  }

  predicate RoutePaths(services: seq<Service>) {
    forall i :: 0 <= i < |services| && services[i].path.Some? ==> RoutePath(services[i].path.value)
  }

  lemma {:induction false} QuoteAppend(a: string, b: string)
    ensures QuoteMeta(a + b) == QuoteMeta(a) + QuoteMeta(b)
    decreases |a|
  {
    if a == "" {
      assert a + b == b;
    } else {
      assert (a + b)[1..] == a[1..] + b;
      QuoteAppend(a[1..], b);
    }
  }

  lemma {:induction false} QuoteLength(s: string)
    ensures |QuoteMeta(s)| >= |s|
  {
    if s != "" { QuoteLength(s[1..]); }
  }

  /** Quoting keeps the order of two prefixes of one text by length. */
  lemma PrefixQuote(p: string, q: string, request: string)
    requires p <= request && q <= request
    ensures |QuoteMeta(p)| <= |QuoteMeta(q)| <==> |p| <= |q|
  {
    if |p| <= |q| {
      assert q == p + q[|p|..];
      QuoteAppend(p, q[|p|..]);
    } else {
      assert p == q + p[|q|..];
      QuoteAppend(q, p[|q|..]);
      QuoteLength(p[|q|..]);
    }
  }

  /** A rule as the generator builds it: unrouted, for one valid route, or the shared one. */
  predicate Proper(r: Rule) {
    || r.resources == []
    || r.resources == [Everything]
    || (|r.resources| == 1 && r.resources[0].Route? && RoutePath(r.resources[0].path) && r.resources[0].path != "/")
    || r.resources == [BareRoot, Below("/api"), Below("/static")]
  }

  lemma {:induction false} BuiltProper(services: seq<Service>, sharedHost: string, policy: string)
    requires RoutePaths(services)
    ensures forall i :: 0 <= i < |Built(services, sharedHost, policy)| ==>
      Proper(Built(services, sharedHost, policy)[i])
  {
    if services != [] { BuiltProper(services[..|services| - 1], sharedHost, policy); }
  }

  lemma RouteText(p: string)
    ensures |Text(Route(p))| == |QuoteMeta(p)| + 11
  {
  }

  /** Among rules that apply to one request, text length and rank order alike. */
  lemma LengthsAgree(host: string, request: string, a: Rule, b: Rule)
    requires Proper(a) && Proper(b) && Applies(host, request, a) && Applies(host, request, b)
    ensures TextLength(a) <= TextLength(b) <==> Rank(a) <= Rank(b)
  {
    KeyShape(a);
    KeyShape(b);
    if |a.resources| == 1 && |b.resources| == 1 && a.resources[0].Route? && b.resources[0].Route? {
      PrefixQuote(a.resources[0].path, b.resources[0].path, request);
    }
  }

  lemma KeyShape(r: Rule)
    requires Proper(r)
    ensures r.resources == [] ==> TextLength(r) == Rank(r) == 0
    ensures r.resources != [] && r.resources[0].Everything? ==> TextLength(r) == 5 && Rank(r) == 2
    ensures r.resources != [] && r.resources[0].BareRoot? ==> TextLength(r) == 3 && Rank(r) == 1
    ensures r.resources != [] && r.resources[0].Route? ==>
      TextLength(r) == |QuoteMeta(r.resources[0].path)| + 11 && Rank(r) == |r.resources[0].path| + 1 > 2
  {
    if r.resources != [] && r.resources[0].Route? {
      RouteText(r.resources[0].path);
      assert |r.resources[0].path| != 1;
    }
  }

  /** The first rule a request meets has the highest rank of those that apply, and is the earliest built among them. */
  lemma FirstHasBestRank(services: seq<Service>, sharedHost: string, policy: string, host: string, request: string)
    requires RoutePaths(services)
    ensures var rules := Built(services, sharedHost, policy);
            Item(FirstMatch(StableSort(Keys(rules)), Hits(host, request)))
              == Item(Best(Ranked(rules), Hits(host, request)))
  {
    var rules := Built(services, sharedHost, policy);
    var hits := Hits(host, request);
    BuiltProper(services, sharedHost, policy);
    forall i, j | 0 <= i < |rules| && 0 <= j < |rules| && hits(rules[i]) && hits(rules[j])
      ensures TextLength(rules[i]) <= TextLength(rules[j]) <==> Rank(rules[i]) <= Rank(rules[j])
    {
      LengthsAgree(host, request, rules[i], rules[j]);
    }
    FirstIsBest(Keys(rules), hits);
    BestAgree(Keys(rules), Ranked(rules), hits);
  }

  /** In terms of services: among the guarded path-routed services of the host whose route contains the request,
      the first rule is that of the longest route. */
  lemma LongestRouteWins(services: seq<Service>, sharedHost: string, policy: string, host: string, request: string,
      i: nat)
    requires RoutePaths(services) && i < |services| && Guarded(services[i]) && services[i].host == host
    requires services[i].path.Some? && Accepts(ResourceOf(services[i].path.value), request)
    ensures var first := FirstMatch(StableSort(Keys(Built(services, sharedHost, policy))), Hits(host, request));
            first.Some? && exists k :: 0 <= k < |services| && Wins(services, policy, host, request, k, first.value.item)
  {
    var hits := Hits(host, request);
    var ranked := Ranked(Built(services, sharedHost, policy));
    FirstHasBestRank(services, sharedHost, policy, host, request);
    BestMeaning(ranked, hits);
    var b := BuiltContains(services, sharedHost, policy, host, request, i);
    var m :| 0 <= m < |ranked| && IsBest(ranked, hits, m) && ranked[m] == Best(ranked, hits).value;
    BestWins(services, sharedHost, policy, host, request, i, m);
  }

  /** A containing service has its rule among those that apply. */
  lemma BuiltContains(services: seq<Service>, sharedHost: string, policy: string, host: string, request: string, i: nat)
    returns (b: nat)
    requires i < |services| && Contains(services[i], host, request)
    ensures var ranked := Ranked(Built(services, sharedHost, policy));
            b < |ranked| && Hits(host, request)(ranked[b].item) && ranked[b].key == |services[i].path.value| + 1
  {
    b := RuleBuilt(services, sharedHost, policy, i);
    ServiceApplies(services[i], policy, host, request);
    RankOf(services[i], policy);
  }

  lemma BestWins(services: seq<Service>, sharedHost: string, policy: string, host: string, request: string, i: nat,
      m: nat)
    requires RoutePaths(services) && i < |services| && Contains(services[i], host, request)
    requires m < |Built(services, sharedHost, policy)|
    requires IsBest(Ranked(Built(services, sharedHost, policy)), Hits(host, request), m)
    ensures exists k ::
      0 <= k < |services| && Wins(services, policy, host, request, k, Built(services, sharedHost, policy)[m])
  {
    var ranked := Ranked(Built(services, sharedHost, policy));
    var b := BuiltContains(services, sharedHost, policy, host, request, i);
    assert ranked[b].key <= ranked[m].key;
    var k := ServiceOf(services, sharedHost, policy, m);
    ServiceApplies(services[k], policy, host, request);
    RankOf(services[k], policy);
    forall j | 0 <= j < |services| && Contains(services[j], host, request)
      ensures |services[j].path.value| <= |services[k].path.value|
    {
      var c := BuiltContains(services, sharedHost, policy, host, request, j);
      assert ranked[c].key <= ranked[m].key;
    }
    assert Wins(services, policy, host, request, k, Built(services, sharedHost, policy)[m]);
  }

  /** A guarded service of the host, routed by a path that contains the request. */
  predicate Contains(s: Service, host: string, request: string) {
    Guarded(s) && s.host == host && s.path.Some? && Accepts(ResourceOf(s.path.value), request)
  }

  ghost predicate Wins(services: seq<Service>, policy: string, host: string, request: string, k: nat, rule: Rule)
    requires k < |services|
  {
    && Contains(services[k], host, request) && rule == RuleOf(services[k], policy)
    && forall j :: 0 <= j < |services| && Contains(services[j], host, request) ==>
         |services[j].path.value| <= |services[k].path.value|
  }

  lemma ServiceApplies(s: Service, policy: string, host: string, request: string)
    requires s.path.Some?
    ensures Applies(host, request, RuleOf(s, policy)) <==> s.host == host && Accepts(ResourceOf(s.path.value), request)
  {
    var r := RuleOf(s, policy);
    assert r.resources[0] == ResourceOf(s.path.value);
  }

  lemma RankOf(s: Service, policy: string)
    requires s.path.Some?
    ensures Rank(RuleOf(s, policy)) == |s.path.value| + 1
  {
  }

  lemma {:induction false} RuleBuilt(services: seq<Service>, sharedHost: string, policy: string, i: nat)
    returns (b: nat)
    requires i < |services| && Guarded(services[i])
    ensures b < |Built(services, sharedHost, policy)|
    ensures Built(services, sharedHost, policy)[b] == RuleOf(services[i], policy)
    decreases |services|
  {
    var n := |services| - 1;
    if i < n {
      b := RuleBuilt(services[..n], sharedHost, policy, i);
    } else {
      b := |Built(services[..n], sharedHost, policy)|;
    }
  }

  /** Every rule ranked above the shared one comes from a guarded path-routed service. */
  lemma {:induction false} ServiceOf(services: seq<Service>, sharedHost: string, policy: string, b: nat)
    returns (k: nat)
    requires b < |Built(services, sharedHost, policy)| && Rank(Built(services, sharedHost, policy)[b]) >= 2
    ensures k < |services| && Guarded(services[k]) && services[k].path.Some?
    ensures Built(services, sharedHost, policy)[b] == RuleOf(services[k], policy)
    decreases |services|
  {
    var n := |services| - 1;
    if b < |Built(services[..n], sharedHost, policy)| {
      k := ServiceOf(services[..n], sharedHost, policy, b);
    } else {
      k := n;
    }
  }

  // ---- Specificity of the pattern that matches

  /** How much of the request's path a pattern spells out. */
  function Fixed(r: Resource): nat {
    match r
    case Everything => 1
    case Route(p) => |p|
    case BareRoot => 1
    case Below(p) => |p|
  }

  /** How specific patterns are for a request: the most that any matching one spells out. */
  function Specificity(resources: seq<Resource>, request: string): nat {
    if resources == [] then 0
    else
      var rest := Specificity(resources[1..], request);
      if Accepts(resources[0], request) && Fixed(resources[0]) > rest then Fixed(resources[0]) else rest
  }

  ghost predicate SomeApplies(rules: seq<Rule>, host: string, request: string) {
    exists i :: 0 <= i < |rules| && Applies(host, request, rules[i])
  }

  ghost predicate MostSpecific(rules: seq<Rule>, host: string, request: string, first: Rule) {
    && Applies(host, request, first)
    && forall i :: 0 <= i < |rules| && Applies(host, request, rules[i]) ==>
         Specificity(rules[i].resources, request) <= Specificity(first.resources, request)
  }

  /** The requests of the dashboard the shared rule spells out. */
  predicate DashboardArea(request: string) {
    Accepts(Below("/api"), request) || Accepts(Below("/static"), request)
  }

  /** A guarded service at "/" on the dashboard's host, and no longer guarded route there, contains the request. */
  ghost predicate RootTakesOver(services: seq<Service>, sharedHost: string, host: string, request: string) {
    && host == sharedHost && DashboardArea(request)
    && (exists i :: 0 <= i < |services| && Contains(services[i], host, request))
    && (forall i :: 0 <= i < |services| && Contains(services[i], host, request) ==> services[i].path == Some("/"))
  }

  function SharedPatterns(): seq<Resource> {
    [BareRoot, Below("/api"), Below("/static")]
  }

  lemma SpecificityCons(r: Resource, rest: seq<Resource>, request: string)
    ensures var below := Specificity(rest, request);
      Specificity([r] + rest, request) == if Accepts(r, request) && Fixed(r) > below then Fixed(r) else below
  {
    assert ([r] + rest)[1..] == rest;
  }

  /** The shared rule's patterns exclude each other. */
  lemma SharedSpecificity(request: string)
    ensures Specificity(SharedPatterns(), request)
      == if Accepts(Below("/static"), request) then 7 else if Accepts(Below("/api"), request) then 4
         else if request == "/" then 1 else 0
    ensures DashboardArea(request) ==> |request| >= 4
  {
    var s := SharedPatterns();
    SpecificityCons(Below("/static"), [], request);
    SpecificityCons(Below("/api"), [Below("/static")], request);
    SpecificityCons(BareRoot, [Below("/api"), Below("/static")], request);
    assert [Below("/static")] + [] == [Below("/static")];
    assert [Below("/api")] + [Below("/static")] == [Below("/api"), Below("/static")];
    assert s == [BareRoot] + [Below("/api"), Below("/static")];
  }

  /** Below the dashboard's fixed paths no shorter route than those contains a request. */
  lemma RouteReaches(p: string, request: string)
    requires RoutePath(p) && p != "/" && Accepts(Route(p), request)
    ensures Accepts(Below("/api"), request) ==> |p| >= 4
    ensures Accepts(Below("/static"), request) ==> |p| >= 7
    ensures |p| >= 2
  {
    assert |p| == 1 ==> p == "/";
    if Accepts(Below("/api"), request) {
      assert forall i :: 0 <= i < 4 ==> request[i] == "/api"[i];
    }
    if Accepts(Below("/static"), request) {
      assert forall i :: 0 <= i < 7 ==> request[i] == "/static"[i];
    }
  }

  /** Rank and specificity of a rule that applies. */
  lemma RankMeans(host: string, request: string, r: Rule)
    requires Proper(r) && Applies(host, request, r)
    ensures Rank(r) == 0 ==> Specificity(r.resources, request) == 0
    ensures Rank(r) == 1 ==> r.resources == SharedPatterns() && Specificity(r.resources, request) >= 1
    ensures Rank(r) == 2 ==> Specificity(r.resources, request) == 1
    ensures Rank(r) > 2 ==> Specificity(r.resources, request) == Rank(r) - 1
    ensures Rank(r) > 2 ==> Specificity(r.resources, request) >= Specificity(SharedPatterns(), request)
  {
    KeyShape(r);
    SharedSpecificity(request);
    if |r.resources| == 1 {
      assert Accepts(r.resources[0], request) && r.resources[1..] == [];
      if r.resources[0].Route? { RouteReaches(r.resources[0].path, request); }
    }
    if r.resources == SharedPatterns() {
      assert exists i :: 0 <= i < 3 && Accepts(SharedPatterns()[i], request);
    }
  }

  /** The first rule, as the one of the highest rank. */
  lemma FirstRule(services: seq<Service>, sharedHost: string, policy: string, host: string, request: string)
    returns (m: nat)
    requires RoutePaths(services)
    requires SomeApplies(Built(services, sharedHost, policy), host, request)
    ensures var rules := Built(services, sharedHost, policy);
      && m < |rules| && Applies(host, request, rules[m])
      && Item(FirstMatch(StableSort(Keys(rules)), Hits(host, request))) == Some(rules[m])
      && forall j :: 0 <= j < |rules| && Applies(host, request, rules[j]) ==> Rank(rules[j]) <= Rank(rules[m])
  {
    var rules, hits := Built(services, sharedHost, policy), Hits(host, request);
    var ranked := Ranked(rules);
    FirstHasBestRank(services, sharedHost, policy, host, request);
    BestMeaning(ranked, hits);
    var i :| 0 <= i < |rules| && Applies(host, request, rules[i]);
    assert hits(ranked[i].item);
    m :| 0 <= m < |ranked| && IsBest(ranked, hits, m) && ranked[m] == Best(ranked, hits).value;
    forall j | 0 <= j < |rules| && Applies(host, request, rules[j])
      ensures Rank(rules[j]) <= Rank(rules[m])
    {
      assert hits(ranked[j].item);
    }
  }

  /** The shared rule is among the built ones, and the only one of its rank. */
  lemma {:induction false} SharedOnly(services: seq<Service>, sharedHost: string, policy: string)
    requires RoutePaths(services)
    ensures var rules := Built(services, sharedHost, policy);
      && rules != [] && rules[0] == SharedRule(sharedHost, policy)
      && forall b :: 0 <= b < |rules| && Rank(rules[b]) == 1 ==> rules[b] == SharedRule(sharedHost, policy)
    decreases |services|
  {
    if services != [] { SharedOnly(services[..|services| - 1], sharedHost, policy); }
  }

  /** A rule that applies and ranks above the shared one is that of a containing service, and the other way round. */
  lemma HighRankContains(services: seq<Service>, sharedHost: string, policy: string, host: string, request: string,
      b: nat)
    returns (k: nat)
    requires b < |Built(services, sharedHost, policy)| && Applies(host, request, Built(services, sharedHost, policy)[b])
    requires Rank(Built(services, sharedHost, policy)[b]) >= 2
    ensures k < |services| && Contains(services[k], host, request)
    ensures Rank(Built(services, sharedHost, policy)[b]) == |services[k].path.value| + 1
  {
    k := ServiceOf(services, sharedHost, policy, b);
    ServiceApplies(services[k], policy, host, request);
    RankOf(services[k], policy);
  }

  /** The first rule ranks as high as the longest containing route, if there is one. */
  lemma FirstRank(services: seq<Service>, sharedHost: string, policy: string, host: string, request: string, m: nat)
    requires RoutePaths(services) && m < |Built(services, sharedHost, policy)|
    requires Applies(host, request, Built(services, sharedHost, policy)[m])
    requires var rules := Built(services, sharedHost, policy);
      forall j :: 0 <= j < |rules| && Applies(host, request, rules[j]) ==> Rank(rules[j]) <= Rank(rules[m])
    ensures Rank(Built(services, sharedHost, policy)[m]) >= 2
      <==> exists i :: 0 <= i < |services| && Contains(services[i], host, request)
    ensures Rank(Built(services, sharedHost, policy)[m]) == 2 <==>
      (exists i :: 0 <= i < |services| && Contains(services[i], host, request))
      && (forall i :: 0 <= i < |services| && Contains(services[i], host, request) ==> services[i].path == Some("/"))
  {
    var top := Rank(Built(services, sharedHost, policy)[m]);
    if top >= 2 {
      var k := HighRankContains(services, sharedHost, policy, host, request, m);
      assert Contains(services[k], host, request);
    }
    forall i | 0 <= i < |services| && Contains(services[i], host, request)
      ensures 2 <= |services[i].path.value| + 1 <= top
      ensures |services[i].path.value| == 1 <==> services[i].path == Some("/")
    {
      var b := BuiltContains(services, sharedHost, policy, host, request, i);
      if |services[i].path.value| == 1 { assert services[i].path.value == [services[i].path.value[0]]; }
    }
  }

  /** The shared rule is first for a request it covers exactly when no guarded route on its host contains the request.
      */
  lemma SharedFirstIff(services: seq<Service>, sharedHost: string, policy: string, request: string)
    requires RoutePaths(services) && Applies(sharedHost, request, SharedRule(sharedHost, policy))
    ensures Item(FirstMatch(StableSort(Keys(Built(services, sharedHost, policy))), Hits(sharedHost, request)))
              == Some(SharedRule(sharedHost, policy))
      <==> forall i :: 0 <= i < |services| ==> !Contains(services[i], sharedHost, request)
  {
    SharedOnly(services, sharedHost, policy);
    var m := FirstRule(services, sharedHost, policy, sharedHost, request);
    FirstRank(services, sharedHost, policy, sharedHost, request, m);
  }

  lemma NoRule(services: seq<Service>, sharedHost: string, policy: string, host: string, request: string)
    requires RoutePaths(services) && !SomeApplies(Built(services, sharedHost, policy), host, request)
    ensures FirstMatch(StableSort(Keys(Built(services, sharedHost, policy))), Hits(host, request)).None?
  {
    FirstHasBestRank(services, sharedHost, policy, host, request);
    BestMeaning(Ranked(Built(services, sharedHost, policy)), Hits(host, request));
  }

  /** The first rule a request meets, if any applies, is one of the most specific that do, exactly when no service at
      "/" takes over from the shared rule. */
  lemma FirstIsMostSpecific(services: seq<Service>, sharedHost: string, policy: string, host: string, request: string)
    requires RoutePaths(services)
    ensures var rules := Built(services, sharedHost, policy);
      var first := Item(FirstMatch(StableSort(Keys(rules)), Hits(host, request)));
      && (first.Some? <==> SomeApplies(rules, host, request))
      && (first.Some? ==>
           (MostSpecific(rules, host, request, first.value) <==> !RootTakesOver(services, sharedHost, host, request)))
  {
    var rules := Built(services, sharedHost, policy);
    if SomeApplies(rules, host, request) {
      MostSpecificIff(services, sharedHost, policy, host, request);
    } else {
      NoRule(services, sharedHost, policy, host, request);
    }
  }

  lemma MostSpecificIff(services: seq<Service>, sharedHost: string, policy: string, host: string, request: string)
    requires RoutePaths(services) && SomeApplies(Built(services, sharedHost, policy), host, request)
    ensures var rules := Built(services, sharedHost, policy);
      var first := Item(FirstMatch(StableSort(Keys(rules)), Hits(host, request)));
      && first.Some?
      && (MostSpecific(rules, host, request, first.value) <==> !RootTakesOver(services, sharedHost, host, request))
  {
    var rules := Built(services, sharedHost, policy);
    SharedOnly(services, sharedHost, policy);
    BuiltProper(services, sharedHost, policy);
    SharedSpecificity(request);
    var m := FirstRule(services, sharedHost, policy, host, request);
    FirstRank(services, sharedHost, policy, host, request, m);
    RankMeans(host, request, rules[m]);
    if RootTakesOver(services, sharedHost, host, request) {
      SharedInArea(sharedHost, policy, request);
      assert Specificity(rules[0].resources, request) > Specificity(rules[m].resources, request);
    } else {
      forall j | 0 <= j < |rules| && Applies(host, request, rules[j])
        ensures Specificity(rules[j].resources, request) <= Specificity(rules[m].resources, request)
      {
        RankMeans(host, request, rules[j]);
      }
    }
  }

  lemma SharedInArea(sharedHost: string, policy: string, request: string)
    requires DashboardArea(request)
    ensures Applies(sharedHost, request, SharedRule(sharedHost, policy))
  {
    var r := SharedRule(sharedHost, policy).resources;
    assert r[1] == Below("/api") && r[2] == Below("/static");
  }

  /** The dashboard's own API, met by the rule of any guarded service at "/" on its host before the shared one. */
  lemma RootHidesDashboard(s: Service, policy: string)
    requires Guarded(s) && s.path == Some("/")
    ensures RootTakesOver([s], s.host, s.host, "/api/x") && Applies(s.host, "/api/x", SharedRule(s.host, policy))
    ensures Item(FirstMatch(StableSort(Keys(Built([s], s.host, policy))), Hits(s.host, "/api/x")))
      == Some(RuleOf(s, policy))
  {
    ApiRequest();
    SharedInArea(s.host, policy, "/api/x");
    assert Contains([s][0], s.host, "/api/x");
    LongestRouteWins([s], s.host, policy, s.host, "/api/x", 0);
  }

  lemma ApiRequest()
    ensures Accepts(Below("/api"), "/api/x") && Accepts(Everything, "/api/x")
  {
    assert "/api/x"[5..] == "x";
  }
}
