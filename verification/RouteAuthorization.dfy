/**
 VerifyRouteAuthorization (api/route_authorization.go): the startup check that every
 registered route is authorized by construction.  The router is the list of routes a walk
 visits; the allow-list, the data-plane mapping and the public paths are parameters.
 */
module RouteAuthorization {
  import opened Basics

  datatype RouteInfo = RouteInfo(verb: string, path: string)

  datatype RouteEntry = RouteEntry(route: RouteInfo, access: string, gate: string, optional: bool)

  /** A node of the router: a subrouter prefix has no handler, a catch-all no template, and
      a route registered without methods has none. */
  datatype Route = Route(hasHandler: bool, template: Option<string>, methods: seq<string>)

  datatype RouteKind = VaultData | Unmanaged

  datatype Policy = Policy(
    allowList: seq<RouteEntry>,
    dataPlaneBasePath: string,
    mapRoute: (string, string) -> (string, RouteKind), // (method, template) to (data action, kind)
    publicPaths: seq<string>)

  const PUBLIC := "public"

  const KNOWN_ACCESS: set<string> := {PUBLIC, "any-session", "admin", "vault-management"}

  predicate IsSpace(c: char) {
    '\t' <= c <= '\r' || c == ' ' || c == 0x85 as char || c == 0xA0 as char || c == 0x1680 as char
    || 0x2000 as char <= c <= 0x200A as char || c == 0x2028 as char || c == 0x2029 as char || c == 0x202F as char
    || c == 0x205F as char || c == 0x3000 as char
  }

  /** strings.TrimSpace(s) == "". */
  predicate Blank(s: string) { forall i | 0 <= i < |s| :: IsSpace(s[i]) }

  /** For plain text, blank means nothing but spaces, tabs and line breaks. */
  lemma BlankByValue(s: string)
    requires forall i | 0 <= i < |s| :: s[i] < 128 as char
    ensures Blank(s) <==> forall i | 0 <= i < |s| :: s[i] in {' ', '\t', '\n', '\r', 11 as char, 12 as char}
  {}

  /** Only the base path's router authenticates, and on it all but the public paths. */
  predicate SkipsAuthentication(tmpl: string, basePath: string, publicPaths: seq<string>) {
    !(basePath + "/" <= tmpl) || tmpl in publicPaths
  }

  /* ---------- what a well-classified router is ---------- */

  predicate ListedPublic(allowList: seq<RouteEntry>, path: string) {
    exists i | 0 <= i < |allowList| :: allowList[i].route.path == path && allowList[i].access == PUBLIC
  }

  predicate WellFormedList(allowList: seq<RouteEntry>) {
    && (forall i, j | 0 <= i < j < |allowList| :: allowList[i].route != allowList[j].route)
    && (forall i | 0 <= i < |allowList| :: allowList[i].access in KNOWN_ACCESS && !Blank(allowList[i].gate))
  }

  predicate Listed(allowList: seq<RouteEntry>, info: RouteInfo) {
    exists i | 0 <= i < |allowList| :: allowList[i].route == info
  }

  /** A data-plane route is unlisted, authenticated and has an action; any other route is
      listed, and every entry for it is public exactly when it skips authentication. */
  predicate Classified(policy: Policy, basePath: string, verb: string, tmpl: string) {
    var (action, kind) := policy.mapRoute(verb, tmpl);
    var info := RouteInfo(verb, tmpl);
    var skips := SkipsAuthentication(tmpl, basePath, policy.publicPaths);
    if kind == VaultData then !Listed(policy.allowList, info) && !skips && action != ""
    else
      && Listed(policy.allowList, info)
      && forall i | 0 <= i < |policy.allowList| ::
           policy.allowList[i].route == info ==> (policy.allowList[i].access == PUBLIC <==> skips)
  }

  predicate RouteOk(policy: Policy, basePath: string, r: Route) {
    r.hasHandler ==>
      && r.template.Some? && r.methods != []
      && forall k | 0 <= k < |r.methods| :: Classified(policy, basePath, r.methods[k], r.template.value)
  }

  predicate Registers(r: Route, info: RouteInfo) {
    r.hasHandler && r.template == Some(info.path) && info.verb in r.methods
  }

  predicate Registered(routes: seq<Route>, info: RouteInfo) {
    exists i | 0 <= i < |routes| :: Registers(routes[i], info)
  }

  predicate WellClassified(policy: Policy, routes: seq<Route>, basePath: string) {
    && basePath == policy.dataPlaneBasePath
    && WellFormedList(policy.allowList)
    && (forall i | 0 <= i < |routes| :: RouteOk(policy, basePath, routes[i]))
    && (forall i | 0 <= i < |policy.allowList| ::
          Registered(routes, policy.allowList[i].route) || policy.allowList[i].optional)
    && (forall i | 0 <= i < |policy.publicPaths| :: ListedPublic(policy.allowList, policy.publicPaths[i]))
  }

  /* ---------- the code itself ---------- */

  datatype Fault =
    | ListedTwice | UnknownAccess | NoGate | NotRegistered                              // of a list entry
    | DataPlaneListed | NoAction | DataPlanePublic                                       // of a data-plane route
    | Unlisted | PublicNeedsSession | SkipsUnlisted                                     // of any other route

  datatype Problem =
    | OtherBasePath
    | About(route: RouteInfo, fault: Fault)
    | NoTemplate
    | NoMethods(template: string)
    | PublicPathUnlisted(path: string)

  type Index = map<RouteInfo, RouteEntry>

  /** Every indexed entry is on the list's first n entries, and the other way round. */
  ghost predicate Indexes(entries: Index, allowList: seq<RouteEntry>, n: nat)
    requires n <= |allowList|
  {
    && (forall i | 0 <= i < n :: allowList[i].route in entries)
    && (forall info | info in entries :: entries[info].route == info && entries[info] in allowList[..n])
  }

  /** Builds the index and reports duplicate and malformed entries. */
  method CheckAllowList(allowList: seq<RouteEntry>) returns (entries: Index, problems: seq<Problem>)
    ensures problems == [] <==> WellFormedList(allowList)
    ensures Indexes(entries, allowList, |allowList|)
  {
    problems, entries := [], map[];
    for n := 0 to |allowList|
      invariant problems == [] <==> WellFormedList(allowList[..n])
      invariant Indexes(entries, allowList, n)
    {
      var e := allowList[n];
      assert allowList[..n + 1] == allowList[..n] + [e];
      if e.route in entries {
        assert entries[e.route] in allowList[..n];
        problems := problems + [About(e.route, ListedTwice)];
        continue;
      }
      entries := entries[e.route := e];
      if e.access !in KNOWN_ACCESS {
        problems := problems + [About(e.route, UnknownAccess)];
      }
      if Blank(e.gate) {
        problems := problems + [About(e.route, NoGate)];
      }
    }
    assert allowList[..|allowList|] == allowList;
  }

  /** Looking a route up in the index of a well-formed list finds its one entry. */
  lemma IndexFindsTheEntry(entries: Index, allowList: seq<RouteEntry>, info: RouteInfo)
    requires Indexes(entries, allowList, |allowList|) && WellFormedList(allowList)
    ensures info in entries <==> Listed(allowList, info)
    ensures info in entries ==> forall i | 0 <= i < |allowList| :: allowList[i].route == info ==> allowList[i] == entries[info]
  {
    assert allowList[..|allowList|] == allowList;
    if info in entries {
      var i :| 0 <= i < |allowList| && allowList[i] == entries[info];
    }
  }

  /** The switch over one method and template: at most one problem, and none exactly when
      the pair is classified. */
  method CheckMethod(policy: Policy, basePath: string, entries: Index, verb: string, tmpl: string, public: bool)
    returns (problem: Option<Problem>)
    requires Indexes(entries, policy.allowList, |policy.allowList|)
    requires public == SkipsAuthentication(tmpl, basePath, policy.publicPaths)
    ensures WellFormedList(policy.allowList) ==> (problem == None <==> Classified(policy, basePath, verb, tmpl))
    // The problem names the pair and what is wrong with it, the first that applies.
    ensures problem.Some? ==> problem.value.About? && problem.value.route == RouteInfo(verb, tmpl)
    ensures WellFormedList(policy.allowList) && problem.Some? ==>
              var (action, kind) := policy.mapRoute(verb, tmpl);
              var listed := Listed(policy.allowList, RouteInfo(verb, tmpl));
              match problem.value.fault
              case DataPlaneListed => kind == VaultData && listed
              case NoAction => kind == VaultData && !listed && action == ""
              case DataPlanePublic => kind == VaultData && !listed && action != "" && public
              case Unlisted => kind != VaultData && !listed
              case PublicNeedsSession => kind != VaultData && listed && !public
              case SkipsUnlisted => kind != VaultData && listed && public
              case _ => false
  {
    var info := RouteInfo(verb, tmpl);
    var (action, kind) := policy.mapRoute(verb, tmpl);
    var listed := info in entries;
    var access := if listed then entries[info].access else "";
    if WellFormedList(policy.allowList) { IndexFindsTheEntry(entries, policy.allowList, info); }
    if kind == VaultData && listed {
      problem := Some(About(info, DataPlaneListed));
    } else if kind == VaultData && action == "" {
      problem := Some(About(info, NoAction));
    } else if kind == VaultData && public {
      problem := Some(About(info, DataPlanePublic));
    } else if kind != VaultData && !listed {
      problem := Some(About(info, Unlisted));
    } else if access == PUBLIC && !public {
      problem := Some(About(info, PublicNeedsSession));
    } else if access != PUBLIC && public && listed {
      problem := Some(About(info, SkipsUnlisted));
    } else {
      problem := None;
    }
  }

  /** Visits one route: its problems, and the pairs it registers. */
  method CheckRoute(policy: Policy, basePath: string, entries: Index, r: Route)
    returns (problems: seq<Problem>, seen: set<RouteInfo>)
    requires Indexes(entries, policy.allowList, |policy.allowList|)
    ensures WellFormedList(policy.allowList) ==> (problems == [] <==> RouteOk(policy, basePath, r))
    ensures forall info :: info in seen <==> Registers(r, info)
  {
    problems, seen := [], {};
    if !r.hasHandler { return; }
    if r.template.None? { return [NoTemplate], {}; }
    var tmpl := r.template.value;
    if r.methods == [] { return [NoMethods(tmpl)], {}; }
    var public := SkipsAuthentication(tmpl, basePath, policy.publicPaths);
    for k := 0 to |r.methods|
      invariant WellFormedList(policy.allowList) ==>
                  (problems == [] <==> forall m | 0 <= m < k :: Classified(policy, basePath, r.methods[m], tmpl))
      invariant forall info :: info in seen <==> info.path == tmpl && info.verb in r.methods[..k]
    {
      seen := seen + {RouteInfo(r.methods[k], tmpl)};
      var problem := CheckMethod(policy, basePath, entries, r.methods[k], tmpl, public);
      if problem.Some? { problems := problems + [problem.value]; }
    }
    assert r.methods[..|r.methods|] == r.methods;
  }

  /** Walks the router. */
  method CheckRoutes(policy: Policy, basePath: string, entries: Index, routes: seq<Route>)
    returns (problems: seq<Problem>, seen: set<RouteInfo>)
    requires Indexes(entries, policy.allowList, |policy.allowList|)
    ensures WellFormedList(policy.allowList) ==>
              (problems == [] <==> forall i | 0 <= i < |routes| :: RouteOk(policy, basePath, routes[i]))
    ensures forall info :: info in seen <==> Registered(routes, info)
  {
    problems, seen := [], {};
    for i := 0 to |routes|
      invariant WellFormedList(policy.allowList) ==>
                  (problems == [] <==> forall j | 0 <= j < i :: RouteOk(policy, basePath, routes[j]))
      invariant forall info :: info in seen <==> Registered(routes[..i], info)
    {
      var more, registered := CheckRoute(policy, basePath, entries, routes[i]);
      problems := problems + more;
      seen := seen + registered;
      RegisteredStep(routes, i);
    }
    assert routes[..|routes|] == routes;
  }

  method CheckRegistered(allowList: seq<RouteEntry>, seen: set<RouteInfo>) returns (problems: seq<Problem>)
    ensures problems == [] <==> forall i | 0 <= i < |allowList| :: allowList[i].route in seen || allowList[i].optional
  {
    problems := [];
    for i := 0 to |allowList|
      invariant problems == [] <==> forall j | 0 <= j < i :: allowList[j].route in seen || allowList[j].optional
    {
      var e := allowList[i];
      if e.route !in seen && !e.optional {
        problems := problems + [About(e.route, NotRegistered)];
      }
    }
  }

  method CheckPublicPaths(allowList: seq<RouteEntry>, publicPaths: seq<string>) returns (problems: seq<Problem>)
    ensures problems == [] <==> forall i | 0 <= i < |publicPaths| :: ListedPublic(allowList, publicPaths[i])
  {
    problems := [];
    for i := 0 to |publicPaths|
      invariant problems == [] <==> forall j | 0 <= j < i :: ListedPublic(allowList, publicPaths[j])
    {
      var listed := IsListedPublic(allowList, publicPaths[i]);
      if !listed {
        problems := problems + [PublicPathUnlisted(publicPaths[i])];
      }
    }
  }

  /** Returns no problem exactly for a well-classified router. */
  method VerifyRouteAuthorization(policy: Policy, routes: seq<Route>, basePath: string) returns (problems: seq<Problem>)
    ensures problems == [] <==> WellClassified(policy, routes, basePath)
  {
    if basePath != policy.dataPlaneBasePath {
      return [OtherBasePath];
    }
    var entries, listProblems := CheckAllowList(policy.allowList);
    var routeProblems, seen := CheckRoutes(policy, basePath, entries, routes);
    var staleProblems := CheckRegistered(policy.allowList, seen);
    var publicProblems := CheckPublicPaths(policy.allowList, policy.publicPaths);
    problems := listProblems + routeProblems + staleProblems + publicProblems;
  }

  lemma RegisteredStep(routes: seq<Route>, i: nat)
    requires i < |routes|
    ensures forall info :: Registered(routes[..i + 1], info) <==> Registered(routes[..i], info) || Registers(routes[i], info)
  {
    forall info ensures Registered(routes[..i + 1], info) <==> Registered(routes[..i], info) || Registers(routes[i], info) {
      if Registered(routes[..i], info) {
        var j :| 0 <= j < i && Registers(routes[..i][j], info);
        assert routes[..i + 1][j] == routes[j];
      }
      if Registers(routes[i], info) { assert routes[..i + 1][i] == routes[i]; }
      if Registered(routes[..i + 1], info) {
        var j :| 0 <= j < i + 1 && Registers(routes[..i + 1][j], info);
        assert j < i ==> routes[..i][j] == routes[j];
      }
    }
  }

  method IsListedPublic(allowList: seq<RouteEntry>, path: string) returns (listed: bool)
    ensures listed <==> ListedPublic(allowList, path)
  {
    for i := 0 to |allowList|
      invariant forall j | 0 <= j < i :: !(allowList[j].route.path == path && allowList[j].access == PUBLIC)
    {
      if allowList[i].route.path == path && allowList[i].access == PUBLIC { return true; }
    }
    return false;
  }

  /** An accepted list has no dead weight: each entry is registered unless marked optional,
      each has a gate and a known access class, and each public path has a public entry. */
  lemma AcceptedListIsLive(policy: Policy, routes: seq<Route>, basePath: string)
    requires WellClassified(policy, routes, basePath)
    ensures forall e | e in policy.allowList ::
              && (e.optional || exists r :: r in routes && Registers(r, e.route))
              && e.access in {"public", "any-session", "admin", "vault-management"} && !Blank(e.gate)
    ensures forall path | path in policy.publicPaths ::
              exists e :: e in policy.allowList && e.route.path == path && e.access == "public"
  {
    forall path | path in policy.publicPaths
      ensures exists e :: e in policy.allowList && e.route.path == path && e.access == "public"
    {
      assert ListedPublic(policy.allowList, path);
    }
  }

  /** What acceptance buys: on an accepted router, every method and path a handler serves
      is either a data-plane route behind authentication with an action to check, or has
      exactly one entry naming its gate, and is served without a session only if that
      entry says public. */
  lemma AcceptedRouterIsCovered(policy: Policy, routes: seq<Route>, basePath: string, info: RouteInfo)
    requires WellClassified(policy, routes, basePath) && Registered(routes, info)
    ensures var skips := !(basePath + "/" <= info.path) || info.path in policy.publicPaths;
            if policy.mapRoute(info.verb, info.path).1 == VaultData then
              !skips && policy.mapRoute(info.verb, info.path).0 != "" && !Listed(policy.allowList, info)
            else
              exists i :: 0 <= i < |policy.allowList|
                       && policy.allowList[i].route == info && !Blank(policy.allowList[i].gate)
                       && policy.allowList[i].access in {"public", "any-session", "admin", "vault-management"}
                       && (policy.allowList[i].access == PUBLIC <==> skips)
                       && forall j | 0 <= j < |policy.allowList| && j != i :: policy.allowList[j].route != info
  {
    var r :| 0 <= r < |routes| && Registers(routes[r], info);
    assert RouteOk(policy, basePath, routes[r]);
    assert Classified(policy, basePath, info.verb, info.path);
    if Listed(policy.allowList, info) {
      var i :| 0 <= i < |policy.allowList| && policy.allowList[i].route == info;
      assert forall j | 0 <= j < |policy.allowList| && j != i :: policy.allowList[j].route != info;
    }
  }
}
