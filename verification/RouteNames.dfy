/** The paths of a configuration told by handler name, and the factory that each name leads to. */
module RouteNames {
  import opened ConfigTree
  import opened Session
  import opened Routing

  // ----- what a statement contributes

  predicate OnlySlashes(s: string) {
    forall i :: 0 <= i < |s| ==> s[i] == '/'
  }

  /** e is the endpoint without its trailing slashes; an endpoint of slashes only stays whole. */
  predicate IsTrimmed(endpoint: string, e: string) {
    if OnlySlashes(endpoint) then e == endpoint
    else e != "" && e <= endpoint && e[|e| - 1] != '/' && forall i :: |e| <= i < |endpoint| ==> endpoint[i] == '/'
  }

  predicate IsLastRoot(children: seq<Statement>, k: nat) {
    && k < |children| && IsRoot(children[k]) && |children[k].tokens| >= 2
    && forall i :: k < i < |children| ==> !IsRoot(children[i])
  }

  /** The last root statement of a block fills in the path; without one it stays an echo path of no endpoint. */
  ghost predicate IsRootPath(kind: Kind, endpoint: string, children: seq<Statement>, p: Path) {
    if forall i :: 0 <= i < |children| ==> !IsRoot(children[i]) then p == Path(EchoKind, "", "", map[])
    else
      && p.kind == kind && IsTrimmed(endpoint, p.endpoint) && p.keys == map[]
      && exists k: nat :: IsLastRoot(children, k) && p.root == children[k].tokens[1]
  }

  predicate HasKey(child: Statement, key: string) {
    |child.tokens| == 2 && child.tokens[0] == key
  }

  /** The last two-word statement with this key. */
  predicate IsLastWith(children: seq<Statement>, key: string, k: nat) {
    k < |children| && HasKey(children[k], key) && forall i :: k < i < |children| ==> !HasKey(children[i], key)
  }

  predicate IsKey(children: seq<Statement>, key: string) {
    exists i :: 0 <= i < |children| && HasKey(children[i], key)
  }

  predicate HasPair(children: seq<Statement>) {
    exists i :: 0 <= i < |children| && |children[i].tokens| == 2
  }

  /** A key is that of some two-word statement, with the value of the last one, or it is root, which is empty when
      no statement gives it. */
  ghost predicate HoldsKey(children: seq<Statement>, keys: map<string, string>, key: string) {
    && (key in keys <==> (key == "root" && HasPair(children)) || IsKey(children, key))
    && (forall k: nat :: IsLastWith(children, key, k) && key in keys ==> keys[key] == children[k].tokens[1])
    && (key in keys && !IsKey(children, key) ==> keys[key] == "")
  }

  ghost predicate HoldsKeys(children: seq<Statement>, keys: map<string, string>) {
    forall key :: HoldsKey(children, keys, key)
  }

  ghost predicate IsAuthPath(endpoint: string, children: seq<Statement>, p: Path) {
    if !HasPair(children) then p == Path(AuthKind, "", "", map[])
    else
      && p.kind == AuthKind && IsTrimmed(endpoint, p.endpoint) && HoldsKeys(children, p.keys)
      && "root" in p.keys && p.root == p.keys["root"]
  }

  /** A two-word statement of a console block gives a path of its own, with the endpoint as it is written. */
  predicate IsConsolePath(endpoint: string, child: Statement, ps: seq<Path>) {
    if |child.tokens| != 2 then ps == []
    else
      var root := if child.tokens[0] == "root" then child.tokens[1] else "";
      ps == [Path(ConsoleKind, endpoint, root, map["root" := root, child.tokens[0] := child.tokens[1]])]
  }

  function Flatten(parts: seq<seq<Path>>): seq<Path> {
    if parts == [] then [] else Flatten(parts[..|parts| - 1]) + parts[|parts| - 1]
  }

  ghost predicate AreConsoleParts(endpoint: string, children: seq<Statement>, parts: seq<seq<Path>>) {
    |parts| == |children| && forall i :: 0 <= i < |parts| ==> IsConsolePath(endpoint, children[i], parts[i])
  }

  predicate IsOne(kind: Kind, endpoint: string, ps: seq<Path>) {
    |ps| == 1 && IsTrimmed(endpoint, ps[0].endpoint) && ps[0] == Path(kind, ps[0].endpoint, "", map[])
  }

  /** The paths of one statement, by the name of its handler. */
  ghost predicate Contributes(s: Statement, ps: seq<Path>)
    requires WellFormedLocation(s)
  {
    if s.tokens[0] != "location" then ps == []
    else
      match s.tokens[2]
      case "EchoHandler" => IsOne(EchoKind, s.tokens[1], ps)
      case "HealthHandler" => IsOne(HealthKind, s.tokens[1], ps)
      case "SleepHandler" => IsOne(SleepKind, s.tokens[1], ps)
      case "StaticHandler" => |ps| == 1 && IsRootPath(StaticKind, s.tokens[1], s.child, ps[0])
      case "APIHandler" => |ps| == 1 && IsRootPath(ApiKind, s.tokens[1], s.child, ps[0])
      case "AuthenticationHandler" => |ps| == 1 && IsAuthPath(s.tokens[1], s.child, ps[0])
      case "ApiConsoleHandler" => exists parts :: AreConsoleParts(s.tokens[1], s.child, parts) && ps == Flatten(parts)
      case _ => ps == []
  }

  ghost predicate AreParts(c: Config, parts: seq<seq<Path>>)
    requires WellFormedLocations(c)
  {
    |parts| == |c| && forall i :: 0 <= i < |c| ==> Contributes(c[i], parts[i])
  }

  // ----- each kind of block

  lemma TrimmedIs(endpoint: string, e: string)
    ensures IsTrimmed(endpoint, e) <==> e == TrimSlashes(endpoint)
  {
    TrimmedEndpoint(endpoint);
    var kept := TrimSlashes(endpoint);
    if IsTrimmed(endpoint, e) && !OnlySlashes(endpoint) {
      assert endpoint[|kept| - 1] == kept[|kept| - 1] && endpoint[|e| - 1] == e[|e| - 1];
      assert e == endpoint[..|e|] && kept == endpoint[..|kept|];
    }
  }

  lemma {:induction false} LastRoot(children: seq<Statement>) returns (k: int)
    requires forall i :: 0 <= i < |children| ==> RootReadable(children[i])
    ensures -1 <= k < |children| && (k >= 0 ==> IsLastRoot(children, k))
    ensures forall i :: k < i < |children| ==> !IsRoot(children[i])
  {
    if children == [] {
      k := -1;
    } else if IsRoot(children[|children| - 1]) {
      k := |children| - 1;
    } else {
      k := LastRoot(children[..|children| - 1]);
    }
  }

  lemma RootPathByName(kind: Kind, endpoint: string, children: seq<Statement>, p: Path)
    requires forall i :: 0 <= i < |children| ==> RootReadable(children[i])
    ensures IsRootPath(kind, endpoint, children, p) <==> p == RootPath(kind, endpoint, children)
  {
    var k := LastRoot(children);
    RootPathIs(kind, endpoint, children, k);
    TrimmedIs(endpoint, p.endpoint);
    if k >= 0 && IsRootPath(kind, endpoint, children, p) {
      var m: nat :| IsLastRoot(children, m) && p.root == children[m].tokens[1];
      assert m == k;
    }
  }

  lemma KeysOfFront(children: seq<Statement>, key: string)
    requires children != []
    ensures
      var front, last := children[..|children| - 1], children[|children| - 1];
      && (IsKey(children, key) <==> IsKey(front, key) || HasKey(last, key))
      && (HasPair(children) <==> HasPair(front) || |last.tokens| == 2)
      && (forall k: nat :: IsLastWith(children, key, k) <==>
            if HasKey(last, key) then k == |front| else IsLastWith(front, key, k))
  {
    var front, last := children[..|children| - 1], children[|children| - 1];
    assert children[|front|] == last;
    if i :| 0 <= i < |front| && HasKey(front[i], key) {
      assert HasKey(children[i], key);
    }
    if i :| 0 <= i < |front| && |front[i].tokens| == 2 {
      assert |children[i].tokens| == 2;
    }
    forall k: nat ensures IsLastWith(children, key, k) <==>
                          if HasKey(last, key) then k == |front| else IsLastWith(front, key, k) {
      if IsLastWith(front, key, k) {
        assert HasKey(children[k], key);
      }
    }
  }

  lemma AuthStepHolds(endpoint: string, children: seq<Statement>, before: Path)
    requires children != [] && HoldsKeys(children[..|children| - 1], before.keys)
    ensures HoldsKeys(children, AuthStep(endpoint, before, children[|children| - 1]).keys)
  {
    var front, last := children[..|children| - 1], children[|children| - 1];
    var keys := AuthStep(endpoint, before, last).keys;
    forall key ensures HoldsKey(children, keys, key) {
      assert HoldsKey(front, before.keys, key);
      KeysOfFront(children, key);
    }
  }

  lemma {:induction false} AuthKeys(endpoint: string, children: seq<Statement>)
    ensures
      var p := AuthPath(endpoint, children);
      && HoldsKeys(children, p.keys) && p.kind == AuthKind
      && (if HasPair(children) then p.endpoint == TrimSlashes(endpoint) && "root" in p.keys && p.root == p.keys["root"]
          else p == Path(AuthKind, "", "", map[]))
    decreases |children|
  {
    if children != [] {
      var front := children[..|children| - 1];
      AuthKeys(endpoint, front);
      AuthStepHolds(endpoint, children, AuthPath(endpoint, front));
      KeysOfFront(children, "root");
    }
  }

  lemma {:induction false} LastWith(children: seq<Statement>, key: string) returns (k: nat)
    requires IsKey(children, key)
    ensures IsLastWith(children, key, k)
    decreases |children|
  {
    KeysOfFront(children, key);
    var front := children[..|children| - 1];
    if HasKey(children[|front|], key) {
      k := |front|;
    } else {
      k := LastWith(front, key);
    }
  }

  /** The description leaves no choice. */
  lemma SameKeys(children: seq<Statement>, a: map<string, string>, b: map<string, string>)
    requires HoldsKeys(children, a) && HoldsKeys(children, b)
    ensures a == b
  {
    forall key ensures key in a <==> key in b {
      assert HoldsKey(children, a, key) && HoldsKey(children, b, key);
    }
    forall key | key in a ensures a[key] == b[key] {
      assert HoldsKey(children, a, key) && HoldsKey(children, b, key);
      if IsKey(children, key) {
        var k := LastWith(children, key);
      }
    }
    assert a.Keys == b.Keys;
  }

  lemma AuthPathByName(endpoint: string, children: seq<Statement>, p: Path)
    ensures IsAuthPath(endpoint, children, p) <==> p == AuthPath(endpoint, children)
  {
    AuthKeys(endpoint, children);
    TrimmedIs(endpoint, p.endpoint);
    if IsAuthPath(endpoint, children, p) && HasPair(children) {
      SameKeys(children, p.keys, AuthPath(endpoint, children).keys);
    }
  }

  lemma ConsoleChild(endpoint: string, child: Statement, paths: seq<Path>, ps: seq<Path>)
    ensures IsConsolePath(endpoint, child, ps) ==> ConsoleStep(endpoint, paths, child) == paths + ps
  {
    if |child.tokens| == 2 {
      var key, value := child.tokens[0], child.tokens[1];
      var root := if key == "root" then value else "";
      assert WithRoot(map[key := value]) == map["root" := root, key := value];
    }
  }

  lemma {:induction false} ConsoleParts(endpoint: string, children: seq<Statement>) returns (parts: seq<seq<Path>>)
    ensures AreConsoleParts(endpoint, children, parts)
    decreases |children|
  {
    if children == [] {
      parts := [];
    } else {
      var front, last := children[..|children| - 1], children[|children| - 1];
      var more := ConsoleParts(endpoint, front);
      var part := ConsolePart(endpoint, last);
      parts := more + [part];
    }
  }

  lemma ConsolePart(endpoint: string, child: Statement) returns (ps: seq<Path>)
    ensures IsConsolePath(endpoint, child, ps)
  {
    if |child.tokens| != 2 {
      ps := [];
    } else {
      var root := if child.tokens[0] == "root" then child.tokens[1] else "";
      ps := [Path(ConsoleKind, endpoint, root, map["root" := root, child.tokens[0] := child.tokens[1]])];
    }
  }

  lemma {:induction false} ConsoleIsFlat(endpoint: string, children: seq<Statement>, parts: seq<seq<Path>>)
    requires AreConsoleParts(endpoint, children, parts)
    ensures ConsolePaths(endpoint, children) == Flatten(parts)
    decreases |children|
  {
    if children != [] {
      var n := |children| - 1;
      ConsoleIsFlat(endpoint, children[..n], parts[..n]);
      ConsoleChild(endpoint, children[n], ConsolePaths(endpoint, children[..n]), parts[n]);
    }
  }

  lemma ConsoleByName(endpoint: string, children: seq<Statement>, ps: seq<Path>)
    ensures (exists parts :: AreConsoleParts(endpoint, children, parts) && ps == Flatten(parts)) <==>
            ps == ConsolePaths(endpoint, children)
  {
    var parts := ConsoleParts(endpoint, children);
    ConsoleIsFlat(endpoint, children, parts);
    if other :| AreConsoleParts(endpoint, children, other) && ps == Flatten(other) {
      ConsoleIsFlat(endpoint, children, other);
    }
  }

  // ----- statements and configurations

  lemma OneIs(kind: Kind, endpoint: string, ps: seq<Path>)
    ensures IsOne(kind, endpoint, ps) <==> ps == [Path(kind, TrimSlashes(endpoint), "", map[])]
  {
    if |ps| == 1 {
      TrimmedIs(endpoint, ps[0].endpoint);
    }
  }

  /** What the code reads from a statement is what its handler's name says. */
  lemma StatementByName(s: Statement, ps: seq<Path>)
    requires WellFormedLocation(s)
    ensures Contributes(s, ps) <==> ps == PathsOfStatement(s)
  {
    if s.tokens[0] == "location" {
      var endpoint, handler := s.tokens[1], s.tokens[2];
      if NeedsBlock(handler) {
        assert forall i :: 0 <= i < |s.child| ==> WellFormedChild(handler, s.child[i]);
        BlockByName(s, ps);
      } else {
        OneIs(EchoKind, endpoint, ps);
        OneIs(HealthKind, endpoint, ps);
        OneIs(SleepKind, endpoint, ps);
      }
    }
  }

  lemma BlockByName(s: Statement, ps: seq<Path>)
    requires WellFormedLocation(s) && s.tokens[0] == "location" && NeedsBlock(s.tokens[2])
    ensures Contributes(s, ps) <==> ps == PathsOfStatement(s)
  {
    var endpoint, handler := s.tokens[1], s.tokens[2];
    assert forall i :: 0 <= i < |s.child| ==> WellFormedChild(handler, s.child[i]);
    if handler == "ApiConsoleHandler" {
      ConsoleByName(endpoint, s.child, ps);
    } else if |ps| == 1 {
      assert ps == [ps[0]];
      if handler == "AuthenticationHandler" {
        AuthPathByName(endpoint, s.child, ps[0]);
      } else {
        RootPathByName(if handler == "StaticHandler" then StaticKind else ApiKind, endpoint, s.child, ps[0]);
      }
    }
  }

  lemma PartsOf(c: Config) returns (parts: seq<seq<Path>>)
    requires WellFormedLocations(c)
    ensures AreParts(c, parts)
  {
    parts := seq(|c|, i requires 0 <= i < |c| => PathsOfStatement(c[i]));
    forall i | 0 <= i < |c| ensures Contributes(c[i], parts[i]) {
      StatementByName(c[i], parts[i]);
    }
  }

  lemma {:induction false} FlatParts(c: Config, parts: seq<seq<Path>>)
    requires WellFormedLocations(c) && AreParts(c, parts)
    ensures PathsOf(c) == Flatten(parts)
    decreases |c|
  {
    if c != [] {
      var n := |c| - 1;
      assert AreParts(c[..n], parts[..n]);
      FlatParts(c[..n], parts[..n]);
      StatementByName(c[n], parts[n]);
    }
  }

  /** The path list of a configuration is what its statements contribute, by handler name and in their order. */
  lemma PathsByName(c: Config, paths: seq<Path>)
    requires WellFormedLocations(c)
    ensures paths == PathsOf(c) <==> exists parts :: AreParts(c, parts) && paths == Flatten(parts)
  {
    var mine := PartsOf(c);
    FlatParts(c, mine);
    if parts :| AreParts(c, parts) && paths == Flatten(parts) {
      FlatParts(c, parts);
    }
  }

  // ----- the factory a session reaches

  /** Statement i is the first that contributes a path with this endpoint, and p is its first such path. */
  ghost predicate IsFirstOffer(c: Config, endpoint: string, i: nat, p: Path)
    requires WellFormedLocations(c)
  {
    && i < |c| && p.endpoint == endpoint
    && (exists ps: seq<Path> :: Contributes(c[i], ps) && IsFirstIn(ps, endpoint, p))
    && (forall h, ps: seq<Path> :: 0 <= h < i && Contributes(c[h], ps) ==> Lacks(ps, endpoint))
  }

  predicate IsFirstIn(ps: seq<Path>, endpoint: string, p: Path) {
    exists j :: 0 <= j < |ps| && ps[j] == p && p.endpoint == endpoint && Lacks(ps[..j], endpoint)
  }

  predicate Lacks(ps: seq<Path>, endpoint: string) {
    forall m :: 0 <= m < |ps| ==> ps[m].endpoint != endpoint
  }

  lemma {:induction false} FirstInFlat(parts: seq<seq<Path>>, endpoint: string) returns (i: nat, j: nat)
    requires !Lacks(Flatten(parts), endpoint)
    ensures i < |parts| && j < |parts[i]| && forall h :: 0 <= h < i ==> Lacks(parts[h], endpoint)
    ensures Lacks(parts[i][..j], endpoint) && parts[i][j].endpoint == endpoint
    ensures
      var k := FirstPath(Flatten(parts), endpoint);
      k < |Flatten(parts)| && Flatten(parts)[k] == parts[i][j]
    decreases |parts|
  {
    var n := |parts| - 1;
    var front, last := Flatten(parts[..n]), parts[n];
    if Lacks(front, endpoint) {
      LacksAll(parts[..n], endpoint);
      i, j := n, FirstPath(last, endpoint);
      LateFirst(front, last, endpoint);
    } else {
      i, j := FirstInFlat(parts[..n], endpoint);
      EarlyFirst(front, last, endpoint);
    }
  }

  lemma {:induction false} LacksAll(parts: seq<seq<Path>>, endpoint: string)
    requires Lacks(Flatten(parts), endpoint)
    ensures forall h :: 0 <= h < |parts| ==> Lacks(parts[h], endpoint)
    decreases |parts|
  {
    if parts != [] {
      var n := |parts| - 1;
      var front, last := Flatten(parts[..n]), parts[n];
      forall m | 0 <= m < |last| ensures last[m].endpoint != endpoint {
        assert (front + last)[|front| + m] == last[m];
      }
      forall m | 0 <= m < |front| ensures front[m].endpoint != endpoint {
        assert (front + last)[m] == front[m];
      }
      LacksAll(parts[..n], endpoint);
    }
  }

  lemma EarlyFirst(front: seq<Path>, last: seq<Path>, endpoint: string)
    requires !Lacks(front, endpoint)
    ensures FirstPath(front + last, endpoint) == FirstPath(front, endpoint) < |front|
  {
    FirstPathIs(front + last, endpoint, FirstPath(front, endpoint));
  }

  lemma LateFirst(front: seq<Path>, last: seq<Path>, endpoint: string)
    requires Lacks(front, endpoint) && !Lacks(front + last, endpoint)
    ensures FirstPath(last, endpoint) < |last|
    ensures FirstPath(front + last, endpoint) == |front| + FirstPath(last, endpoint)
  {
    assert forall i :: 0 <= i < |front| ==> (front + last)[i] == front[i];
    var m :| 0 <= m < |front + last| && (front + last)[m].endpoint == endpoint;
    assert m >= |front| && (front + last)[m] == last[m - |front|];
    FirstPathIs(front + last, endpoint, |front| + FirstPath(last, endpoint));
  }

  /** For every url: where some statement offers the location found, the factory has the kind that the first such
      statement's handler name says, and the root the session looks up is that path's; otherwise the location is "/"
      and gets the 404 handler. */
  lemma DispatchByName(c: Config, routes: map<string, Factory>, url: string, location: string)
    requires WellFormedLocations(c) && Agrees(PathsOf(c), routes) && IsLongestMatch(routes.Keys, url, location)
    ensures location in routes
    ensures (exists i, p :: IsFirstOffer(c, location, i, p)
                         && routes[location] == FactoryFor(p.kind)
                         && IsFirstIn(PathsOf(c), location, p))
            || (location == "/" && routes[location] == NotFoundFactory && Lacks(PathsOf(c), location))
  {
    var paths := PathsOf(c);
    var parts := PartsOf(c);
    FlatParts(c, parts);
    assert FromFirst(paths, routes, location);
    if !Lacks(paths, location) {
      var i, j := FirstInFlat(parts, location);
      OfferIs(c, parts, location, i, j);
      FirstPathIsFirst(paths, location);
      assert IsFirstOffer(c, location, i, parts[i][j]);
    }
  }

  lemma FirstPathIsFirst(paths: seq<Path>, endpoint: string)
    requires FirstPath(paths, endpoint) < |paths|
    ensures IsFirstIn(paths, endpoint, paths[FirstPath(paths, endpoint)])
  {
    assert Lacks(paths[..FirstPath(paths, endpoint)], endpoint);
  }

  lemma OfferIs(c: Config, parts: seq<seq<Path>>, endpoint: string, i: nat, j: nat)
    requires WellFormedLocations(c) && AreParts(c, parts) && i < |c| && j < |parts[i]|
    requires parts[i][j].endpoint == endpoint && Lacks(parts[i][..j], endpoint)
    requires forall h :: 0 <= h < i ==> Lacks(parts[h], endpoint)
    ensures IsFirstOffer(c, endpoint, i, parts[i][j])
  {
    forall h, ps | 0 <= h < i && Contributes(c[h], ps) ensures Lacks(ps, endpoint) {
      StatementByName(c[h], ps);
      StatementByName(c[h], parts[h]);
    }
    assert Contributes(c[i], parts[i]) && IsFirstIn(parts[i], endpoint, parts[i][j]);
  }
}
