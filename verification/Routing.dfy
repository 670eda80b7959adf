/** The paths read from a configuration, the route table built from them and their agreement. */
module Routing {
  import opened Wrappers
  import opened ConfigTree
  import opened Session

  datatype Kind = StaticKind | EchoKind | ApiKind | HealthKind | SleepKind | AuthKind | ConsoleKind

  datatype Path = Path(kind: Kind, endpoint: string, root: string, keys: map<string, string>)

  const DEFAULT_PATH := Path(EchoKind, "", "", map[])

  /** A route leads to the factory of a configured kind, or to the 404 handler. */
  datatype Factory = FactoryFor(kind: Kind) | NotFoundFactory

  // ----- what the code demands of a configuration

  predicate NeedsBlock(handler: string) {
    handler == "StaticHandler" || handler == "APIHandler" ||
    handler == "AuthenticationHandler" || handler == "ApiConsoleHandler"
  }

  predicate ReadsRoot(handler: string) {
    handler == "StaticHandler" || handler == "APIHandler"
  }

  predicate IsRoot(child: Statement) {
    child.tokens != [] && child.tokens[0] == "root"
  }

  predicate RootReadable(child: Statement) {
    child.tokens != [] && (child.tokens[0] == "root" ==> |child.tokens| >= 2)
  }

  predicate WellFormedChild(handler: string, child: Statement) {
    ReadsRoot(handler) ==> RootReadable(child)
  }

  predicate WellFormedLocation(s: Statement) {
    && s.tokens != []
    && (s.tokens[0] == "location" ==>
          && |s.tokens| >= 3
          && (NeedsBlock(s.tokens[2]) ==>
                s.Block? && forall i :: 0 <= i < |s.child| ==> WellFormedChild(s.tokens[2], s.child[i])))
  }

  predicate WellFormedLocations(c: Config) {
    forall i :: 0 <= i < |c| ==> WellFormedLocation(c[i])
  }

  // ----- the paths of a configuration

  /** The endpoint without its trailing slashes; nothing but slashes stays as it is. */
  function TrimSlashes(endpoint: string): string {
    var kept := WithoutSlashes(endpoint);
    if kept == "" then endpoint else kept
  }

  function WithoutSlashes(s: string): string {
    if s != "" && s[|s| - 1] == '/' then WithoutSlashes(s[..|s| - 1]) else s
  }

  /** A root statement fills in the path; the last one wins. */
  function RootStep(kind: Kind, endpoint: string, path: Path, child: Statement): Path
    requires RootReadable(child)
  {
    if child.tokens[0] == "root" then Path(kind, TrimSlashes(endpoint), child.tokens[1], path.keys) else path
  }

  function RootPath(kind: Kind, endpoint: string, children: seq<Statement>): Path
    requires forall i :: 0 <= i < |children| ==> RootReadable(children[i])
  {
    if children == [] then DEFAULT_PATH
    else RootStep(kind, endpoint, RootPath(kind, endpoint, children[..|children| - 1]), children[|children| - 1])
  }

  /** std::map::operator[] adds an empty root when there is none. */
  function WithRoot(keys: map<string, string>): map<string, string> {
    if "root" in keys then keys else keys["root" := ""]
  }

  function AuthStep(endpoint: string, path: Path, child: Statement): Path {
    if |child.tokens| != 2 then path
    else
      var keys := WithRoot(path.keys[child.tokens[0] := child.tokens[1]]);
      Path(AuthKind, TrimSlashes(endpoint), keys["root"], keys)
  }

  function AuthPath(endpoint: string, children: seq<Statement>): Path {
    if children == [] then Path(AuthKind, "", "", map[])
    else AuthStep(endpoint, AuthPath(endpoint, children[..|children| - 1]), children[|children| - 1])
  }

  function ConsoleStep(endpoint: string, paths: seq<Path>, child: Statement): seq<Path> {
    if |child.tokens| != 2 then paths
    else
      var keys := WithRoot(map[child.tokens[0] := child.tokens[1]]);
      paths + [Path(ConsoleKind, endpoint, keys["root"], keys)]
  }

  function ConsolePaths(endpoint: string, children: seq<Statement>): seq<Path> {
    if children == [] then []
    else ConsoleStep(endpoint, ConsolePaths(endpoint, children[..|children| - 1]), children[|children| - 1])
  }

  function PathsOfStatement(s: Statement): seq<Path>
    requires WellFormedLocation(s)
  {
    if s.tokens[0] != "location" then []
    else
      var endpoint, handler := s.tokens[1], s.tokens[2];
      if handler == "StaticHandler" then [RootPath(StaticKind, endpoint, s.child)]
      else if handler == "EchoHandler" then [Path(EchoKind, TrimSlashes(endpoint), "", map[])]
      else if handler == "APIHandler" then [RootPath(ApiKind, endpoint, s.child)]
      else if handler == "HealthHandler" then [Path(HealthKind, TrimSlashes(endpoint), "", map[])]
      else if handler == "SleepHandler" then [Path(SleepKind, TrimSlashes(endpoint), "", map[])]
      else if handler == "AuthenticationHandler" then [AuthPath(endpoint, s.child)]
      else if handler == "ApiConsoleHandler" then ConsolePaths(endpoint, s.child)
      else []
  }

  function PathsOf(c: Config): seq<Path>
    requires WellFormedLocations(c)
  {
    if c == [] then [] else PathsOf(c[..|c| - 1]) + PathsOfStatement(c[|c| - 1])
  }

  lemma PathsOfNext(c: Config, i: nat)
    requires WellFormedLocations(c) && i < |c|
    ensures PathsOf(c[..i + 1]) == PathsOf(c[..i]) + PathsOfStatement(c[i])
  {
    assert c[..i + 1][..i] == c[..i];
  }

  /** The last root statement of a static or API block decides its path; without one the path is the default. */
  lemma {:induction false} RootPathIs(kind: Kind, endpoint: string, children: seq<Statement>, k: int)
    requires forall i :: 0 <= i < |children| ==> RootReadable(children[i])
    requires -1 <= k < |children| && (k >= 0 ==> IsRoot(children[k]))
    requires forall i :: k < i < |children| ==> !IsRoot(children[i])
    ensures RootPath(kind, endpoint, children) ==
            if k == -1 then DEFAULT_PATH else Path(kind, TrimSlashes(endpoint), children[k].tokens[1], map[])
    decreases |children|
  {
    if children != [] {
      var front := children[..|children| - 1];
      assert RootReadable(children[|children| - 1]);
      if k < |children| - 1 {
        RootPathIs(kind, endpoint, front, k);
      } else {
        RootPathHasNoKeys(kind, endpoint, front);
      }
    }
  }

  lemma {:induction false} RootPathHasNoKeys(kind: Kind, endpoint: string, children: seq<Statement>)
    requires forall i :: 0 <= i < |children| ==> RootReadable(children[i])
    ensures RootPath(kind, endpoint, children).keys == map[]
    decreases |children|
  {
    if children != [] {
      RootPathHasNoKeys(kind, endpoint, children[..|children| - 1]);
    }
  }

  /** An authentication block maps each key to the value of its last two-word statement, and the root is the
      value of the key root. */
  lemma {:induction false} AuthPathIs(endpoint: string, children: seq<Statement>, k: nat)
    requires k < |children| && |children[k].tokens| == 2
    requires forall i :: k < i < |children| && |children[i].tokens| == 2 ==>
               children[i].tokens[0] != children[k].tokens[0]
    ensures
      var path := AuthPath(endpoint, children);
      && path.endpoint == TrimSlashes(endpoint) && path.kind == AuthKind
      && children[k].tokens[0] in path.keys && path.keys[children[k].tokens[0]] == children[k].tokens[1]
      && "root" in path.keys && path.root == path.keys["root"]
    decreases |children|
  {
    if k < |children| - 1 {
      AuthPathIs(endpoint, children[..|children| - 1], k);
    }
  }

  /** The position of the first path with an endpoint, or the number of paths. */
  function FirstPath(paths: seq<Path>, endpoint: string): (k: nat)
    ensures k <= |paths| && (k < |paths| ==> paths[k].endpoint == endpoint)
    ensures forall i :: 0 <= i < k ==> paths[i].endpoint != endpoint
  {
    if paths == [] then 0
    else if paths[0].endpoint == endpoint then 0
    else 1 + FirstPath(paths[1..], endpoint)
  }

  lemma FirstPathIs(paths: seq<Path>, endpoint: string, k: nat)
    requires k < |paths| && paths[k].endpoint == endpoint && forall i :: 0 <= i < k ==> paths[i].endpoint != endpoint
    ensures FirstPath(paths, endpoint) == k
  {
  }

  class NginxConfig {
    const statements: Config
    var paths: seq<Path>

    constructor (statements: Config)
      ensures this.statements == statements && paths == []
    {
      this.statements, paths := statements, [];
    }

    /** Appends the paths of every location statement. */
    method GetPaths() returns (result: seq<Path>)
      requires WellFormedLocations(statements)
      modifies this
      ensures paths == old(paths) + PathsOf(statements) && result == paths
    {
      for i := 0 to |statements|
        invariant paths == old(paths) + PathsOf(statements[..i])
      {
        var more := StatementPaths(statements[i]);
        PathsOfNext(statements, i);
        Assoc(old(paths), PathsOf(statements[..i]), more);
        paths := paths + more;
      }
      assert statements[..|statements|] == statements;
      result := paths;
    }

    method StatementPaths(s: Statement) returns (found: seq<Path>)
      requires WellFormedLocation(s)
      ensures found == PathsOfStatement(s)
    {
      if s.tokens[0] != "location" {
        return [];
      }
      var endpoint, handler := s.tokens[1], s.tokens[2];
      if handler == "StaticHandler" || handler == "APIHandler" {
        var kind := if handler == "StaticHandler" then StaticKind else ApiKind;
        var path := DEFAULT_PATH;
        assert forall i :: 0 <= i < |s.child| ==> WellFormedChild(handler, s.child[i]);
        for i := 0 to |s.child|
          invariant path == RootPath(kind, endpoint, s.child[..i])
        {
          assert s.child[..i + 1][..i] == s.child[..i];
          path := RootStep(kind, endpoint, path, s.child[i]);
        }
        assert s.child[..|s.child|] == s.child;
        return [path];
      } else if handler == "AuthenticationHandler" {
        var path := Path(AuthKind, "", "", map[]);
        for i := 0 to |s.child|
          invariant path == AuthPath(endpoint, s.child[..i])
        {
          assert s.child[..i + 1][..i] == s.child[..i];
          path := AuthStep(endpoint, path, s.child[i]);
        }
        assert s.child[..|s.child|] == s.child;
        return [path];
      } else if handler == "ApiConsoleHandler" {
        found := [];
        for i := 0 to |s.child|
          invariant found == ConsolePaths(endpoint, s.child[..i])
        {
          assert s.child[..i + 1][..i] == s.child[..i];
          found := ConsoleStep(endpoint, found, s.child[i]);
        }
        assert s.child[..|s.child|] == s.child;
      } else if handler == "EchoHandler" {
        return [Path(EchoKind, TrimSlashes(endpoint), "", map[])];
      } else if handler == "HealthHandler" {
        return [Path(HealthKind, TrimSlashes(endpoint), "", map[])];
      } else if handler == "SleepHandler" {
        return [Path(SleepKind, TrimSlashes(endpoint), "", map[])];
      } else {
        return [];
      }
    }

    /** The root of the first path with that endpoint. */
    method GetRoot(location: string) returns (root: string)
      ensures
        var k := FirstPath(paths, location);
        root == if k < |paths| then paths[k].root else ""
    {
      for i := 0 to |paths|
        invariant forall j :: 0 <= j < i ==> paths[j].endpoint != location
      {
        if paths[i].endpoint == location {
          FirstPathIs(paths, location, i);
          return paths[i].root;
        }
      }
      return "";
    }
  }

  class Server {
    var routes: map<string, Factory>

    constructor ()
      ensures routes == map[]
    {
      routes := map[];
    }

    /** The first path with an endpoint claims its route; "/" falls back to the 404 handler. Routes that exist
        already stay. */
    method InitServer(config: NginxConfig)
      requires WellFormedLocations(config.statements)
      modifies this, config
      ensures config.paths == old(config.paths) + PathsOf(config.statements)
      ensures Extends(old(routes), config.paths, routes)
      ensures old(routes) == map[] ==> Agrees(config.paths, routes)
    {
      var paths := config.GetPaths();
      routes := AddRoutes(routes, paths);
    }

    method AddRoutes(prior: map<string, Factory>, paths: seq<Path>) returns (table: map<string, Factory>)
      ensures Extends(prior, paths, table)
    {
      table := prior;
      for i := 0 to |paths|
        invariant Claimed(prior, paths, i, table)
      {
        ClaimNext(prior, paths, i, table);
        if paths[i].endpoint !in table {
          table := table[paths[i].endpoint := FactoryFor(paths[i].kind)];
        }
      }
      if "/" !in table {
        table := table["/" := NotFoundFactory];
      }
    }

    /** What a session does with a url: the matched location, its factory, and the root the factory looks up. */
    method Dispatch(config: NginxConfig, url: string) returns (location: string, factory: Factory, root: string)
      requires Agrees(config.paths, routes)
      ensures IsLongestMatch(routes.Keys, url, location) && location in routes
      ensures
        var k := FirstPath(config.paths, location);
        if k < |config.paths| then factory == FactoryFor(config.paths[k].kind) && root == config.paths[k].root
        else location == "/" && factory == NotFoundFactory && root == ""
    {
      location := Match(routes, url);
      factory := routes[location];
      root := config.GetRoot(location);
    }
  }

  /** The route is what the first path with that endpoint says, and only "/" can lack a path. */
  predicate FromFirst(paths: seq<Path>, routes: map<string, Factory>, e: string)
    requires e in routes
  {
    var k := FirstPath(paths, e);
    if k < |paths| then routes[e] == FactoryFor(paths[k].kind) else e == "/" && routes[e] == NotFoundFactory
  }

  /** The table after the first i paths. */
  predicate Claimed(prior: map<string, Factory>, paths: seq<Path>, i: nat, table: map<string, Factory>)
    requires i <= |paths|
  {
    && (forall e :: e in prior ==> e in table && table[e] == prior[e])
    && (forall j :: 0 <= j < i ==> paths[j].endpoint in table)
    && (forall e :: e in table && e !in prior ==> FirstPath(paths, e) < i && FromFirst(paths, table, e))
  }

  lemma ClaimNext(prior: map<string, Factory>, paths: seq<Path>, i: nat, table: map<string, Factory>)
    requires i < |paths| && Claimed(prior, paths, i, table)
    ensures
      var e := paths[i].endpoint;
      Claimed(prior, paths, i + 1, if e in table then table else table[e := FactoryFor(paths[i].kind)])
  {
    var e := paths[i].endpoint;
    if e !in table {
      var next := table[e := FactoryFor(paths[i].kind)];
      FirstPathIs(paths, e, i);
      forall x | x in next && x !in prior ensures FirstPath(paths, x) < i + 1 && FromFirst(paths, next, x) {
        assert x != e ==> FromFirst(paths, table, x);
      }
    }
  }

  /** Prior routes stay; every configured endpoint and "/" is a route, a new one with what its first path says. */
  predicate Extends(prior: map<string, Factory>, paths: seq<Path>, routes: map<string, Factory>) {
    && "/" in routes
    && (forall e :: e in prior ==> e in routes && routes[e] == prior[e])
    && (forall e :: e in routes && e !in prior ==> FromFirst(paths, routes, e))
    && (forall i :: 0 <= i < |paths| ==> paths[i].endpoint in routes)
  }

  /** Path list and route table agree. */
  predicate Agrees(paths: seq<Path>, routes: map<string, Factory>) {
    Extends(map[], paths, routes)
  }

  /** The lookup of this url is answered by the factory of a configured path. */
  ghost predicate Served(routes: map<string, Factory>, url: string) {
    forall location :: IsLongestMatch(routes.Keys, url, location) ==> location in routes && routes[location].FactoryFor?
  }

  lemma NonEmptyIsServed(paths: seq<Path>, routes: map<string, Factory>, i: nat, rest: string)
    requires Agrees(paths, routes) && i < |paths| && paths[i].endpoint != "" && (rest == "" || rest[0] == '/')
    ensures Served(routes, paths[i].endpoint + rest)
  {
    forall location | IsLongestMatch(routes.Keys, paths[i].endpoint + rest, location)
      ensures location in routes && routes[location].FactoryFor?
    {
      ServesBeneath(routes.Keys, paths[i].endpoint, rest, location);
      assert FromFirst(paths, routes, location);
    }
  }

  /** Everything at or beneath a configured endpoint is served by a configured path, never by the 404 handler, if
      and only if the endpoint is not empty or "/" has a path too. */
  lemma ConfiguredIsServed(paths: seq<Path>, routes: map<string, Factory>, i: nat)
    requires Agrees(paths, routes) && i < |paths|
    ensures (forall rest: string :: rest == "" || rest[0] == '/' ==> Served(routes, paths[i].endpoint + rest)) <==>
            paths[i].endpoint != "" || FirstPath(paths, "/") < |paths|
  {
    if paths[i].endpoint != "" {
      forall rest: string | rest == "" || rest[0] == '/' ensures Served(routes, paths[i].endpoint + rest) {
        NonEmptyIsServed(paths, routes, i, rest);
      }
    } else if FirstPath(paths, "/") < |paths| {
      assert forall e :: e in routes ==> FromFirst(paths, routes, e);
    } else {
      assert "" + "/" == "/" && "/"[..1] == "/" && Boundary("/", 1);
      assert FromFirst(paths, routes, "/");
      assert IsLongestMatch(routes.Keys, "/", "/");
      assert !Served(routes, paths[i].endpoint + "/");
    }
  }

  lemma {:induction false} WithoutSlashesIs(s: string)
    ensures
      var kept := WithoutSlashes(s);
      && kept <= s && (kept != "" ==> kept[|kept| - 1] != '/')
      && forall i :: |kept| <= i < |s| ==> s[i] == '/'
  {
    if s != "" && s[|s| - 1] == '/' {
      WithoutSlashesIs(s[..|s| - 1]);
    }
  }

  /** An endpoint loses exactly its trailing slashes; one of slashes only stays whole. */
  lemma TrimmedEndpoint(endpoint: string)
    ensures
      var kept := TrimSlashes(endpoint);
      if forall i :: 0 <= i < |endpoint| ==> endpoint[i] == '/' then kept == endpoint
      else
        && kept <= endpoint && kept != "" && kept[|kept| - 1] != '/'
        && forall i :: |kept| <= i < |endpoint| ==> endpoint[i] == '/'
  {
    WithoutSlashesIs(endpoint);
    var kept := WithoutSlashes(endpoint);
    assert kept != "" ==> kept[|kept| - 1] == endpoint[|kept| - 1];
  }

  // ----- a block without a root

  /** With a static block without a root as only statement the path is the default one, and "/" gets the 404
      handler although the empty endpoint is configured. */
  lemma RootlessBlock(endpoint: string, routes: map<string, Factory>)
    requires Agrees(PathsOf([Block(["location", endpoint, "StaticHandler"], [])]), routes)
    ensures PathsOf([Block(["location", endpoint, "StaticHandler"], [])]) == [DEFAULT_PATH]
    ensures IsLongestMatch(routes.Keys, "/", "/") && routes["/"] == NotFoundFactory
  {
    var s := Block(["location", endpoint, "StaticHandler"], []);
    assert [s][..0] == [];
    assert PathsOf([s]) == PathsOf([]) + PathsOfStatement(s);
    assert FromFirst([DEFAULT_PATH], routes, "/");
    assert "/"[..1] == "/" && Boundary("/", 1);
  }
}
