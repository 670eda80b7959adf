/** The session's route lookup and its reading of the session cookie. */
module Session {
  import opened Wrappers
  import opened Text
  import opened ProfileDatabase
  import opened ProfileRuns

  /** The url itself, or what stands before one of its slashes. */
  predicate Boundary(url: string, k: nat) {
    k == |url| || (k < |url| && url[k] == '/')
  }

  /** The longest key among the url and its prefixes that end just before a slash, else "/". */
  ghost predicate IsLongestMatch(keys: set<string>, url: string, r: string) {
    || (exists k: nat ::
          && k <= |url| && Boundary(url, k) && r == url[..k] && r in keys
          && forall j: nat :: k < j <= |url| && Boundary(url, j) ==> url[..j] !in keys)
    || (r == "/" && forall j: nat :: j <= |url| && Boundary(url, j) ==> url[..j] !in keys)
  }

  lemma LongestMatchIsUnique(keys: set<string>, url: string, r1: string, r2: string)
    requires IsLongestMatch(keys, url, r1) && IsLongestMatch(keys, url, r2)
    ensures r1 == r2
  {
  }

  method Match<T>(routes: map<string, T>, url: string) returns (location: string)
    ensures IsLongestMatch(routes.Keys, url, location)
  {
    var matched := url;
    var pos: Option<nat> := Some(|url|);
    while pos.Some?
      invariant pos.Some? ==> pos.value <= |matched| <= |url| && Boundary(url, pos.value)
      invariant |matched| <= |url| && matched == url[..|matched|]
      invariant
        var open := if pos.Some? then pos.value + 1 else 0;
        forall j: nat :: open <= j <= |url| && Boundary(url, j) ==> url[..j] !in routes
      decreases if pos.Some? then 1 + pos.value else 0
    {
      matched := matched[..pos.value];
      assert matched == url[..pos.value];
      if matched in routes {
        return matched;
      }
      pos := FindLast(matched, '/');
    }
    location := "/";
  }

  /** A configured endpoint serves its own url and everything beneath it, unless a longer one does. */
  lemma ServesBeneath(keys: set<string>, endpoint: string, rest: string, r: string)
    requires endpoint in keys
    requires rest == "" || rest[0] == '/'
    requires IsLongestMatch(keys, endpoint + rest, r)
    ensures r in keys && endpoint <= r <= endpoint + rest
  {
    var url := endpoint + rest;
    assert url[..|endpoint|] == endpoint && Boundary(url, |endpoint|);
  }

  /** The first crazyCode parameter from position i on. */
  function FindParam(params: seq<(string, string)>, i: nat): (k: nat)
    requires i <= |params|
    ensures i <= k <= |params| && (k < |params| ==> params[k].0 == "crazyCode")
    ensures forall j :: i <= j < k ==> params[j].0 != "crazyCode"
    decreases |params| - i
  {
    if i == |params| || params[i].0 == "crazyCode" then i else FindParam(params, i + 1)
  }

  /** Looks for the crazyCode cookie, whose value replaces the profile; None when std::stoi throws. */
  method UpdateUser(params: seq<(string, string)>, user: UserProfile) returns (ok: bool, updated: Option<UserProfile>)
    ensures
      var k := FindParam(params, 0);
      if k == |params| || |Fields(params[k].1)| != 3 then !ok && updated == Some(user)
      else updated == UserOf(params[k].1) && (ok <==> updated.Some?)
  {
    for i := 0 to |params|
      invariant FindParam(params, 0) == FindParam(params, i)
    {
      if params[i].0 == "crazyCode" {
        var info := SplitBars(params[i].1);
        if |info| != 3 {
          return false, Some(user);
        }
        var id := Stoi(info[0]);
        if id == None {
          return false, None;
        }
        return true, Some(UserProfile(id.value, info[1], info[2], true));
      }
    }
    return false, Some(user);
  }
}
