/** `getUserInfo` and `getRepoInfo`: look the metadata up in the page's cache
    first, and only on a miss ask the origin, storing an ok answer under a key
    namespaced by kind. The functions here say what one lookup returns and
    what the cache holds afterwards; the class in the resolver module applies
    them to its cache field. */
module Metadata {
  import opened Results
  import opened Http
  import Inputs

  /** The field of a user record the page reads (`public_repos`). */
  datatype UserInfo = UserInfo(login: string, publicRepos: int)

  /** The field of a repository record the page reads (`stargazers_count`). */
  datatype RepoInfo = RepoInfo(fullName: string, stargazersCount: int)

  /** A cache entry: a user record or a repository record. */
  datatype CachedInfo = CachedUser(user: UserInfo) | CachedRepo(repo: RepoInfo)

  type Cache = map<string, CachedInfo>

  const UserPrefix := "github_user_"
  const RepoPrefix := "github_repo_"

  predicate HasPrefix(key: string, prefix: string)
  {
    |prefix| <= |key| && key[..|prefix|] == prefix
  }

  /** The cache key of a user, in the user namespace only. */
  function UserKey(username: string): (key: string)
    ensures HasPrefix(key, UserPrefix) && !HasPrefix(key, RepoPrefix)
  {
    var key := UserPrefix + username;
    assert key[7] == 'u' && RepoPrefix[7] == 'r';
    key
  }

  /** The cache key of a repository, in the repository namespace only. */
  function RepoKey(owner: string, repo: string): (key: string)
    ensures HasPrefix(key, RepoPrefix) && !HasPrefix(key, UserPrefix)
  {
    var key := RepoPrefix + owner + "_" + repo;
    assert key[..|RepoPrefix|] == RepoPrefix;
    assert key[7] == 'r' && UserPrefix[7] == 'u';
    key
  }

  /** A user key never names a repository entry. */
  lemma UserAndRepoKeysDiffer(username: string, owner: string, repo: string)
    ensures UserKey(username) != RepoKey(owner, repo)
  {
  }

  /** Two users never share a key. */
  lemma UserKeyInjective(u1: string, u2: string)
    requires UserKey(u1) == UserKey(u2)
    ensures u1 == u2
  {
    assert u1 == UserKey(u1)[|UserPrefix|..];
    assert u2 == UserKey(u2)[|UserPrefix|..];
  }

  /** The repository key does not separate owner and name unambiguously: moving
      an underscore-joined piece from the name to the owner gives the same key
      (`a`, `b_c` and `a_b`, `c` share `github_repo_a_b_c`). */
  lemma RepoKeyAmbiguous(owner: string, middle: string, repo: string)
    ensures RepoKey(owner, middle + "_" + repo) == RepoKey(owner + "_" + middle, repo)
  {
  }

  /** Two repositories whose owners hold no underscore never share a key. */
  lemma RepoKeyInjective(o1: string, r1: string, o2: string, r2: string)
    requires '_' !in o1 && '_' !in o2
    requires RepoKey(o1, r1) == RepoKey(o2, r2)
    ensures o1 == o2 && r1 == r2
  {
    var k1, k2 := RepoKey(o1, r1), RepoKey(o2, r2);
    var p := |RepoPrefix|;
    assert k1[p..] == o1 + "_" + r1 && k2[p..] == o2 + "_" + r2;
    var t := k1[p..];
    assert t[|o1|] == '_' && forall i :: 0 <= i < |o1| ==> t[i] != '_';
    assert t[|o2|] == '_' && forall i :: 0 <= i < |o2| ==> t[i] != '_';
    if |o1| != |o2| {
      assert false;
    }
    assert o1 == t[..|o1|] == o2;
    assert r1 == t[|o1| + 1..] == r2;
  }

  /** Owners the username rule accepts (letters, digits, hyphens) never
      collide in the repository namespace. */
  lemma RepoKeyInjectiveForValidOwners(o1: string, r1: string, o2: string, r2: string)
    requires Inputs.IsValidUsername(o1) && Inputs.IsValidUsername(o2)
    requires RepoKey(o1, r1) == RepoKey(o2, r2)
    ensures o1 == o2 && r1 == r2
  {
    forall o | Inputs.IsValidUsername(o) ensures '_' !in o {
      forall i | 0 <= i < |o| ensures o[i] != '_' {
        assert Inputs.IsAsciiAlnum(o[i]) || o[i] == '-';
      }
    }
    RepoKeyInjective(o1, r1, o2, r2);
  }

  /** The cache keeps user records under user keys and repository records
      under repository keys; other keys may hold anything. */
  predicate WellKeyed(cache: Cache)
  {
    forall k :: k in cache ==>
      (HasPrefix(k, UserPrefix) ==> cache[k].CachedUser?) &&
      (HasPrefix(k, RepoPrefix) ==> cache[k].CachedRepo?)
  }

  // ---------------------------------------------------------------------------
  // getUserInfo
  // ---------------------------------------------------------------------------

  /** What `getUserInfo(username)` returns: the cached record on a hit, which
      never fails; otherwise the origin's record, or an HTTPError with the
      origin's status and a non-empty message when it answers non-ok. */
  function UserLookup(cache: Cache, fetch: string -> Response<UserInfo>, username: string): (r: Result<UserInfo, HttpError>)
    requires WellKeyed(cache)
    ensures UserKey(username) in cache ==> r == Ok(cache[UserKey(username)].user)
    ensures UserKey(username) !in cache ==> (r.Ok? <==> fetch(username).Success?)
    ensures UserKey(username) !in cache && r.Ok? ==> r.value == fetch(username).data
    ensures r.Err? ==> r.error.status == fetch(username).status && r.error.message != ""
    ensures r.Err? ==> UserKey(username) !in cache && fetch(username).Failure? && r.error == ErrorOf(fetch(username))
  {
    var key := UserKey(username);
    if key in cache then Ok(cache[key].user)
    else
      var response := fetch(username);
      if response.Success? then Ok(response.data) else Err(ErrorOf(response))
  }

  /** The cache after `getUserInfo(username)`: unchanged on a hit or an error;
      on a fetched record, the record stored under the user's key and nothing
      else changed. */
  function UserStore(cache: Cache, fetch: string -> Response<UserInfo>, username: string): (c: Cache)
    requires WellKeyed(cache)
    ensures WellKeyed(c)
    ensures UserKey(username) in c <==> UserLookup(cache, fetch, username).Ok?
    ensures UserKey(username) in c ==> c[UserKey(username)] == CachedUser(UserLookup(cache, fetch, username).value)
    ensures forall k :: k != UserKey(username) ==> (k in c <==> k in cache)
    ensures forall k :: k in cache && k != UserKey(username) ==> c[k] == cache[k]
  {
    var key := UserKey(username);
    if key in cache then cache
    else
      var response := fetch(username);
      if response.Success? then cache[key := CachedUser(response.data)] else cache
  }

  /** A cache hit does not consult the origin: any origin gives the same. */
  lemma UserHitIgnoresOrigin(cache: Cache, f: string -> Response<UserInfo>, g: string -> Response<UserInfo>, username: string)
    requires WellKeyed(cache) && UserKey(username) in cache
    ensures UserLookup(cache, f, username) == UserLookup(cache, g, username)
    ensures UserStore(cache, f, username) == cache
  {
  }

  /** After a successful lookup, asking again gives the same record from the
      cache, whatever the origin would now say, and changes nothing. */
  lemma UserLookupRepeat(cache: Cache, f: string -> Response<UserInfo>, g: string -> Response<UserInfo>, username: string)
    requires WellKeyed(cache) && UserLookup(cache, f, username).Ok?
    ensures var c := UserStore(cache, f, username);
            UserLookup(c, g, username) == UserLookup(cache, f, username) && UserStore(c, g, username) == c
  {
  }

  // ---------------------------------------------------------------------------
  // getRepoInfo
  // ---------------------------------------------------------------------------

  /** What `getRepoInfo(owner, repo)` returns: as for UserLookup, under the
      repository's key. */
  function RepoLookup(cache: Cache, fetch: (string, string) -> Response<RepoInfo>, owner: string, repo: string)
    : (r: Result<RepoInfo, HttpError>)
    requires WellKeyed(cache)
    ensures RepoKey(owner, repo) in cache ==> r == Ok(cache[RepoKey(owner, repo)].repo)
    ensures RepoKey(owner, repo) !in cache ==> (r.Ok? <==> fetch(owner, repo).Success?)
    ensures RepoKey(owner, repo) !in cache && r.Ok? ==> r.value == fetch(owner, repo).data
    ensures r.Err? ==> r.error.status == fetch(owner, repo).status && r.error.message != ""
    ensures r.Err? ==> RepoKey(owner, repo) !in cache && fetch(owner, repo).Failure? && r.error == ErrorOf(fetch(owner, repo))
  {
    var key := RepoKey(owner, repo);
    if key in cache then Ok(cache[key].repo)
    else
      var response := fetch(owner, repo);
      if response.Success? then Ok(response.data) else Err(ErrorOf(response))
  }

  /** The cache after `getRepoInfo(owner, repo)`. */
  function RepoStore(cache: Cache, fetch: (string, string) -> Response<RepoInfo>, owner: string, repo: string): (c: Cache)
    requires WellKeyed(cache)
    ensures WellKeyed(c)
    ensures RepoKey(owner, repo) in c <==> RepoLookup(cache, fetch, owner, repo).Ok?
    ensures RepoKey(owner, repo) in c ==> c[RepoKey(owner, repo)] == CachedRepo(RepoLookup(cache, fetch, owner, repo).value)
    ensures forall k :: k != RepoKey(owner, repo) ==> (k in c <==> k in cache)
    ensures forall k :: k in cache && k != RepoKey(owner, repo) ==> c[k] == cache[k]
  {
    var key := RepoKey(owner, repo);
    if key in cache then cache
    else
      var response := fetch(owner, repo);
      if response.Success? then cache[key := CachedRepo(response.data)] else cache
  }

  lemma RepoHitIgnoresOrigin(cache: Cache, f: (string, string) -> Response<RepoInfo>, g: (string, string) -> Response<RepoInfo>, owner: string, repo: string)
    requires WellKeyed(cache) && RepoKey(owner, repo) in cache
    ensures RepoLookup(cache, f, owner, repo) == RepoLookup(cache, g, owner, repo)
    ensures RepoStore(cache, f, owner, repo) == cache
  {
  }

  lemma RepoLookupRepeat(cache: Cache, f: (string, string) -> Response<RepoInfo>, g: (string, string) -> Response<RepoInfo>, owner: string, repo: string)
    requires WellKeyed(cache) && RepoLookup(cache, f, owner, repo).Ok?
    ensures var c := RepoStore(cache, f, owner, repo);
            RepoLookup(c, g, owner, repo) == RepoLookup(cache, f, owner, repo) && RepoStore(c, g, owner, repo) == c
  {
  }

  // ---------------------------------------------------------------------------
  // The two lookups of one check run concurrently
  // ---------------------------------------------------------------------------

  /** The user lookup and the repository lookup touch disjoint keys, so neither
      sees the other's write, and their writes commute: whichever of the two
      concurrent requests finishes first, the outcome is the same. */
  lemma LookupsIndependent(cache: Cache, fu: string -> Response<UserInfo>, username: string,
                           fr: (string, string) -> Response<RepoInfo>, owner: string, repo: string)
    requires WellKeyed(cache)
    ensures RepoLookup(UserStore(cache, fu, username), fr, owner, repo) == RepoLookup(cache, fr, owner, repo)
    ensures UserLookup(RepoStore(cache, fr, owner, repo), fu, username) == UserLookup(cache, fu, username)
    ensures RepoStore(UserStore(cache, fu, username), fr, owner, repo) ==
            UserStore(RepoStore(cache, fr, owner, repo), fu, username)
  {
    UserAndRepoKeysDiffer(username, owner, repo);
  }
}
