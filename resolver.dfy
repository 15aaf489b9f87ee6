/** `findStarTimestamp`: fetch the user's and the repository's metadata,
    pick the list whose reported size is smaller (the user's starred list on a
    tie), walk all its pages and return the `starred_at` of the first entry
    naming the other party, case-insensitively, or `null`. The page's global
    cache is the field of a StarChecker object. */
module Resolver {
  import opened Results
  import opened Http
  import opened Text
  import opened Pagination
  import opened Metadata

  /** An entry of a user's starred list: `starred_at` and `repo.full_name`. */
  datatype StarredRepo = StarredRepo(starredAt: string, repoFullName: string)

  /** An entry of a repository's stargazer list: `starred_at` and `user.login`. */
  datatype Stargazer = Stargazer(starredAt: string, login: string)

  /** The origin's four endpoints: user lookup, repository lookup, and the two
      paginated lists (user name or owner and repository, then page number). */
  datatype Api = Api(
    user: string -> Response<UserInfo>,
    repo: (string, string) -> Response<RepoInfo>,
    starred: (string, nat) -> PageResponse<StarredRepo>,
    stargazers: (string, string, nat) -> PageResponse<Stargazer>)

  function StarredPages(api: Api, username: string): Origin<StarredRepo>
  {
    (page: nat) => api.starred(username, page)
  }

  function StargazerPages(api: Api, owner: string, repo: string): Origin<Stargazer>
  {
    (page: nat) => api.stargazers(owner, repo, page)
  }

  function RepoFullNameOf(item: StarredRepo): string { item.repoFullName }
  function LoginOf(item: Stargazer): string { item.login }
  function StarredAtOfRepo(item: StarredRepo): string { item.starredAt }
  function StarredAtOfGazer(item: Stargazer): string { item.starredAt }

  // ---------------------------------------------------------------------------
  // Scanning a list
  // ---------------------------------------------------------------------------

  /** Entry `i` names `query`, ignoring letter case. */
  predicate MatchesAt<T>(items: seq<T>, name: T -> string, query: string, i: int)
    requires 0 <= i < |items|
  {
    EqualsIgnoreCase(name(items[i]), query)
  }

  /** The timestamp of the first entry naming `query`: present exactly when
      some entry matches, and then taken from the earliest one. */
  function FirstStarredAt<T>(items: seq<T>, name: T -> string, stamp: T -> string, query: string): (r: Option<string>)
    ensures r.Some? <==> exists i :: 0 <= i < |items| && MatchesAt(items, name, query, i)
    ensures r.Some? ==> exists i :: 0 <= i < |items| && MatchesAt(items, name, query, i) &&
                                    r.value == stamp(items[i]) &&
                                    forall j :: 0 <= j < i ==> !MatchesAt(items, name, query, j)
    decreases |items|
  {
    if items == [] then None
    else if EqualsIgnoreCase(name(items[0]), query) then
      assert MatchesAt(items, name, query, 0);
      Some(stamp(items[0]))
    else
      var r := FirstStarredAt(items[1..], name, stamp, query);
      assert forall i :: 0 <= i < |items| - 1 ==>
        (MatchesAt(items[1..], name, query, i) <==> MatchesAt(items, name, query, i + 1));
      assert forall i :: 0 < i < |items| && MatchesAt(items, name, query, i) ==>
        MatchesAt(items[1..], name, query, i - 1);
      r
  }

  /** The `for ... of` loop with `break` of `findStarTimestamp`. */
  method ScanForStar<T>(items: seq<T>, name: T -> string, stamp: T -> string, query: string)
    returns (starredAt: Option<string>)
    ensures starredAt == FirstStarredAt(items, name, stamp, query)
  {
    starredAt := None;
    var i := 0;
    while i < |items|
      invariant 0 <= i <= |items|
      invariant FirstStarredAt(items[i..], name, stamp, query) == FirstStarredAt(items, name, stamp, query)
    {
      if EqualsIgnoreCase(name(items[i]), query) {
        starredAt := Some(stamp(items[i]));
        break;
      }
      assert items[i..][1..] == items[i + 1..];
      i := i + 1;
    }
  }

  /** A listed star is found whatever the letter case of the listed name. */
  lemma {:induction false} MatchIgnoresCase<T>(items: seq<T>, name: T -> string, stamp: T -> string, q1: string, q2: string)
    requires EqualsIgnoreCase(q1, q2)
    ensures FirstStarredAt(items, name, stamp, q1) == FirstStarredAt(items, name, stamp, q2)
    decreases |items|
  {
    if items != [] {
      MatchIgnoresCase(items[1..], name, stamp, q1, q2);
    }
  }

  // ---------------------------------------------------------------------------
  // The two list fetchers
  // ---------------------------------------------------------------------------

  /** `getUserStarredRepos(username)`. */
  method GetUserStarredRepos(api: Api, username: string)
    returns (r: Result<seq<StarredRepo>, HttpError>, ghost requested: seq<nat>)
    requires Terminates(StarredPages(api, username))
    ensures r == PagedResult(StarredPages(api, username))
    ensures requested == PagesBefore(FirstStop(StarredPages(api, username)) + 1)
  {
    r, requested := FetchAllPages(StarredPages(api, username));
  }

  /** `getRepoStargazers(owner, repo)`. */
  method GetRepoStargazers(api: Api, owner: string, repo: string)
    returns (r: Result<seq<Stargazer>, HttpError>, ghost requested: seq<nat>)
    requires Terminates(StargazerPages(api, owner, repo))
    ensures r == PagedResult(StargazerPages(api, owner, repo))
    ensures requested == PagesBefore(FirstStop(StargazerPages(api, owner, repo)) + 1)
  {
    r, requested := FetchAllPages(StargazerPages(api, owner, repo));
  }

  // ---------------------------------------------------------------------------
  // The resolution as a whole
  // ---------------------------------------------------------------------------

  /** The direction rule: the user's starred list is walked when the user's
      `public_repos` is at most the repository's `stargazers_count`. The walked
      list is the one whose reported size is the smaller of the two, the
      user's on a tie. */
  predicate WalksUserList(user: UserInfo, repo: RepoInfo): (walksUser: bool)
    ensures walksUser <==> (if user.publicRepos < repo.stargazersCount then user.publicRepos else repo.stargazersCount) == user.publicRepos
  {
    user.publicRepos <= repo.stargazersCount
  }

  /** Both lists end at some page. */
  ghost predicate ListsTerminate(api: Api, username: string, owner: string, repo: string)
  {
    Terminates(StarredPages(api, username)) && Terminates(StargazerPages(api, owner, repo))
  }

  /** The list the direction rule picks ends at some page, as the loop of the
      page needs; nothing is asked of the other list, nor of either list when
      a lookup fails. */
  ghost predicate ChosenListTerminates(cache: Cache, api: Api, username: string, owner: string, repo: string)
    requires WellKeyed(cache)
  {
    var u, p := UserLookup(cache, api.user, username), RepoLookup(cache, api.repo, owner, repo);
    u.Ok? && p.Ok? ==>
      if WalksUserList(u.value, p.value) then Terminates(StarredPages(api, username))
      else Terminates(StargazerPages(api, owner, repo))
  }

  /** What `findStarTimestamp(username, owner, repo)` settles to, starting from
      the cache `cache`: the user lookup's error, else the repository lookup's
      error, else the chosen list's error, else the timestamp of its first
      matching entry or none. */
  ghost function ResolveStar(cache: Cache, api: Api, username: string, owner: string, repo: string)
    : (r: Result<Option<string>, HttpError>)
    requires WellKeyed(cache) && ChosenListTerminates(cache, api, username, owner, repo)
    ensures UserLookup(cache, api.user, username).Err? ==> r == Err(UserLookup(cache, api.user, username).error)
    ensures var u, p := UserLookup(cache, api.user, username), RepoLookup(cache, api.repo, owner, repo);
            u.Ok? && p.Err? ==> r == Err(p.error)
    ensures var u, p := UserLookup(cache, api.user, username), RepoLookup(cache, api.repo, owner, repo);
            u.Ok? && p.Ok? && WalksUserList(u.value, p.value) ==>
              (var l := PagedResult(StarredPages(api, username));
               (l.Err? ==> r == Err(l.error)) &&
               (l.Ok? ==> r == Ok(FirstStarredAt(l.value, RepoFullNameOf, StarredAtOfRepo, owner + "/" + repo))))
    ensures var u, p := UserLookup(cache, api.user, username), RepoLookup(cache, api.repo, owner, repo);
            u.Ok? && p.Ok? && !WalksUserList(u.value, p.value) ==>
              (var l := PagedResult(StargazerPages(api, owner, repo));
               (l.Err? ==> r == Err(l.error)) &&
               (l.Ok? ==> r == Ok(FirstStarredAt(l.value, LoginOf, StarredAtOfGazer, username))))
    ensures var u, p := UserLookup(cache, api.user, username), RepoLookup(cache, api.repo, owner, repo);
            r.Ok? ==> (u.Ok? && p.Ok? &&
              if WalksUserList(u.value, p.value) then
                var l := PagedResult(StarredPages(api, username));
                l.Ok? && (r.value.Some? <==> exists i :: 0 <= i < |l.value| && MatchesAt(l.value, RepoFullNameOf, owner + "/" + repo, i))
              else
                var l := PagedResult(StargazerPages(api, owner, repo));
                l.Ok? && (r.value.Some? <==> exists i :: 0 <= i < |l.value| && MatchesAt(l.value, LoginOf, username, i)))
  {
    var u := UserLookup(cache, api.user, username);
    var p := RepoLookup(cache, api.repo, owner, repo);
    if u.Err? then Err(u.error)
    else if p.Err? then Err(p.error)
    else if WalksUserList(u.value, p.value) then
      match PagedResult(StarredPages(api, username))
      case Err(e) => Err(e)
      case Ok(items) => Ok(FirstStarredAt(items, RepoFullNameOf, StarredAtOfRepo, owner + "/" + repo))
    else
      match PagedResult(StargazerPages(api, owner, repo))
      case Err(e) => Err(e)
      case Ok(items) => Ok(FirstStarredAt(items, LoginOf, StarredAtOfGazer, username))
  }

  /** Only the chosen list is consulted: with the user's list chosen, any
      stargazer endpoint gives the same result, and the other way round. */
  lemma ResolveUsesChosenListOnly(cache: Cache, api: Api, username: string, owner: string, repo: string,
                                  other: Api)
    requires WellKeyed(cache) && ChosenListTerminates(cache, api, username, owner, repo)
    requires other.user == api.user && other.repo == api.repo
    requires var u, p := UserLookup(cache, api.user, username), RepoLookup(cache, api.repo, owner, repo);
             u.Ok? && p.Ok? &&
             (if WalksUserList(u.value, p.value) then other.starred == api.starred
              else other.stargazers == api.stargazers)
    ensures ChosenListTerminates(cache, other, username, owner, repo)
    ensures ListRequests(cache, other, username, owner, repo) == ListRequests(cache, api, username, owner, repo)
    ensures ResolveStar(cache, other, username, owner, repo) == ResolveStar(cache, api, username, owner, repo)
  {
    var u, p := UserLookup(cache, api.user, username), RepoLookup(cache, api.repo, owner, repo);
    if WalksUserList(u.value, p.value) {
      assert StarredPages(other, username) == StarredPages(api, username);
    } else {
      assert StargazerPages(other, owner, repo) == StargazerPages(api, owner, repo);
    }
  }

  /** A failed metadata lookup fails the whole check before any list is
      walked; a 404 on the user lookup surfaces as that 404. */
  lemma ResolveFailsOnUserLookup(cache: Cache, api: Api, username: string, owner: string, repo: string)
    requires WellKeyed(cache)
    requires UserKey(username) !in cache && api.user(username).Failure?
    ensures ChosenListTerminates(cache, api, username, owner, repo)
    ensures ResolveStar(cache, api, username, owner, repo) == Err(ErrorOf(api.user(username)))
    ensures ListRequests(cache, api, username, owner, repo) == []
  {
  }

  /** Once a check has got past both metadata lookups, running it again from
      the updated cache gives the same answer whatever the metadata endpoints
      now say: both lookups are served from the cache. */
  lemma ResolveRepeat(cache: Cache, api: Api, username: string, owner: string, repo: string, later: Api)
    requires WellKeyed(cache) && ChosenListTerminates(cache, api, username, owner, repo)
    requires UserLookup(cache, api.user, username).Ok? && RepoLookup(cache, api.repo, owner, repo).Ok?
    requires later.starred == api.starred && later.stargazers == api.stargazers
    ensures var c := RepoStore(UserStore(cache, api.user, username), api.repo, owner, repo);
            && WellKeyed(c)
            && UserKey(username) in c && RepoKey(owner, repo) in c
            && ChosenListTerminates(c, later, username, owner, repo)
            && ResolveStar(c, later, username, owner, repo) == ResolveStar(cache, api, username, owner, repo)
            && ListRequests(c, later, username, owner, repo) == ListRequests(cache, api, username, owner, repo)
  {
    var c1 := UserStore(cache, api.user, username);
    var c := RepoStore(c1, api.repo, owner, repo);
    LookupsIndependent(cache, api.user, username, api.repo, owner, repo);
    UserAndRepoKeysDiffer(username, owner, repo);
    UserLookupRepeat(cache, api.user, later.user, username);
    RepoLookupRepeat(c1, api.repo, later.repo, owner, repo);
    assert UserLookup(c, later.user, username) == UserLookup(c1, later.user, username);
    assert StarredPages(later, username) == StarredPages(api, username);
    assert StargazerPages(later, owner, repo) == StargazerPages(api, owner, repo);
  }

  /** `items` agrees with `star`, the time the user starred the repository or
      none: with no star no entry names the query, and with a star some entry
      names it and every entry that does carries that time. */
  predicate ListAgrees<T>(items: seq<T>, name: T -> string, stamp: T -> string, query: string, star: Option<string>)
  {
    && ((exists i :: 0 <= i < |items| && MatchesAt(items, name, query, i)) <==> star.Some?)
    && (forall i :: 0 <= i < |items| && MatchesAt(items, name, query, i) ==> Some(stamp(items[i])) == star)
  }

  /** A list that agrees with the star yields exactly that star. */
  lemma ScanFindsStar<T>(items: seq<T>, name: T -> string, stamp: T -> string, query: string, star: Option<string>)
    requires ListAgrees(items, name, stamp, query, star)
    ensures FirstStarredAt(items, name, stamp, query) == star
  {
  }

  /** Either list, fully walked, gives the same answer: when the user's
      starred list and the repository's stargazer list agree with one star,
      scanning either finds it. */
  lemma DirectionDoesNotMatter(starred: seq<StarredRepo>, gazers: seq<Stargazer>,
                               username: string, owner: string, repo: string, star: Option<string>)
    requires ListAgrees(starred, RepoFullNameOf, StarredAtOfRepo, owner + "/" + repo, star)
    requires ListAgrees(gazers, LoginOf, StarredAtOfGazer, username, star)
    ensures FirstStarredAt(starred, RepoFullNameOf, StarredAtOfRepo, owner + "/" + repo)
            == FirstStarredAt(gazers, LoginOf, StarredAtOfGazer, username)
            == star
  {
    ScanFindsStar(starred, RepoFullNameOf, StarredAtOfRepo, owner + "/" + repo, star);
    ScanFindsStar(gazers, LoginOf, StarredAtOfGazer, username, star);
  }

  /** The whole check returns the agreed star whichever way the two counts
      pick, when both lists are fetched without error and agree with it. */
  lemma ResolveGivesAgreedStar(cache: Cache, api: Api, username: string, owner: string, repo: string,
                               starred: seq<StarredRepo>, gazers: seq<Stargazer>, star: Option<string>)
    requires WellKeyed(cache) && ListsTerminate(api, username, owner, repo)
    requires UserLookup(cache, api.user, username).Ok? && RepoLookup(cache, api.repo, owner, repo).Ok?
    requires PagedResult(StarredPages(api, username)) == Ok(starred)
    requires PagedResult(StargazerPages(api, owner, repo)) == Ok(gazers)
    requires ListAgrees(starred, RepoFullNameOf, StarredAtOfRepo, owner + "/" + repo, star)
    requires ListAgrees(gazers, LoginOf, StarredAtOfGazer, username, star)
    ensures ChosenListTerminates(cache, api, username, owner, repo)
    ensures ResolveStar(cache, api, username, owner, repo) == Ok(star)
  {
    DirectionDoesNotMatter(starred, gazers, username, owner, repo, star);
  }

  // ---------------------------------------------------------------------------
  // The page state: the cache and the metadata requests sent to the origin
  // ---------------------------------------------------------------------------

  /** A request sent to the origin: a metadata lookup, or one page of a list. */
  datatype Request =
    | UserRequest(username: string)
    | RepoRequest(owner: string, repo: string)
    | StarredPageRequest(username: string, page: nat)
    | StargazerPageRequest(owner: string, repo: string, page: nat)

  /** The metadata request a lookup sends: none on a cache hit. */
  function UserRequests(cache: Cache, username: string): seq<Request>
  {
    if UserKey(username) in cache then [] else [UserRequest(username)]
  }

  function RepoRequests(cache: Cache, owner: string, repo: string): seq<Request>
  {
    if RepoKey(owner, repo) in cache then [] else [RepoRequest(owner, repo)]
  }

  function StarredPageRequests(username: string, pages: seq<nat>): seq<Request>
  {
    seq(|pages|, i requires 0 <= i < |pages| => StarredPageRequest(username, pages[i]))
  }

  function StargazerPageRequests(owner: string, repo: string, pages: seq<nat>): seq<Request>
  {
    seq(|pages|, i requires 0 <= i < |pages| => StargazerPageRequest(owner, repo, pages[i]))
  }

  /** `walk` requests pages 1, 2, ..., `|walk|` in order, all of the user's
      starred list when `userList` and all of the repository's stargazer list
      otherwise. */
  predicate PageWalk(walk: seq<Request>, userList: bool, username: string, owner: string, repo: string)
  {
    forall i :: 0 <= i < |walk| ==>
      walk[i] == if userList then StarredPageRequest(username, i + 1) else StargazerPageRequest(owner, repo, i + 1)
  }

  /** The list pages a check requests: none when a lookup fails; otherwise
      pages 1 up to and including the first stopping page of the chosen list,
      in order, and no page of the other list. */
  ghost function ListRequests(cache: Cache, api: Api, username: string, owner: string, repo: string): (walk: seq<Request>)
    requires WellKeyed(cache) && ChosenListTerminates(cache, api, username, owner, repo)
    ensures UserLookup(cache, api.user, username).Err? || RepoLookup(cache, api.repo, owner, repo).Err? ==> walk == []
    ensures var u, p := UserLookup(cache, api.user, username), RepoLookup(cache, api.repo, owner, repo);
            u.Ok? && p.Ok? ==>
              && PageWalk(walk, WalksUserList(u.value, p.value), username, owner, repo)
              && |walk| == if WalksUserList(u.value, p.value) then FirstStop(StarredPages(api, username))
                           else FirstStop(StargazerPages(api, owner, repo))
  {
    var u, p := UserLookup(cache, api.user, username), RepoLookup(cache, api.repo, owner, repo);
    if u.Err? || p.Err? then []
    else if WalksUserList(u.value, p.value) then
      StarredPageRequests(username, PagesBefore(FirstStop(StarredPages(api, username)) + 1))
    else
      StargazerPageRequests(owner, repo, PagesBefore(FirstStop(StargazerPages(api, owner, repo)) + 1))
  }

  class StarChecker {
    /** The cache of metadata, keyed by `github_user_<name>` and
        `github_repo_<owner>_<repo>`. */
    var cache: Cache
    /** Every metadata request sent to the origin, in order. */
    ghost var requests: seq<Request>

    ghost predicate Valid()
      reads this
    {
      WellKeyed(cache)
    }

    constructor (stored: Cache)
      requires WellKeyed(stored)
      ensures Valid() && cache == stored && requests == []
    {
      cache := stored;
      requests := [];
    }

    /** `getUserInfo(username)`. */
    method GetUserInfo(fetch: string -> Response<UserInfo>, username: string) returns (r: Result<UserInfo, HttpError>)
      requires Valid()
      modifies this
      ensures Valid()
      ensures r == UserLookup(old(cache), fetch, username)
      ensures cache == UserStore(old(cache), fetch, username)
      ensures requests == old(requests) + UserRequests(old(cache), username)
    {
      var key := UserKey(username);
      if key in cache {
        return Ok(cache[key].user);
      }
      var response := fetch(username);
      requests := requests + [UserRequest(username)];
      if response.Failure? {
        return Err(HttpError(response.status, ErrorMessage(response.message)));
      }
      cache := cache[key := CachedUser(response.data)];
      r := Ok(response.data);
    }

    /** `getRepoInfo(owner, repo)`. */
    method GetRepoInfo(fetch: (string, string) -> Response<RepoInfo>, owner: string, repo: string)
      returns (r: Result<RepoInfo, HttpError>)
      requires Valid()
      modifies this
      ensures Valid()
      ensures r == RepoLookup(old(cache), fetch, owner, repo)
      ensures cache == RepoStore(old(cache), fetch, owner, repo)
      ensures requests == old(requests) + RepoRequests(old(cache), owner, repo)
    {
      var key := RepoKey(owner, repo);
      if key in cache {
        return Ok(cache[key].repo);
      }
      var response := fetch(owner, repo);
      requests := requests + [RepoRequest(owner, repo)];
      if response.Failure? {
        return Err(HttpError(response.status, ErrorMessage(response.message)));
      }
      cache := cache[key := CachedRepo(response.data)];
      r := Ok(response.data);
    }

    /** `findStarTimestamp(username, owner, repo)`. The two lookups run
        concurrently in the page; here they run one after the other, which
        LookupsIndependent shows gives the same results and the same cache. */
    method FindStarTimestamp(api: Api, username: string, owner: string, repo: string)
      returns (r: Result<Option<string>, HttpError>)
      requires Valid() && ChosenListTerminates(cache, api, username, owner, repo)
      modifies this
      ensures Valid()
      ensures r == ResolveStar(old(cache), api, username, owner, repo)
      ensures cache == RepoStore(UserStore(old(cache), api.user, username), api.repo, owner, repo)
      ensures requests == old(requests) + UserRequests(old(cache), username) + RepoRequests(old(cache), owner, repo)
                          + ListRequests(old(cache), api, username, owner, repo)
    {
      LookupsIndependent(cache, api.user, username, api.repo, owner, repo);
      UserAndRepoKeysDiffer(username, owner, repo);
      var userInfo := GetUserInfo(api.user, username);
      var repoInfo := GetRepoInfo(api.repo, owner, repo);
      if userInfo.Err? {
        return Err(userInfo.error);
      }
      if repoInfo.Err? {
        return Err(repoInfo.error);
      }

      var starredAt: Option<string> := None;
      if userInfo.value.publicRepos <= repoInfo.value.stargazersCount {
        var starredRepos;
        ghost var pages;
        starredRepos, pages := GetUserStarredRepos(api, username);
        requests := requests + StarredPageRequests(username, pages);
        if starredRepos.Err? {
          return Err(starredRepos.error);
        }
        starredAt := ScanForStar(starredRepos.value, RepoFullNameOf, StarredAtOfRepo, owner + "/" + repo);
      } else {
        var stargazers;
        ghost var pages;
        stargazers, pages := GetRepoStargazers(api, owner, repo);
        requests := requests + StargazerPageRequests(owner, repo, pages);
        if stargazers.Err? {
          return Err(stargazers.error);
        }
        starredAt := ScanForStar(stargazers.value, LoginOf, StarredAtOfGazer, username);
      }
      r := Ok(starredAt);
    }
  }

  /** Two checks in a row on one page, the first getting past both metadata
      lookups: the second gives the same answer and sends no metadata request,
      only the list pages again, since the lists are not cached. */
  method CheckTwice(stored: Cache, api: Api, username: string, owner: string, repo: string)
    returns (first: Result<Option<string>, HttpError>, second: Result<Option<string>, HttpError>,
             ghost secondRequests: seq<Request>)
    requires WellKeyed(stored) && ChosenListTerminates(stored, api, username, owner, repo)
    requires UserLookup(stored, api.user, username).Ok? && RepoLookup(stored, api.repo, owner, repo).Ok?
    ensures first == ResolveStar(stored, api, username, owner, repo)
    ensures second == first
    ensures secondRequests == ListRequests(stored, api, username, owner, repo)
  {
    var checker := new StarChecker(stored);
    first := checker.FindStarTimestamp(api, username, owner, repo);
    ResolveRepeat(stored, api, username, owner, repo, api);
    var sent := checker.requests;
    second := checker.FindStarTimestamp(api, username, owner, repo);
    secondRequests := checker.requests[|sent|..];
  }
}
