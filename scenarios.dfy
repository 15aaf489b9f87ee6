/** Worked cases of the star check: whole resolutions on small endpoints, and
    how their failures are reported. */
module Scenarios {
  import opened Results
  import opened Http
  import opened Text
  import opened Pagination
  import opened Metadata
  import opened Resolver
  import opened Reporting

  /** A listed `Foo/Bar` is found when the query is `foo/bar`. */
  lemma CaseInsensitiveMatch()
    ensures FirstStarredAt([StarredRepo("2021-06-01T12:00:00Z", "Foo/Bar")], RepoFullNameOf, StarredAtOfRepo, "foo" + "/" + "bar")
            == Some("2021-06-01T12:00:00Z")
  {
    assert Lower("Foo/Bar") == Lower("foo/bar");
  }

  /** Endpoints where `octocat` has 5 public repositories, `foo/bar` has 5000
      stargazers, and octocat's starred list is one page holding another
      repository. The stargazer endpoint answers a full page for every page
      number, so that list never ends. */
  function OctocatApi(): Api
  {
    Api(
      (u: string) => Success(UserInfo(u, 5)),
      (o: string, r: string) => Success(RepoInfo(o + "/" + r, 5000)),
      (u: string, page: nat) =>
        if page == 1 then Success(Some([StarredRepo("2020-01-01T00:00:00Z", "octo/other")]))
        else Success(Some([])),
      (o: string, r: string, page: nat) => Success(Some([Stargazer("2019-01-01T00:00:00Z", "someone")])))
  }

  /** 5 <= 5000, so octocat's own list is walked (the endless stargazer list
      is never asked for), and since it does not hold `foo/bar` the answer
      is "not starred" rather than an error. */
  lemma OctocatNeverStarred()
    ensures ChosenListTerminates(map[], OctocatApi(), "octocat", "foo", "bar")
    ensures ResolveStar(map[], OctocatApi(), "octocat", "foo", "bar") == Ok(None)
  {
    var api := OctocatApi();
    var starred := StarredPages(api, "octocat");
    PagedResultAt(starred, 2);
    assert Concat(starred, 1, 2) == [StarredRepo("2020-01-01T00:00:00Z", "octo/other")];
    assert |Lower("octo/other")| != |Lower("foo" + "/" + "bar")|;
  }

  /** The same check requests exactly pages 1 and 2 of octocat's starred
      list, and nothing of the endless stargazer list. */
  lemma OctocatRequestsOwnPages()
    ensures ChosenListTerminates(map[], OctocatApi(), "octocat", "foo", "bar")
    ensures ListRequests(map[], OctocatApi(), "octocat", "foo", "bar")
            == [StarredPageRequest("octocat", 1), StarredPageRequest("octocat", 2)]
  {
    var api := OctocatApi();
    var starred := StarredPages(api, "octocat");
    assert !Stops(starred(1)) && Stops(starred(2));
    PagedResultAt(starred, 2);
    var u, p := UserLookup(map[], api.user, "octocat"), RepoLookup(map[], api.repo, "foo", "bar");
    assert u == Ok(UserInfo("octocat", 5)) && p == Ok(RepoInfo("foo" + "/" + "bar", 5000));
    assert WalksUserList(u.value, p.value);
    var pages := PagesBefore(FirstStop(starred) + 1);
    assert pages == [1, 2];
    assert ListRequests(map[], api, "octocat", "foo", "bar") == StarredPageRequests("octocat", pages);
  }

  /** A 404 from the user lookup ends the check with that 404, reported as
      "not found", whatever the lists hold. */
  lemma UserNotFoundReported(cache: Cache, api: Api, username: string, owner: string, repo: string)
    requires WellKeyed(cache)
    requires UserKey(username) !in cache && api.user(username) == Failure(404, Some("Not Found"))
    ensures ChosenListTerminates(cache, api, username, owner, repo)
    ensures ListRequests(cache, api, username, owner, repo) == []
    ensures ResolveStar(cache, api, username, owner, repo) == Err(HttpError(404, "Not Found"))
    ensures Classify(HttpFailure(HttpError(404, "Not Found"))) == NotFound
  {
    ResolveFailsOnUserLookup(cache, api, username, owner, repo);
  }

  /** A 403 on the first page of the walked list, whose message holds the
      rate-limit phrase in any letter case, ends the check with that error and
      is reported as "rate limited". */
  lemma RateLimitedListReported(cache: Cache, api: Api, username: string, owner: string, repo: string,
                                message: string, at: nat)
    requires WellKeyed(cache)
    requires var u, p := UserLookup(cache, api.user, username), RepoLookup(cache, api.repo, owner, repo);
             u.Ok? && p.Ok? && WalksUserList(u.value, p.value)
    requires api.starred(username, 1) == Failure(403, Some(message))
    requires at + |RateLimitPhrase| <= |message|
    requires Lower(message[at..at + |RateLimitPhrase|]) == RateLimitPhrase
    ensures ChosenListTerminates(cache, api, username, owner, repo)
    ensures ListRequests(cache, api, username, owner, repo) == [StarredPageRequest(username, 1)]
    ensures ResolveStar(cache, api, username, owner, repo) == Err(HttpError(403, message))
    ensures Classify(HttpFailure(HttpError(403, message))) == RateLimited
  {
    var starred := StarredPages(api, username);
    assert Stops(starred(1));
    PagedResultAt(starred, 1);
    assert message != "";
    RateLimitRecognised(message, at);
  }
}
