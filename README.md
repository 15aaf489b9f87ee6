# GitHub star checker: a Dafny model of its decision core

The page (`main.js`) answers the question "did this user star this repository, and when?" against
the GitHub REST API. This project models the logic under its DOM wiring, with the network replaced
by functions from request to response:

- **Star resolver** (`findStarTimestamp`). It looks up the user and the repository. It walks the
  user's starred list when the user's `public_repos` is at most the repository's `stargazers_count`
  (a tie picks the user's list), and the repository's stargazer list otherwise. It returns the
  `starred_at` of the first entry whose `repo.full_name` or `user.login` equals the query,
  ignoring ASCII letter case, or nothing. The comparison uses `public_repos` (main.js:170), the
  number of the user's public repositories, not the number of repositories they starred. The model
  follows the code.
- **Paginated list fetch** (`getUserStarredRepos`, `getRepoStargazers`). It requests pages 1, 2, 3,
  … and concatenates them up to the first empty or missing page. It fails with an `HTTPError`
  (status, and `message || "Unknown error"`) on the first non-ok page, and then returns no partial list.
- **Metadata lookup with cache** (`getUserInfo`, `getRepoInfo`). The cache is the `cache` map of a
  `StarChecker` object. A hit returns the cached record and sends no request. A miss asks the
  origin and stores an ok answer under `github_user_<name>` or `github_repo_<owner>_<repo>`. The object also keeps a
  ghost log of every request it sends to the origin: metadata lookups and list pages, in order.
- **String helpers**: `sanitizeString` (HTML entity escaping), `parseRepoInput` (trim, then split on
  `/`), the username and repository regexes, and ASCII `toLowerCase`.
- **Error reporting**: the `catch` block of `onSubmit`. A 404 is reported as not found. A 403 whose
  lower-cased message contains "api rate limit exceeded" is reported as rate limited. Everything
  else shows the escaped error string.

Files: `results.dfy` (Option, Result), `text.dfy`, `http.dfy`, `inputs.dfy`, `pagination.dfy`,
`metadata.dfy`, `resolver.dfy`, `reporting.dfy`, `scenarios.dfy`.

Endpoints are parameters. A lookup endpoint is a function from its arguments to a `Response`
(ok with data, or non-ok with a status and an optional `message`). A list endpoint also takes the
page number. The loop of the page ends only if the endpoint eventually answers an empty, missing
or failing page, so the fetch requires such a page to exist (`Terminates`), and a check requires it
only of the list it walks (`ChosenListTerminates`). `FirstStop` is the
first such page, and `PagedResult` is the answer in terms of it.

The two metadata lookups run concurrently in the page (`Promise.all`). Both read the cache before
either writes it. The model runs them one after the other. `Metadata.LookupsIndependent` proves
this order changes nothing: the two lookups use disjoint key namespaces, so neither sees the
other's write, and their writes commute.

## Model

| member | source | states |
|---|---|---|
| `Text.LowerChar` | main.js:185 | only A–Z change, each to its lower-case letter; the result is never an upper-case ASCII letter |
| `Text.Lower` | main.js:195 | `toLowerCase` keeps the length and lower-cases each character on its own |
| `Text.EqualsIgnoreCaseCharwise` | main.js:185 | case-insensitive equality holds exactly when the lengths agree and the lower-cased characters agree at each position |
| `Text.LeadingWhitespace` | main.js:220 | the whitespace run at the start is all whitespace and is followed by a non-whitespace character or the end |
| `Text.TrailingWhitespace` | main.js:220 | the same for the whitespace run at the end |
| `Text.Trim` | main.js:220 | `trim` gives the middle piece of the input between two all-whitespace pieces, with neither end whitespace |
| `Text.TrimOfTrimmed` | main.js:220 | a string with no whitespace at either end is its own trim |
| `Text.TrimIdempotent` | main.js:220 | trimming twice is trimming once |
| `Text.Split` | main.js:221 | `split("/")` gives one more piece than there are slashes; no piece holds a slash; joining the pieces with `/` gives back the input |
| `Text.SplitAfterPiece` | main.js:221 | splitting `a + "/" + b`, with no slash in `a`, gives `a` followed by the pieces of `b` |
| `Text.SplitJoin` | main.js:221 | split is the inverse of join on slash-free pieces |
| `Text.EscapeChar` | main.js:40-47 | each of `& < > " ' /` becomes its entity; every other character stays itself; no replacement holds `< > " ' /` |
| `Text.Escape` | main.js:39-50 | `sanitizeString` never makes the text shorter, and its output holds none of `< > " ' /` |
| `Text.EscapeConcat` | main.js:49 | escaping distributes over concatenation |
| `Text.EscapeIdentity` | main.js:48-49 | a string without the six special characters is returned unchanged |
| `Text.Contains` | main.js:404 | `includes` holds exactly when the needle occurs at some position |
| `Http.ErrorMessage` | main.js:72 | `data.message \|\| "Unknown error"`: the message when it is a non-empty string, the fallback otherwise, never empty |
| `Http.ErrorOf` | main.js:116-119 | the HTTPError of a non-ok response keeps its status; its message is the body's message when that is a non-empty string and "Unknown error" otherwise, so it is never empty |
| `Inputs.UsernameTailMatchesIff` | main.js:8 | the repeated group `(?:[a-z\d]\|-(?!-)){0,38}` matches the rest of the string exactly when at most 38 characters remain and each is a letter or digit, or a hyphen not followed by a hyphen |
| `Inputs.UsernameRegexMatches` | main.js:8 | the username regex as written: a letter or digit, then at most 38 repetitions of the group, each one character; a match is 1 to 39 characters long and starts with a letter or digit |
| `Inputs.UsernameRegexIsRule` | main.js:8 | the username regex accepts exactly the strings of 1 to 39 characters whose first is a letter or digit, each of which is a letter, digit or hyphen, and with no two hyphens in a row (a trailing hyphen allowed) |
| `Inputs.ParseRepoInput` | main.js:219-226 | non-null exactly when the trimmed input has exactly one slash; then `owner + "/" + repo` is the trimmed input and neither part holds a slash |
| `Inputs.ParseRepoInputRoundTrip` | main.js:219-226 | parsing `owner + "/" + repo`, for slash-free parts with no surrounding whitespace, gives back the same owner and repository |
| `Inputs.IsValidRepoInput` | main.js:9 | the repository regex: a non-empty run of `[a-z\d._-]`, a slash, another such run; an accepted string holds exactly one slash and has no whitespace at either end |
| `Inputs.ValidRepoInputParses` | main.js:9 | every input the repository regex accepts parses into a non-empty owner and a non-empty repository made of `[a-z\d._-]` |
| `Inputs.ValidatedFieldParses` | main.js:355-361 | `onSubmit` validates the trimmed field but parses the field as typed; every field whose trimmed text passes the regex still parses, so the `!repoData` branch is never taken after validation |
| `Reporting.ErrorString` | main.js:409 | `err.toString()`: it is empty only when the name and message both are, it starts with the name, and a non-empty message is its suffix |
| `Reporting.Describe` | main.js:409 | the `toString()` of a caught error; an HTTPError's starts with "HTTPError" |
| `Reporting.PageErrorDescription` | main.js:52-57 | an HTTPError the page throws for a non-ok answer reads `HTTPError: ` followed by its message, never the bare name |
| `Reporting.Classify` | main.js:398-413 | not found exactly for an HTTPError with status 404; rate limited exactly for an HTTPError with status 403 whose lower-cased message contains "api rate limit exceeded"; otherwise unexpected, with the escaped `toString()` of the error, which is free of markup characters |
| `Reporting.ReportText` | main.js:399-412 | `resultString`: given an escaped detail, the text written into the page holds no markup character, and it starts with `unexpected error: ` exactly for an unexpected outcome |
| `Reporting.ReportOfCaughtIsMarkupFree` | main.js:398-413 | whatever error is caught, the text the `catch` block shows holds no markup character |
| `Reporting.RateLimitRecognised` | main.js:402-405 | a 403 whose message holds the rate-limit phrase at any position, in any letter case, is rate limited |
| `Reporting.RateLimitIgnoresCase` | main.js:404 | whether a 403 is rate limited does not depend on the letter case of its message |
| `Reporting.ShortForbiddenIsUnexpected` | main.js:402-410 | a 403 whose message is too short to hold the phrase is reported as unexpected |
| `Pagination.FirstStopFrom` | main.js:116-124 | the first page at or after a start that stops the loop, with no earlier stopping page |
| `Pagination.FirstStop` | main.js:104-128 | the least page number from 1 whose response is non-ok, missing or empty |
| `Pagination.ConcatSplit` | main.js:126 | the concatenation of a range of pages is the concatenation of its two halves |
| `Pagination.ConcatPlacement` | main.js:126 | page order: item `i` of page `j` sits right after all the items of the earlier pages |
| `Pagination.ConcatMembers` | main.js:126 | an item is in the accumulated list exactly when it is on one of the pages |
| `Pagination.PagesBefore` | main.js:104 | the page numbers requested before page `n` are 1, 2, …, `n - 1`, in order |
| `Pagination.PagedResult` | main.js:102-131 | the loop's outcome: ok exactly when the first stopping page is an ok answer (empty or null); an error keeps that page's status with a non-empty message |
| `Pagination.PagedResultOrder` | main.js:126 | an ok list holds the items of every page before the first stopping page, each page's items in place right after those of the earlier pages |
| `Pagination.PagedResultAt` | main.js:116-124 | if page `k` is the first that stops the loop, it is FirstStop; a non-ok page `k` gives exactly its error and no partial list, and an empty or missing page `k` gives the items of pages 1 to `k - 1` |
| `Pagination.FetchAllPages` | main.js:102-131 | the loop requests pages 1 to the first stopping page, each once and in order, and returns that page's error or the concatenation of all earlier pages |
| `Metadata.UserKey` | main.js:61 | a user key lies in the user namespace and never in the repository namespace |
| `Metadata.RepoKey` | main.js:82 | a repository key lies in the repository namespace and never in the user namespace |
| `Metadata.UserAndRepoKeysDiffer` | main.js:61 | no user key equals a repository key |
| `Metadata.UserKeyInjective` | main.js:61 | different users never share a cache key |
| `Metadata.RepoKeyAmbiguous` | main.js:82 | `(a, b_c)` and `(a_b, c)` share the key `github_repo_a_b_c`: the key does not separate owner and repository |
| `Metadata.RepoKeyInjective` | main.js:82 | repositories whose owners hold no underscore never share a key |
| `Metadata.RepoKeyInjectiveForValidOwners` | main.js:82 | owners that pass the username rule never collide |
| `Metadata.UserLookup` | main.js:60-79 | what `getUserInfo` returns: a hit always succeeds with the cached record; a miss succeeds exactly when the origin answers ok, with its record; an error happens only on a miss with a non-ok answer, and is that answer's status with `data.message || "Unknown error"` as message (ErrorOf), never empty |
| `Metadata.UserStore` | main.js:60-79 | after `getUserInfo` the user's key is present exactly when the lookup succeeded, and holds the returned record; every other key is untouched; the cache stays well-keyed |
| `Metadata.UserHitIgnoresOrigin` | main.js:62-66 | on a cache hit the endpoint's answer plays no part, and the cache is unchanged |
| `Metadata.UserLookupRepeat` | main.js:60-79 | after a successful lookup, looking up again gives the same record from the cache and changes nothing |
| `Metadata.RepoLookup` | main.js:81-100 | the same as UserLookup, for `getRepoInfo` under the repository's key: a hit succeeds with the cached record, a miss succeeds exactly on an ok answer, and an error is ErrorOf of the non-ok answer |
| `Metadata.RepoStore` | main.js:81-100 | the same as UserStore, for `getRepoInfo` |
| `Metadata.RepoHitIgnoresOrigin` | main.js:83-87 | on a cache hit the endpoint's answer plays no part |
| `Metadata.RepoLookupRepeat` | main.js:81-100 | after a successful lookup, looking up again gives the same record and changes nothing |
| `Metadata.LookupsIndependent` | main.js:165-168 | neither concurrent lookup sees the other's write, and the two writes commute |
| `Resolver.WalksUserList` | main.js:179 | the direction rule: the walked list is the one whose reported size is the smaller, the user's starred list on a tie |
| `Resolver.ResolveStar` | main.js:164-203 | what `findStarTimestamp` settles to: a failed user lookup gives its error, else a failed repository lookup gives its error, else the chosen list's error is returned as such; with both lookups and the list ok the result is Ok with the `starred_at` of the first entry naming the other party (FirstStarredAt), present exactly when some entry does; an Ok result needs both lookups and the list to succeed |
| `Resolver.FirstStarredAt` | main.js:177-202 | present exactly when some entry matches the query case-insensitively, and then the `starred_at` of the earliest matching entry |
| `Resolver.ScanForStar` | main.js:183-189 | the `for … of` loop with `break` returns the timestamp of the first matching entry, or nothing |
| `Resolver.MatchIgnoresCase` | main.js:185 | queries equal up to letter case find the same entry |
| `Resolver.GetUserStarredRepos` | main.js:102-131 | the user's starred list, fetched page by page as FetchAllPages states |
| `Resolver.GetRepoStargazers` | main.js:133-162 | the repository's stargazer list, fetched page by page as FetchAllPages states |
| `Resolver.ResolveUsesChosenListOnly` | main.js:179-200 | only the list picked by `public_repos <= stargazers_count` is consulted (the user's list on a tie); the other endpoint can be anything, even a list that never ends, and the same pages are requested |
| `Resolver.ResolveFailsOnUserLookup` | main.js:165-168 | a failed user lookup fails the check with its error, and no page of either list is requested |
| `Resolver.ListRequests` | main.js:179-200 | the list pages a check requests: none after a failed lookup; otherwise pages 1 to the chosen list's first stopping page, in order, and never a page of the other list |
| `Resolver.ScanFindsStar` | main.js:183-199 | a list in which some entry names the other party exactly when there is a star, every such entry carrying its time, yields that star |
| `Resolver.DirectionDoesNotMatter` | main.js:179-200 | when the starred list and the stargazer list agree with one star, scanning either gives that same star |
| `Resolver.ResolveGivesAgreedStar` | main.js:164-203 | when both lists are fetched without error and agree with one star, the check returns it whichever list the two counts pick |
| `Resolver.ResolveRepeat` | main.js:164-203 | once a check gets past both lookups, a second check is served from the cache and gives the same answer |
| `Resolver.StarChecker.constructor` | main.js:20-37 | the checker starts from a stored, well-keyed cache and has sent no request |
| `Resolver.StarChecker.GetUserInfo` | main.js:60-79 | returns the cached record on a hit without a request; on a miss sends one request, throws the HTTPError of a non-ok answer, and stores an ok answer under `github_user_<name>` |
| `Resolver.StarChecker.GetRepoInfo` | main.js:81-100 | the same for a repository, under `github_repo_<owner>_<repo>` |
| `Resolver.StarChecker.FindStarTimestamp` | main.js:164-203 | returns the resolution ResolveStar defines; updates the cache as both lookups do; sends a metadata request only on a miss, then exactly the list pages ListRequests gives |
| `Resolver.CheckTwice` | main.js:164-168 | two checks in a row whose first gets past both lookups give the same answer, and the second requests no metadata, only the list pages again |
| `Scenarios.CaseInsensitiveMatch` | main.js:185 | a listed `Foo/Bar` matches the query `foo/bar` |
| `Scenarios.OctocatNeverStarred` | main.js:164-203 | 5 public repositories against 5000 stargazers walks the user's list, even though the stargazer list never ends; a list without the repository gives "not starred", not an error |
| `Scenarios.OctocatRequestsOwnPages` | main.js:179-189 | that check requests exactly pages 1 and 2 of octocat's starred list and nothing of the stargazer list |
| `Scenarios.UserNotFoundReported` | main.js:398-401 | a 404 on the user lookup ends the check with that 404, before any list page is requested, reported as not found |
| `Scenarios.RateLimitedListReported` | main.js:147-150 | a rate-limit 403 on the first page of the walked list ends the check with that error after that one page request, reported as rate limited |

## Left out

- Network I/O: `fetch`, `response.json()`, the request URLs, `per_page=100` and the `Accept` header. The endpoints are functions from request to parsed response. A body that is not JSON, or an ok list body that is neither an array nor null, is not modelled.
- `Promise.all` scheduling: when both metadata lookups fail, the page reports whichever failure arrives first. The model reports the user lookup's failure.
- Resolver.StarChecker.FindStarTimestamp: requires the chosen list to end at some page (`ChosenListTerminates`). In the page a list that never ends makes the loop run forever; the model does not describe that run.
- Cache expiry (the one-hour TTL of the `ls` storage library) and storage errors, which `getCached`/`setCached` log and ignore. The cache is a map whose entries stay until the checker is discarded.
- `formatTimestamp`: locale and `Date` formatting of the host.
- DOM and browser plumbing: `checkInputValidity`'s validity messages, `setWorkingStatus`, `setFinishedStatus`, `createResultHTML`, `copyToClipboard`, URL and history handling, event listeners. The regexes these use are modelled in `Inputs`.
- `console.log` and `console.error`.
- Edge paths of the page's environment: without `window.ls` (main.js:22, 32) the cache never stores anything, so ResolveRepeat and CheckTwice do not hold there; and a non-ok body that is JSON `null` makes `data.message` throw a TypeError (main.js:72), which the page reports as an unexpected error rather than an HTTPError. The model assumes the storage library is present and a non-ok body is an object.
- Records are reduced to the fields the page reads. A missing `public_repos` or `stargazers_count` (an `undefined` comparison) is not modelled.
- `onSubmit` treats an empty `starred_at` string as "not starred", because the string is falsy. The model returns the timestamp as found.
- Characters are Unicode scalar values, not UTF-16 code units. Lower-casing changes only ASCII letters, as the page's inputs are ASCII; `toLowerCase` of other letters is not modelled.
- Two owners can share a repository cache key. RepoKeyAmbiguous proves it, and it is left as the page has it.
