/** The paginated list fetch shared by `getUserStarredRepos` and
    `getRepoStargazers`: request page 1, 2, 3, ... of a list endpoint, append
    every non-empty page, stop at the first empty or missing page, and give up
    on the first non-ok response. */
module Pagination {
  import opened Results
  import opened Http

  /** One page as the endpoint answers it: an ok response whose parsed body is
      an array of items or `null`, or a non-ok response. */
  type PageResponse<T> = Response<Option<seq<T>>>

  /** The list endpoint, page number to response. */
  type Origin<T> = nat -> PageResponse<T>

  /** A page at which the loop leaves: a non-ok response, or an ok response
      whose body is missing or empty. */
  predicate Stops<T>(r: PageResponse<T>)
  {
    r.Failure? || r.data.None? || |r.data.value| == 0
  }

  /** The items a page contributes to the accumulator. */
  function Items<T>(r: PageResponse<T>): seq<T>
  {
    if r.Success? && r.data.Some? then r.data.value else []
  }

  /** The endpoint eventually answers a page that stops the loop. Without it
      the loop of the page never ends. */
  ghost predicate Terminates<T>(origin: Origin<T>)
  {
    exists k: nat :: 1 <= k && Stops(origin(k))
  }

  /** The first page at or after `from` that stops the loop, searching no
      further than a page `bound` known to stop it. */
  function FirstStopFrom<T>(origin: Origin<T>, from: nat, bound: nat): (n: nat)
    requires from <= bound && Stops(origin(bound))
    ensures from <= n <= bound && Stops(origin(n))
    ensures forall j :: from <= j < n ==> !Stops(origin(j))
    decreases bound - from
  {
    if Stops(origin(from)) then from else FirstStopFrom(origin, from + 1, bound)
  }

  /** The first page, counting from 1, that stops the loop. */
  ghost function FirstStop<T>(origin: Origin<T>): (n: nat)
    requires Terminates(origin)
    ensures 1 <= n && Stops(origin(n))
    ensures forall j :: 1 <= j < n ==> !Stops(origin(j))
  {
    var bound: nat :| 1 <= bound && Stops(origin(bound));
    FirstStopFrom(origin, 1, bound)
  }

  /** The items of pages `from` to `limit - 1`, concatenated in page order. */
  function Concat<T>(origin: Origin<T>, from: nat, limit: nat): seq<T>
    decreases limit - from
  {
    if limit <= from then [] else Concat(origin, from, limit - 1) + Items(origin(limit - 1))
  }

  /** Concatenating two adjacent ranges of pages. */
  lemma {:induction false} ConcatSplit<T>(origin: Origin<T>, a: nat, b: nat, c: nat)
    requires a <= b <= c
    ensures Concat(origin, a, c) == Concat(origin, a, b) + Concat(origin, b, c)
    decreases c - b
  {
    if b < c {
      ConcatSplit(origin, a, b, c - 1);
    }
  }

  /** Page order: item `i` of page `j` sits in the concatenation right after
      all the items of the pages before `j`. */
  lemma {:induction false} ConcatPlacement<T>(origin: Origin<T>, from: nat, limit: nat, j: nat, i: nat)
    requires from <= j < limit && i < |Items(origin(j))|
    ensures |Concat(origin, from, j)| + i < |Concat(origin, from, limit)|
    ensures Concat(origin, from, limit)[|Concat(origin, from, j)| + i] == Items(origin(j))[i]
  {
    var before, page := Concat(origin, from, j), Items(origin(j));
    ConcatSplit(origin, from, j + 1, limit);
    assert Concat(origin, from, j + 1) == before + page;
    var all := Concat(origin, from, limit);
    assert all == (before + page) + Concat(origin, j + 1, limit);
    assert all[|before| + i] == (before + page)[|before| + i];
  }

  /** Item `i` of page `j` sits in `all` right after the items of pages
      `from` to `j - 1`. */
  ghost predicate InPlace<T>(all: seq<T>, origin: Origin<T>, from: nat, j: nat, i: nat)
  {
    i < |Items(origin(j))| ==>
      |Concat(origin, from, j)| + i < |all| && all[|Concat(origin, from, j)| + i] == Items(origin(j))[i]
  }

  /** Page order for every page and item at once. */
  lemma ConcatPlacementAll<T>(origin: Origin<T>, from: nat, limit: nat)
    ensures forall j: nat, i: nat :: from <= j < limit ==> InPlace(Concat(origin, from, limit), origin, from, j, i)
  {
    forall j: nat, i: nat | from <= j < limit
      ensures InPlace(Concat(origin, from, limit), origin, from, j, i)
    {
      if i < |Items(origin(j))| {
        ConcatPlacement(origin, from, limit, j, i);
      }
    }
  }

  /** An item is in the concatenation exactly when it is on one of the pages. */
  lemma {:induction false} ConcatMembers<T>(origin: Origin<T>, from: nat, limit: nat, x: T)
    ensures x in Concat(origin, from, limit) <==> (exists j: nat :: from <= j < limit && x in Items(origin(j)))
    decreases limit
  {
    if from < limit {
      ConcatMembers(origin, from, limit - 1, x);
      assert Concat(origin, from, limit) == Concat(origin, from, limit - 1) + Items(origin(limit - 1));
      if x in Items(origin(limit - 1)) {
        assert from <= limit - 1 < limit;
      }
    }
  }

  /** What the fetch produces: the error of the first stopping page when it
      is a non-ok response, otherwise every item of the pages before it. */
  ghost function PagedResult<T>(origin: Origin<T>): (r: Result<seq<T>, HttpError>)
    requires Terminates(origin)
    ensures r.Ok? <==> origin(FirstStop(origin)).Success?
    ensures r.Err? ==> r.error.status == origin(FirstStop(origin)).status && r.error.message != ""
  {
    var n := FirstStop(origin);
    if origin(n).Failure? then Err(ErrorOf(origin(n))) else Ok(Concat(origin, 1, n))
  }

  /** An ok result holds the items of every page before the first stopping
      page, each page's items in place right after those of the pages before
      it. */
  lemma PagedResultOrder<T>(origin: Origin<T>)
    requires Terminates(origin) && PagedResult(origin).Ok?
    ensures forall j: nat, i: nat :: 1 <= j < FirstStop(origin) ==> InPlace(PagedResult(origin).value, origin, 1, j, i)
  {
    ConcatPlacementAll(origin, 1, FirstStop(origin));
  }

  /** The page numbers 1 to `n - 1`, in order. */
  function PagesBefore(n: nat): (pages: seq<nat>)
    ensures |pages| == if n == 0 then 0 else n - 1
    ensures forall i :: 0 <= i < |pages| ==> pages[i] == i + 1
  {
    if n <= 1 then [] else PagesBefore(n - 1) + [n - 1]
  }

  /** The result in terms of any page `k` known to be the first that stops:
      a non-ok page `k` gives its error and nothing of the earlier pages; an
      empty or missing page `k` gives the items of pages 1 to `k - 1`. */
  lemma PagedResultAt<T>(origin: Origin<T>, k: nat)
    requires 1 <= k && Stops(origin(k))
    requires forall j :: 1 <= j < k ==> !Stops(origin(j))
    ensures Terminates(origin) && FirstStop(origin) == k
    ensures origin(k).Failure? ==> PagedResult(origin) == Err(ErrorOf(origin(k)))
    ensures origin(k).Success? ==> PagedResult(origin) == Ok(Concat(origin, 1, k))
  {
    assert Terminates(origin);
    var n := FirstStop(origin);
    assert !(n < k) && !(k < n);
  }

  /** The loop of `getUserStarredRepos` and `getRepoStargazers`. It asks for
      pages 1, 2, ... up to the first page that stops it, each once and in
      order, and returns what PagedResult says. */
  method FetchAllPages<T>(origin: Origin<T>) returns (r: Result<seq<T>, HttpError>, ghost requested: seq<nat>)
    requires Terminates(origin)
    ensures r == PagedResult(origin)
    ensures requested == PagesBefore(FirstStop(origin) + 1)
  {
    ghost var n := FirstStop(origin);
    var all: seq<T> := [];
    var page: nat := 1;
    requested := [];
    while true
      invariant 1 <= page <= n
      invariant all == Concat(origin, 1, page)
      invariant requested == PagesBefore(page)
      decreases n - page
    {
      var response := origin(page);
      requested := requested + [page];
      if response.Failure? {
        assert page == n;
        r := Err(HttpError(response.status, ErrorMessage(response.message)));
        return;
      }
      if response.data.None? || |response.data.value| == 0 {
        assert page == n;
        r := Ok(all);
        return;
      }
      all := all + response.data.value;
      page := page + 1;
    }
  }
}
