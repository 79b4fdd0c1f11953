/** `count_commits`: pages through a repository's commits, one request per
    page starting at page 1, adding up page lengths, and stops at the first
    page SHORTER than the page size. */
module Counter {
  import opened Wrappers
  import opened Responses

  /** The `while True` loop of `count_commits` from `page` on, with the
      running sum in `total`. */
  function CountFrom(queue: seq<Response>, page: nat, total: nat): (r: Run<nat>)
    ensures 1 <= |r.pages|
    ensures r.pages == Consecutive(page, |r.pages|)
    ensures r.result == Failure(Exhausted) <==> |r.pages| == |queue| + 1
    ensures r.result != Failure(Exhausted) ==> |r.pages| <= |queue|
    ensures r.result.Success? ==> r.result.value >= total + PerPage * (|r.pages| - 1)
    decreases |queue|
  {
    if |queue| == 0 then Run(Failure(Exhausted), [page])
    else
      match ListPayload(queue[0])
      case Failure(e) => Run(Failure(e), [page])
      case Success(items) =>
        var total' := total + |items|;
        if |items| < PerPage then Run(Success(total'), [page])
        else
          var rest := CountFrom(queue[1..], page + 1, total');
          Run(rest.result, [page] + rest.pages)
  }

  /** `count_commits` against a queue of responses to its page requests. */
  function CountCommits(queue: seq<Response>): (r: Run<nat>)
    ensures 1 <= |r.pages|
    ensures r.pages == Consecutive(1, |r.pages|)
    ensures r.result == Failure(Exhausted) <==> |r.pages| == |queue| + 1
    ensures r.result != Failure(Exhausted) ==> |r.pages| <= |queue|
    ensures r.result.Success? ==> r.result.value >= PerPage * (|r.pages| - 1)
  {
    CountFrom(queue, 1, 0)
  }

  // ---------------------------------------------------------------------
  // Reference description of the count, independent of the loop.

  /** A page after which counting goes on: accepted and at least a page
      size long. */
  predicate Full(r: Response) {
    IsListPage(r) && |r.body.items| >= PerPage
  }

  /** Page m + 1 (index m) is the first page shorter than the page size, and
      every page before it was accepted and full. */
  predicate FirstShortAt(queue: seq<Response>, m: nat) {
    && m < |queue|
    && IsListPage(queue[m])
    && |queue[m].body.items| < PerPage
    && forall i :: 0 <= i < m ==> Full(queue[i])
  }

  /** Page m + 1 (index m) is an error status or not a list, and every page
      before it was accepted and full. */
  predicate FirstBadAt(queue: seq<Response>, m: nat) {
    && m < |queue|
    && !IsListPage(queue[m])
    && forall i :: 0 <= i < m ==> Full(queue[i])
  }

  /** Every queued page was accepted and full. */
  predicate NeverShort(queue: seq<Response>) {
    forall i :: 0 <= i < |queue| ==> Full(queue[i])
  }

  /** The total length of the first n pages. */
  function ItemsIn(queue: seq<Response>, n: nat): nat
    requires n <= |queue|
    requires forall i :: 0 <= i < n ==> IsListPage(queue[i])
  {
    if n == 0 then 0
    else
      assert IsListPage(queue[0]);
      |queue[0].body.items| + ItemsIn(queue[1..], n - 1)
  }

  /** Index of the first page counting does not go on past, or |queue|. */
  function StopIndex(queue: seq<Response>): (m: nat)
    ensures m <= |queue|
    ensures forall i :: 0 <= i < m ==> Full(queue[i])
    ensures m < |queue| ==> !Full(queue[m])
  {
    if |queue| == 0 || !Full(queue[0]) then 0
    else 1 + StopIndex(queue[1..])
  }

  // ---------------------------------------------------------------------
  // Properties.

  lemma {:induction false} CountFromFirstShort(queue: seq<Response>, m: nat, page: nat, total: nat)
    requires FirstShortAt(queue, m)
    ensures CountFrom(queue, page, total) == Run(Success(total + ItemsIn(queue, m + 1)), Consecutive(page, m + 1))
    decreases m
  {
    assert ListPayload(queue[0]) == Success(queue[0].body.items);
    if m > 0 {
      assert Full(queue[0]);
      assert FirstShortAt(queue[1..], m - 1) by {
        forall i | 0 <= i < m - 1 ensures Full(queue[1..][i]) {
          assert Full(queue[i + 1]);
        }
      }
      CountFromFirstShort(queue[1..], m - 1, page + 1, total + |queue[0].body.items|);
      assert Consecutive(page, m + 1) == [page] + Consecutive(page + 1, m);
    }
  }

  /** The total length of n full pages is at least n page sizes. */
  lemma {:induction false} FullPagesBound(queue: seq<Response>, n: nat)
    requires n <= |queue|
    requires forall i :: 0 <= i < n ==> Full(queue[i])
    ensures forall i :: 0 <= i < n ==> IsListPage(queue[i])
    ensures ItemsIn(queue, n) >= PerPage * n
    decreases n
  {
    forall i | 0 <= i < n ensures IsListPage(queue[i]) {
      assert Full(queue[i]);
    }
    if n > 0 {
      assert Full(queue[0]);
      assert forall i :: 0 <= i < n - 1 ==> Full(queue[1..][i]) by {
        forall i | 0 <= i < n - 1 ensures Full(queue[1..][i]) {
          assert Full(queue[i + 1]);
        }
      }
      FullPagesBound(queue[1..], n - 1);
    }
  }

  /** When page m + 1 is the first short page, the count is the total length
      of pages 1..m+1, at least m full pages' worth, and exactly pages
      1..m+1 were requested. */
  lemma CountSucceedsAtFirstShort(queue: seq<Response>, m: nat)
    requires FirstShortAt(queue, m)
    ensures CountCommits(queue) == Run(Success(ItemsIn(queue, m + 1)), Consecutive(1, m + 1))
    ensures ItemsIn(queue, m + 1) >= PerPage * m
  {
    CountFromFirstShort(queue, m, 1, 0);
    FullPagesBound(queue, m);
    assert ItemsIn(queue, m + 1) >= ItemsIn(queue, m) by {
      ItemsInStep(queue, m);
    }
  }

  /** The total of the first n + 1 pages is the total of the first n plus
      the length of page n + 1. */
  lemma {:induction false} ItemsInStep(queue: seq<Response>, n: nat)
    requires n < |queue|
    requires forall i :: 0 <= i <= n ==> IsListPage(queue[i])
    ensures ItemsIn(queue, n + 1) == ItemsIn(queue, n) + |queue[n].body.items|
    decreases n
  {
    if n > 0 {
      assert IsListPage(queue[0]);
      assert forall i :: 0 <= i <= n - 1 ==> IsListPage(queue[1..][i]) by {
        forall i | 0 <= i <= n - 1 ensures IsListPage(queue[1..][i]) {
          assert IsListPage(queue[i + 1]);
        }
      }
      ItemsInStep(queue[1..], n - 1);
    }
  }

  lemma {:induction false} CountFromFirstBad(queue: seq<Response>, m: nat, page: nat, total: nat)
    requires FirstBadAt(queue, m)
    ensures CountFrom(queue, page, total) == Run(Failure(ListPayload(queue[m]).error), Consecutive(page, m + 1))
    decreases m
  {
    if m > 0 {
      assert Full(queue[0]);
      assert ListPayload(queue[0]) == Success(queue[0].body.items);
      assert FirstBadAt(queue[1..], m - 1) by {
        forall i | 0 <= i < m - 1 ensures Full(queue[1..][i]) {
          assert Full(queue[i + 1]);
        }
      }
      CountFromFirstBad(queue[1..], m - 1, page + 1, total + |queue[0].body.items|);
    }
  }

  /** A page before the first short one that has an error status or is not
      a list makes the count fail with that page's error, after requesting
      exactly pages 1..m+1. */
  lemma CountFailsAtFirstBad(queue: seq<Response>, m: nat)
    requires FirstBadAt(queue, m)
    ensures CountCommits(queue) == Run(Failure(ListPayload(queue[m]).error), Consecutive(1, m + 1))
    ensures CountCommits(queue).result.error.ApiError?
  {
    CountFromFirstBad(queue, m, 1, 0);
  }

  lemma {:induction false} CountFromNeverShort(queue: seq<Response>, page: nat, total: nat)
    requires NeverShort(queue)
    ensures CountFrom(queue, page, total).result == Failure(Exhausted)
    decreases |queue|
  {
    if |queue| > 0 {
      assert Full(queue[0]);
      assert ListPayload(queue[0]) == Success(queue[0].body.items);
      assert NeverShort(queue[1..]) by {
        forall i | 0 <= i < |queue| - 1 ensures Full(queue[1..][i]) {
          assert Full(queue[i + 1]);
        }
      }
      CountFromNeverShort(queue[1..], page + 1, total + |queue[0].body.items|);
    }
  }

  lemma StopIndexIsTheStop(queue: seq<Response>, m: nat)
    requires FirstShortAt(queue, m) || FirstBadAt(queue, m)
    ensures m == StopIndex(queue)
  {
  }

  /** The count succeeds exactly when some page is the first short one,
      fails with a `GitHubAPIError` exactly when a bad page comes first, and
      runs out of responses otherwise. */
  lemma CountOutcomes(queue: seq<Response>)
    ensures CountCommits(queue).result.Success? <==> exists m: nat :: FirstShortAt(queue, m)
    ensures (CountCommits(queue).result.Failure? && CountCommits(queue).result.error.ApiError?)
            <==> exists m: nat :: FirstBadAt(queue, m)
    ensures CountCommits(queue).result == Failure(Exhausted) <==> NeverShort(queue)
  {
    var m := StopIndex(queue);
    forall j: nat | FirstShortAt(queue, j) || FirstBadAt(queue, j) ensures j == m {
      StopIndexIsTheStop(queue, j);
    }
    if m == |queue| {
      CountFromNeverShort(queue, 1, 0);
    } else if IsListPage(queue[m]) {
      assert FirstShortAt(queue, m);
      CountSucceedsAtFirstShort(queue, m);
    } else {
      assert FirstBadAt(queue, m);
      CountFailsAtFirstBad(queue, m);
    }
  }

  /** The outcome of `count_commits` for each way its walk can end: the
      total of the pages up to the first short one, the first rejected
      page's `GitHubAPIError`, or running out when every page is full. */
  lemma CountByStop(queue: seq<Response>)
    ensures forall m: nat | FirstShortAt(queue, m) :: CountCommits(queue).result == Success(ItemsIn(queue, m + 1))
    ensures forall m: nat | FirstBadAt(queue, m) ::
              CountCommits(queue).result.Failure? && CountCommits(queue).result.error.ApiError?
    ensures NeverShort(queue) ==> CountCommits(queue).result == Failure(Exhausted)
  {
    forall m: nat | FirstShortAt(queue, m)
      ensures CountCommits(queue).result == Success(ItemsIn(queue, m + 1))
    {
      CountSucceedsAtFirstShort(queue, m);
    }
    forall m: nat | FirstBadAt(queue, m)
      ensures CountCommits(queue).result.Failure? && CountCommits(queue).result.error.ApiError?
    {
      CountFailsAtFirstBad(queue, m);
    }
    CountOutcomes(queue);
  }
}
