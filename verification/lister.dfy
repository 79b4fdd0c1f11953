/** `list_user_repos`: pages through a user's repositories, one request per
    page starting at page 1, and stops at the first EMPTY page. */
module Lister {
  import opened Wrappers
  import opened Responses

  /** `item.get("name", "")` for a dict item. */
  function NameOf(item: Item): string
    requires item.Obj?
  {
    item.name.GetOr("")
  }

  /** The names one page contributes: one per dict item, in order; items
      that are not dicts are dropped. */
  function PageNames(items: seq<Item>): (names: seq<string>)
    ensures |names| <= |items|
  {
    if |items| == 0 then []
    else (if items[0].Obj? then [NameOf(items[0])] else []) + PageNames(items[1..])
  }

  /** The `while True` loop of `list_user_repos` from `page` on, with the
      names gathered so far in `names`. */
  function ListFrom(queue: seq<Response>, page: nat, names: seq<string>): (r: Run<seq<string>>)
    ensures 1 <= |r.pages|
    ensures r.pages == Consecutive(page, |r.pages|)
    ensures r.result == Failure(Exhausted) <==> |r.pages| == |queue| + 1
    ensures r.result != Failure(Exhausted) ==> |r.pages| <= |queue|
    ensures r.result.Success? ==> names <= r.result.value
    decreases |queue|
  {
    if |queue| == 0 then Run(Failure(Exhausted), [page])
    else
      match ListPayload(queue[0])
      case Failure(e) => Run(Failure(e), [page])
      case Success(items) =>
        if |items| == 0 then Run(Success(names), [page])
        else
          var rest := ListFrom(queue[1..], page + 1, names + PageNames(items));
          Run(rest.result, [page] + rest.pages)
  }

  /** `list_user_repos` against a queue of responses to its page requests. */
  function ListUserRepos(queue: seq<Response>): (r: Run<seq<string>>)
    ensures 1 <= |r.pages|
    ensures r.pages == Consecutive(1, |r.pages|)
    ensures r.result == Failure(Exhausted) <==> |r.pages| == |queue| + 1
    ensures r.result != Failure(Exhausted) ==> |r.pages| <= |queue|
  {
    ListFrom(queue, 1, [])
  }

  // ---------------------------------------------------------------------
  // Reference description of the listing, independent of the loop.

  /** A page after which the listing goes on: accepted and not empty. */
  predicate Continues(r: Response) {
    IsListPage(r) && |r.body.items| > 0
  }

  /** Page k + 1 (index k) is the first empty page, and every page before
      it was accepted and not empty. */
  predicate FirstEmptyAt(queue: seq<Response>, k: nat) {
    && k < |queue|
    && IsListPage(queue[k])
    && |queue[k].body.items| == 0
    && forall i :: 0 <= i < k ==> Continues(queue[i])
  }

  /** Page k + 1 (index k) is an error status or not a list, and every page
      before it was accepted and not empty. */
  predicate FirstBadAt(queue: seq<Response>, k: nat) {
    && k < |queue|
    && !IsListPage(queue[k])
    && forall i :: 0 <= i < k ==> Continues(queue[i])
  }

  /** Every queued page was accepted and not empty. */
  predicate NeverStops(queue: seq<Response>) {
    forall i :: 0 <= i < |queue| ==> Continues(queue[i])
  }

  /** The names of the first k pages concatenated in page order. */
  function NamesBefore(queue: seq<Response>, k: nat): seq<string>
    requires k <= |queue|
    requires forall i :: 0 <= i < k ==> IsListPage(queue[i])
  {
    if k == 0 then []
    else
      assert IsListPage(queue[0]);
      PageNames(queue[0].body.items) + NamesBefore(queue[1..], k - 1)
  }

  /** Index of the first page the listing does not go on past, or |queue|. */
  function StopIndex(queue: seq<Response>): (k: nat)
    ensures k <= |queue|
    ensures forall i :: 0 <= i < k ==> Continues(queue[i])
    ensures k < |queue| ==> !Continues(queue[k])
  {
    if |queue| == 0 || !Continues(queue[0]) then 0
    else 1 + StopIndex(queue[1..])
  }

  // ---------------------------------------------------------------------
  // Properties.

  /** Dict items contribute their names in order; the rest contribute none. */
  lemma {:induction false} PageNamesAppend(a: seq<Item>, b: seq<Item>)
    ensures PageNames(a + b) == PageNames(a) + PageNames(b)
    decreases |a|
  {
    if |a| == 0 {
      assert a + b == b;
    } else {
      var head := if a[0].Obj? then [NameOf(a[0])] else [];
      assert (a + b)[0] == a[0];
      assert (a + b)[1..] == a[1..] + b;
      assert PageNames(a + b) == head + PageNames(a[1..] + b);
      PageNamesAppend(a[1..], b);
      assert PageNames(a) == head + PageNames(a[1..]);
    }
  }

  /** On a page of dicts only, the i-th name is the i-th item's "name", or
      "" when it has none. */
  lemma {:induction false} PageNamesAllObjects(items: seq<Item>)
    requires forall j :: 0 <= j < |items| ==> items[j].Obj?
    ensures |PageNames(items)| == |items|
    ensures forall j :: 0 <= j < |items| ==> PageNames(items)[j] == items[j].name.GetOr("")
    decreases |items|
  {
    if |items| > 0 {
      PageNamesAllObjects(items[1..]);
    }
  }

  /** A page with no dict on it contributes no name at all. */
  lemma {:induction false} PageNamesNonObjects(items: seq<Item>)
    requires forall j :: 0 <= j < |items| ==> !items[j].Obj?
    ensures PageNames(items) == []
    decreases |items|
  {
    if |items| > 0 {
      assert !items[0].Obj?;
      PageNamesNonObjects(items[1..]);
    }
  }

  lemma {:induction false} ListFromFirstEmpty(queue: seq<Response>, k: nat, page: nat, names: seq<string>)
    requires FirstEmptyAt(queue, k)
    ensures ListFrom(queue, page, names) == Run(Success(names + NamesBefore(queue, k)), Consecutive(page, k + 1))
    decreases k
  {
    if k > 0 {
      assert Continues(queue[0]);
      assert FirstEmptyAt(queue[1..], k - 1) by {
        forall i | 0 <= i < k - 1 ensures Continues(queue[1..][i]) {
          assert Continues(queue[i + 1]);
        }
      }
      var first := PageNames(queue[0].body.items);
      assert ListPayload(queue[0]) == Success(queue[0].body.items);
      ListFromFirstEmpty(queue[1..], k - 1, page + 1, names + first);
      assert NamesBefore(queue, k) == first + NamesBefore(queue[1..], k - 1);
      assert names + first + NamesBefore(queue[1..], k - 1) == names + NamesBefore(queue, k);
      assert Consecutive(page, k + 1) == [page] + Consecutive(page + 1, k);
    } else {
      assert ListPayload(queue[0]) == Success(queue[0].body.items);
      assert NamesBefore(queue, k) == [];
      assert names + [] == names;
    }
  }

  /** When page k + 1 is the first empty page, the listing returns the names
      of pages 1..k in page order, having requested exactly pages 1..k+1. */
  lemma ListSucceedsAtFirstEmpty(queue: seq<Response>, k: nat)
    requires FirstEmptyAt(queue, k)
    ensures ListUserRepos(queue) == Run(Success(NamesBefore(queue, k)), Consecutive(1, k + 1))
  {
    ListFromFirstEmpty(queue, k, 1, []);
    assert [] + NamesBefore(queue, k) == NamesBefore(queue, k);
  }

  lemma {:induction false} ListFromFirstBad(queue: seq<Response>, k: nat, page: nat, names: seq<string>)
    requires FirstBadAt(queue, k)
    ensures ListFrom(queue, page, names) == Run(Failure(ListPayload(queue[k]).error), Consecutive(page, k + 1))
    decreases k
  {
    if k > 0 {
      assert Continues(queue[0]);
      assert FirstBadAt(queue[1..], k - 1) by {
        forall i | 0 <= i < k - 1 ensures Continues(queue[1..][i]) {
          assert Continues(queue[i + 1]);
        }
      }
      ListFromFirstBad(queue[1..], k - 1, page + 1, names + PageNames(queue[0].body.items));
    }
  }

  /** A page before the first empty one that has an error status or is not
      a list makes the whole listing fail with that page's error, with no
      names, after requesting exactly pages 1..k+1. */
  lemma ListFailsAtFirstBad(queue: seq<Response>, k: nat)
    requires FirstBadAt(queue, k)
    ensures ListUserRepos(queue) == Run(Failure(ListPayload(queue[k]).error), Consecutive(1, k + 1))
    ensures ListUserRepos(queue).result.error.ApiError?
  {
    ListFromFirstBad(queue, k, 1, []);
  }

  lemma {:induction false} ListFromNeverStops(queue: seq<Response>, page: nat, names: seq<string>)
    requires NeverStops(queue)
    ensures ListFrom(queue, page, names).result == Failure(Exhausted)
    decreases |queue|
  {
    if |queue| > 0 {
      assert Continues(queue[0]);
      assert NeverStops(queue[1..]) by {
        forall i | 0 <= i < |queue| - 1 ensures Continues(queue[1..][i]) {
          assert Continues(queue[i + 1]);
        }
      }
      ListFromNeverStops(queue[1..], page + 1, names + PageNames(queue[0].body.items));
    }
  }

  /** A first empty page and a first bad page can only sit where the
      listing stops. */
  lemma StopIndexIsTheStop(queue: seq<Response>, j: nat)
    requires FirstEmptyAt(queue, j) || FirstBadAt(queue, j)
    ensures j == StopIndex(queue)
  {
  }

  /** The listing succeeds exactly when some page is the first empty one,
      fails with a `GitHubAPIError` exactly when a bad page comes first, and
      runs out of responses otherwise. */
  lemma ListOutcomes(queue: seq<Response>)
    ensures ListUserRepos(queue).result.Success? <==> exists k: nat :: FirstEmptyAt(queue, k)
    ensures (ListUserRepos(queue).result.Failure? && ListUserRepos(queue).result.error.ApiError?)
            <==> exists k: nat :: FirstBadAt(queue, k)
    ensures ListUserRepos(queue).result == Failure(Exhausted) <==> NeverStops(queue)
  {
    var k := StopIndex(queue);
    forall j: nat | FirstEmptyAt(queue, j) || FirstBadAt(queue, j) ensures j == k {
      StopIndexIsTheStop(queue, j);
    }
    if k == |queue| {
      ListFromNeverStops(queue, 1, []);
    } else if IsListPage(queue[k]) {
      assert FirstEmptyAt(queue, k);
      ListSucceedsAtFirstEmpty(queue, k);
    } else {
      assert FirstBadAt(queue, k);
      ListFailsAtFirstBad(queue, k);
    }
  }
}
