/** The two pagination loops stop on different signals: the lister on an
    empty page, the counter on a short page.  On the same page sequence the
    counter therefore never asks for more pages than the lister, and asks
    for fewer exactly when the last page it reads is short but not empty. */
module StopRules {
  import opened Responses
  import Lister
  import Counter

  /** Where both walks succeed over the same pages, the counter stops no
      later than the lister, and at the same page exactly when that page is
      empty; the lister otherwise issues extra trailing requests. */
  lemma CounterStopsNoLaterThanLister(queue: seq<Response>, k: nat, m: nat)
    requires Lister.FirstEmptyAt(queue, k)
    requires Counter.FirstShortAt(queue, m)
    ensures m <= k
    ensures m == k <==> |queue[m].body.items| == 0
    ensures |Counter.CountCommits(queue).pages| == m + 1
    ensures |Lister.ListUserRepos(queue).pages| == k + 1
  {
    Lister.ListSucceedsAtFirstEmpty(queue, k);
    Counter.CountSucceedsAtFirstShort(queue, m);
    forall i | 0 <= i < m ensures |queue[i].body.items| > 0 {
      assert Counter.Full(queue[i]);
    }
    forall i | 0 <= i < k ensures |queue[i].body.items| > 0 {
      assert Lister.Continues(queue[i]);
    }
  }
}
