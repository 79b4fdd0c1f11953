/** The scenarios of the repository's tests, stated over the model, and the
    tests' own test double: a session whose single queue answers every GET
    in order, whatever its URL. */
module Scenarios {
  import opened Wrappers
  import opened Responses
  import opened Lister
  import Counter
  import opened Aggregator
  import opened Formatter
  import opened Report

  /** A 200 response with a list body. */
  function Ok(items: seq<Item>): Response {
    Response(200, JList(items))
  }

  /** `{"name": n}`. */
  function Named(n: string): Item {
    Obj(Some(n))
  }

  /** `[{}] * n`: n dicts without a name. */
  function Blank(n: nat): seq<Item> {
    seq(n, _ => Obj(None))
  }

  // ---------------------------------------------------------------------
  // The model with one queue per endpoint.

  /** Two repositories on page 1 and an empty page 2 give both names, after
      two requests. */
  lemma ListingPaginates()
    ensures ListUserRepos([Ok([Named("alpha"), Named("beta")]), Ok([])]) == Run(Success(["alpha", "beta"]), [1, 2])
  {
    var q := [Ok([Named("alpha"), Named("beta")]), Ok([])];
    assert FirstEmptyAt(q, 1);
    ListSucceedsAtFirstEmpty(q, 1);
    NamedPage(["alpha", "beta"]);
    assert [Named("alpha"), Named("beta")] == seq(2, i requires 0 <= i < 2 => Named(["alpha", "beta"][i]));
    assert NamesBefore(q, 1) == PageNames(q[0].body.items) + NamesBefore(q[1..], 0);
    assert NamesBefore(q, 1) == ["alpha", "beta"];
    assert Consecutive(1, 2) == [1, 2];
  }

  /** A listing of two named repositories on page 1 and an empty page 2. */
  lemma TwoRepositories(repos: seq<Response>, a: string, b: string)
    requires |repos| >= 2 && repos[0] == Ok([Named(a), Named(b)]) && repos[1] == Ok([])
    ensures ListUserRepos(repos) == Run(Success([a, b]), [1, 2])
  {
    assert Consecutive(1, 2) == [1, 2];
    assert FirstEmptyAt(repos, 1);
    ListSucceedsAtFirstEmpty(repos, 1);
    NamedPage([a, b]);
    assert [Named(a), Named(b)] == seq(2, i requires 0 <= i < 2 => Named([a, b][i]));
    assert NamesBefore(repos, 1) == PageNames(repos[0].body.items) + NamesBefore(repos[1..], 0);
    assert NamesBefore(repos, 1) == [a, b];
  }

  /** A listing of one named repository on page 1 and an empty page 2. */
  lemma OneRepository(repos: seq<Response>, a: string)
    requires |repos| >= 2 && repos[0] == Ok([Named(a)]) && repos[1] == Ok([])
    ensures ListUserRepos(repos) == Run(Success([a]), [1, 2])
  {
    assert Consecutive(1, 2) == [1, 2];
    assert FirstEmptyAt(repos, 1);
    ListSucceedsAtFirstEmpty(repos, 1);
    NamedPage([a]);
    assert [Named(a)] == seq(1, i requires 0 <= i < 1 => Named([a][i]));
    assert NamesBefore(repos, 1) == PageNames(repos[0].body.items) + NamesBefore(repos[1..], 0);
  }

  /** A page of named dicts lists exactly those names. */
  lemma NamedPage(names: seq<string>)
    ensures PageNames(seq(|names|, i requires 0 <= i < |names| => Named(names[i]))) == names
  {
    var items := seq(|names|, i requires 0 <= i < |names| => Named(names[i]));
    PageNamesAllObjects(items);
  }

  /** A full page of 100 commits and a page of 1 count 101, after two
      requests. */
  lemma CountingPaginates()
    ensures Counter.CountCommits([Ok(Blank(100)), Ok(Blank(1))]) == Run(Success(101), [1, 2])
  {
  }

  /** A 404 on the first listing page makes the listing, and so the whole
      report, fail with that status. */
  lemma ListingErrorBubblesUp(commits: string -> seq<Response>)
    ensures ListUserRepos([Response(404, JOther)]) == Run(Failure(ApiError(HttpStatus(404))), [1])
    ensures ReposAndCommitsForUser([Response(404, JOther)], commits) == Failure(ApiError(HttpStatus(404)))
  {
  }

  /** A body that is not a list fails both loops. */
  lemma NotAListFails()
    ensures ListUserRepos([Response(200, JOther)]).result == Failure(ApiError(NotAList))
    ensures Counter.CountCommits([Response(200, JOther)]).result == Failure(ApiError(NotAList))
  {
  }

  /** Whichever repository fails, its pair records 0 and the other keeps
      its count: "beta" failing after "alpha" gives [("alpha", 2), ("beta",
      0)], and "alpha" failing before "beta" gives [("alpha", 0), ("beta",
      2)], so the loop goes on past a failed repository. */
  lemma FailingRepositoryCountsZero()
    ensures RepoCommitCounts([Ok([Named("alpha"), Named("beta")]), Ok([])],
                             n => if n == "alpha" then [Ok(Blank(2))] else [Response(500, JOther)])
            == Success([("alpha", 2), ("beta", 0)])
    ensures RepoCommitCounts([Ok([Named("alpha"), Named("beta")]), Ok([])],
                             n => if n == "alpha" then [Response(500, JOther)] else [Ok(Blank(2))])
            == Success([("alpha", 0), ("beta", 2)])
  {
    var later := n => if n == "alpha" then [Ok(Blank(2))] else [Response(500, JOther)];
    assert Counter.CountCommits(later("alpha")).result == Success(2);
    assert CountOrZero(later("beta")) == Success(0);
    TwoCounts("alpha", "beta", later, 2, 0);

    var first := n => if n == "alpha" then [Response(500, JOther)] else [Ok(Blank(2))];
    assert CountOrZero(first("alpha")) == Success(0);
    assert Counter.CountCommits(first("beta")).result == Success(2);
    TwoCounts("alpha", "beta", first, 0, 2);
  }

  /** A listing of two repositories, each with its recorded count. */
  lemma TwoCounts(a: string, b: string, commits: string -> seq<Response>, ca: nat, cb: nat)
    requires CountOrZero(commits(a)) == Success(ca) && CountOrZero(commits(b)) == Success(cb)
    ensures RepoCommitCounts([Ok([Named(a), Named(b)]), Ok([])], commits) == Success([(a, ca), (b, cb)])
  {
    TwoRepositories([Ok([Named(a), Named(b)]), Ok([])], a, b);
    var p0: seq<Pair> := [];
    var p1: seq<Pair> := [(a, ca)];
    var p2: seq<Pair> := [(a, ca), (b, cb)];
    assert p0 + [(a, ca)] == p1 && p1 + [(b, cb)] == p2;
    assert [b][0] == b && [b][1..] == [];
    assert CountEach([b], commits, p1) == CountEach([], commits, p2);
    assert [a, b][0] == a && [a, b][1..] == [b];
    assert CountEach([a, b], commits, p0) == CountEach([b], commits, p1);
  }

  /** A malformed commits payload is a `GitHubAPIError` too, so it is also
      absorbed as 0. */
  lemma MalformedCommitsCountZero()
    ensures RepoCommitCounts([Ok([Named("repo1")]), Ok([])], _ => [Response(200, JOther)])
            == Success([("repo1", 0)])
  {
  }

  /** The rendering the assignment asks for: the two lines joined by one
      newline. */
  lemma FormatMatchesAssignment()
    ensures FormatRepoCounts([("Triangle567", 10), ("Square567", 27)])
            == ("Repo: " + "Triangle567" + " Number of commits: " + "10") + "\n" + ("Repo: " + "Square567" + " Number of commits: " + "27")
  {
  }

  /** User with "repoA" (2 commits) and "repoB" (1 commit), end to end. */
  lemma EndToEnd()
    ensures ReposAndCommitsForUser([Ok([Named("repoA"), Named("repoB")]), Ok([])],
                                   n => if n == "repoA" then [Ok(Blank(2))] else [Ok(Blank(1))])
            == Success(("Repo: " + "repoA" + " Number of commits: " + "2") + "\n" + ("Repo: " + "repoB" + " Number of commits: " + "1"))
  {
  }

  // ---------------------------------------------------------------------
  // The tests' shared-queue session.

  /** `repo_commit_counts` over one queue for every request: the listing
      consumes one response per page it requested, then each count consumes
      the next ones. */
  function SharedQueueCounts(queue: seq<Response>): (r: Result<seq<Pair>, Failure>)
    ensures ListUserRepos(queue).result.Failure? ==> r == Failure(ListUserRepos(queue).result.error)
    ensures r.Success? ==> && ListUserRepos(queue).result.Success?
                           && |r.value| == |ListUserRepos(queue).result.value|
                           && forall i :: 0 <= i < |r.value| ==> r.value[i].0 == ListUserRepos(queue).result.value[i]
  {
    var listing := ListUserRepos(queue);
    match listing.result
    case Failure(e) => Failure(e)
    case Success(names) => SharedCountEach(names, queue[|listing.pages|..], [])
  }

  /** The `for` loop of `repo_commit_counts` over the rest of the queue. */
  function SharedCountEach(names: seq<string>, queue: seq<Response>, pairs: seq<Pair>): (r: Result<seq<Pair>, Failure>)
    ensures r.Success? ==> |r.value| == |pairs| + |names| && r.value[..|pairs|] == pairs
    ensures r.Success? ==> forall i :: 0 <= i < |names| ==> r.value[|pairs| + i].0 == names[i]
    ensures r.Failure? ==> r.error == Exhausted
    decreases |names|
  {
    if |names| == 0 then Success(pairs)
    else
      var c := Counter.CountCommits(queue);
      match CountOrZero(queue)
      case Failure(e) => Failure(e)
      case Success(n) =>
        var r := SharedCountEach(names[1..], queue[|c.pages|..], pairs + [(names[0], n)]);
        assert r.Success? ==> r.value[..|pairs|] == pairs by {
          if r.Success? {
            assert r.value[..|pairs|] == r.value[..|pairs| + 1][..|pairs|];
          }
        }
        r
  }

  /** The queue of the "skips error repo" test as written: the lister reads
      the commit page as listing page 2 (two nameless repositories) and the
      500 as listing page 3, so the whole call fails instead of returning
      [("ok", 2), ("bad", 0)]. */
  lemma SkipErrorFixtureAsWritten()
    ensures SharedQueueCounts([Ok([Named("ok"), Named("bad")]), Ok(Blank(2)), Response(500, JOther)])
            == Failure(ApiError(HttpStatus(500)))
  {
  }

  /** With the empty listing page the lister needs, the same responses give
      the expected pairs, as they do with one queue per endpoint. */
  lemma SkipErrorFixtureCorrected()
    ensures SharedQueueCounts([Ok([Named("ok"), Named("bad")]), Ok([]), Ok(Blank(2)), Response(500, JOther)])
            == Success([("ok", 2), ("bad", 0)])
    ensures RepoCommitCounts([Ok([Named("ok"), Named("bad")]), Ok([])],
                             n => if n == "ok" then [Ok(Blank(2))] else [Response(500, JOther)])
            == Success([("ok", 2), ("bad", 0)])
  {
    var q := [Ok([Named("ok"), Named("bad")]), Ok([]), Ok(Blank(2)), Response(500, JOther)];
    TwoRepositories(q, "ok", "bad");
    var rest := q[2..];
    assert rest == [Ok(Blank(2)), Response(500, JOther)];
    assert Counter.CountCommits(rest) == Run(Success(2), [1]);
    assert rest[1..] == [Response(500, JOther)];
    assert CountOrZero(rest[1..]) == Success(0);
    var p0: seq<Pair> := [];
    var p1: seq<Pair> := [("ok", 2)];
    var p2: seq<Pair> := [("ok", 2), ("bad", 0)];
    assert p0 + [("ok", 2)] == p1 && p1 + [("bad", 0)] == p2;
    assert ["ok", "bad"][1..] == ["bad"] && ["bad"][1..] == [];
    assert SharedCountEach(["bad"], rest[1..], p1) == Success(p2);
    assert SharedCountEach(["ok", "bad"], rest, p0) == Success(p2);

    var repos := [Ok([Named("ok"), Named("bad")]), Ok([])];
    var commits := n => if n == "ok" then [Ok(Blank(2))] else [Response(500, JOther)];
    TwoRepositories(repos, "ok", "bad");
    assert Counter.CountCommits(commits("ok")).result == Success(2);
    assert Counter.CountCommits(commits("bad")).result == Failure(ApiError(HttpStatus(500)));
    Aggregator.CountsPerRepository(repos, commits);
    assert RepoCommitCounts(repos, commits).value == p2;
  }

  /** The queue of the top-level helper test as written: the lister reads
      the three commits as a page of three nameless repositories and stops
      at the empty page, so counting "gamma" finds the queue empty. */
  lemma TopLevelFixtureAsWritten()
    ensures ListUserRepos([Ok([Named("gamma")]), Ok(Blank(3)), Ok([])]).result == Success(["gamma", "", "", ""])
    ensures SharedQueueCounts([Ok([Named("gamma")]), Ok(Blank(3)), Ok([])]) == Failure(Exhausted)
  {
    var q := [Ok([Named("gamma")]), Ok(Blank(3)), Ok([])];
    assert FirstEmptyAt(q, 2);
    ListSucceedsAtFirstEmpty(q, 2);
    NamedPage(["gamma"]);
    assert [Named("gamma")] == seq(1, i requires 0 <= i < 1 => Named(["gamma"][i]));
    PageNamesAllObjects(Blank(3));
    assert PageNames(Blank(3)) == ["", "", ""];
    assert NamesBefore(q[2..], 0) == [];
    assert NamesBefore(q[1..], 1) == PageNames(Blank(3)) + NamesBefore(q[2..], 0);
    assert NamesBefore(q, 2) == PageNames([Named("gamma")]) + NamesBefore(q[1..], 1);
    assert PageNames([Named("gamma")]) == ["gamma"];
    assert NamesBefore(q, 2) == ["gamma", "", "", ""];
    assert |ListUserRepos(q).pages| == 3;
    assert q[3..] == [];
    assert CountOrZero([]) == Failure(Exhausted);
  }

  /** With the empty listing page before the commit page, the helper renders
      the expected single line. */
  lemma TopLevelFixtureCorrected()
    ensures SharedQueueCounts([Ok([Named("gamma")]), Ok([]), Ok(Blank(3))]) == Success([("gamma", 3)])
    ensures ReposAndCommitsForUser([Ok([Named("gamma")]), Ok([])], _ => [Ok(Blank(3))])
            == Success(("Repo: " + "gamma" + " Number of commits: " + "3"))
  {
  }
}
