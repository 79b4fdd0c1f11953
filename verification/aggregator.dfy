/** `repo_commit_counts`: lists the repositories once, then counts the
    commits of each in list order, recording 0 for a repository whose count
    raised a `GitHubAPIError`.  Each repository's commit endpoint is answered
    by its own queue of responses, `commits(name)`. */
module Aggregator {
  import opened Wrappers
  import opened Responses
  import Lister
  import Counter

  /** The `try`/`except GitHubAPIError` around one `count_commits` call.
      The recorded count is the total length of the pages up to the first
      short one, or 0 when an error status or a non-list body comes first:
      both causes of a `GitHubAPIError` are absorbed.  The response queue
      running out is a different exception and escapes. */
  function CountOrZero(queue: seq<Response>): (r: Result<nat, Failure>)
    ensures forall m: nat | Counter.FirstShortAt(queue, m) :: r == Success(Counter.ItemsIn(queue, m + 1))
    ensures forall m: nat | Counter.FirstBadAt(queue, m) :: r == Success(0)
    ensures Counter.NeverShort(queue) ==> r == Failure(Exhausted)
    ensures r.Failure? <==> Counter.CountCommits(queue).result == Failure(Exhausted)
    ensures r.Failure? ==> r.error == Exhausted
  {
    Counter.CountByStop(queue);
    match Counter.CountCommits(queue).result
    case Success(n) => Success(n)
    case Failure(ApiError(_)) => Success(0)
    case Failure(Exhausted) => Failure(Exhausted)
  }

  /** The `for name in repos` loop, with the pairs built so far in `pairs`. */
  function CountEach(names: seq<string>, commits: string -> seq<Response>, pairs: seq<Pair>): (r: Result<seq<Pair>, Failure>)
    ensures r.Success? ==> |r.value| == |pairs| + |names| && r.value[..|pairs|] == pairs
    ensures r.Success? ==> forall i :: 0 <= i < |names| ==>
              r.value[|pairs| + i].0 == names[i] && CountOrZero(commits(names[i])) == Success(r.value[|pairs| + i].1)
    ensures r.Failure? ==> r.error == Exhausted
    decreases |names|
  {
    if |names| == 0 then Success(pairs)
    else
      match CountOrZero(commits(names[0]))
      case Failure(e) => Failure(e)
      case Success(n) =>
        var r := CountEach(names[1..], commits, pairs + [(names[0], n)]);
        assert r.Success? ==> r.value[..|pairs|] == pairs by {
          if r.Success? {
            assert r.value[..|pairs|] == r.value[..|pairs| + 1][..|pairs|];
          }
        }
        r
  }

  /** `repo_commit_counts` against the listing queue `repos` and the
      per-repository commit queues `commits`. */
  function RepoCommitCounts(repos: seq<Response>, commits: string -> seq<Response>): (r: Result<seq<Pair>, Failure>)
    ensures Lister.ListUserRepos(repos).result.Failure? ==> r == Failure(Lister.ListUserRepos(repos).result.error)
    ensures r.Success? ==> && Lister.ListUserRepos(repos).result.Success?
                           && |r.value| == |Lister.ListUserRepos(repos).result.value|
  {
    match Lister.ListUserRepos(repos).result
    case Failure(e) => Failure(e)
    case Success(names) => CountEach(names, commits, [])
  }

  // ---------------------------------------------------------------------
  // Properties.

  /** The loop fails exactly when some repository's commit queue runs out. */
  lemma {:induction false} CountEachFails(names: seq<string>, commits: string -> seq<Response>, pairs: seq<Pair>)
    ensures CountEach(names, commits, pairs).Failure?
            <==> exists i :: 0 <= i < |names| && CountOrZero(commits(names[i])).Failure?
    decreases |names|
  {
    if |names| > 0 && CountOrZero(commits(names[0])).Success? {
      var n := CountOrZero(commits(names[0])).value;
      CountEachFails(names[1..], commits, pairs + [(names[0], n)]);
      if exists i :: 0 <= i < |names[1..]| && CountOrZero(commits(names[1..][i])).Failure? {
        var i :| 0 <= i < |names[1..]| && CountOrZero(commits(names[1..][i])).Failure?;
        assert CountOrZero(commits(names[i + 1])).Failure?;
      }
      if exists i :: 0 <= i < |names| && CountOrZero(commits(names[i])).Failure? {
        var i :| 0 <= i < |names| && CountOrZero(commits(names[i])).Failure?;
        assert CountOrZero(commits(names[1..][i - 1])).Failure?;
      }
    }
  }

  /** When the listing succeeds, the result holds one pair per listed name,
      in list order, pairing each name with its `count_commits` result, or
      0 when that call raised; it fails only when some repository's queue
      runs out. */
  lemma CountsPerRepository(repos: seq<Response>, commits: string -> seq<Response>)
    requires Lister.ListUserRepos(repos).result.Success?
    ensures var names := Lister.ListUserRepos(repos).result.value;
            RepoCommitCounts(repos, commits).Failure?
            <==> exists i :: 0 <= i < |names| && Counter.CountCommits(commits(names[i])).result == Failure(Exhausted)
    ensures var names := Lister.ListUserRepos(repos).result.value;
            var r := RepoCommitCounts(repos, commits);
            r.Success? ==> && |r.value| == |names|
                           && forall i :: 0 <= i < |names| ==>
                                && r.value[i].0 == names[i]
                                && r.value[i].1 == (var c := Counter.CountCommits(commits(names[i])).result;
                                                    if c.Success? then c.value else 0)
  {
    var names := Lister.ListUserRepos(repos).result.value;
    var r := RepoCommitCounts(repos, commits);
    CountEachFails(names, commits, []);
    if r.Success? {
      forall i | 0 <= i < |names|
        ensures r.value[i].1 == (var c := Counter.CountCommits(commits(names[i])).result;
                                 if c.Success? then c.value else 0)
      {
        assert CountOrZero(commits(names[i])) == Success(r.value[0 + i].1);
      }
    }
  }

  /** A repository's own responses decide its pair alone: two commit
      oracles that differ only for `name` give the same pairs for every
      other repository. */
  lemma FailureIsIsolated(repos: seq<Response>, c1: string -> seq<Response>, c2: string -> seq<Response>, name: string)
    requires forall n :: n != name ==> c1(n) == c2(n)
    requires RepoCommitCounts(repos, c1).Success? && RepoCommitCounts(repos, c2).Success?
    ensures |RepoCommitCounts(repos, c1).value| == |RepoCommitCounts(repos, c2).value|
    ensures forall i :: 0 <= i < |RepoCommitCounts(repos, c1).value| && RepoCommitCounts(repos, c1).value[i].0 != name
              ==> RepoCommitCounts(repos, c1).value[i] == RepoCommitCounts(repos, c2).value[i]
  {
    CountsPerRepository(repos, c1);
    CountsPerRepository(repos, c2);
  }
}
