/** `repos_and_commits_for_user`: the aggregated pairs rendered as text. */
module Report {
  import opened Wrappers
  import opened Responses
  import Lister
  import Counter
  import Aggregator
  import Formatter

  /** `repos_and_commits_for_user` with the listing queue `repos` and the
      per-repository commit queues `commits` standing in for the session. */
  function ReposAndCommitsForUser(repos: seq<Response>, commits: string -> seq<Response>): (r: Result<string, Failure>)
    ensures Lister.ListUserRepos(repos).result.Failure? ==> r == Failure(Lister.ListUserRepos(repos).result.error)
    ensures r.Success? <==> Aggregator.RepoCommitCounts(repos, commits).Success?
  {
    match Aggregator.RepoCommitCounts(repos, commits)
    case Failure(e) => Failure(e)
    case Success(pairs) => Success(Formatter.FormatRepoCounts(pairs))
  }

  /** When the listing succeeds, no listed name contains a newline and no
      commit queue runs out, the text has one line per listed repository, in
      list order, and reads back as each name with its commit count, or 0
      where counting raised. */
  lemma ReportReadsBack(repos: seq<Response>, commits: string -> seq<Response>)
    requires Lister.ListUserRepos(repos).result.Success?
    requires var names := Lister.ListUserRepos(repos).result.value;
             forall i :: 0 <= i < |names| ==> Formatter.NoNewline(names[i])
    requires var names := Lister.ListUserRepos(repos).result.value;
             forall i :: 0 <= i < |names| ==> Counter.CountCommits(commits(names[i])).result != Failure(Exhausted)
    ensures var names := Lister.ListUserRepos(repos).result.value;
            var r := ReposAndCommitsForUser(repos, commits);
            && r.Success?
            && (|names| == 0 <==> r.value == "")
            && (|names| > 0 ==> |Formatter.Split(r.value)| == |names|)
            && Formatter.ParseReport(r.value).Some?
            && var ps := Formatter.ParseReport(r.value).value;
               && |ps| == |names|
               && forall i :: 0 <= i < |names| ==>
                    && ps[i].0 == names[i]
                    && ps[i].1 == (var c := Counter.CountCommits(commits(names[i])).result;
                                   if c.Success? then c.value else 0)
  {
    var names := Lister.ListUserRepos(repos).result.value;
    Aggregator.CountsPerRepository(repos, commits);
    var pairs := Aggregator.RepoCommitCounts(repos, commits).value;
    forall i | 0 <= i < |pairs| ensures Formatter.NoNewline(pairs[i].0) {
      assert pairs[i].0 == names[i];
    }
    Formatter.FormatRoundTrip(pairs);
  }
}
