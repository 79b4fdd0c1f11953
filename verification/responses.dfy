/** The HTTP layer of the client, reduced to what the client inspects of a
    response: its status code and whether its JSON body is a list.  Requests
    are answered by a finite queue of responses, consumed in order. */
module Responses {
  import opened Wrappers

  /** Page size requested from both paginated endpoints, and the length
      below which the commit counter treats a page as the last one. */
  const PerPage: nat := 100

  /** Lowest status code `_get` treats as an error. */
  const FirstErrorStatus: int := 400

  /** An element of a JSON list: a dict, whose "name" key may be absent,
      or anything that is not a dict. */
  datatype Item = Obj(name: Option<string>) | NonObj

  /** A decoded JSON body: a list of items, or any other JSON value. */
  datatype Json = JList(items: seq<Item>) | JOther

  /** One HTTP response. */
  datatype Response = Response(status: int, body: Json)

  /** What a `GitHubAPIError` reports: an error status, or a body that is
      not a list. */
  datatype Cause = HttpStatus(status: int) | NotAList

  /** Every way a request chain can fail.  `ApiError` is `GitHubAPIError`;
      `Exhausted` is the response queue running out, which the test double
      signals with an `AssertionError` rather than a `GitHubAPIError`. */
  datatype Failure = ApiError(cause: Cause) | Exhausted

  /** The outcome of one paginated walk: its result and the page numbers
      it requested, in order. */
  datatype Run<+T> = Run(result: Result<T, Failure>, pages: seq<nat>)

  /** A repository name with its commit count: what `repo_commit_counts`
      returns and `format_repo_counts` renders. */
  type Pair = (string, nat)

  /** `_get`: a status of 400 or more raises, anything else hands the
      response body back unchanged. */
  function Get(r: Response): (res: Result<Json, Failure>)
    ensures res.Failure? <==> r.status >= FirstErrorStatus
    ensures res.Failure? ==> res.error == ApiError(HttpStatus(r.status))
    ensures res.Success? ==> res.value == r.body
  {
    if r.status >= FirstErrorStatus then Failure(ApiError(HttpStatus(r.status)))
    else Success(r.body)
  }

  /** A response both loops accept: no error status and a list body. */
  predicate IsListPage(r: Response) {
    r.status < FirstErrorStatus && r.body.JList?
  }

  /** `_get` followed by the `isinstance(data, list)` check that both
      loops perform on every page. */
  function ListPayload(r: Response): (res: Result<seq<Item>, Failure>)
    ensures res.Success? <==> IsListPage(r)
    ensures res.Success? ==> res.value == r.body.items
    ensures r.status >= FirstErrorStatus ==> res == Failure(ApiError(HttpStatus(r.status)))
    ensures r.status < FirstErrorStatus && !r.body.JList? ==> res == Failure(ApiError(NotAList))
  {
    match Get(r)
    case Failure(e) => Failure(e)
    case Success(body) => if body.JList? then Success(body.items) else Failure(ApiError(NotAList))
  }

  /** The page numbers start, start + 1, ..., n of them. */
  function Consecutive(start: nat, n: nat): (s: seq<nat>)
    ensures |s| == n
    ensures forall i :: 0 <= i < n ==> s[i] == start + i
    decreases n
  {
    if n == 0 then [] else [start] + Consecutive(start + 1, n - 1)
  }
}
