/** `fetch_log_entries` (app.py): reads an account's lock-trigger log entries
    500 at a time and stops at the first page shorter than 500. */
module Paging {
  import opened Common
  import opened Entities

  /** `batch_size`. */
  const PageSize: nat := 500

  /** The `$skip` and `$top` of one `LogEntries` request. */
  datatype Request = Request(skip: nat, top: nat)

  /** A response body: a JSON array of entries, or anything else. */
  datatype Body = JsonList(items: seq<LogEntry>) | NotAList

  datatype Response = Response(status: int, body: Body)

  /** The remote `LogEntries` collection of one owner account (filtered to
      lock-trigger commands). It serves `entries` in windows of `$skip`/`$top`;
      a request whose `$skip` is in `statusAt` gets that status instead of 200,
      and one whose `$skip` is in `malformedAt` gets a body that is not a list. */
  datatype LogApi = LogApi(entries: seq<LogEntry>, statusAt: map<nat, int>, malformedAt: set<nat>)

  /** What `$skip=skip&$top=top` selects from `s`. */
  function Window<T>(s: seq<T>, skip: nat, top: nat): (w: seq<T>)
    ensures |w| == if skip >= |s| then 0 else if skip + top >= |s| then |s| - skip else top
    ensures forall i :: 0 <= i < |w| ==> w[i] == s[skip + i]
  {
    if skip >= |s| then [] else if skip + top >= |s| then s[skip..] else s[skip..skip + top]
  }

  /** The response the server gives to one request. */
  function Respond(api: LogApi, req: Request): Response
  {
    Response(
      if req.skip in api.statusAt then api.statusAt[req.skip] else 200,
      if req.skip in api.malformedAt then NotAList else JsonList(Window(api.entries, req.skip, req.top)))
  }

  /** A response the loop aborts on: a status other than 200, or a body that is not a list. */
  predicate Failed(resp: Response)
  {
    resp.status != 200 || !resp.body.JsonList?
  }

  /** The request for page `i` (counting from 1): `$skip = 500 * (i - 1)`, `$top = 500`. */
  function PageRequest(i: nat): (req: Request)
    requires i >= 1
  {
    Request(PageSize * (i - 1), PageSize)
  }

  /** Every page asks for 500 entries, and each page's window starts where the
      previous page's window ends, so the windows neither overlap nor leave gaps. */
  lemma PageRequestsContiguous(i: nat)
    requires i > 1
    ensures PageRequest(i).top == PageRequest(i - 1).top == PageSize
    ensures PageRequest(i).skip == PageRequest(i - 1).skip + PageRequest(i - 1).top
  {
  }

  predicate PageFails(api: LogApi, i: nat)
    requires i >= 1
  {
    Failed(Respond(api, PageRequest(i)))
  }

  /** The number of pages a loop over a fault-free collection requests: every full
      page, then the first short one (which is empty when the size is a multiple of 500). */
  function LastPage(api: LogApi): (n: nat)
    ensures n >= 1
  {
    |api.entries| / PageSize + 1
  }

  /** What the loop does from page `i` on: the outcome and the requests it sends. */
  function FetchFrom(api: LogApi, i: nat): (Outcome<seq<LogEntry>>, seq<Request>)
    requires i >= 1
    decreases |api.entries| - PageSize * (i - 1)
  {
    var req := PageRequest(i);
    var resp := Respond(api, req);
    if Failed(resp) then (Abort(500), [req])
    else if |resp.body.items| < PageSize then (Ok(resp.body.items), [req])
    else
      Resumed(resp.body.items, [req], FetchFrom(api, i + 1))
  }

  /** The result of the whole loop, given what the earlier pages contributed
      and what the loop does from the next page on. */
  function Resumed(acc: seq<LogEntry>, sent: seq<Request>, rest: (Outcome<seq<LogEntry>>, seq<Request>)): (Outcome<seq<LogEntry>>, seq<Request>)
  {
    (if rest.0.Ok? then Ok(acc + rest.0.value) else rest.0, sent + rest.1)
  }

  lemma ResumedAssoc(acc: seq<LogEntry>, sent: seq<Request>, page: seq<LogEntry>, req: Request,
                     rest: (Outcome<seq<LogEntry>>, seq<Request>))
    ensures Resumed(acc, sent, Resumed(page, [req], rest)) == Resumed(acc + page, sent + [req], rest)
  {
    if rest.0.Ok? {
      assert acc + (page + rest.0.value) == (acc + page) + rest.0.value;
    }
    assert sent + ([req] + rest.1) == (sent + [req]) + rest.1;
  }

  /** `fetch_log_entries(owner_account_id)`, against the collection `api`; it also
      gives back the requests it sent, in order. */
  method FetchLogEntries(api: LogApi) returns (r: Outcome<seq<LogEntry>>, requests: seq<Request>)
    ensures (r, requests) == FetchFrom(api, 1)
    ensures forall k :: 0 <= k < |requests| ==> requests[k] == PageRequest(k + 1)
    ensures r.Ok? <==> forall j :: 1 <= j <= LastPage(api) ==> !PageFails(api, j)
    ensures r.Ok? ==> r.value == api.entries && |requests| == LastPage(api)
    ensures r.Abort? ==> r == Abort(500) && PageFails(api, |requests|)
  {
    FetchOutcome(api);
    var batchSize := PageSize;
    var logEntries: seq<LogEntry> := [];
    requests := [];
    var i: nat := 0;
    ghost var whole := FetchFrom(api, 1);
    assert [] + whole.1 == whole.1;
    assert whole.0.Ok? ==> [] + whole.0.value == whole.0.value;
    assert Resumed([], [], whole) == whole;
    while true
      invariant batchSize == PageSize
      invariant PageSize * i <= |api.entries|
      invariant FetchFrom(api, 1) == Resumed(logEntries, requests, FetchFrom(api, i + 1))
      decreases |api.entries| - batchSize * i
    {
      i := i + 1;
      var skip := batchSize * (i - 1);
      var top := batchSize;
      var req := Request(skip, top);
      var resp := Respond(api, req);
      ghost var before := (logEntries, requests);
      requests := requests + [req];
      if resp.status != 200 {
        return Abort(500), requests;
      }
      if !resp.body.JsonList? {
        return Abort(500), requests;
      }
      var nextLogEntries := resp.body.items;
      logEntries := logEntries + nextLogEntries;
      if |nextLogEntries| < batchSize {
        break;
      }
      ResumedAssoc(before.0, before.1, nextLogEntries, req, FetchFrom(api, i + 1));
    }
    r := Ok(logEntries);
  }

  /** Pages before the last one are full and the last one is short: page j
      (1 <= j < LastPage) holds 500 entries, page LastPage holds |entries| % 500. */
  lemma PageSizes(api: LogApi, j: nat)
    requires 1 <= j <= LastPage(api)
    ensures var w := Window(api.entries, PageRequest(j).skip, PageRequest(j).top);
            && (j < LastPage(api) ==> |w| == PageSize)
            && (j == LastPage(api) ==> |w| == |api.entries| % PageSize < PageSize)
            && w == api.entries[PageSize * (j - 1)..PageSize * (j - 1) + |w|]
  {
    var n := |api.entries|;
    assert PageSize * (n / PageSize) + n % PageSize == n;
    if j < LastPage(api) {
      assert PageSize * j <= PageSize * (n / PageSize);
    }
  }

  /** The loop from page i on, in closed form: it requests pages i, i+1, ... in
      order, every page but the last it requests succeeded, and it ends either
      at the first failing page (abort with 500) or, when none fails, at page
      LastPage with every entry from page i on. */
  ghost predicate ShapeFrom(api: LogApi, i: nat, res: (Outcome<seq<LogEntry>>, seq<Request>))
    requires 1 <= i <= LastPage(api)
  {
    var (o, reqs) := res;
    && 1 <= |reqs| <= LastPage(api) - i + 1
    && (forall k :: 0 <= k < |reqs| ==> reqs[k] == PageRequest(i + k))
    && (forall j :: i <= j < i + |reqs| - 1 ==> !PageFails(api, j))
    && (o.Ok? <==> !PageFails(api, i + |reqs| - 1))
    && (o.Ok? ==> |reqs| == LastPage(api) - i + 1 && o.value == api.entries[PageSize * (i - 1)..])
    && (o.Abort? ==> o.status == 500)
  }

  lemma {:induction false} FetchFromShape(api: LogApi, i: nat)
    requires 1 <= i <= LastPage(api)
    ensures ShapeFrom(api, i, FetchFrom(api, i))
    decreases LastPage(api) - i
  {
    PageSizes(api, i);
    if !PageFails(api, i) && i < LastPage(api) {
      FetchFromShape(api, i + 1);
      FetchFromStep(api, i);
    }
  }

  /** One more full, successful page in front of a run that has the shape. */
  lemma FetchFromStep(api: LogApi, i: nat)
    requires 1 <= i < LastPage(api) && !PageFails(api, i)
    requires ShapeFrom(api, i + 1, FetchFrom(api, i + 1))
    ensures ShapeFrom(api, i, FetchFrom(api, i))
  {
    var page := Respond(api, PageRequest(i)).body.items;
    PageSizes(api, i);
    assert FetchFrom(api, i) == Resumed(page, [PageRequest(i)], FetchFrom(api, i + 1));
    ShapeCons(api, i, page, FetchFrom(api, i + 1));
  }

  lemma ShapeCons(api: LogApi, i: nat, page: seq<LogEntry>, rest: (Outcome<seq<LogEntry>>, seq<Request>))
    requires 1 <= i < LastPage(api) && !PageFails(api, i)
    requires PageSize * (i - 1) + PageSize <= |api.entries|
    requires page == api.entries[PageSize * (i - 1)..PageSize * (i - 1) + PageSize]
    requires ShapeFrom(api, i + 1, rest)
    ensures ShapeFrom(api, i, Resumed(page, [PageRequest(i)], rest))
  {
    var (o', reqs') := rest;
    var (o, reqs) := Resumed(page, [PageRequest(i)], rest);
    assert reqs == [PageRequest(i)] + reqs';
    RequestsStep(i, reqs');
    ShapeConsPages(api, i, reqs');
    assert i + |reqs| - 1 == (i + 1) + |reqs'| - 1;
    if o'.Ok? {
      EntriesStep(api.entries, PageSize * (i - 1), page, o'.value);
    }
  }

  /** Pages i+1 .. i+|reqs'|-1 succeed, and so does page i. */
  lemma ShapeConsPages(api: LogApi, i: nat, reqs': seq<Request>)
    requires 1 <= i && !PageFails(api, i)
    requires forall j :: i + 1 <= j < i + 1 + |reqs'| - 1 ==> !PageFails(api, j)
    ensures forall j :: i <= j < i + |[PageRequest(i)] + reqs'| - 1 ==> !PageFails(api, j)
  {
  }

  /** Page i's request in front of the requests for pages i+1, i+2, ... */
  lemma RequestsStep(i: nat, reqs': seq<Request>)
    requires i >= 1
    requires forall k :: 0 <= k < |reqs'| ==> reqs'[k] == PageRequest(i + 1 + k)
    ensures forall k :: 0 <= k < |[PageRequest(i)] + reqs'| ==> ([PageRequest(i)] + reqs')[k] == PageRequest(i + k)
  {
    var reqs := [PageRequest(i)] + reqs';
    forall k | 0 <= k < |reqs| ensures reqs[k] == PageRequest(i + k) {
      if k > 0 {
        assert reqs[k] == reqs'[k - 1];
      }
    }
  }

  /** A full page followed by everything after it is everything from the page on. */
  lemma EntriesStep(entries: seq<LogEntry>, skip: nat, page: seq<LogEntry>, after: seq<LogEntry>)
    requires skip + PageSize <= |entries|
    requires page == entries[skip..skip + PageSize]
    requires after == entries[skip + PageSize..]
    ensures page + after == entries[skip..]
  {
  }

  /** `fetch_log_entries` in closed form: it requests pages 1, 2, ... with
      contiguous, non-overlapping windows; it succeeds exactly when none of
      pages 1 .. LastPage fails, and then it has sent LastPage requests and
      returns the whole collection in order; otherwise it aborts with 500 at
      the first failing page and returns no entries. */
  lemma FetchOutcome(api: LogApi)
    ensures var (o, reqs) := FetchFrom(api, 1);
            && 1 <= |reqs| <= LastPage(api)
            && (forall k :: 0 <= k < |reqs| ==> reqs[k] == PageRequest(k + 1))
            && (forall k :: 0 < k < |reqs| ==> reqs[k].skip == reqs[k - 1].skip + reqs[k - 1].top)
            && (o.Ok? <==> forall j :: 1 <= j <= LastPage(api) ==> !PageFails(api, j))
            && (o.Ok? ==> o.value == api.entries && |reqs| == LastPage(api))
            && (o.Abort? ==> o == Abort(500) && PageFails(api, |reqs|)
                             && forall j :: 1 <= j < |reqs| ==> !PageFails(api, j))
  {
    FetchFromShape(api, 1);
    var (o, reqs) := FetchFrom(api, 1);
    assert api.entries[PageSize * 0..] == api.entries;
    forall k | 0 < k < |reqs| ensures reqs[k].skip == reqs[k - 1].skip + reqs[k - 1].top {
      assert reqs[k] == PageRequest(k + 1) && reqs[k - 1] == PageRequest(k);
    }
  }

  /** A collection of exactly 1000 entries takes three requests: two full pages
      and a third, empty one that ends the loop. */
  lemma ThousandEntriesTakeThreeRequests(api: LogApi)
    requires |api.entries| == 1000 && api.statusAt == map[] && api.malformedAt == {}
    ensures FetchFrom(api, 1).0 == Ok(api.entries)
    ensures |FetchFrom(api, 1).1| == 3
    ensures Respond(api, FetchFrom(api, 1).1[2]) == Response(200, JsonList([]))
  {
    FetchOutcome(api);
  }

  /** A failing second page aborts the whole fetch: no entry of the first page is returned. */
  lemma SecondPageFailureAborts(api: LogApi)
    requires |api.entries| >= PageSize
    requires PageSize in api.statusAt && api.statusAt[PageSize] != 200
    ensures FetchFrom(api, 1).0 == Abort(500)
  {
    FetchOutcome(api);
    assert PageFails(api, 2);
  }
}
