/** The paginated fetch of registry studies for one condition term.
    The HTTP layer is a finite sequence of responses: the i-th request made
    is answered by `pages[i]`, and a request beyond the last response is a
    transport failure. */
module Fetcher {
  import opened PyValues
  import opened Trials

  /** The arguments of one fetch: search term, record budget, page size. */
  datatype Config = Config(condition: string, maxStudies: int, pageSize: int)

  /** One HTTP response: its status, its raw body text, and for a 200 the
      decoded `studies` list (`[]` when the key is absent) and `nextPageToken`
      (`JNull` when absent). */
  datatype Page = Page(status: int, text: string, studies: seq<Json>, nextPageToken: Json)

  /** The query parameters of one request; `format=json` is always sent.
      `pageToken` is `None` when the parameter is omitted. */
  datatype Request = Request(term: string, pageSize: int, pageToken: Option<Json>)

  datatype FetchError =
    | RequestFailed(status: int, excerpt: string)  // non-200 status, with the start of the body
    | Malformed(cause: PyError)                    // a study raised during extraction
    | TransportFailed                              // no response to a request

  /** What a fetch observably does: its outcome, the requests it sent and
      the number of inter-page sleeps. */
  datatype Fetched = Fetched(result: Result<seq<TrialRecord>, FetchError>, requests: seq<Request>, delays: nat)

  /** The loop's variables at the top of an iteration. */
  datatype LoopState = LoopState(records: seq<TrialRecord>, token: Json, requests: seq<Request>, delays: nat)

  const SuccessStatus := 200
  const ExcerptLength := 500

  /** `response.text[:500]` */
  function Excerpt(text: string): (e: string)
    ensures |e| == Min(ExcerptLength, |text|) && e == text[..|e|]
    ensures |text| <= ExcerptLength ==> e == text
  {
    SliceTo(text, ExcerptLength)
  }

  /** The request sent when `records` have been collected and `token` is the
      last cursor seen: the page size is capped by the remaining budget and
      the cursor is sent only when it is truthy. */
  function NextRequest(cfg: Config, records: seq<TrialRecord>, token: Json): (r: Request)
    ensures r.term == cfg.condition
    ensures r.pageSize <= cfg.pageSize && r.pageSize <= cfg.maxStudies - |records|
    ensures r.pageSize == cfg.pageSize || r.pageSize == cfg.maxStudies - |records|
    ensures |records| < cfg.maxStudies && cfg.pageSize >= 1 ==> r.pageSize >= 1
    ensures r.pageToken.Some? <==> Truthy(token)
    ensures r.pageToken.Some? ==> r.pageToken.value == token
  {
    Request(cfg.condition, Min(cfg.pageSize, cfg.maxStudies - |records|),
            if Truthy(token) then Some(token) else None)
  }

  /** The fetch loop from a given state, one iteration per recursive call.
      It only appends requests, sends one whenever the budget is not yet
      reached, and sleeps at most once per request it sends. */
  function Run(cfg: Config, pages: seq<Page>, st: LoopState): (r: Fetched)
    decreases cfg.maxStudies - |st.records|
  {
    if |st.records| >= cfg.maxStudies then
      Fetched(Ok(SliceTo(st.records, cfg.maxStudies)), st.requests, st.delays)
    else
      var requests := st.requests + [NextRequest(cfg, st.records, st.token)];
      if |st.requests| >= |pages| then
        Fetched(Err(TransportFailed), requests, st.delays)
      else
        var page := pages[|st.requests|];
        if page.status != SuccessStatus then
          Fetched(Err(RequestFailed(page.status, Excerpt(page.text))), requests, st.delays)
        else
          match ExtractAll(page.studies)
          case Err(e) => Fetched(Err(Malformed(e)), requests, st.delays)
          case Ok(extracted) =>
            var records := st.records + extracted;
            if !Truthy(page.nextPageToken) || |page.studies| == 0 then
              Fetched(Ok(SliceTo(records, cfg.maxStudies)), requests, st.delays)
            else
              Run(cfg, pages, LoopState(records, page.nextPageToken, requests, st.delays + 1))
  }

  const Start := LoopState([], JNull, [], 0)

  /** The whole fetch: the loop from no records and no cursor. */
  function Fetch(cfg: Config, pages: seq<Page>): (r: Fetched)
  {
    Run(cfg, pages, Start)
  }

  /** `fetch_trials`: pages through the responses, appending one record per
      study, until the budget is reached or a page ends the results. */
  method FetchTrials(cfg: Config, pages: seq<Page>)
    returns (result: Result<seq<TrialRecord>, FetchError>, requests: seq<Request>, delays: nat)
    ensures Fetched(result, requests, delays) == Fetch(cfg, pages)
  {
    var allRecords: seq<TrialRecord> := [];
    var nextPageToken := JNull;
    requests, delays := [], 0;
    while |allRecords| < cfg.maxStudies
      invariant Run(cfg, pages, LoopState(allRecords, nextPageToken, requests, delays)) == Fetch(cfg, pages)
      decreases cfg.maxStudies - |allRecords|
    {
      requests := requests + [NextRequest(cfg, allRecords, nextPageToken)];
      if |requests| > |pages| {
        result := Err(TransportFailed);
        return;
      }
      var response := pages[|requests| - 1];
      if response.status != SuccessStatus {
        result := Err(RequestFailed(response.status, Excerpt(response.text)));
        return;
      }
      var studies := response.studies;
      nextPageToken := response.nextPageToken;
      var appended := AppendStudies(allRecords, studies);
      if appended.Err? {
        result := Err(Malformed(appended.error));
        return;
      }
      allRecords := appended.value;
      if !Truthy(nextPageToken) || |studies| == 0 {
        break;
      }
      delays := delays + 1;
    }
    result := Ok(SliceTo(allRecords, cfg.maxStudies));
  }

  /** The per-study loop of one page: appends each study's record to
      `records` in order, and stops at the first study that raises. */
  method AppendStudies(records: seq<TrialRecord>, studies: seq<Json>)
    returns (r: Result<seq<TrialRecord>, PyError>)
    ensures r == (var extracted :- ExtractAll(studies); Ok(records + extracted))
  {
    var allRecords := records;
    var i := 0;
    while i < |studies|
      invariant 0 <= i <= |studies|
      invariant ExtractAll(studies[..i]).Ok?
      invariant allRecords == records + ExtractAll(studies[..i]).value
    {
      var record := ExtractStudy(studies[i]);
      if record.Err? {
        ExtractAllStopsAt(studies, i);
        return Err(record.error);
      }
      ExtractAllGrows(studies, i);
      allRecords := allRecords + [record.value];
      i := i + 1;
    }
    assert studies[..i] == studies;
    return Ok(allRecords);
  }

  /** The loop only appends to the requests it has sent, sends one more
      whenever the budget is not yet reached, and sleeps at most once per
      request it sends. */
  lemma {:induction false} RunOnlyAppends(cfg: Config, pages: seq<Page>, st: LoopState)
    ensures var r := Run(cfg, pages, st);
      && st.requests <= r.requests
      && (|st.records| < cfg.maxStudies ==> |r.requests| > |st.requests|)
      && st.delays <= r.delays <= st.delays + (|r.requests| - |st.requests|)
    decreases cfg.maxStudies - |st.records|
  {
    if |st.records| < cfg.maxStudies && |st.requests| < |pages| {
      var page := pages[|st.requests|];
      if page.status == SuccessStatus && ExtractAll(page.studies).Ok? {
        var records := st.records + ExtractAll(page.studies).value;
        if Truthy(page.nextPageToken) && |page.studies| > 0 {
          var requests := st.requests + [NextRequest(cfg, st.records, st.token)];
          RunOnlyAppends(cfg, pages, LoopState(records, page.nextPageToken, requests, st.delays + 1));
        }
      }
    }
  }

  /** A fetch sends a request exactly when its budget is positive. */
  lemma FetchRequestsIffBudget(cfg: Config, pages: seq<Page>)
    ensures |Fetch(cfg, pages).requests| > 0 <==> cfg.maxStudies > 0
    ensures Fetch(cfg, pages).delays <= |Fetch(cfg, pages).requests|
  {
    RunOnlyAppends(cfg, pages, Start);
  }

  /** Number of studies on the given pages. */
  function StudyCount(ps: seq<Page>): nat
  {
    if ps == [] then 0 else StudyCount(ps[..|ps| - 1]) + |ps[|ps| - 1].studies|
  }

  /** The records of successive pages, concatenated in page order. */
  function ExtractPages(ps: seq<Page>): (r: Result<seq<TrialRecord>, PyError>)
    ensures r.Ok? ==> |r.value| == StudyCount(ps)
  {
    if ps == [] then Ok([])
    else
      var earlier :- ExtractPages(ps[..|ps| - 1]);
      var records :- ExtractAll(ps[|ps| - 1].studies);
      Ok(earlier + records)
  }

  /** A page after which the loop goes on when the budget allows: a 200 whose
      studies all extract, with a truthy cursor and at least one study. */
  predicate Continues(p: Page)
  {
    p.status == SuccessStatus && ExtractAll(p.studies).Ok? && Truthy(p.nextPageToken) && |p.studies| > 0
  }

  /** The k-th request in terms of the responses alone: the page size is
      capped by the budget left after the first k pages; the first request
      carries no cursor and each later one the previous page's cursor. */
  function ExpectedRequest(cfg: Config, pages: seq<Page>, k: nat): Request
    requires k <= |pages|
  {
    Request(cfg.condition, Min(cfg.pageSize, cfg.maxStudies - StudyCount(pages[..k])),
            if k == 0 then None else Some(pages[k - 1].nextPageToken))
  }

  /** The loop state after `|st.requests|` pages that all let the loop go on. */
  ghost predicate Reachable(cfg: Config, pages: seq<Page>, st: LoopState)
  {
    var n := |st.requests|;
    && n <= |pages|
    && (forall k | 0 <= k < n :: Continues(pages[k]))
    && (forall k | 0 <= k < n ::
          StudyCount(pages[..k]) < cfg.maxStudies && st.requests[k] == ExpectedRequest(cfg, pages, k))
    && ExtractPages(pages[..n]) == Ok(st.records)
    && st.token == (if n == 0 then JNull else pages[n - 1].nextPageToken)
    && st.delays == n
  }

  /** Every request but the last followed a page that let the loop go on,
      and each request is the one the responses before it determine. */
  ghost predicate RequestsFollowPages(cfg: Config, pages: seq<Page>, requests: seq<Request>)
  {
    && (forall k | 0 <= k < |requests| - 1 :: k < |pages| && Continues(pages[k]))
    && (forall k | 0 <= k < |requests| ::
          k <= |pages| && StudyCount(pages[..k]) < cfg.maxStudies && requests[k] == ExpectedRequest(cfg, pages, k))
  }

  /** How a fetch that sent at least one request ends, in terms of its last response. */
  ghost predicate EndsAsSpecified(cfg: Config, pages: seq<Page>, f: Fetched)
    requires |f.requests| > 0
  {
    var n := |f.requests|;
    match f.result
    case Ok(rows) =>
      && n <= |pages|
      && pages[n - 1].status == SuccessStatus
      && ExtractPages(pages[..n]).Ok?
      && rows == SliceTo(ExtractPages(pages[..n]).value, cfg.maxStudies)
      && (Continues(pages[n - 1]) ==> StudyCount(pages[..n]) >= cfg.maxStudies)
      && f.delays == (if Continues(pages[n - 1]) then n else n - 1)
    case Err(RequestFailed(status, excerpt)) =>
      n <= |pages| && pages[n - 1].status == status != SuccessStatus &&
      excerpt == Excerpt(pages[n - 1].text) && f.delays == n - 1
    case Err(Malformed(e)) =>
      n <= |pages| && pages[n - 1].status == SuccessStatus &&
      ExtractAll(pages[n - 1].studies) == Err(e) && f.delays == n - 1
    case Err(TransportFailed) =>
      n == |pages| + 1 && f.delays == n - 1
  }

  /** Everything a fetch promises about its requests, outcome and sleeps,
      stated in terms of the responses. */
  ghost predicate OutcomeSpec(cfg: Config, pages: seq<Page>, f: Fetched)
  {
    && (|f.requests| == 0 <==> cfg.maxStudies <= 0)
    && (|f.requests| == 0 ==> f.result == Ok([]) && f.delays == 0)
    && RequestsFollowPages(cfg, pages, f.requests)
    && (|f.requests| > 0 ==> EndsAsSpecified(cfg, pages, f))
  }

  /** The request the loop sends next is the one the responses determine. */
  lemma NextRequestFollowsPages(cfg: Config, pages: seq<Page>, st: LoopState)
    requires Reachable(cfg, pages, st) && |st.records| < cfg.maxStudies
    ensures RequestsFollowPages(cfg, pages, st.requests + [NextRequest(cfg, st.records, st.token)])
  {
    var n := |st.requests|;
    var requests := st.requests + [NextRequest(cfg, st.records, st.token)];
    assert StudyCount(pages[..n]) == |st.records|;
    forall k | 0 <= k < |requests|
      ensures k <= |pages| && StudyCount(pages[..k]) < cfg.maxStudies && requests[k] == ExpectedRequest(cfg, pages, k)
    {
      if k < n {
        assert requests[k] == st.requests[k];
      } else {
        if n > 0 {
          assert Continues(pages[n - 1]);
        }
        assert requests[k] == NextRequest(cfg, st.records, st.token) == ExpectedRequest(cfg, pages, n);
      }
    }
    forall k | 0 <= k < |requests| - 1
      ensures k < |pages| && Continues(pages[k])
    {
    }
  }

  /** A page that lets the loop go on leads to the next reachable state. */
  lemma ContinuingPageIsReachable(cfg: Config, pages: seq<Page>, st: LoopState)
    requires Reachable(cfg, pages, st) && |st.records| < cfg.maxStudies
    requires |st.requests| < |pages| && Continues(pages[|st.requests|])
    ensures Reachable(cfg, pages, Advance(cfg, pages, st))
  {
    var n := |st.requests|;
    var next := Advance(cfg, pages, st);
    NextRequestFollowsPages(cfg, pages, st);
    assert pages[..n + 1][..n] == pages[..n];
    assert ExtractPages(pages[..n + 1]) == Ok(next.records);
    forall k | 0 <= k < n + 1
      ensures Continues(pages[k])
    {
    }
  }

  /** The state the loop moves to after a page that lets it go on. */
  function Advance(cfg: Config, pages: seq<Page>, st: LoopState): LoopState
    requires |st.requests| < |pages| && ExtractAll(pages[|st.requests|].studies).Ok?
  {
    var page := pages[|st.requests|];
    LoopState(st.records + ExtractAll(page.studies).value, page.nextPageToken,
              st.requests + [NextRequest(cfg, st.records, st.token)], st.delays + 1)
  }

  /** The loop ends on the budget with the records collected so far. */
  lemma BudgetReachedMeetsSpec(cfg: Config, pages: seq<Page>, st: LoopState)
    requires Reachable(cfg, pages, st) && |st.records| >= cfg.maxStudies
    ensures OutcomeSpec(cfg, pages, Run(cfg, pages, st))
  {
    var n := |st.requests|;
    assert pages[..0] == [];
    assert StudyCount(pages[..n]) == |st.records|;
    if n > 0 {
      assert StudyCount(pages[..0]) < cfg.maxStudies;
    }
  }

  /** The loop ends on the request it sends now: a missing response, a
      non-200 status, a study that raises, or a page that ends the results. */
  lemma LastRequestMeetsSpec(cfg: Config, pages: seq<Page>, st: LoopState)
    requires Reachable(cfg, pages, st) && |st.records| < cfg.maxStudies
    requires !(|st.requests| < |pages| && Continues(pages[|st.requests|]))
    ensures OutcomeSpec(cfg, pages, Run(cfg, pages, st))
  {
    var n := |st.requests|;
    assert pages[..0] == [];
    NextRequestFollowsPages(cfg, pages, st);
    if n < |pages| && pages[n].status == SuccessStatus && ExtractAll(pages[n].studies).Ok? {
      assert pages[..n + 1][..n] == pages[..n];
    }
  }

  /** After a page that lets it go on, the loop continues from `Advance`. */
  lemma ContinuingPageAdvances(cfg: Config, pages: seq<Page>, st: LoopState)
    requires |st.records| < cfg.maxStudies
    requires |st.requests| < |pages| && Continues(pages[|st.requests|])
    ensures Run(cfg, pages, st) == Run(cfg, pages, Advance(cfg, pages, st))
  {
  }

  lemma {:induction false} RunMeetsOutcomeSpec(cfg: Config, pages: seq<Page>, st: LoopState)
    requires Reachable(cfg, pages, st)
    ensures OutcomeSpec(cfg, pages, Run(cfg, pages, st))
    decreases cfg.maxStudies - |st.records|
  {
    var n := |st.requests|;
    if |st.records| >= cfg.maxStudies {
      BudgetReachedMeetsSpec(cfg, pages, st);
    } else if n < |pages| && Continues(pages[n]) {
      ContinuingPageIsReachable(cfg, pages, st);
      ContinuingPageAdvances(cfg, pages, st);
      RunMeetsOutcomeSpec(cfg, pages, Advance(cfg, pages, st));
    } else {
      LastRequestMeetsSpec(cfg, pages, st);
    }
  }

  /** The fetch meets its outcome specification from the start. */
  lemma FetchMeetsOutcomeSpec(cfg: Config, pages: seq<Page>)
    ensures OutcomeSpec(cfg, pages, Fetch(cfg, pages))
  {
    assert pages[..0] == [];
    RunMeetsOutcomeSpec(cfg, pages, Start);
  }

  /** The table never holds more than `max_studies` rows, and it holds all
      the records fetched when there are fewer. */
  lemma FetchLengthBound(cfg: Config, pages: seq<Page>)
    ensures var f := Fetch(cfg, pages);
      f.result.Ok? ==>
        |f.result.value| <= Max(0, cfg.maxStudies) &&
        |f.result.value| == Min(Max(0, cfg.maxStudies), StudyCount(pages[..Min(|f.requests|, |pages|)]))
  {
    FetchMeetsOutcomeSpec(cfg, pages);
    assert pages[..0] == [];
  }

  /** The rows are the first records of the requested pages' records
      concatenated in page order. */
  lemma FetchKeepsPageOrder(cfg: Config, pages: seq<Page>)
    ensures var f := Fetch(cfg, pages);
      f.result.Ok? ==>
        |f.requests| <= |pages| &&
        ExtractPages(pages[..|f.requests|]).Ok? &&
        f.result.value <= ExtractPages(pages[..|f.requests|]).value
  {
    FetchMeetsOutcomeSpec(cfg, pages);
    assert pages[..0] == [];
  }

  /** Each request carries the search term and a page size capped by the
      remaining budget, which is at least 1 when the page size is; the first
      request has no cursor and each later one the previous page's truthy cursor. */
  lemma FetchRequestProtocol(cfg: Config, pages: seq<Page>)
    ensures var requests := Fetch(cfg, pages).requests;
      && (forall k | 0 <= k < |requests| ::
            k <= |pages| && requests[k].term == cfg.condition &&
            StudyCount(pages[..k]) < cfg.maxStudies &&
            requests[k].pageSize == Min(cfg.pageSize, cfg.maxStudies - StudyCount(pages[..k])))
      && (cfg.pageSize >= 1 ==> forall k | 0 <= k < |requests| :: requests[k].pageSize >= 1)
      && (|requests| > 0 ==> requests[0].pageToken == None)
      && (forall k | 1 <= k < |requests| ::
            k - 1 < |pages| && Truthy(pages[k - 1].nextPageToken) && requests[k].pageToken == Some(pages[k - 1].nextPageToken))
  {
    FetchMeetsOutcomeSpec(cfg, pages);
    var requests := Fetch(cfg, pages).requests;
    forall k | 1 <= k < |requests|
      ensures k - 1 < |pages| && Truthy(pages[k - 1].nextPageToken) && requests[k].pageToken == Some(pages[k - 1].nextPageToken)
    {
      assert Continues(pages[k - 1]);
    }
  }

  /** A requested page whose cursor is missing or empty, or whose study list
      is empty, is the last page requested. */
  lemma FetchStopsAtFinalPage(cfg: Config, pages: seq<Page>)
    ensures var requests := Fetch(cfg, pages).requests;
      forall k | 0 <= k < |requests| && k < |pages| ::
        !Truthy(pages[k].nextPageToken) || pages[k].studies == [] ==> k == |requests| - 1
  {
    FetchMeetsOutcomeSpec(cfg, pages);
  }

  /** With a positive budget, a first response without a cursor means
      exactly one request. */
  lemma {:induction false} FirstPageWithoutCursorIsOnlyRequest(cfg: Config, pages: seq<Page>)
    requires cfg.maxStudies > 0 && |pages| > 0 && !Truthy(pages[0].nextPageToken)
    ensures |Fetch(cfg, pages).requests| == 1
  {
    FetchMeetsOutcomeSpec(cfg, pages);
  }

  /** A non-200 response ends the fetch with an error holding its status and
      the first 500 characters of its body, whatever earlier pages returned;
      a table is returned only when every requested page was a 200. */
  lemma FetchFailsWholeOnBadStatus(cfg: Config, pages: seq<Page>)
    ensures var f := Fetch(cfg, pages);
      && (forall k | 0 <= k < |f.requests| && k < |pages| && pages[k].status != SuccessStatus ::
            k == |f.requests| - 1 && f.result == Err(RequestFailed(pages[k].status, Excerpt(pages[k].text))))
      && (f.result.Ok? ==> forall k | 0 <= k < |f.requests| :: k < |pages| && pages[k].status == SuccessStatus)
  {
    FetchMeetsOutcomeSpec(cfg, pages);
  }

  /** One sleep separates each two consecutive requests; one more follows
      a last page that let the loop go on when the budget then ended it,
      and no other fetch sleeps after its last request. */
  lemma FetchSleepsBetweenPages(cfg: Config, pages: seq<Page>)
    ensures var f := Fetch(cfg, pages);
      |f.requests| > 0 ==>
        f.delays == (if f.result.Ok? && |f.requests| <= |pages| && Continues(pages[|f.requests| - 1])
                     then |f.requests| else |f.requests| - 1)
    ensures var f := Fetch(cfg, pages);
      f.delays == |f.requests| && |f.requests| > 0 ==> StudyCount(pages[..|f.requests|]) >= cfg.maxStudies
  {
    FetchMeetsOutcomeSpec(cfg, pages);
  }

  /** Budget 3, page size 1000, one response with 3 studies and no cursor:
      one request for 3 studies, 3 rows, no sleep. */
  lemma SinglePageScenario(pages: seq<Page>)
    requires |pages| >= 1
    requires pages[0].status == SuccessStatus && |pages[0].studies| == 3
    requires ExtractAll(pages[0].studies).Ok? && pages[0].nextPageToken == JNull
    ensures var f := Fetch(Config("ALS", 3, 1000), pages);
      && f.requests == [Request("ALS", 3, None)]
      && f.result == Ok(ExtractAll(pages[0].studies).value)
      && |f.result.value| == 3
      && f.delays == 0
  {
    var cfg := Config("ALS", 3, 1000);
    FirstPageWithoutCursorIsOnlyRequest(cfg, pages);
    FetchMeetsOutcomeSpec(cfg, pages);
    assert pages[..0] == [];
    OnePage(pages);
    var f := Fetch(cfg, pages);
    assert f.result.Ok?;
    var v := ExtractAll(pages[0].studies).value;
    assert v[..3] == v;
  }

  /** Budget 150, page size 100, a first page of 100 studies with cursor "X"
      and a second of 60 without one: two requests (for 100, then 50 studies),
      one sleep, and the 160 records cut to 150 rows. */
  lemma TwoPageScenario(cond: string, pages: seq<Page>)
    requires |pages| >= 2
    requires pages[0].status == SuccessStatus && |pages[0].studies| == 100 && ExtractAll(pages[0].studies).Ok?
    requires pages[0].nextPageToken == JStr("X")
    requires pages[1].status == SuccessStatus && |pages[1].studies| == 60 && ExtractAll(pages[1].studies).Ok?
    requires pages[1].nextPageToken == JNull
    ensures var f := Fetch(Config(cond, 150, 100), pages);
      && f.requests == [Request(cond, 100, None), Request(cond, 50, Some(JStr("X")))]
      && f.result.Ok?
      && |f.result.value| == 150
      && f.result.value == (ExtractAll(pages[0].studies).value + ExtractAll(pages[1].studies).value)[..150]
      && f.delays == 1
  {
    var cfg := Config(cond, 150, 100);
    var first := ExtractAll(pages[0].studies).value;
    var second := ExtractAll(pages[1].studies).value;
    assert Continues(pages[0]);
    ContinuingPageAdvances(cfg, pages, Start);
    var st := Advance(cfg, pages, Start);
    assert st == LoopState(first, JStr("X"), [Request(cond, 100, None)], 1);
    assert |st.records| == 100;
    assert Run(cfg, pages, st) ==
      Fetched(Ok(SliceTo(first + second, 150)), [Request(cond, 100, None), Request(cond, 50, Some(JStr("X")))], 1);
  }

  lemma OnePage(pages: seq<Page>)
    requires |pages| >= 1 && ExtractAll(pages[0].studies).Ok?
    ensures ExtractPages(pages[..1]) == ExtractAll(pages[0].studies)
  {
    var ps := pages[..1];
    assert ps[..0] == [];
    assert ExtractPages(ps[..0]) == Ok([]);
    assert ps[0] == pages[0];
    var v := ExtractAll(pages[0].studies).value;
    assert [] + v == v;
  }
}
