/** The lifecycle of an Intercom reporting export: polling the job until it
    is ready, downloading the payload, and choosing the decoder from the
    payload's first bytes. HTTP replies, clock readings and the decoders are
    inputs; the revisions share the poll loop and the decoder dispatch and
    differ in the download attempts. */
module ExportJob {
  import opened Text
  import opened Rows

  /** `Response.raise_for_status()` raises for client and server errors
      only; any other status passes silently. */
  predicate RaisesForStatus(code: int) {
    400 <= code < 600
  }

  /** One poll reply, with the number of seconds since polling began as read
      when the reply is judged (`time.time() - start`). */
  datatype Poll = Poll(code: int, body: Row, elapsed: real)

  /** `data.get("status") or data.get("state") or ""`. */
  function JobStatus(body: Row): string {
    FirstTruthy(body, ["status", "state"], "")
  }

  const SuccessWords: seq<string> := ["complete", "completed", "success"]
  const FailureWords: seq<string> := ["failed", "error"]

  predicate HasDownloadUrl(body: Row) {
    Truthy(Get(body, "download_url"))
  }

  predicate IsSuccess(body: Row) {
    JobStatus(body) != "" && Lower(JobStatus(body)) in SuccessWords
  }

  predicate IsFailure(body: Row) {
    JobStatus(body) != "" && Lower(JobStatus(body)) in FailureWords
  }

  /** What one pass of the poll loop does with a reply. */
  datatype Step = HttpFailure(code: int) | Ready | JobFailed | TimedOut | Wait

  /** The body of the `while True` loop of `poll_export`: a 4xx/5xx reply
      raises; then a download URL wins over every status; then the success
      words return, the failure words raise, and only then is the time
      limit checked. */
  function PollStep(p: Poll, maxWait: int): (s: Step)
    ensures s.HttpFailure? <==> p.code != 200 && RaisesForStatus(p.code)
    ensures !RaisesForStatus(p.code) && HasDownloadUrl(p.body) ==> s == Ready
    ensures s == Ready ==> !RaisesForStatus(p.code) && (HasDownloadUrl(p.body) || IsSuccess(p.body))
    ensures s == JobFailed <==> !RaisesForStatus(p.code) && !HasDownloadUrl(p.body) && !IsSuccess(p.body) && IsFailure(p.body)
    ensures s == TimedOut ==> p.elapsed > maxWait as real && !IsSuccess(p.body) && !IsFailure(p.body)
    ensures s == Wait <==>
      !RaisesForStatus(p.code) && !HasDownloadUrl(p.body) && !IsSuccess(p.body) && !IsFailure(p.body)
      && p.elapsed <= maxWait as real
  {
    if p.code != 200 && RaisesForStatus(p.code) then HttpFailure(p.code)
    else if HasDownloadUrl(p.body) then Ready
    else if IsSuccess(p.body) then Ready
    else if IsFailure(p.body) then JobFailed
    else if p.elapsed > maxWait as real then TimedOut
    else Wait
  }

  /** `delay = min(60, delay * 2)`. */
  function NextDelay(delay: int): (d: int)
    ensures d == 60 || d == delay * 2
    ensures d <= 60
  {
    if delay * 2 < 60 then delay * 2 else 60
  }

  /** The delay slept after the `k`-th unfinished poll. */
  function Backoff(k: nat): (d: int)
    ensures 5 <= d <= 60
  {
    if k == 0 then 5 else NextDelay(Backoff(k - 1))
  }

  /** The delays run 5, 10, 20, 40 and then stay at 60. */
  lemma {:induction false} BackoffValues(k: nat)
    ensures 5 <= Backoff(k) <= 60
    ensures k < 4 ==> Backoff(k) == 5 * Pow2(k)
    ensures k >= 4 ==> Backoff(k) == 60
  {
    if k > 0 {
      BackoffValues(k - 1);
    }
  }

  function Pow2(k: nat): (p: nat)
    ensures p >= 1
  {
    if k == 0 then 1 else 2 * Pow2(k - 1)
  }

  /** How `poll_export` ends: the job body, an exception, or the end of
      the replies this model was given. */
  datatype PollResult = Returned(body: Row) | HttpError(code: int) | ExportFailed | Timeout | NoMoreReplies

  /** How the poll loop ends on a step other than `Wait`. */
  function Ended(s: Step, p: Poll): (r: PollResult)
    requires s != Wait
    ensures r.HttpError? <==> s.HttpFailure?
    ensures r.Returned? <==> s == Ready
  {
    match s
    case HttpFailure(c) => HttpError(c)
    case Ready => Returned(p.body)
    case JobFailed => ExportFailed
    case TimedOut => Timeout
  }

  /** The poll loop over a sequence of replies, with `delay` the sleep that
      the next unfinished poll takes; the second component lists the
      sleeps taken. */
  function PollRun(polls: seq<Poll>, maxWait: int, delay: int): (r: (PollResult, seq<int>))
    ensures |r.1| <= |polls|
    ensures r.0 == NoMoreReplies <==> |r.1| == |polls|
    ensures r.1 != [] ==> r.1[0] == delay
  {
    if polls == [] then (NoMoreReplies, [])
    else
      var s := PollStep(polls[0], maxWait);
      if s != Wait then (Ended(s, polls[0]), [])
      else
        var rest := PollRun(polls[1..], maxWait, NextDelay(delay));
        (rest.0, [delay] + rest.1)
  }

  /** `poll_export`: polls until the job is ready, has failed or has run out
      of time, sleeping between polls with a doubling delay. */
  method PollExport(polls: seq<Poll>, maxWait: int) returns (result: PollResult, sleeps: seq<int>)
    ensures (result, sleeps) == PollRun(polls, maxWait, 5)
  {
    var delay := 5;
    sleeps := [];
    var i := 0;
    assert polls[0..] == polls;
    while i < |polls|
      invariant 0 <= i <= |polls|
      invariant PollRun(polls, maxWait, 5).0 == PollRun(polls[i..], maxWait, delay).0
      invariant PollRun(polls, maxWait, 5).1 == sleeps + PollRun(polls[i..], maxWait, delay).1
    {
      var p := polls[i];
      PollRunStep(polls, i, maxWait, delay);
      var s := PollStep(p, maxWait);
      if s != Wait {
        assert sleeps + [] == sleeps;
        return Ended(s, p), sleeps;
      }
      sleeps := sleeps + [delay];
      delay := NextDelay(delay);
      i := i + 1;
    }
    assert polls[i..] == [] && sleeps + [] == sleeps;
    result := NoMoreReplies;
  }

  /** One pass of the poll loop, as `PollRun` takes it. */
  lemma PollRunStep(polls: seq<Poll>, i: nat, maxWait: int, delay: int)
    requires i < |polls|
    ensures var s := PollStep(polls[i], maxWait);
      var r := PollRun(polls[i..], maxWait, delay);
      (s != Wait ==> r == (Ended(s, polls[i]), []))
      && (s == Wait ==>
            r.0 == PollRun(polls[i + 1..], maxWait, NextDelay(delay)).0
            && r.1 == [delay] + PollRun(polls[i + 1..], maxWait, NextDelay(delay)).1)
  {
    assert polls[i..][0] == polls[i] && polls[i..][1..] == polls[i + 1..];
  }

  /** The `j`-th sleep of a run that starts with the `k`-th delay is the
      `(k + j)`-th delay, so the sleeps of `poll_export` run 5, 10, 20, 40,
      60, 60, ... and always lie between 5 and 60 seconds. */
  lemma {:induction false} PollSleepsFollowBackoff(polls: seq<Poll>, maxWait: int, k: nat)
    ensures var sleeps := PollRun(polls, maxWait, Backoff(k)).1;
      |sleeps| <= |polls| &&
      forall j :: 0 <= j < |sleeps| ==> sleeps[j] == Backoff(k + j) && 5 <= sleeps[j] <= 60
  {
    if polls != [] && PollStep(polls[0], maxWait) == Wait {
      assert Backoff(k + 1) == NextDelay(Backoff(k));
      var sleeps := PollRun(polls, maxWait, Backoff(k)).1;
      var rest := PollRun(polls[1..], maxWait, Backoff(k + 1)).1;
      PollRunWait(polls, maxWait, Backoff(k));
      assert sleeps == [Backoff(k)] + rest;
      PollSleepsFollowBackoff(polls[1..], maxWait, k + 1);
      BackoffTail(sleeps, rest, k);
    } else {
      PollRunStop(polls, maxWait, Backoff(k));
    }
  }

  lemma PollRunWait(polls: seq<Poll>, maxWait: int, delay: int)
    requires polls != [] && PollStep(polls[0], maxWait) == Wait
    ensures PollRun(polls, maxWait, delay).1 == [delay] + PollRun(polls[1..], maxWait, NextDelay(delay)).1
  {
  }

  lemma PollRunStop(polls: seq<Poll>, maxWait: int, delay: int)
    requires polls == [] || PollStep(polls[0], maxWait) != Wait
    ensures PollRun(polls, maxWait, delay).1 == []
  {
  }

  /** Prefixing the `k`-th delay to sleeps that follow the backoff from
      `k + 1` on gives sleeps that follow it from `k` on. */
  lemma BackoffTail(sleeps: seq<int>, rest: seq<int>, k: nat)
    requires sleeps == [Backoff(k)] + rest && 5 <= Backoff(k) <= 60
    requires forall j :: 0 <= j < |rest| ==> rest[j] == Backoff(k + 1 + j) && 5 <= rest[j] <= 60
    ensures forall j :: 0 <= j < |sleeps| ==> sleeps[j] == Backoff(k + j) && 5 <= sleeps[j] <= 60
  {
    forall j | 0 <= j < |sleeps| ensures sleeps[j] == Backoff(k + j) && 5 <= sleeps[j] <= 60 {
      if j > 0 {
        assert sleeps[j] == rest[j - 1];
      }
    }
  }

  /** The loop returns only a body with a download URL or a success word. */
  lemma {:induction false} PollReturnsReadyBody(polls: seq<Poll>, maxWait: int, delay: int)
    ensures PollRun(polls, maxWait, delay).0.Returned? ==>
      var b := PollRun(polls, maxWait, delay).0.body;
      HasDownloadUrl(b) || IsSuccess(b)
  {
    if polls != [] && PollStep(polls[0], maxWait) == Wait {
      PollReturnsReadyBody(polls[1..], maxWait, NextDelay(delay));
    }
  }

  /** Replies after a decisive one are never read. */
  lemma DecisiveReplyEndsPolling(polls: seq<Poll>, maxWait: int, delay: int)
    requires polls != [] && PollStep(polls[0], maxWait) != Wait
    ensures PollRun(polls, maxWait, delay) == PollRun(polls[..1], maxWait, delay)
    ensures PollRun(polls, maxWait, delay).1 == []
  {
    assert polls[..1][0] == polls[0];
  }

  /** A reply carrying a download URL ends polling successfully even when
      its status says the job failed or the time is up. */
  lemma DownloadUrlWins(polls: seq<Poll>, maxWait: int, delay: int)
    requires polls != [] && !RaisesForStatus(polls[0].code) && HasDownloadUrl(polls[0].body)
    ensures PollRun(polls, maxWait, delay) == (Returned(polls[0].body), [])
  {
  }

  /** The time limit is judged only for a reply that neither succeeds nor
      fails: a success or failure word decides first, however late. */
  lemma StatusBeforeTimeout(p: Poll, maxWait: int)
    requires !RaisesForStatus(p.code) && !HasDownloadUrl(p.body)
    ensures IsSuccess(p.body) ==> PollStep(p, maxWait) == Ready
    ensures !IsSuccess(p.body) && IsFailure(p.body) ==> PollStep(p, maxWait) == JobFailed
  {
  }

  /** The three requests `download_export` can make. */
  datatype Attempt = UrlWithAuth | UrlWithoutAuth | FallbackEndpoint

  type Byte = b: int | 0 <= b < 256

  /** What a request gives: a response, or an exception raised by
      `requests.get` (connection failure, timeout). */
  datatype Reply = Response(code: int, content: seq<Byte>) | RequestFailed

  predicate IsOk(r: Reply) {
    r.Response? && r.code == 200
  }

  /** How `download_export` ends: the payload, an `HTTPError` from
      `raise_for_status`, a `RuntimeError`, an exception escaping
      `requests.get`, or a plain return of `None`. */
  datatype Download = Payload(bytes: seq<Byte>) | DownloadHttpError(code: int) | DownloadFailed | RequestError | NoPayload

  /** Every attempt `download_export` may make, in the order it makes them. */
  function SyncOrder(hasUrl: bool): seq<Attempt> {
    if hasUrl then [UrlWithAuth, UrlWithoutAuth, FallbackEndpoint] else [FallbackEndpoint]
  }

  /** The attempts made, in order: the download URL with and without the
      token when the job names one, then the fallback endpoint; the first
      200 reply stops the sequence. */
  function SyncDownloadAttempts(hasUrl: bool, fetch: Attempt -> Reply): (tried: seq<Attempt>)
    ensures tried != []
    ensures hasUrl ==> tried <= [UrlWithAuth, UrlWithoutAuth, FallbackEndpoint]
    ensures !hasUrl ==> tried == [FallbackEndpoint]
    ensures forall k :: 0 <= k < |tried| - 1 ==> !IsOk(fetch(tried[k]))
    ensures tried <= SyncOrder(hasUrl)
    ensures IsOk(fetch(tried[|tried| - 1])) || tried == SyncOrder(hasUrl)
  {
    if hasUrl && IsOk(fetch(UrlWithAuth)) then [UrlWithAuth]
    else if hasUrl && IsOk(fetch(UrlWithoutAuth)) then [UrlWithAuth, UrlWithoutAuth]
    else if hasUrl then [UrlWithAuth, UrlWithoutAuth, FallbackEndpoint]
    else [FallbackEndpoint]
  }

  /** `download_export` of the sync script: the content of the last attempt
      when it is a 200 reply, otherwise `RuntimeError`. Failed requests are
      caught by `try_get` and count as failed attempts. */
  function SyncDownload(hasUrl: bool, fetch: Attempt -> Reply): (r: Download)
    ensures var tried := SyncDownloadAttempts(hasUrl, fetch);
      var last := fetch(tried[|tried| - 1]);
      (r.Payload? <==> IsOk(last)) && (r.Payload? ==> r.bytes == last.content)
    ensures r.Payload? || r == DownloadFailed
  {
    var tried := SyncDownloadAttempts(hasUrl, fetch);
    var last := fetch(tried[|tried| - 1]);
    if IsOk(last) then Payload(last.content) else DownloadFailed
  }

  /** `download_export` of the sheet export: as the sync script, except that
      a final non-200 response is first given to `raise_for_status`. */
  function SheetDownload(hasUrl: bool, fetch: Attempt -> Reply): (r: Download)
    ensures var tried := SyncDownloadAttempts(hasUrl, fetch);
      var last := fetch(tried[|tried| - 1]);
      (r.Payload? <==> IsOk(last)) && (r.Payload? ==> r.bytes == last.content)
      && (r.DownloadHttpError? <==> last.Response? && RaisesForStatus(last.code))
    ensures r.Payload? || r.DownloadHttpError? || r == DownloadFailed
  {
    var tried := SyncDownloadAttempts(hasUrl, fetch);
    var last := fetch(tried[|tried| - 1]);
    if IsOk(last) then Payload(last.content)
    else if last.Response? && RaisesForStatus(last.code) then DownloadHttpError(last.code)
    else DownloadFailed
  }

  /** A payload comes back exactly when some attempt made gets a 200 reply,
      and it is that reply's content; with a URL the fallback endpoint is
      asked only after both URL attempts failed. */
  lemma {:induction false} DownloadTakesFirstSuccess(hasUrl: bool, fetch: Attempt -> Reply)
    ensures var tried := SyncDownloadAttempts(hasUrl, fetch);
      SyncDownload(hasUrl, fetch).Payload? <==> exists k :: 0 <= k < |tried| && IsOk(fetch(tried[k]))
    ensures hasUrl && IsOk(fetch(UrlWithAuth)) ==>
      SyncDownload(hasUrl, fetch) == Payload(fetch(UrlWithAuth).content)
    ensures FallbackEndpoint in SyncDownloadAttempts(hasUrl, fetch) ==>
      !hasUrl || (!IsOk(fetch(UrlWithAuth)) && !IsOk(fetch(UrlWithoutAuth)))
    ensures var order := SyncOrder(hasUrl);
      SyncDownload(hasUrl, fetch).Payload? <==> exists k :: 0 <= k < |order| && IsOk(fetch(order[k]))
  {
    var tried := SyncDownloadAttempts(hasUrl, fetch);
    var order := SyncOrder(hasUrl);
    if exists k :: 0 <= k < |tried| && IsOk(fetch(tried[k])) {
      var k :| 0 <= k < |tried| && IsOk(fetch(tried[k]));
      assert k == |tried| - 1;
    }
    if exists k :: 0 <= k < |order| && IsOk(fetch(order[k])) {
      var k :| 0 <= k < |order| && IsOk(fetch(order[k]));
      assert IsOk(fetch(tried[|tried| - 1])) || tried == order;
    }
  }

  /** When neither URL attempt gets a 200 reply, the sync script's download
      ends as if the job had named no URL. */
  lemma SyncUrlsThenFallback(fetch: Attempt -> Reply)
    ensures !IsOk(fetch(UrlWithAuth)) && !IsOk(fetch(UrlWithoutAuth)) ==>
      SyncDownload(true, fetch) == SyncDownload(false, fetch)
    ensures IsOk(fetch(UrlWithoutAuth)) && !IsOk(fetch(UrlWithAuth)) ==>
      SyncDownload(true, fetch) == Payload(fetch(UrlWithoutAuth).content)
  {
  }

  /** The sync and sheet revisions return the same payloads and differ only
      in the exception raised when every attempt fails. */
  lemma SheetDownloadAgrees(hasUrl: bool, fetch: Attempt -> Reply)
    ensures SyncDownload(hasUrl, fetch).Payload? ==> SheetDownload(hasUrl, fetch) == SyncDownload(hasUrl, fetch)
    ensures !SyncDownload(hasUrl, fetch).Payload? ==> !SheetDownload(hasUrl, fetch).Payload?
  {
  }

  /** The attempts of the revision: the URL with the token, then the
      fallback endpoint. A failed request is not caught and ends the
      download. */
  function RevisionDownloadAttempts(hasUrl: bool, fetch: Attempt -> Reply): (tried: seq<Attempt>)
    ensures tried == [FallbackEndpoint] || tried == [UrlWithAuth] || tried == [UrlWithAuth, FallbackEndpoint]
    ensures !hasUrl ==> tried == [FallbackEndpoint]
    ensures forall k :: 0 <= k < |tried| - 1 ==> fetch(tried[k]).Response? && !IsOk(fetch(tried[k]))
    ensures hasUrl && tried == [UrlWithAuth] ==> IsOk(fetch(UrlWithAuth)) || fetch(UrlWithAuth).RequestFailed?
    ensures hasUrl && fetch(UrlWithAuth).Response? && !IsOk(fetch(UrlWithAuth)) ==>
      tried == [UrlWithAuth, FallbackEndpoint]
  {
    if hasUrl && (IsOk(fetch(UrlWithAuth)) || fetch(UrlWithAuth).RequestFailed?) then [UrlWithAuth]
    else if hasUrl then [UrlWithAuth, FallbackEndpoint]
    else [FallbackEndpoint]
  }

  /** `download_export` of the revision as written: after the last attempt
      it calls `raise_for_status` and falls off the end of the function, so
      a final reply that is neither 200 nor 4xx/5xx (204, or a 3xx that was
      not followed) makes it return `None`. */
  function RevisionDownload(hasUrl: bool, fetch: Attempt -> Reply): (r: Download)
    ensures var tried := RevisionDownloadAttempts(hasUrl, fetch);
      var last := fetch(tried[|tried| - 1]);
      (r.Payload? <==> IsOk(last)) && (r.Payload? ==> r.bytes == last.content)
      && (r == RequestError <==> last.RequestFailed?)
      && (r.DownloadHttpError? <==> last.Response? && RaisesForStatus(last.code))
    ensures r != DownloadFailed
  {
    var tried := RevisionDownloadAttempts(hasUrl, fetch);
    var last := fetch(tried[|tried| - 1]);
    if last.RequestFailed? then RequestError
    else if IsOk(last) then Payload(last.content)
    else if RaisesForStatus(last.code) then DownloadHttpError(last.code)
    else NoPayload
  }

  /** With a download URL, the revision's outcome is the URL's when it
      answers 200 or the request fails; any other response leaves the
      outcome to the fallback endpoint, exactly as if the job named no
      URL. */
  lemma RevisionUrlThenFallback(fetch: Attempt -> Reply)
    ensures IsOk(fetch(UrlWithAuth)) ==> RevisionDownload(true, fetch) == Payload(fetch(UrlWithAuth).content)
    ensures fetch(UrlWithAuth).RequestFailed? ==> RevisionDownload(true, fetch) == RequestError
    ensures fetch(UrlWithAuth).Response? && !IsOk(fetch(UrlWithAuth)) ==>
      RevisionDownload(true, fetch) == RevisionDownload(false, fetch)
  {
  }

  /** The revision's download returns no payload and raises nothing when
      the fallback endpoint answers 204. */
  lemma RevisionDownloadReturnsNothing(fetch: Attempt -> Reply)
    requires fetch(FallbackEndpoint).Response? && fetch(FallbackEndpoint).code == 204
    ensures RevisionDownload(false, fetch) == NoPayload
  {
  }

  /** `download_export` of the revision as evidently intended: a final
      failure always raises, so a caller never receives `None`. */
  function CorrectedRevisionDownload(hasUrl: bool, fetch: Attempt -> Reply): (r: Download)
    ensures var tried := RevisionDownloadAttempts(hasUrl, fetch);
      var last := fetch(tried[|tried| - 1]);
      (r.Payload? <==> IsOk(last)) && (r.Payload? ==> r.bytes == last.content)
    ensures r != NoPayload
    ensures RevisionDownload(hasUrl, fetch) != NoPayload ==> r == RevisionDownload(hasUrl, fetch)
  {
    var tried := RevisionDownloadAttempts(hasUrl, fetch);
    var last := fetch(tried[|tried| - 1]);
    if last.RequestFailed? then RequestError
    else if IsOk(last) then Payload(last.content)
    else if RaisesForStatus(last.code) then DownloadHttpError(last.code)
    else DownloadFailed
  }

  /** The gzip member header's ID1 and ID2 (RFC 1952, section 2.3.1). */
  predicate GzipMagic(b: seq<Byte>) {
    |b| >= 2 && b[0] == 0x1f && b[1] == 0x8b
  }

  /** The ZIP local file header signature "PK\x03\x04" (PKWARE APPNOTE,
      section 4.3.7). */
  predicate ZipMagic(b: seq<Byte>) {
    |b| >= 4 && b[0] == 0x50 && b[1] == 0x4b && b[2] == 0x03 && b[3] == 0x04
  }

  /** `parse_export_bytes`: gzip when the first two bytes say so and the
      decoder succeeds, then zip likewise, then plain CSV text. A decoder
      gives `None` where it raises; the gzip and zip failures are swallowed
      and the CSV failure escapes (`None` here). */
  function ParseExportBytes(content: seq<Byte>, gunzip: seq<Byte> -> Option<seq<Row>>,
                            unzip: seq<Byte> -> Option<seq<Row>>, csv: seq<Byte> -> Option<seq<Row>>): (r: Option<seq<Row>>)
    ensures GzipMagic(content) && gunzip(content).Some? ==> r == gunzip(content)
    ensures ZipMagic(content) && unzip(content).Some? ==> r == unzip(content)
    ensures !GzipMagic(content) && !ZipMagic(content) ==> r == csv(content)
  {
    if GzipMagic(content) && gunzip(content).Some? then gunzip(content)
    else if ZipMagic(content) && unzip(content).Some? then unzip(content)
    else csv(content)
  }

  /** The two signatures never both match, and a gzip payload the decoder
      rejects is read as CSV text rather than tried as zip. */
  lemma MagicDispatch(content: seq<Byte>, gunzip: seq<Byte> -> Option<seq<Row>>,
                      unzip: seq<Byte> -> Option<seq<Row>>, csv: seq<Byte> -> Option<seq<Row>>)
    ensures !(GzipMagic(content) && ZipMagic(content))
    ensures GzipMagic(content) && gunzip(content).None? ==> ParseExportBytes(content, gunzip, unzip, csv) == csv(content)
    ensures ZipMagic(content) && unzip(content).None? ==> ParseExportBytes(content, gunzip, unzip, csv) == csv(content)
  {
  }
}
