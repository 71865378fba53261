/** The backfill script: each `qa_metrics` row names a conversation, the
    conversation is fetched from Intercom, its creation date, tag names,
    workspace and "360 queue" classification are extracted, and the row is
    updated with them. HTTP replies and the outcome of each database update
    are inputs. */
module Backfill {
  import opened Text
  import opened Calendar
  import opened Tags
  import opened ConversationThread

  // ---------------------------------------------------------------------
  // fetch_conversation_from_intercom
  // ---------------------------------------------------------------------

  /** What the HTTP request for one conversation came back with:
      `Unreachable` when `requests.get` raised, otherwise the status code
      and the decoded body (`None` when `response.json()` raises). */
  datatype Response = Unreachable | Reply(status: int, body: Option<Json>)

  /** The decoded conversation, or `None` for a 404, any other status but
      200, or a failure; every failure is caught and logged. */
  function FetchConversation(resp: Response): (r: Option<Json>)
    ensures r.Some? <==> resp.Reply? && resp.status == 200 && resp.body.Some?
    ensures r.Some? ==> r.value == resp.body.value
  {
    match resp
    case Unreachable => None
    case Reply(status, body) =>
      if status == 404 then None
      else if status != 200 then None
      else body
  }

  // ---------------------------------------------------------------------
  // extract_conversation_data
  // ---------------------------------------------------------------------

  /** `datetime.fromtimestamp(t, tz=timezone.utc).date().isoformat()`;
      `None` where the year falls outside 1..9999 and Python raises. */
  function IsoDateOfSeconds(t: int): (r: Option<string>)
    ensures r.Some? <==> UtcDateOfSeconds(t).Some?
    ensures r.Some? ==> r.value == IsoDate(UtcDateOfSeconds(t).value)
    ensures r.Some? ==> |r.value| == 10 && IsIsoDateShape(r.value)
  {
    match UtcDateOfSeconds(t)
    case None => None
    case Some(d) => Some(IsoDate(d))
  }

  /** The number of seconds `fromtimestamp` reads from a JSON value: a
      number, or a boolean as 0 or 1; anything else raises. */
  function Seconds(v: Json): Option<int> {
    match v
    case Num(n) => Some(n)
    case Bool(b) => Some(if b then 1 else 0)
    case _ => None
  }

  /** `real_date`: `Some(None)` when `created_at` is missing or falsy,
      `Some(Some(d))` with `d` the UTC calendar date of `created_at`
      seconds, `None` where `datetime.fromtimestamp` raises (a value that
      is not a number, or a year outside 1..9999). */
  function RealDate(conv: Object): (r: Option<Option<string>>)
    ensures r == Some(None) <==> !Truthy(GetOr(conv, "created_at", Null))
    ensures r.Some? && r.value.Some? ==> |r.value.value| == 10 && IsIsoDateShape(r.value.value)
  {
    var v := GetOr(conv, "created_at", Null);
    if !Truthy(v) then Some(None)
    else
      match Seconds(v)
      case None => None
      case Some(t) =>
        match IsoDateOfSeconds(t)
        case None => None
        case Some(iso) => Some(Some(iso))
  }

  /** A non-zero whole number of seconds gives a date exactly when its year
      is 1..9999, and the date is the day holding that instant. */
  lemma RealDateOfSeconds(conv: Object, n: int)
    requires "created_at" in conv && conv["created_at"] == Num(n) && n != 0
    ensures RealDate(conv).Some? <==> FirstSecondOfMinYear <= n < FirstSecondAfterMaxYear
    ensures RealDate(conv).Some? ==> exists d: Date ::
      ValidDate(d) && InPythonRange(d) && RealDate(conv).value == Some(IsoDate(d))
      && DaysFromCivil(d) * SecondsPerDay <= n < (DaysFromCivil(d) + 1) * SecondsPerDay
  {
    UtcDateInRange(n);
    if RealDate(conv).Some? {
      var d := UtcDateOfSeconds(n).value;
      assert RealDate(conv).value == Some(IsoDate(d));
    }
  }

  /** A conversation created at 1731398400 seconds was created on
      2024-11-12. */
  lemma RealDateExample(conv: Object, t: int)
    requires t == 1731398400 && "created_at" in conv && conv["created_at"] == Num(t)
    ensures RealDate(conv) == Some(Some("2024-11-12"))
  {
    RealDateOfNum(conv, t);
    IsoDateOfSecondsExample(t);
  }

  /** A non-zero number of seconds gives its ISO date, when there is one. */
  lemma RealDateOfNum(conv: Object, n: int)
    requires "created_at" in conv && conv["created_at"] == Num(n) && n != 0
    ensures IsoDateOfSeconds(n).Some? ==> RealDate(conv) == Some(Some(IsoDateOfSeconds(n).value))
    ensures IsoDateOfSeconds(n).None? ==> RealDate(conv) == None
  {
  }

  lemma IsoDateOfSecondsExample(t: int)
    requires t == 1731398400
    ensures IsoDateOfSeconds(t) == Some("2024-11-12")
  {
    DateOf1731398400(t);
    IsoDateExample();
  }

  lemma IsoDateExample()
    ensures IsoDate(Date(2024, 11, 12)) == "2024-11-12"
  {
    assert NatToString(2024) == "2024" && NatToString(11) == "11" && NatToString(12) == "12";
  }

  /** Two instants of the same UTC day give the same `real_date`. */
  lemma RealDateSameDay(c1: Object, c2: Object, n1: int, n2: int)
    requires "created_at" in c1 && c1["created_at"] == Num(n1) && n1 != 0
    requires "created_at" in c2 && c2["created_at"] == Num(n2) && n2 != 0
    requires n1 / SecondsPerDay == n2 / SecondsPerDay
    ensures RealDate(c1) == RealDate(c2)
  {
    RealDateOfNum(c1, n1);
    RealDateOfNum(c2, n2);
    assert UtcDateOfSeconds(n1) == UtcDateOfSeconds(n2);
  }

  /** The values `determine_workspace` and `determine_360_queue` are given:
      every name must be text, or `t.lower()` raises. */
  function TagNames(conv: Object): (r: Option<seq<string>>)
    ensures r.Some? <==> ConversationTags(conv).Some? && AllStr(ConversationTags(conv).value)
    ensures r.Some? ==> |r.value| == |ConversationTags(conv).value|
    ensures r.Some? ==> forall k :: 0 <= k < |r.value| ==> Str(r.value[k]) == ConversationTags(conv).value[k]
  {
    match ConversationTags(conv)
    case None => None
    case Some(names) => if AllStr(names) then Some(Strs(names)) else None
  }

  /** Every extracted tag name is non-empty. */
  lemma TagNamesNonEmpty(conv: Object)
    requires TagNames(conv).Some?
    ensures forall k :: 0 <= k < |TagNames(conv).value| ==> TagNames(conv).value[k] != ""
  {
    var names := ConversationTags(conv).value;
    forall k | 0 <= k < |TagNames(conv).value|
      ensures TagNames(conv).value[k] != ""
    {
      assert Truthy(names[k]);
    }
  }

  /** The record `extract_conversation_data` returns. */
  datatype Extracted = Extracted(realDate: Option<string>, tags: seq<string>, workspace: string,
                                 is360Queue: bool, queueType360: Option<string>)

  /** `extract_conversation_data`; `None` where it raises, which ends the
      whole run. */
  function ExtractConversationData(conv: Object): (r: Option<Extracted>)
    ensures r.Some? <==> RealDate(conv).Some? && TagNames(conv).Some?
    ensures r.Some? ==> r.value.realDate == RealDate(conv).value && r.value.tags == TagNames(conv).value
    ensures r.Some? ==> r.value.workspace in ["SkyPrivate", "CamModelDirectory", "Unknown"]
    ensures r.Some? ==> (r.value.is360Queue <==> r.value.queueType360.Some?)
    ensures r.Some? && r.value.realDate.Some? ==> r.value.realDate.value != ""
  {
    match RealDate(conv)
    case None => None
    case Some(realDate) =>
      match TagNames(conv)
      case None => None
      case Some(tags) =>
        var (is360, queueType) := WholeTagQueue360(tags);
        Some(Extracted(realDate, tags, WholeTagWorkspace(tags), is360, queueType))
  }

  /** The classification follows from the extracted tag names alone. */
  lemma ExtractedClassification(conv: Object)
    requires ExtractConversationData(conv).Some?
    ensures var e := ExtractConversationData(conv).value;
      (e.workspace == "SkyPrivate" <==> AnyTagListed(SkyPrivateTags, e.tags))
      && (e.workspace == "Unknown" <==> !AnyTagListed(SkyPrivateTags, e.tags) && !AnyTagListed(CamModelDirectoryTags, e.tags))
      && (e.queueType360 == Some("both") <==> AnyTagListed(Billing360Tags, e.tags) && AnyTagListed(Ceq360Tags, e.tags))
      && (!e.is360Queue <==> !AnyTagListed(Billing360Tags, e.tags) && !AnyTagListed(Ceq360Tags, e.tags))
  {
  }

  /** Conversations whose tag names are the same up to order and
      repetition are classified alike. */
  lemma ExtractedOrderIndependent(c1: Object, c2: Object)
    requires ExtractConversationData(c1).Some? && ExtractConversationData(c2).Some?
    requires forall t :: t in TagNames(c1).value <==> t in TagNames(c2).value
    ensures ExtractConversationData(c1).value.workspace == ExtractConversationData(c2).value.workspace
    ensures ExtractConversationData(c1).value.is360Queue == ExtractConversationData(c2).value.is360Queue
    ensures ExtractConversationData(c1).value.queueType360 == ExtractConversationData(c2).value.queueType360
  {
    WholeTagOrderIndependent(TagNames(c1).value, TagNames(c2).value);
  }

  // ---------------------------------------------------------------------
  // update_qa_metric
  // ---------------------------------------------------------------------

  /** A value of the update payload. */
  datatype Column = TextCol(s: string) | BoolCol(b: bool) | NullCol | TagsCol(names: seq<string>)

  type Payload = seq<(string, Column)>

  /** The value the first entry for `key` holds. */
  function Lookup(p: Payload, key: string): Option<Column>
    decreases |p|
  {
    if p == [] then None
    else if p[0].0 == key then Some(p[0].1)
    else Lookup(p[1..], key)
  }

  /** A key no entry has is not found. */
  lemma {:induction false} LookupAbsent(p: Payload, key: string)
    requires forall k :: 0 <= k < |p| ==> p[k].0 != key
    ensures Lookup(p, key) == None
    decreases |p|
  {
    if p != [] {
      assert forall k :: 0 <= k < |p[1..]| ==> p[1..][k] == p[k + 1];
      LookupAbsent(p[1..], key);
    }
  }

  predicate DistinctKeys(p: Payload) {
    forall a, b :: 0 <= a < b < |p| ==> p[a].0 != p[b].0
  }

  /** With distinct keys, each key finds its own value. */
  lemma {:induction false} LookupAt(p: Payload, k: nat)
    requires DistinctKeys(p) && k < |p|
    ensures Lookup(p, p[k].0) == Some(p[k].1)
    decreases |p|
  {
    if k > 0 {
      assert p[1..][k - 1] == p[k];
      assert p[0].0 != p[k].0;
      LookupAt(p[1..], k - 1);
    }
  }

  function OptionalText(s: Option<string>): Column {
    if s.Some? then TextCol(s.value) else NullCol
  }

  /** `update_data`: the workspace, the queue flag and type and the tags,
      then `metric_date` when the extracted date is truthy. */
  function UpdatePayload(data: Extracted): (p: Payload)
    ensures DistinctKeys(p)
    ensures Lookup(p, "workspace") == Some(TextCol(data.workspace))
    ensures Lookup(p, "is_360_queue") == Some(BoolCol(data.is360Queue))
    ensures Lookup(p, "queue_type_360") == Some(OptionalText(data.queueType360))
    ensures Lookup(p, "tags") == Some(TagsCol(data.tags))
    ensures Lookup(p, "metric_date").Some? <==> data.realDate.Some? && data.realDate.value != ""
    ensures Lookup(p, "metric_date").Some? ==> Lookup(p, "metric_date") == Some(TextCol(data.realDate.value))
  {
    var base := [("workspace", TextCol(data.workspace)), ("is_360_queue", BoolCol(data.is360Queue)),
                 ("queue_type_360", OptionalText(data.queueType360)), ("tags", TagsCol(data.tags))];
    var p := if data.realDate.Some? && data.realDate.value != "" then base + [("metric_date", TextCol(data.realDate.value))]
             else base;
    assert forall k :: 0 <= k < |p| ==> |p[k].0| == [9, 12, 14, 4, 11][k];
    assert p[0].0 == "workspace" && p[1].0 == "is_360_queue" && p[2].0 == "queue_type_360" && p[3].0 == "tags";
    LookupAt(p, 0);
    LookupAt(p, 1);
    LookupAt(p, 2);
    LookupAt(p, 3);
    if |p| == 5 then
      assert p[4].0 == "metric_date";
      LookupAt(p, 4);
      p
    else
      assert forall k :: 0 <= k < |p| ==> p[k].0 != "metric_date";
      LookupAbsent(p, "metric_date");
      p
  }

  /** For extracted data, `metric_date` is written exactly when a date
      was found. */
  lemma MetricDateIffRealDate(conv: Object)
    requires ExtractConversationData(conv).Some?
    ensures var e := ExtractConversationData(conv).value;
      Lookup(UpdatePayload(e), "metric_date").Some? <==> RealDate(conv).value.Some?
  {
  }

  // ---------------------------------------------------------------------
  // main: the loop over the conversations and its counters
  // ---------------------------------------------------------------------

  /** One row of `qa_metrics` to process, with what the network and the
      database answer for it: the fetch reply and whether the update call
      succeeds. */
  datatype Pending = Pending(id: string, response: Response, writeOk: bool)

  /** What one pass of the loop does. */
  datatype Visit = Skip | Abort | Update(payload: Payload)

  /** One pass: a missing or falsy conversation is skipped; a reply that is
      not an object, or an extraction that raises, ends the run. */
  function VisitOf(c: Pending): (v: Visit)
    ensures v.Skip? <==> FetchConversation(c.response).None? || !Truthy(FetchConversation(c.response).value)
    ensures v.Update? ==> exists e :: v.payload == UpdatePayload(e)
  {
    match FetchConversation(c.response)
    case None => Skip
    case Some(data) =>
      if !Truthy(data) then Skip
      else match data
        case Obj(o) =>
          (match ExtractConversationData(o)
           case None => Abort
           case Some(e) => Update(UpdatePayload(e)))
        case _ => Abort
  }

  /** The counters after the loop, and the updates sent in order. */
  datatype Tally = Tally(updated: nat, failed: nat, skipped: nat, writes: seq<(string, Payload)>)

  /** The counters after one more pass. */
  function Count(t: Tally, c: Pending, dryRun: bool): (r: Option<Tally>)
    ensures r.None? <==> VisitOf(c).Abort?
    ensures r.Some? ==> r.value.updated + r.value.failed + r.value.skipped == t.updated + t.failed + t.skipped + 1
    ensures r.Some? ==> t.writes <= r.value.writes && |r.value.writes| <= |t.writes| + 1
    ensures r.Some? && dryRun ==> r.value.writes == t.writes
  {
    match VisitOf(c)
    case Skip => Some(t.(skipped := t.skipped + 1))
    case Abort => None
    case Update(p) =>
      if dryRun then Some(t.(updated := t.updated + 1))
      else if c.writeOk then Some(t.(updated := t.updated + 1, writes := t.writes + [(c.id, p)]))
      else Some(t.(failed := t.failed + 1, writes := t.writes + [(c.id, p)]))
  }

  /** The run over `convs`: the final counters, or `None` when a pass raised. */
  function BackfillRun(convs: seq<Pending>, dryRun: bool): (r: Option<Tally>)
    ensures r.Some? ==> |r.value.writes| <= |convs|
    ensures r.Some? && dryRun ==> r.value.writes == []
    decreases |convs|
  {
    if convs == [] then Some(Tally(0, 0, 0, []))
    else
      match BackfillRun(convs[..|convs| - 1], dryRun)
      case None => None
      case Some(t) => Count(t, convs[|convs| - 1], dryRun)
  }

  /** One more pass of the run. */
  lemma RunStep(convs: seq<Pending>, dryRun: bool, i: nat, t: Tally)
    requires i < |convs| && BackfillRun(convs[..i], dryRun) == Some(t)
    ensures BackfillRun(convs[..i + 1], dryRun) == Count(t, convs[i], dryRun)
  {
    assert convs[..i + 1][..i] == convs[..i];
  }

  /** The body of the loop in `main` for one conversation: the new
      counters, or `aborted` when the pass raises. */
  method ProcessConversation(c: Pending, dryRun: bool, updated: nat, failed: nat, skipped: nat,
                             writes: seq<(string, Payload)>)
    returns (aborted: bool, updated': nat, failed': nat, skipped': nat, writes': seq<(string, Payload)>)
    ensures aborted <==> Count(Tally(updated, failed, skipped, writes), c, dryRun).None?
    ensures !aborted ==> Count(Tally(updated, failed, skipped, writes), c, dryRun) == Some(Tally(updated', failed', skipped', writes'))
  {
    aborted, updated', failed', skipped', writes' := false, updated, failed, skipped, writes;
    var data := FetchConversation(c.response);
    if data.None? || !Truthy(data.value) {
      skipped' := skipped + 1;
      return;
    }
    if !data.value.Obj? {
      aborted := true;
      return;
    }
    var extracted := ExtractConversationData(data.value.fields);
    if extracted.None? {
      aborted := true;
      return;
    }
    if !dryRun {
      var payload := UpdatePayload(extracted.value);
      writes' := writes + [(c.id, payload)];
      if c.writeOk {
        updated' := updated + 1;
      } else {
        failed' := failed + 1;
      }
    } else {
      updated' := updated + 1;
    }
  }

  /** The loop in `main`. */
  method RunBackfill(convs: seq<Pending>, dryRun: bool) returns (r: Option<Tally>)
    ensures r == BackfillRun(convs, dryRun)
  {
    var updated, failed, skipped := 0, 0, 0;
    var writes: seq<(string, Payload)> := [];
    assert convs[..0] == [];
    for i := 0 to |convs|
      invariant BackfillRun(convs[..i], dryRun) == Some(Tally(updated, failed, skipped, writes))
    {
      RunStep(convs, dryRun, i, Tally(updated, failed, skipped, writes));
      var aborted;
      aborted, updated, failed, skipped, writes := ProcessConversation(convs[i], dryRun, updated, failed, skipped, writes);
      if aborted {
        AbortStays(convs, dryRun, i + 1);
        return None;
      }
    }
    assert convs[..|convs|] == convs;
    r := Some(Tally(updated, failed, skipped, writes));
  }

  /** Once a pass raises, the run has raised. */
  lemma {:induction false} AbortStays(convs: seq<Pending>, dryRun: bool, i: nat)
    requires i <= |convs| && BackfillRun(convs[..i], dryRun) == None
    ensures BackfillRun(convs, dryRun) == None
    decreases |convs| - i
  {
    if i == |convs| {
      assert convs[..i] == convs;
    } else {
      assert convs[..i + 1][..i] == convs[..i];
      AbortStays(convs, dryRun, i + 1);
    }
  }

  /** Every conversation is counted once: updated, failed or skipped. */
  lemma {:induction false} CountersAddUp(convs: seq<Pending>, dryRun: bool)
    requires BackfillRun(convs, dryRun).Some?
    ensures var t := BackfillRun(convs, dryRun).value;
      t.updated + t.failed + t.skipped == |convs|
    decreases |convs|
  {
    if convs != [] {
      CountersAddUp(convs[..|convs| - 1], dryRun);
    }
  }

  /** The run raises exactly when some pass raises. */
  lemma {:induction false} RunAbortsIff(convs: seq<Pending>, dryRun: bool)
    ensures BackfillRun(convs, dryRun).None? <==> exists k :: 0 <= k < |convs| && VisitOf(convs[k]).Abort?
    decreases |convs|
  {
    if convs != [] {
      var n := |convs| - 1;
      RunAbortsIff(convs[..n], dryRun);
      LastPassAborts(convs, dryRun);
      AbortSomewhere(convs, n);
    }
  }

  /** The run over a non-empty sequence raises when the run before the
      last pass raised or the last pass raises. */
  lemma LastPassAborts(convs: seq<Pending>, dryRun: bool)
    requires convs != []
    ensures BackfillRun(convs, dryRun).None? <==>
      BackfillRun(convs[..|convs| - 1], dryRun).None? || VisitOf(convs[|convs| - 1]).Abort?
  {
  }

  /** Some pass of `convs` raises exactly when one of the first `n` does or
      the last does. */
  lemma AbortSomewhere(convs: seq<Pending>, n: nat)
    requires n + 1 == |convs|
    ensures (exists k :: 0 <= k < |convs| && VisitOf(convs[k]).Abort?) <==>
      (exists k :: 0 <= k < n && VisitOf(convs[..n][k]).Abort?) || VisitOf(convs[n]).Abort?
  {
    if exists k :: 0 <= k < n && VisitOf(convs[..n][k]).Abort? {
      var k :| 0 <= k < n && VisitOf(convs[..n][k]).Abort?;
      assert convs[..n][k] == convs[k];
    }
    if exists k :: 0 <= k < |convs| && VisitOf(convs[k]).Abort? {
      var k :| 0 <= k < |convs| && VisitOf(convs[k]).Abort?;
      if k < n {
        assert convs[..n][k] == convs[k];
      }
    }
  }

  /** The number of conversations that are skipped. */
  function Skips(convs: seq<Pending>): (n: nat)
    ensures n <= |convs|
    decreases |convs|
  {
    if convs == [] then 0
    else Skips(convs[..|convs| - 1]) + (if VisitOf(convs[|convs| - 1]).Skip? then 1 else 0)
  }

  /** The updates a live run sends: one per conversation that is not
      skipped, in order. */
  function Requested(convs: seq<Pending>): (ws: seq<(string, Payload)>)
    decreases |convs|
  {
    if convs == [] then []
    else
      var c := convs[|convs| - 1];
      Requested(convs[..|convs| - 1]) + (match VisitOf(c) case Update(p) => [(c.id, p)] case _ => [])
  }

  /** `skipped` counts exactly the conversations without data; a live run
      sends one update per other conversation, in order, and counts each as
      updated or failed; a dry run sends nothing and fails nothing. */
  lemma {:induction false} RunCounts(convs: seq<Pending>, dryRun: bool)
    requires BackfillRun(convs, dryRun).Some?
    ensures var t := BackfillRun(convs, dryRun).value;
      t.skipped == Skips(convs)
      && (dryRun ==> t.writes == [] && t.failed == 0)
      && (!dryRun ==> t.writes == Requested(convs) && |t.writes| == t.updated + t.failed)
    decreases |convs|
  {
    if convs != [] {
      RunCounts(convs[..|convs| - 1], dryRun);
    }
  }

  /** A dry run counts every conversation with data as updated. */
  lemma DryRunUpdatesAll(convs: seq<Pending>)
    requires BackfillRun(convs, true).Some?
    ensures BackfillRun(convs, true).value.updated == |convs| - Skips(convs)
  {
    CountersAddUp(convs, true);
    RunCounts(convs, true);
  }

  /** A write that fails is counted as failed, one that succeeds as
      updated. */
  lemma {:induction false} LiveRunOutcomes(convs: seq<Pending>)
    requires BackfillRun(convs, false).Some?
    ensures BackfillRun(convs, false).value.failed == Failures(convs)
    decreases |convs|
  {
    if convs != [] {
      LiveRunOutcomes(convs[..|convs| - 1]);
    }
  }

  /** The number of conversations with data whose update call fails. */
  function Failures(convs: seq<Pending>): (n: nat)
    ensures n <= |convs|
    decreases |convs|
  {
    if convs == [] then 0
    else
      var c := convs[|convs| - 1];
      Failures(convs[..|convs| - 1]) + (if VisitOf(c).Update? && !c.writeOk then 1 else 0)
  }
}
