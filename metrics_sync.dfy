/** The sync script's path from export rows to `qa_metrics` records: each
    row becomes a record, records are optionally enriched with the tags of
    the conversation fetched one by one, the tag lists are serialised, and
    the records are upserted in slices of one hundred. Network replies, the
    date of "today", `datetime.fromisoformat` and `json.dumps` are
    parameters. */
module MetricsSync {
  import opened Text
  import opened Rows
  import opened Calendar
  import opened Timestamps
  import opened Scores
  import opened Agents
  import opened Redactor
  import opened Tags

  const IdKey: string := "conversation_id"
  const StartedKey: string := "conversation_started_at"
  const ClosedKey: string := "conversation_last_closed_at"
  const AgentKeys: seq<string> :=
    ["currently_assigned_teammate_id", "currently_assigned_teammate_raw_id", "assignee_id"]
  const ScoreKeys: seq<string> := ["ai_cx_score_rating", "conversation_rating", "fin_ai_agent_rating"]
  const ExplanationKey: string := "ai_cx_score_explanation"
  const StateKey: string := "conversation_state"

  /** The `tags` field: a list of names until it is serialised to JSON. */
  datatype TagsField = TagList(names: seq<string>) | TagJson(text: string)

  /** One `qa_metrics` record of the sync script. */
  datatype Metric = Metric(
    conversationId: string,
    agentId: string,
    agentName: string,
    metricDate: string,
    aiScore: Option<real>,
    aiFeedback: Option<string>,
    resolutionStatus: string,
    responseTimeSeconds: Option<int>,
    customerSatisfactionScore: Option<real>,
    ratingSource: string,
    tags: TagsField,
    workspace: string,
    is360Queue: bool,
    queueType360: Option<string>)

  /** `parse_timestamp_to_date(row.get(key) or "")`. */
  function CellDate(row: Row, key: string, fromIso: string -> Option<string>): (r: DateOutcome)
    ensures !Truthy(Get(row, key)) ==> r == Parsed(None)
    ensures Truthy(Get(row, key)) ==> r == ParseTimestampToDate(Get(row, key), fromIso)
  {
    var cell := FirstTruthy(row, [key], "");
    assert !Truthy(Get(row, key)) ==> Strip(cell) == "";
    ParseTimestampToDate(Some(cell), fromIso)
  }

  /** `if not metric_date`: a date was found and is not empty. */
  predicate GivesDate(o: DateOutcome) {
    o.Parsed? && o.date.Some? && o.date.value != ""
  }

  /** The metric date: the start of the conversation, else its last
      closing, else today. `None` when parsing a time raises, which ends
      `parse_conversation_row`. */
  function SyncMetricDate(row: Row, today: string, fromIso: string -> Option<string>): (d: Option<string>)
    ensures d.None? <==>
      CellDate(row, StartedKey, fromIso).Raised?
      || (!GivesDate(CellDate(row, StartedKey, fromIso)) && CellDate(row, ClosedKey, fromIso).Raised?)
    ensures d.Some? && GivesDate(CellDate(row, StartedKey, fromIso)) ==> d == CellDate(row, StartedKey, fromIso).date
    ensures d.Some? && !GivesDate(CellDate(row, StartedKey, fromIso)) && GivesDate(CellDate(row, ClosedKey, fromIso)) ==>
      d == CellDate(row, ClosedKey, fromIso).date
    ensures d.Some? && !GivesDate(CellDate(row, StartedKey, fromIso)) && !GivesDate(CellDate(row, ClosedKey, fromIso)) ==>
      d == Some(today)
    ensures d.Some? && today != "" ==> d.value != ""
  {
    var s := CellDate(row, StartedKey, fromIso);
    if s.Raised? then None
    else if GivesDate(s) then s.date
    else
      var c := CellDate(row, ClosedKey, fromIso);
      if c.Raised? then None
      else if GivesDate(c) then c.date
      else Some(today)
  }

  /** `row.get("conversation_id") or ""`. */
  function ConversationId(row: Row): (id: string)
    ensures Truthy(Get(row, IdKey)) ==> id == Get(row, IdKey).value
    ensures !Truthy(Get(row, IdKey)) ==> id == ""
  {
    FirstTruthy(row, [IdKey], "")
  }

  /** The first non-empty assignee column, else `Unknown`. */
  function AgentRaw(row: Row): (a: string)
    ensures a != ""
    ensures (forall i :: 0 <= i < |AgentKeys| ==> !Truthy(Get(row, AgentKeys[i]))) ==> a == "Unknown"
  {
    FirstTruthy(row, AgentKeys, "Unknown")
  }

  /** The anonymised explanation, `None` when the column is missing or
      empty. */
  function Feedback(row: Row): (f: Option<string>)
    ensures f.None? <==> !Truthy(Get(row, ExplanationKey))
    ensures f.Some? ==> f.value == Anonymize(Get(row, ExplanationKey).value)
    ensures f.Some? ==> DigitRunsBelow(f.value, 8) && SingleSpaced(f.value)
  {
    var explanation := FirstTruthy(row, [ExplanationKey], "");
    if explanation != "" then
      NoLongDigitRunSurvives(explanation);
      Some(Anonymize(explanation))
    else None
  }

  /** `row.get("conversation_state") or "completed"`. */
  function ResolutionStatus(row: Row): (r: string)
    ensures r != ""
    ensures !Truthy(Get(row, StateKey)) ==> r == "completed"
    ensures Truthy(Get(row, StateKey)) ==> r == Get(row, StateKey).value
  {
    FirstTruthy(row, [StateKey], "completed")
  }

  /** `parse_conversation_row` of the sync script; `None` when a timestamp
      overflows and the error propagates. */
  function ParseConversationRow(row: Row, admins: map<string, string>, today: string,
                                fromIso: string -> Option<string>): (r: Option<Metric>)
    ensures r.None? <==> SyncMetricDate(row, today, fromIso).None?
    ensures r.Some? ==> var m := r.value;
      && m.conversationId == ConversationId(row)
      && m.agentId == AgentRaw(row) && m.agentName == ResolveAgentName(m.agentId, admins)
      && m.metricDate == SyncMetricDate(row, today, fromIso).value
      && m.aiScore == SyncScoreOfText(FirstTruthy(row, ScoreKeys, ""))
      && (m.ratingSource == "ai" <==> m.aiScore.Some?)
      && m.aiFeedback == Feedback(row)
      && m.resolutionStatus == ResolutionStatus(row)
      && m.responseTimeSeconds.None? && m.customerSatisfactionScore.None?
      && m.tags == TagList([]) && m.workspace == "Unknown" && !m.is360Queue && m.queueType360.None?
  {
    match SyncMetricDate(row, today, fromIso)
    case None => None
    case Some(metricDate) =>
      var agentRaw := AgentRaw(row);
      var score := SyncScoreOfText(FirstTruthy(row, ScoreKeys, ""));
      Some(Metric(
        conversationId := ConversationId(row),
        agentId := agentRaw,
        agentName := ResolveAgentName(agentRaw, admins),
        metricDate := metricDate,
        aiScore := score,
        aiFeedback := Feedback(row),
        resolutionStatus := ResolutionStatus(row),
        responseTimeSeconds := None,
        customerSatisfactionScore := None,
        ratingSource := RatingSource(score),
        tags := TagList([]),
        workspace := "Unknown",
        is360Queue := false,
        queueType360 := None))
  }

  /** A cell holding whole seconds in range gives their UTC date. */
  lemma CellDateOfSeconds(row: Row, key: string, v: nat, fromIso: string -> Option<string>)
    requires Get(row, key) == Some(NatToString(v))
    requires MinimumSeconds < v <= SecondsThreshold
    ensures UtcDateOfSeconds(v).Some?
    ensures CellDate(row, key, fromIso) == Parsed(Some(IsoDate(UtcDateOfSeconds(v).value)))
  {
    assert NatToString(v) != "";
    SecondsGiveTheirDate(v, fromIso);
  }

  /** A start time in whole seconds decides the date, whatever the closing
      time says. */
  lemma StartedSecondsDecide(row: Row, v: nat, today: string, fromIso: string -> Option<string>)
    requires Get(row, StartedKey) == Some(NatToString(v))
    requires MinimumSeconds < v <= SecondsThreshold
    ensures UtcDateOfSeconds(v).Some?
    ensures SyncMetricDate(row, today, fromIso) == Some(IsoDate(UtcDateOfSeconds(v).value))
  {
    CellDateOfSeconds(row, StartedKey, v, fromIso);
  }

  /** Without a start time the closing time is used. */
  lemma ClosedUsedWithoutStart(row: Row, v: nat, today: string, fromIso: string -> Option<string>)
    requires !Truthy(Get(row, StartedKey))
    requires Get(row, ClosedKey) == Some(NatToString(v))
    requires MinimumSeconds < v <= SecondsThreshold
    ensures UtcDateOfSeconds(v).Some?
    ensures SyncMetricDate(row, today, fromIso) == Some(IsoDate(UtcDateOfSeconds(v).value))
  {
    assert CellDate(row, StartedKey, fromIso) == Parsed(None);
    CellDateOfSeconds(row, ClosedKey, v, fromIso);
    assert GivesDate(CellDate(row, ClosedKey, fromIso)) by {
      assert |IsoDate(UtcDateOfSeconds(v).value)| == 10;
    }
  }

  /** A row with neither time is dated today. */
  lemma NoTimeGivesToday(row: Row, today: string, fromIso: string -> Option<string>)
    requires !Truthy(Get(row, StartedKey)) && !Truthy(Get(row, ClosedKey))
    ensures SyncMetricDate(row, today, fromIso) == Some(today)
  {
  }

  /** A start time of 2^63 seconds or more, written in milliseconds,
      overflows: the whole row raises, whatever the closing time says. */
  lemma {:induction false} HugeStartRaises(row: Row, v: nat, admins: map<string, string>, today: string,
                                           fromIso: string -> Option<string>)
    requires Get(row, StartedKey) == Some(NatToString(v))
    requires v >= 1000 * TimeTLimit
    ensures ParseConversationRow(row, admins, today, fromIso).None?
  {
    assert NatToString(v) != "";
    HugeMillisecondsRaise(v, fromIso);
  }

  /* Enrichment. */

  /** The reply to `GET /conversations/{id}`: its status and the `tags.tags`
      list (`None` when `tags` or `tags.tags` is missing or empty), or a
      request that raised. */
  datatype ConversationReply = ConversationReply(status: int, tagList: Option<seq<TagRef>>) | FetchError

  /** `(tags, workspace, is_360_queue, queue_type_360)`. */
  datatype Enrichment = Enrichment(tags: seq<string>, workspace: string, is360: bool, queueType: Option<string>)

  /** `enrich_conversation_with_tags`: the classification of the named
      tags, or no tags and `Unknown` when the fetch fails. */
  function EnrichConversation(reply: ConversationReply): (e: Enrichment)
    ensures reply.FetchError? || reply.status != 200 ==> e == Enrichment([], "Unknown", false, None)
    ensures e.workspace == Workspace(e.tags)
    ensures (e.is360, e.queueType) == Queue360(e.tags)
    ensures reply.ConversationReply? && reply.status == 200 && reply.tagList.Some? ==>
      e.tags == NamedTags(reply.tagList.value)
    ensures reply.ConversationReply? && reply.status == 200 && reply.tagList.None? ==>
      e == Enrichment([], "Unknown", false, None)
  {
    if reply.FetchError? || reply.status != 200 then Enrichment([], "Unknown", false, None)
    else
      var tags := if reply.tagList.Some? then NamedTags(reply.tagList.value) else [];
      var q := Queue360(tags);
      Enrichment(tags, Workspace(tags), q.0, q.1)
  }

  /** `if tags or workspace != 'Unknown'`. */
  predicate ShouldMerge(e: Enrichment) {
    e.tags != [] || e.workspace != "Unknown"
  }

  /** The workspace test adds nothing: a fetched classification is merged
      exactly when it found a named tag, so a failed fetch never is. */
  lemma MergeIffTags(reply: ConversationReply)
    ensures ShouldMerge(EnrichConversation(reply)) <==> EnrichConversation(reply).tags != []
    ensures reply.FetchError? || reply.status != 200 ==> !ShouldMerge(EnrichConversation(reply))
  {
  }

  /** The four classification fields are overwritten when the enrichment
      is merged; nothing else changes. */
  function Enriched(m: Metric, e: Enrichment): (r: Metric)
    ensures ShouldMerge(e) ==>
      r.tags == TagList(e.tags) && r.workspace == e.workspace && r.is360Queue == e.is360 && r.queueType360 == e.queueType
    ensures !ShouldMerge(e) ==> r == m
  {
    if ShouldMerge(e) then m.(tags := TagList(e.tags), workspace := e.workspace, is360Queue := e.is360, queueType360 := e.queueType)
    else m
  }

  /** `enrich_conversation_with_tags` as a function of the conversation id:
      the classification of the reply to that id's fetch. */
  function EnrichById(replies: string -> ConversationReply): string -> Enrichment {
    id => EnrichConversation(replies(id))
  }

  /** How many of the records take their enrichment. */
  function MergeCount(ms: seq<Metric>, fetch: string -> Enrichment): (n: nat)
    ensures n <= |ms|
  {
    if ms == [] then 0
    else MergeCount(ms[..|ms| - 1], fetch) + (if ShouldMerge(fetch(ms[|ms| - 1].conversationId)) then 1 else 0)
  }

  lemma MergeCountStep(ms: seq<Metric>, j: nat, fetch: string -> Enrichment)
    requires j < |ms|
    ensures MergeCount(ms[..j + 1], fetch) ==
      MergeCount(ms[..j], fetch) + (if ShouldMerge(fetch(ms[j].conversationId)) then 1 else 0)
  {
    assert ms[..j + 1][..j] == ms[..j];
  }

  /* The transform step. */

  /** The records of step 6: one per row with a non-empty id, in row order;
      `None` when parsing one of those rows raises. */
  function Transform(rows: seq<Row>, admins: map<string, string>, today: string,
                     fromIso: string -> Option<string>): Option<seq<Metric>>
  {
    Fold(rows, Records(admins, today, fromIso))
  }

  /** What one row adds: nothing without an id, else its record. */
  function RecordOf(row: Row, admins: map<string, string>, today: string,
                    fromIso: string -> Option<string>): (ms: Option<seq<Metric>>)
    ensures ms.Some? ==> |ms.value| <= 1
    ensures !Truthy(Get(row, IdKey)) ==> ms == Some([])
    ensures Truthy(Get(row, IdKey)) ==>
      (ms.None? <==> ParseConversationRow(row, admins, today, fromIso).None?)
      && (ms.Some? ==> ms.value == [ParseConversationRow(row, admins, today, fromIso).value])
  {
    if !Truthy(Get(row, IdKey)) then Some([])
    else
      match ParseConversationRow(row, admins, today, fromIso)
      case None => None
      case Some(m) => Some([m])
  }

  function Records(admins: map<string, string>, today: string, fromIso: string -> Option<string>): Row -> Option<seq<Metric>> {
    row => RecordOf(row, admins, today, fromIso)
  }

  /** The loop over the rows with `rec` for the loop body: each row's records
      appended in order, and `None` from the first row that raises. */
  function Fold(rows: seq<Row>, rec: Row -> Option<seq<Metric>>): Option<seq<Metric>> {
    if rows == [] then Some([]) else Joined(Fold(rows[..|rows| - 1], rec), rec(rows[|rows| - 1]))
  }

  /** Both parts, one after the other, unless either raised. */
  function Joined(a: Option<seq<Metric>>, b: Option<seq<Metric>>): (r: Option<seq<Metric>>)
    ensures r.Some? <==> a.Some? && b.Some?
    ensures r.Some? ==> r.value == a.value + b.value
  {
    if a.Some? && b.Some? then Some(a.value + b.value) else None
  }

  lemma FoldStep(rows: seq<Row>, i: nat, rec: Row -> Option<seq<Metric>>)
    requires i < |rows|
    ensures Fold(rows[..i + 1], rec) == Joined(Fold(rows[..i], rec), rec(rows[i]))
  {
    assert rows[..i + 1][..i] == rows[..i];
  }

  lemma {:induction false} FoldAppend(a: seq<Row>, b: seq<Row>, rec: Row -> Option<seq<Metric>>)
    ensures Fold(a + b, rec) == Joined(Fold(a, rec), Fold(b, rec))
    decreases |b|
  {
    if b == [] {
      assert a + b == a;
      var fa := Fold(a, rec);
      if fa.Some? {
        assert fa.value + [] == fa.value;
      }
    } else {
      var b', row := b[..|b| - 1], b[|b| - 1];
      assert (a + b)[..|a + b| - 1] == a + b';
      assert (a + b)[|a + b| - 1] == row;
      FoldAppend(a, b', rec);
      var fa, fb', last := Fold(a, rec), Fold(b', rec), rec(row);
      if fa.Some? && fb'.Some? && last.Some? {
        assert fa.value + fb'.value + last.value == fa.value + (fb'.value + last.value);
      }
    }
  }

  lemma {:induction false} FoldRaisesIff(rows: seq<Row>, rec: Row -> Option<seq<Metric>>)
    ensures Fold(rows, rec).None? <==> exists k :: 0 <= k < |rows| && rec(rows[k]).None?
  {
    if rows != [] {
      var init := rows[..|rows| - 1];
      FoldRaisesIff(init, rec);
      if exists k :: 0 <= k < |init| && rec(init[k]).None? {
        var k :| 0 <= k < |init| && rec(init[k]).None?;
        assert rows[k] == init[k];
      }
      if exists k :: 0 <= k < |rows| && rec(rows[k]).None? {
        var k :| 0 <= k < |rows| && rec(rows[k]).None?;
        if k < |init| {
          assert init[k] == rows[k];
        }
      }
    }
  }

  /** A property every record of every row has holds of the whole result,
      and each row adds at most one record. */
  lemma {:induction false} FoldKeeps(rows: seq<Row>, rec: Row -> Option<seq<Metric>>, good: Metric -> bool)
    requires forall row :: rec(row).Some? ==> |rec(row).value| <= 1 && forall m :: m in rec(row).value ==> good(m)
    ensures Fold(rows, rec).Some? ==> |Fold(rows, rec).value| <= |rows|
    ensures Fold(rows, rec).Some? ==> forall m :: m in Fold(rows, rec).value ==> good(m)
  {
    if rows != [] {
      FoldKeeps(rows[..|rows| - 1], rec, good);
    }
  }

  /** At most one record per row. */
  lemma TransformLength(rows: seq<Row>, admins: map<string, string>, today: string,
                        fromIso: string -> Option<string>)
    ensures Transform(rows, admins, today, fromIso).Some? ==> |Transform(rows, admins, today, fromIso).value| <= |rows|
  {
    FoldKeeps(rows, Records(admins, today, fromIso), (m: Metric) => true);
  }

  /** The transform raises exactly when a row with an id does. */
  lemma TransformRaisesIff(rows: seq<Row>, admins: map<string, string>, today: string,
                           fromIso: string -> Option<string>)
    ensures Transform(rows, admins, today, fromIso).None? <==>
      exists k :: 0 <= k < |rows| && Truthy(Get(rows[k], IdKey)) && ParseConversationRow(rows[k], admins, today, fromIso).None?
  {
    var rec := Records(admins, today, fromIso);
    FoldRaisesIff(rows, rec);
    assert forall k :: 0 <= k < |rows| ==> rec(rows[k]) == RecordOf(rows[k], admins, today, fromIso);
  }

  /** Every record has a conversation id and no tags yet. */
  lemma TransformRecords(rows: seq<Row>, admins: map<string, string>, today: string,
                         fromIso: string -> Option<string>)
    ensures Transform(rows, admins, today, fromIso).Some? ==>
      forall m :: m in Transform(rows, admins, today, fromIso).value ==> m.conversationId != "" && m.tags == TagList([])
  {
    FoldKeeps(rows, Records(admins, today, fromIso), (m: Metric) => m.conversationId != "" && m.tags == TagList([]));
  }

  /** Rows are transformed independently and in order. */
  lemma TransformAppend(a: seq<Row>, b: seq<Row>, admins: map<string, string>, today: string,
                        fromIso: string -> Option<string>)
    ensures Transform(a + b, admins, today, fromIso) ==
      Joined(Transform(a, admins, today, fromIso), Transform(b, admins, today, fromIso))
  {
    FoldAppend(a, b, Records(admins, today, fromIso));
  }

  /** A row without a conversation id contributes nothing. */
  lemma RowWithoutIdDropped(rows: seq<Row>, row: Row, admins: map<string, string>, today: string,
                            fromIso: string -> Option<string>)
    requires !Truthy(Get(row, IdKey))
    ensures Transform(rows + [row], admins, today, fromIso) == Transform(rows, admins, today, fromIso)
  {
    var rec := Records(admins, today, fromIso);
    FoldStep(rows + [row], |rows|, rec);
    assert (rows + [row])[..|rows|] == rows;
    var t := Fold(rows, rec);
    if t.Some? {
      assert t.value + [] == t.value;
    }
  }

  lemma FoldRaisedPrefix(rows: seq<Row>, i: nat, rec: Row -> Option<seq<Metric>>)
    requires i <= |rows| && Fold(rows[..i], rec).None?
    ensures Fold(rows, rec).None?
  {
    FoldAppend(rows[..i], rows[i..], rec);
    assert rows[..i] + rows[i..] == rows;
  }

  /** The loop of step 6 over any per-row step: stops at the first row
      that raises, and otherwise appends each row's records in order. */
  method FoldRows(rows: seq<Row>, rec: Row -> Option<seq<Metric>>) returns (out: seq<Metric>, raised: bool)
    ensures raised <==> Fold(rows, rec).None?
    ensures !raised ==> Fold(rows, rec) == Some(out)
  {
    out := [];
    var i := 0;
    while i < |rows|
      invariant 0 <= i <= |rows|
      invariant Fold(rows[..i], rec) == Some(out)
    {
      FoldStep(rows, i, rec);
      var records := rec(rows[i]);
      if records.None? {
        FoldRaisedPrefix(rows, i + 1, rec);
        return [], true;
      }
      out := out + records.value;
      i := i + 1;
    }
    assert rows[..|rows|] == rows;
    raised := false;
  }

  /** Step 6: the transform loop. Each row is handled as `RecordOf` says (a
      row without an id is skipped, any other is parsed); `raised` says that
      parsing a row raised, which ends the sync before anything is
      written. */
  method TransformRows(rows: seq<Row>, admins: map<string, string>, today: string,
                       fromIso: string -> Option<string>) returns (conversations: seq<Metric>, raised: bool)
    ensures raised <==> Transform(rows, admins, today, fromIso).None?
    ensures !raised ==> Transform(rows, admins, today, fromIso) == Some(conversations)
  {
    conversations, raised := FoldRows(rows, Records(admins, today, fromIso));
  }

  /** The records before `i` have been offered their enrichment, the others
      are untouched, and the counters say how it went. */
  predicate EnrichedUpTo(conversations: seq<Metric>, old_: seq<Metric>, fetch: string -> Enrichment,
                         i: nat, enrichedCount: nat, failedCount: nat)
  {
    i <= |old_| == |conversations|
    && (forall k :: 0 <= k < i ==> conversations[k] == Enriched(old_[k], fetch(old_[k].conversationId)))
    && (forall k :: i <= k < |old_| ==> conversations[k] == old_[k])
    && enrichedCount == MergeCount(old_[..i], fetch)
    && enrichedCount + failedCount == i
  }

  /** Step 7: every record is offered the enrichment of its id, ten
      records per batch; the pause between batches is not modelled. */
  method EnrichAll(old_: seq<Metric>, fetch: string -> Enrichment)
    returns (conversations: seq<Metric>, enrichedCount: nat, failedCount: nat)
    ensures |conversations| == |old_|
    ensures forall k :: 0 <= k < |old_| ==> conversations[k] == Enriched(old_[k], fetch(old_[k].conversationId))
    ensures enrichedCount == MergeCount(old_, fetch)
    ensures enrichedCount + failedCount == |old_|
  {
    conversations := old_;
    enrichedCount, failedCount := 0, 0;
    var i := 0;
    while i < |old_|
      invariant 0 <= i && i % 10 == 0
      invariant EnrichedUpTo(conversations, old_, fetch, Min(i, |old_|), enrichedCount, failedCount)
      decreases |old_| - i
    {
      conversations, enrichedCount, failedCount :=
        EnrichBatch(conversations, old_, fetch, i, Min(i + 10, |old_|), enrichedCount, failedCount);
      i := i + 10;
    }
    assert old_[..|old_|] == old_;
  }

  /** One batch: `for conv in conversations[i:stop]`. */
  method EnrichBatch(convs: seq<Metric>, old_: seq<Metric>, fetch: string -> Enrichment, i: nat, stop: nat,
                     enriched0: nat, failed0: nat)
    returns (conversations: seq<Metric>, enrichedCount: nat, failedCount: nat)
    requires i <= stop <= |old_|
    requires EnrichedUpTo(convs, old_, fetch, i, enriched0, failed0)
    ensures EnrichedUpTo(conversations, old_, fetch, stop, enrichedCount, failedCount)
  {
    conversations, enrichedCount, failedCount := convs, enriched0, failed0;
    var j := i;
    while j < stop
      invariant i <= j <= stop
      invariant EnrichedUpTo(conversations, old_, fetch, j, enrichedCount, failedCount)
    {
      var conv := conversations[j];
      var e := fetch(conv.conversationId);
      MergeCountStep(old_, j, fetch);
      if ShouldMerge(e) {
        conversations := conversations[j := Enriched(conv, e)];
        enrichedCount := enrichedCount + 1;
      } else {
        failedCount := failedCount + 1;
      }
      j := j + 1;
    }
  }

  function Min(a: int, b: int): (m: int)
    ensures m <= a && m <= b && (m == a || m == b)
  {
    if a <= b then a else b
  }

  /** `conv["tags"] = json.dumps(conv["tags"])` for a record whose tags are
      still a list. */
  function Serialized(m: Metric, dumps: seq<string> -> string): (r: Metric)
    ensures r.tags.TagJson?
    ensures m.tags.TagList? ==> r.tags.text == dumps(m.tags.names)
  {
    if m.tags.TagList? then m.(tags := TagJson(dumps(m.tags.names))) else m
  }

  /** Step 8: every tag list becomes its JSON text. */
  method SerializeTags(old_: seq<Metric>, dumps: seq<string> -> string) returns (conversations: seq<Metric>)
    ensures |conversations| == |old_|
    ensures forall k :: 0 <= k < |old_| ==>
      conversations[k] == Serialized(old_[k], dumps)
  {
    conversations := old_;
    var i := 0;
    while i < |conversations|
      invariant 0 <= i <= |conversations| == |old_|
      invariant forall k :: 0 <= k < i ==>
        conversations[k] == Serialized(old_[k], dumps)
      invariant forall k :: i <= k < |old_| ==> conversations[k] == old_[k]
    {
      var conv := conversations[i];
      if conv.tags.TagList? {
        conversations := conversations[i := conv.(tags := TagJson(dumps(conv.tags.names)))];
      }
      i := i + 1;
    }
  }

  /** The batches concatenated. */
  function Flatten<T>(batches: seq<seq<T>>): (r: seq<T>)
    ensures forall b, x :: 0 <= b < |batches| && x in batches[b] ==> x in r
  {
    if batches == [] then [] else Flatten(batches[..|batches| - 1]) + batches[|batches| - 1]
  }

  /** Consecutive slices of at most `size`: every batch but the last is
      full and none is empty. */
  predicate Chunked<T>(batches: seq<seq<T>>, size: nat) {
    (forall b :: 0 <= b < |batches| ==> 0 < |batches[b]| <= size)
    && (forall b :: 0 <= b < |batches| - 1 ==> |batches[b]| == size)
  }

  /** Step 9: the upsert calls, one per slice of a hundred records. */
  method UpsertBatches<T>(conversations: seq<T>) returns (batches: seq<seq<T>>)
    ensures Flatten(batches) == conversations
    ensures Chunked(batches, 100)
    ensures |batches| == (|conversations| + 99) / 100
  {
    batches := [];
    var i := 0;
    while i < |conversations|
      invariant 0 <= i <= |conversations|
      invariant i == 100 * |batches| || i == |conversations|
      invariant |batches| == (i + 99) / 100
      invariant Flatten(batches) == conversations[..i]
      invariant Chunked(batches, 100)
      invariant |batches| > 0 && i < |conversations| ==> |batches[|batches| - 1]| == 100
    {
      var stop := Min(i + 100, |conversations|);
      var batch := conversations[i..stop];
      assert conversations[..stop] == conversations[..i] + batch;
      assert (batches + [batch])[..|batches|] == batches;
      batches := batches + [batch];
      i := stop;
    }
    assert conversations[..|conversations|] == conversations;
  }

  /** `sync_conversations` after the export is parsed: the records written,
      the upsert batches and the enrichment counters. `raised` says that a
      timestamp overflowed in step 6: the error leaves the function and
      nothing is written. */
  method SyncConversations(rows: seq<Row>, admins: map<string, string>, today: string,
                           fromIso: string -> Option<string>, enrich: bool,
                           replies: string -> ConversationReply, dumps: seq<string> -> string)
    returns (raised: bool, processed: nat, batches: seq<seq<Metric>>, enrichedCount: nat, failedCount: nat)
    ensures rows == [] ==> !raised && processed == 0 && batches == []
    ensures raised <==> Transform(rows, admins, today, fromIso).None?
    ensures raised ==> processed == 0 && batches == [] && enrichedCount == 0 && failedCount == 0
    ensures !raised ==> Transform(rows, admins, today, fromIso).Some? && processed == |Transform(rows, admins, today, fromIso).value|
    ensures Chunked(batches, 100)
    ensures |Flatten(batches)| == processed
    ensures !raised ==> forall k :: 0 <= k < processed ==>
      var m := Transform(rows, admins, today, fromIso).value[k];
      var e := if enrich then Enriched(m, EnrichConversation(replies(m.conversationId))) else m;
      Flatten(batches)[k] == Serialized(e, dumps)
    ensures enrichedCount + failedCount == (if enrich then processed else 0)
  {
    raised, enrichedCount, failedCount := false, 0, 0;
    batches := [];
    if rows == [] {
      processed := 0;
      return;
    }
    var parsed;
    parsed, raised := TransformRows(rows, admins, today, fromIso);
    if raised {
      processed := 0;
      return;
    }
    var conversations := parsed;
    if enrich && conversations != [] {
      conversations, enrichedCount, failedCount := EnrichAll(conversations, EnrichById(replies));
    }
    var serialized := SerializeTags(conversations, dumps);
    batches := UpsertBatches(serialized);
    processed := |serialized|;
  }
}
