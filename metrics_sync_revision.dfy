/** The revision of the sync script under `scripts/intercom/`: it dates a
    row by its closing time read as whole seconds, maps every 0..100 score
    as a percentage, keeps unknown agent ids as they are, has no tag
    enrichment, and upserts all records in one call. */
module MetricsSyncRevision {
  import opened Text
  import opened Rows
  import opened Calendar
  import opened Timestamps
  import opened Scores
  import opened Agents
  import opened Redactor
  import opened MetricsSync

  /** One `qa_metrics` record of the revision. */
  datatype RevisionMetric = RevisionMetric(
    conversationId: string,
    metricDate: string,
    agentName: string,
    aiScore: Option<real>,
    aiExplanation: Option<string>,
    resolutionStatus: string,
    responseTimeMinutes: Option<int>,
    customerSatisfactionScore: Option<real>,
    issueComplexity: Option<string>)

  /** `row.get("conversation_last_closed_at") or
      row.get("conversation_started_at") or ""`. */
  function RevisionTimestamp(row: Row): (ts: string)
    ensures Truthy(Get(row, ClosedKey)) ==> ts == Get(row, ClosedKey).value
    ensures !Truthy(Get(row, ClosedKey)) && Truthy(Get(row, StartedKey)) ==> ts == Get(row, StartedKey).value
    ensures !Truthy(Get(row, ClosedKey)) && !Truthy(Get(row, StartedKey)) ==> ts == ""
  {
    var keys := [ClosedKey, StartedKey];
    assert keys[0] == ClosedKey && keys[1] == StartedKey;
    FirstTruthy(row, keys, "")
  }

  /** `parse_conversation_row` of the revision. */
  function RevisionParseConversationRow(row: Row, admins: map<string, string>, today: string): (m: RevisionMetric)
    ensures m.conversationId == ConversationId(row)
    ensures m.metricDate == RevisionMetricDate(RevisionTimestamp(row), today)
    ensures m.agentName == RevisionResolveAgentName(AgentRaw(row), admins)
    ensures m.aiScore == RevisionScoreOfText(FirstTruthy(row, ScoreKeys, ""))
    ensures m.aiScore.Some? ==> 1.0 <= m.aiScore.value <= 5.0
    ensures m.aiExplanation.None? <==> !Truthy(Get(row, ExplanationKey))
    ensures m.aiExplanation == Feedback(row)
    ensures m.resolutionStatus == ResolutionStatus(row)
    ensures m.responseTimeMinutes.None? && m.customerSatisfactionScore.None? && m.issueComplexity.None?
  {
    RevisionMetric(
      conversationId := ConversationId(row),
      metricDate := RevisionMetricDate(RevisionTimestamp(row), today),
      agentName := RevisionResolveAgentName(AgentRaw(row), admins),
      aiScore := RevisionScoreOfText(FirstTruthy(row, ScoreKeys, "")),
      aiExplanation := Feedback(row),
      resolutionStatus := ResolutionStatus(row),
      responseTimeMinutes := None,
      customerSatisfactionScore := None,
      issueComplexity := None)
  }

  /** The closing time decides the date, whatever the start time says. */
  lemma ClosedSecondsDecide(row: Row, v: nat, today: string)
    requires Get(row, ClosedKey) == Some(NatToString(v))
    requires v < FirstSecondAfterMaxYear
    ensures UtcDateOfSeconds(v).Some?
    ensures RevisionMetricDate(RevisionTimestamp(row), today) == IsoDate(UtcDateOfSeconds(v).value)
  {
    ParseIntOfNatToString(v);
    UtcDateInRange(v);
  }

  /** A closing time in milliseconds gives today's date. */
  lemma ClosedMillisecondsGiveToday(row: Row, v: nat, today: string)
    requires Get(row, ClosedKey) == Some(NatToString(v))
    requires v >= FirstSecondAfterMaxYear
    ensures RevisionMetricDate(RevisionTimestamp(row), today) == today
  {
    RevisionMillisecondsGiveToday(v, today);
  }

  /** A closing time written as ISO text rather than seconds (its fifth
      character is the `-` after the year) gives today's date: `int()`
      rejects it. */
  lemma IsoClosingTimeGivesToday(row: Row, t: string, today: string)
    requires Get(row, ClosedKey) == Some(t)
    requires |t| > 4 && IsDigit(t[0]) && t[4] == '-' && !IsSpace(t[|t| - 1])
    ensures RevisionMetricDate(RevisionTimestamp(row), today) == today
  {
    assert RevisionTimestamp(row) == t;
    ParseIntRejectsInnerNonDigit(t, 4);
  }

  /** A row with neither time is dated today. */
  lemma RevisionNoTimeGivesToday(row: Row, today: string)
    requires !Truthy(Get(row, ClosedKey)) && !Truthy(Get(row, StartedKey))
    ensures RevisionMetricDate(RevisionTimestamp(row), today) == today
  {
    assert Strip("") == "";
  }

  /** The record a row yields: none without a conversation id. */
  function RevisionRecordOf(row: Row, admins: map<string, string>, today: string): (ms: seq<RevisionMetric>)
    ensures |ms| <= 1
    ensures ms != [] <==> Truthy(Get(row, IdKey))
  {
    if Truthy(Get(row, IdKey)) then [RevisionParseConversationRow(row, admins, today)] else []
  }

  /** The records of the revision: one per row with a conversation id, in
      row order. */
  function RevisionTransform(rows: seq<Row>, admins: map<string, string>, today: string): (ms: seq<RevisionMetric>)
    ensures |ms| <= |rows|
  {
    if rows == [] then []
    else RevisionTransform(rows[..|rows| - 1], admins, today) + RevisionRecordOf(rows[|rows| - 1], admins, today)
  }

  /** Every row with an id yields a record, at its place: the rows before
      it yield the records before it. */
  lemma RowWithIdKept(rows: seq<Row>, row: Row, admins: map<string, string>, today: string)
    requires Truthy(Get(row, IdKey))
    ensures RevisionTransform(rows + [row], admins, today) ==
      RevisionTransform(rows, admins, today) + [RevisionParseConversationRow(row, admins, today)]
    ensures RevisionParseConversationRow(row, admins, today).conversationId == Get(row, IdKey).value
  {
    assert (rows + [row])[..|rows|] == rows;
  }

  /** A row without a conversation id yields no record. */
  lemma RevisionRowWithoutIdDropped(rows: seq<Row>, row: Row, admins: map<string, string>, today: string)
    requires !Truthy(Get(row, IdKey))
    ensures RevisionTransform(rows + [row], admins, today) == RevisionTransform(rows, admins, today)
  {
    assert (rows + [row])[..|rows|] == rows;
  }

  /** `upsert_conversations`: one call with every record, or none for no
      records. */
  function UpsertCalls(conversations: seq<RevisionMetric>): (calls: seq<seq<RevisionMetric>>)
    ensures Flatten(calls) == conversations
    ensures |calls| <= 1
  {
    if conversations == [] then [] else [conversations]
  }

  /** The transform loop of the revision. */
  method RevisionTransformRows(rows: seq<Row>, admins: map<string, string>, today: string)
    returns (conversations: seq<RevisionMetric>)
    ensures conversations == RevisionTransform(rows, admins, today)
  {
    conversations := [];
    var i := 0;
    while i < |rows|
      invariant 0 <= i <= |rows|
      invariant conversations == RevisionTransform(rows[..i], admins, today)
    {
      RevisionTransformStep(rows, i, admins, today);
      conversations := conversations + RevisionRecordOf(rows[i], admins, today);
      i := i + 1;
    }
    assert rows[..|rows|] == rows;
  }

  /** One more row extends the records by that row's record. */
  lemma RevisionTransformStep(rows: seq<Row>, i: nat, admins: map<string, string>, today: string)
    requires i < |rows|
    ensures RevisionTransform(rows[..i + 1], admins, today) ==
      RevisionTransform(rows[..i], admins, today) + RevisionRecordOf(rows[i], admins, today)
  {
    assert rows[..i + 1][..i] == rows[..i];
  }

  /** `sync_conversations` of the revision after the export is parsed. The
      ids already stored are loaded but not used: the skip is commented
      out, so the records do not depend on them. */
  method RevisionSyncConversations(rows: seq<Row>, existingIds: set<string>, admins: map<string, string>, today: string)
    returns (conversations: seq<RevisionMetric>, calls: seq<seq<RevisionMetric>>)
    ensures conversations == RevisionTransform(rows, admins, today)
    ensures calls == UpsertCalls(conversations) && Flatten(calls) == conversations
  {
    conversations := RevisionTransformRows(rows, admins, today);
    calls := UpsertCalls(conversations);
  }
}
