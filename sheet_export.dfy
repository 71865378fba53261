/** The Google Sheets export (`intercom_cx_export_run.py`): each export row
    is mapped to the canonical `[date, agent, score, conversation id]`, the
    score and explanation columns are detected from the header, and the
    rows whose conversation id is new are appended to the sheet once each.
    The sheet contents, the job id and the clock are parameters. */
module SheetExport {
  import opened Text
  import opened Rows
  import opened Calendar
  import opened Timestamps
  import opened Scores
  import opened Redactor
  import opened Tags

  const IdKey: string := "conversation_id"
  const StartedKey: string := "conversation_started_at"
  const ClosedKey: string := "conversation_last_closed_at"

  /** `attr_map`: the column each logical field is read from, `None` where
      no column is known. */
  datatype AttrMap = AttrMap(
    conversationId: Option<string>,
    startedAt: Option<string>,
    closedAt: Option<string>,
    assigneeName: Option<string>,
    cxScore: Option<string>,
    cxExplanation: Option<string>)

  /** `attr_map` as `run_window` sets it up, before auto-detection. */
  const InitialAttrMap: AttrMap :=
    AttrMap(Some(IdKey), Some(StartedKey), Some(ClosedKey), None, None, None)

  /** The agent columns `map_row_to_canonical` tries after `assignee_name`. */
  const AgentFieldKeys: seq<string> := [
    "currently_assigned_teammate_id", "currently_assigned_teammate_raw_id",
    "currently_assigned_team_id", "assignee_id", "assignee", "assignee_user_id",
    "last_rated_teammate_raw_id", "reply_participant_teammate_ids"]
  const AgentTokens: seq<string> := ["assignee", "teammate", "agent", "owner"]

  /** The score columns it tries after `cx_score`. */
  const ScoreFieldKeys: seq<string> := [
    "ai_cx_score_rating", "conversation_rating", "fin_ai_agent_rating",
    "lastRatingValue", "totalRatings", "last_teammate_rating"]
  const ScoreTokens: seq<string> := ["cx", "score", "rating"]

  /* Mapping one row. */

  /** The value of the column `mapped` names, when both are truthy. */
  function MappedCell(row: Row, mapped: Option<string>): (v: Option<string>)
    ensures v.Some? ==> Truthy(mapped) && Get(row, mapped.value) == v && v.value != ""
    ensures v.None? ==> !Truthy(mapped) || !Truthy(Get(row, mapped.value))
  {
    if Truthy(mapped) && Truthy(Get(row, mapped.value)) then Get(row, mapped.value) else None
  }

  /** The timestamp text: the mapped closing column, then the mapped start
      column, then `closed or started or ""` by their own names. */
  function RowTimestamp(row: Row, attr: AttrMap): string {
    match MappedCell(row, attr.closedAt)
    case Some(t) => t
    case None =>
      match MappedCell(row, attr.startedAt)
      case Some(t) => t
      case None => FirstTruthy(row, [ClosedKey, StartedKey], "")
  }

  /** With the columns named after themselves, the closing
      time is preferred over the start time. */
  lemma ClosedPreferred(row: Row, attr: AttrMap)
    requires attr.closedAt == Some(ClosedKey) && attr.startedAt == Some(StartedKey)
    ensures Truthy(Get(row, ClosedKey)) ==> RowTimestamp(row, attr) == Get(row, ClosedKey).value
    ensures !Truthy(Get(row, ClosedKey)) && Truthy(Get(row, StartedKey)) ==>
      RowTimestamp(row, attr) == Get(row, StartedKey).value
    ensures !Truthy(Get(row, ClosedKey)) && !Truthy(Get(row, StartedKey)) ==> RowTimestamp(row, attr) == ""
  {
    var keys := [ClosedKey, StartedKey];
    assert keys[0] == ClosedKey && keys[1] == StartedKey;
  }

  /** `date_iso`: an integer timestamp as a full UTC date-time, anything
      else as it stands. */
  function CanonicalDate(row: Row, attr: AttrMap): (d: string)
    ensures ParseInt(RowTimestamp(row, attr)).None? ==> d == RowTimestamp(row, attr)
  {
    CanonicalTimestamp(RowTimestamp(row, attr))
  }

  /** A closing time in whole seconds becomes the ISO date-time of that
      instant. */
  lemma IntegerClosingTimeBecomesDateTime(row: Row, v: nat)
    requires Get(row, ClosedKey) == Some(NatToString(v))
    requires v < FirstSecondAfterMaxYear
    ensures UtcDateOfSeconds(v).Some?
    ensures var d := CanonicalDate(row, InitialAttrMap);
      |d| == 25 && d[..10] == IsoDate(UtcDateOfSeconds(v).value)
  {
    ClosedPreferred(row, InitialAttrMap);
    ParseIntOfNatToString(v);
    UtcDateInRange(v);
  }

  /** The last position of `x` in `xs`. */
  function LastIndex(xs: seq<string>, x: string): (r: Option<nat>)
    ensures r.None? <==> x !in xs
    ensures r.Some? ==> r.value < |xs| && xs[r.value] == x && forall j :: r.value < j < |xs| ==> xs[j] != x
  {
    if xs == [] then None
    else if xs[|xs| - 1] == x then Some(|xs| - 1)
    else
      var r := LastIndex(xs[..|xs| - 1], x);
      assert forall j :: 0 <= j < |xs| - 1 ==> xs[..|xs| - 1][j] == xs[j];
      r
  }

  /** `{k.lower(): k for k in row.keys()}[fk]`: the header whose lower-case
      form is `fk`, and of several such the one that comes LAST in
      `row.keys()`, that is, whose first occurrence is latest, since a later
      key overwrites an earlier one in the comprehension. */
  function KeyOfLower(row: Row, fk: string): (k: Option<string>)
    ensures k.None? <==> forall i :: 0 <= i < |row| ==> Lower(row[i].0) != fk
    ensures k.Some? ==> HasKey(row, k.value) && Lower(k.value) == fk
    ensures k.Some? ==> forall i :: 0 <= i < |row| && Lower(row[i].0) == fk ==>
      FirstPos(row, row[i].0) <= FirstPos(row, k.value)
  {
    var keys := Keys(row);
    var lowered := LowerAll(keys);
    match LastIndex(lowered, fk)
    case None =>
      assert forall i :: 0 <= i < |row| ==> Lower(row[i].0) != fk by {
        forall i | 0 <= i < |row| ensures Lower(row[i].0) != fk {
          var l :| 0 <= l < |keys| && keys[l] == row[i].0;
          assert lowered[l] == Lower(row[i].0);
        }
      }
      None
    case Some(l) =>
      KeysLatest(row, keys, lowered, fk, l);
      Some(keys[l])
  }

  /** The key at the last index of `fk` among the lowered keys has the
      latest first occurrence of all headers lowering to `fk`. */
  lemma KeysLatest(row: Row, keys: seq<string>, lowered: seq<string>, fk: string, l: nat)
    requires keys == Keys(row) && lowered == LowerAll(keys)
    requires l < |lowered| && lowered[l] == fk && forall j :: l < j < |lowered| ==> lowered[j] != fk
    ensures HasKey(row, keys[l]) && Lower(keys[l]) == fk
    ensures forall i :: 0 <= i < |row| && Lower(row[i].0) == fk ==> FirstPos(row, row[i].0) <= FirstPos(row, keys[l])
  {
    forall i | 0 <= i < |row| && Lower(row[i].0) == fk
      ensures FirstPos(row, row[i].0) <= FirstPos(row, keys[l])
    {
      var m :| 0 <= m < |keys| && keys[m] == row[i].0;
      KeyNoLater(row, keys, lowered, fk, l, m);
    }
  }

  /** One header lowering to `fk` first occurs no later than that key. */
  lemma KeyNoLater(row: Row, keys: seq<string>, lowered: seq<string>, fk: string, l: nat, m: nat)
    requires keys == Keys(row) && lowered == LowerAll(keys)
    requires l < |lowered| && forall j :: l < j < |lowered| ==> lowered[j] != fk
    requires m < |keys| && Lower(keys[m]) == fk
    ensures FirstPos(row, keys[m]) <= FirstPos(row, keys[l])
  {
    assert lowered[m] == fk;
    if m < l {
      KeysOrdered(row, m, l);
    }
  }

  /** Which spelling `keys_lower` keeps: a header at its first occurrence
      `i`, when every header with the same lower-case form has already
      appeared by position `i`, is the one stored for that form. */
  lemma LastHeaderWins(row: Row, i: nat)
    requires i < |row| && forall m :: 0 <= m < i ==> row[m].0 != row[i].0
    requires forall j :: 0 <= j < |row| && Lower(row[j].0) == Lower(row[i].0) ==>
      exists m :: 0 <= m <= i && row[m].0 == row[j].0
    ensures KeyOfLower(row, Lower(row[i].0)) == Some(row[i].0)
  {
    var fk := Lower(row[i].0);
    var k := KeyOfLower(row, fk).value;
    var p := FirstPos(row, k);
    assert FirstPos(row, row[i].0) == i;
    var m :| 0 <= m <= i && row[m].0 == row[p].0;
    assert p <= m;
  }

  /** A field matched without regard to case: the value under
      `keys_lower[f.lower()]` when it is neither missing nor empty. */
  function ValueByLowerKey(row: Row, f: string): (v: Option<string>)
    ensures v.Some? ==> v.value != ""
  {
    match KeyOfLower(row, Lower(f))
    case None => None
    case Some(k) => if Truthy(Get(row, k)) then Get(row, k) else None
  }

  /** The value one candidate field gives: for scores the exact column
      comes first, then the case-insensitive match; for agents only the
      latter. A falsy candidate is skipped. */
  function CandidateValue(row: Row, f: Option<string>, exactFirst: bool): (v: Option<string>)
    ensures v.Some? ==> Truthy(f) && v.value != ""
  {
    if !Truthy(f) then None
    else if exactFirst && Truthy(Get(row, f.value)) then Get(row, f.value)
    else ValueByLowerKey(row, f.value)
  }

  /** The first value `value` gives along `xs` (a `for` loop with `break`). */
  function FirstValue<T>(xs: seq<T>, value: T -> Option<string>): (v: Option<string>)
    ensures v.None? <==> forall i :: 0 <= i < |xs| ==> value(xs[i]).None?
    ensures v.Some? ==> exists i :: 0 <= i < |xs| && value(xs[i]) == v && forall j :: 0 <= j < i ==> value(xs[j]).None?
  {
    if xs == [] then None
    else if value(xs[0]).Some? then value(xs[0])
    else
      var rest := FirstValue(xs[1..], value);
      assert forall i :: 1 <= i < |xs| ==> xs[1..][i - 1] == xs[i];
      rest
  }

  /** The first candidate field with a value. */
  function FirstCandidate(row: Row, fields: seq<Option<string>>, exactFirst: bool): (v: Option<string>)
    ensures v.None? <==> forall i :: 0 <= i < |fields| ==> CandidateValue(row, fields[i], exactFirst).None?
    ensures v.Some? ==> v.value != ""
  {
    FirstValue(fields, f => CandidateValue(row, f, exactFirst))
  }

  /** The value of `key` when its lower-case form contains one of
      `tokens` and the value is not empty. */
  function KeywordValue(row: Row, key: string, tokens: seq<string>): (v: Option<string>)
    ensures v.Some? ==> AnyKeywordIn(tokens, Lower(key)) && Get(row, key) == v && v.value != ""
  {
    if AnyKeywordIn(tokens, Lower(key)) && Truthy(Get(row, key)) then Get(row, key) else None
  }

  /** The first column, in header order, whose lower-case name contains
      one of `tokens` and whose value is not empty. */
  function FirstKeywordValue(row: Row, tokens: seq<string>): (v: Option<string>)
    ensures v.None? <==> forall i :: 0 <= i < |row| ==> KeywordValue(row, row[i].0, tokens).None?
    ensures v.Some? ==> v.value != ""
  {
    var keys := Keys(row);
    FirstValue(keys, k => KeywordValue(row, k, tokens))
  }

  /** The agent of a row: the first candidate column with a value, else the
      first column named like an assignee, else `Unknown`. */
  function CanonicalAgent(row: Row, attr: AttrMap): (a: string)
    ensures a != ""
  {
    match FirstCandidate(row, [attr.assigneeName] + OptionAll(AgentFieldKeys), false)
    case Some(a) => a
    case None =>
      match FirstKeywordValue(row, AgentTokens)
      case Some(a) => a
      case None => "Unknown"
  }

  /** Every name wrapped as a present candidate. */
  function OptionAll(names: seq<string>): (r: seq<Option<string>>)
    ensures |r| == |names| && forall i :: 0 <= i < |names| ==> r[i] == Some(names[i])
  {
    if names == [] then [] else [Some(names[0])] + OptionAll(names[1..])
  }

  /** A candidate column is found whatever the case of its header: when
      header `i` equals `f` up to case, holds a value, no later header has
      the same lower-case form and no other header is spelled the same, that
      value is the candidate's. */
  lemma CandidateMatchesAnyCase(row: Row, f: string, i: nat)
    requires f != "" && i < |row| && Lower(row[i].0) == Lower(f) && row[i].1 != ""
    requires forall j :: i < j < |row| ==> Lower(row[j].0) != Lower(f)
    requires forall j :: 0 <= j < |row| && j != i ==> row[j].0 != row[i].0
    ensures CandidateValue(row, Some(f), false) == Some(row[i].1)
  {
    forall j | 0 <= j < |row| && Lower(row[j].0) == Lower(row[i].0)
      ensures exists m :: 0 <= m <= i && row[m].0 == row[j].0
    {
      assert j <= i;
    }
    LastHeaderWins(row, i);
    GetUniqueKey(row, i);
  }

  /** A key that occurs once is read at its own position. */
  lemma {:induction false} GetUniqueKey(row: Row, i: nat)
    requires i < |row|
    requires forall j :: 0 <= j < |row| && j != i ==> row[j].0 != row[i].0
    ensures Get(row, row[i].0) == Some(row[i].1)
  {
    if i > 0 {
      assert row[1..][i - 1] == row[i];
      forall j | 0 <= j < |row| - 1 && j != i - 1
        ensures row[1..][j].0 != row[1..][i - 1].0
      {
        assert row[1..][j] == row[j + 1];
      }
      GetUniqueKey(row[1..], i - 1);
    }
  }

  /* A header repeated around a case variant of it, as in the CSV headers
     `Assignee, assignee, Assignee`: `row.keys()` lists `Assignee` once, in
     its first place, so `keys_lower` ends up storing `assignee`. */

  /** The case variant between the two copies is the spelling kept. */
  lemma CaseVariantKept(row: Row)
    requires |row| == 3 && row[0].0 == row[2].0 && row[0].0 != row[1].0
    ensures KeyOfLower(row, Lower(row[1].0)) == Some(row[1].0)
  {
    var k := KeyOfLower(row, Lower(row[1].0));
    assert k.Some?;
    var p := FirstPos(row, k.value);
    assert FirstPos(row, row[1].0) == 1;
    assert p != 0 && p != 2;
  }

  /** ... and it is read at its own cell. */
  lemma CaseVariantRead(row: Row)
    requires |row| == 3 && row[0].0 == row[2].0 && row[0].0 != row[1].0
    ensures KeyOfLower(row, Lower(row[1].0)) == Some(row[1].0) && Get(row, row[1].0) == Some(row[1].1)
  {
    CaseVariantKept(row);
    CaseVariantCell(row);
  }

  /** The case variant occurs once, so it is read at its own cell. */
  lemma CaseVariantCell(row: Row)
    requires |row| == 3 && row[0].0 == row[2].0 && row[0].0 != row[1].0
    ensures Get(row, row[1].0) == Some(row[1].1)
  {
    GetUniqueKey(row, 1);
  }

  /** A candidate field that `keys_lower` maps to itself reads its own cell. */
  lemma CandidateByOwnKey(row: Row, f: string, v: string)
    requires f != "" && v != "" && KeyOfLower(row, Lower(f)) == Some(f) && Get(row, f) == Some(v)
    ensures CandidateValue(row, Some(f), false) == Some(v)
  { }

  /** So the case variant, as a candidate, gives its own cell. */
  lemma CaseVariantCandidate(row: Row)
    requires |row| == 3 && row[0].0 == row[2].0 && row[0].0 != row[1].0
    requires row[1].0 != "" && row[1].1 != ""
    ensures CandidateValue(row, Some(row[1].0), false) == Some(row[1].1)
  {
    CaseVariantRead(row);
    CandidateByOwnKey(row, row[1].0, row[1].1);
  }

  /** A candidate of a length no header has finds nothing. */
  lemma CandidateOfOtherLength(row: Row, f: string)
    requires forall i :: 0 <= i < |row| ==> |row[i].0| != |f|
    ensures CandidateValue(row, Some(f), false).None?
  {
    assert KeyOfLower(row, Lower(f)).None?;
  }

  /** The first five candidates of `map_row_to_canonical` find nothing in a
      row whose headers all have eight characters. */
  lemma EarlyCandidatesMiss(row: Row, fields: seq<Option<string>>)
    requires |row| == 3 && |row[0].0| == 8 && |row[1].0| == 8 && row[0].0 == row[2].0
    requires |fields| == 9 && fields[0].None? && forall j :: 1 <= j < 5 ==> fields[j].Some? && |fields[j].value| != 8
    ensures forall j :: 0 <= j < 5 ==> CandidateValue(row, fields[j], false).None?
  {
    forall j | 1 <= j < 5 ensures CandidateValue(row, fields[j], false).None? {
      CandidateOfOtherLength(row, fields[j].value);
    }
  }

  /** The `for ... break` over the candidates stops at the first one with a
      value. */
  lemma FirstCandidateAt(row: Row, fields: seq<Option<string>>, k: nat)
    requires k < |fields| && CandidateValue(row, fields[k], false).Some?
    requires forall j :: 0 <= j < k ==> CandidateValue(row, fields[j], false).None?
    ensures FirstCandidate(row, fields, false) == CandidateValue(row, fields[k], false)
  {
    var v := FirstCandidate(row, fields, false);
    var i :| 0 <= i < |fields| && CandidateValue(row, fields[i], false) == v
      && forall j :: 0 <= j < i ==> CandidateValue(row, fields[j], false).None?;
    assert i == k;
  }

  /** With the case variant sixth among the candidates, it is the one found. */
  lemma CaseVariantFirstCandidate(row: Row, fields: seq<Option<string>>)
    requires |row| == 3 && row[0].0 == row[2].0 && row[0].0 != row[1].0
    requires |row[0].0| == 8 && |row[1].0| == 8 && row[1].1 != ""
    requires |fields| == 9 && fields[0].None? && fields[5] == Some(row[1].0)
    requires forall j :: 1 <= j < 5 ==> fields[j].Some? && |fields[j].value| != 8
    ensures FirstCandidate(row, fields, false) == Some(row[1].1)
  {
    CaseVariantCandidate(row);
    EarlyCandidatesMiss(row, fields);
    FirstCandidateAt(row, fields, 5);
  }

  /** `assignee` is the sixth agent candidate when no column is mapped. */
  lemma AssigneeSixthCandidate()
    ensures ([InitialAttrMap.assigneeName] + OptionAll(AgentFieldKeys))[5] == Some("assignee")
  { }

  /** Any row `A, assignee, A` with `A` of eight characters takes its agent
      from the middle cell. */
  lemma CaseVariantAgent(row: Row)
    requires |row| == 3 && row[0].0 == row[2].0 && row[0].0 != row[1].0
    requires row[1].0 == "assignee" && |row[0].0| == 8 && row[1].1 != ""
    ensures CanonicalAgent(row, InitialAttrMap) == row[1].1
  {
    var fields := [InitialAttrMap.assigneeName] + OptionAll(AgentFieldKeys);
    AssigneeSixthCandidate();
    assert |AgentFieldKeys[0]| == 30 && |AgentFieldKeys[1]| == 34 && |AgentFieldKeys[2]| == 26 && |AgentFieldKeys[3]| == 11;
    CaseVariantFirstCandidate(row, fields);
  }

  /** Headers `Assignee, assignee, Assignee` with cells `x, y, z`. */
  const RepeatedHeaderRow: Row := [("Assignee", "x"), ("assignee", "y"), ("Assignee", "z")]

  /** `row.keys()` lists `Assignee` once, in its first place; `keys_lower`
      stores `assignee`, and `row.get("assignee")` is `y`. */
  lemma RepeatedHeaderKey()
    ensures Keys(RepeatedHeaderRow) == ["Assignee", "assignee"]
    ensures KeyOfLower(RepeatedHeaderRow, Lower("assignee")) == Some("assignee")
    ensures Get(RepeatedHeaderRow, "assignee") == Some("y")
  {
    var row := RepeatedHeaderRow;
    assert row[..2][..1] == [("Assignee", "x")];
    assert row[..2][..1][..0] == [];
    assert Keys(row[..2][..1]) == ["Assignee"];
    assert Keys(row[..2]) == ["Assignee", "assignee"];
    CaseVariantRead(row);
  }

  /** Hence the agent of that row is `y`, not the last cell `z`. */
  lemma RepeatedHeaderAgent()
    ensures CanonicalAgent(RepeatedHeaderRow, InitialAttrMap) == "y"
  {
    CaseVariantAgent(RepeatedHeaderRow);
  }

  /** The raw score text: the first candidate column with a value (exact
      name first, then any case), else the first column named like a
      score, else none. */
  function DetectedScore(row: Row, attr: AttrMap): (s: Option<string>)
    ensures s.Some? ==> s.value != ""
  {
    match FirstCandidate(row, [attr.cxScore] + OptionAll(ScoreFieldKeys), true)
    case Some(s) => Some(s)
    case None => FirstKeywordValue(row, ScoreTokens)
  }

  /** `row.get(attr_map.get("conversation_id") or "conversation_id") or
      row.get("conversation_id") or ""`. */
  function CanonicalConversationId(row: Row, attr: AttrMap): (id: string)
    ensures attr.conversationId == Some(IdKey) || !Truthy(attr.conversationId) ==>
      id == (if Truthy(Get(row, IdKey)) then Get(row, IdKey).value else "")
    ensures id != "" ==>
      Truthy(Get(row, IdKey)) || (Truthy(attr.conversationId) && Truthy(Get(row, attr.conversationId.value)))
  {
    var key := if Truthy(attr.conversationId) then attr.conversationId.value else IdKey;
    if Truthy(Get(row, key)) then Get(row, key).value
    else FirstTruthy(row, [IdKey], "")
  }

  /** The four canonical values of a row. */
  datatype Canonical = Canonical(date: string, agent: string, score: Cell, conversationId: string)

  /** `map_row_to_canonical`. */
  function MapRowToCanonical(row: Row, attr: AttrMap): (c: Canonical)
    ensures c.date == CanonicalDate(row, attr)
    ensures c.agent == CanonicalAgent(row, attr) && c.agent != ""
    ensures c.score == FinalScore(DetectedScore(row, attr))
    ensures DetectedScore(row, attr).None? ==> c.score == Str("")
    ensures c.conversationId == CanonicalConversationId(row, attr)
  {
    Canonical(CanonicalDate(row, attr), CanonicalAgent(row, attr), FinalScore(DetectedScore(row, attr)),
              CanonicalConversationId(row, attr))
  }

  /* Column auto-detection. */

  const ScoreColumnTokens: seq<string> := ["ai_cx", "cx_score", "conversation_cx", "fin_ai", "lastrating", "rating"]
  const ExplanationTokens: seq<string> := ["explain", "explanation", "breakdown", "reason", "ai_cx"]
  const PreferredExplanationTokens: seq<string> := ["explain", "breakdown", "explanation"]

  /** The first header the test accepts (a `for` loop with `break`). */
  function FirstHeader(headers: seq<string>, accepts: string -> bool): (h: Option<string>)
    ensures h.None? <==> forall i :: 0 <= i < |headers| ==> !accepts(headers[i])
    ensures h.Some? ==> exists i :: 0 <= i < |headers| && headers[i] == h.value && accepts(h.value)
                                    && forall j :: 0 <= j < i ==> !accepts(headers[j])
  {
    if headers == [] then None
    else if accepts(headers[0]) then Some(headers[0])
    else
      var rest := FirstHeader(headers[1..], accepts);
      assert forall i :: 1 <= i < |headers| ==> headers[1..][i - 1] == headers[i];
      rest
  }

  predicate ScoreHeader(h: string) {
    AnyKeywordIn(ScoreColumnTokens, Lower(h))
  }

  predicate ExplanationHeader(h: string) {
    AnyKeywordIn(ExplanationTokens, Lower(h)) && AnyKeywordIn(PreferredExplanationTokens, Lower(h))
  }

  predicate FallbackExplanationHeader(h: string) {
    Contains(Lower(h), "ai_cx") && Contains(Lower(h), "explain")
  }

  /** The auto-detection of `run_window`: with no rows nothing changes;
      otherwise an unset score column becomes the first header naming a
      score, and an unset explanation column the first header naming an
      explanation or breakdown, else the fallback pick. */
  function DetectColumns(rows: seq<Row>, attr: AttrMap): (a: AttrMap)
    ensures rows == [] ==> a == attr
    ensures a.conversationId == attr.conversationId && a.startedAt == attr.startedAt
    ensures a.closedAt == attr.closedAt && a.assigneeName == attr.assigneeName
    ensures attr.cxScore.Some? ==> a.cxScore == attr.cxScore
    ensures rows != [] && attr.cxScore.None? ==> a.cxScore == FirstHeader(Keys(rows[0]), ScoreHeader)
    ensures attr.cxExplanation.Some? ==> a.cxExplanation == attr.cxExplanation
  {
    if rows == [] then attr
    else
      var headers := Keys(rows[0]);
      var score := if attr.cxScore.None? then FirstHeader(headers, ScoreHeader) else attr.cxScore;
      var explanation :=
        if attr.cxExplanation.Some? then attr.cxExplanation
        else match FirstHeader(headers, ExplanationHeader)
          case Some(h) => Some(h)
          case None => FirstHeader(headers, FallbackExplanationHeader);
      attr.(cxScore := score, cxExplanation := explanation)
  }

  /** The fallback loop for the explanation column never picks anything: a
      header containing both `ai_cx` and `explain` already passed the first
      loop. */
  lemma FallbackNeverSelects(headers: seq<string>)
    ensures FirstHeader(headers, ExplanationHeader).None? ==> FirstHeader(headers, FallbackExplanationHeader).None?
  {
    if FirstHeader(headers, ExplanationHeader).None? {
      forall i | 0 <= i < |headers|
        ensures !FallbackExplanationHeader(headers[i])
      {
        if FallbackExplanationHeader(headers[i]) {
          assert ExplanationTokens[0] == "explain" && PreferredExplanationTokens[0] == "explain";
          assert ExplanationHeader(headers[i]);
        }
      }
    }
  }

  /** The detected score column, when the start had none, is a header of
      the first row that contains a score token, with no such header
      before it; it is absent exactly when no header contains one. */
  lemma {:induction false} DetectedScoreColumn(rows: seq<Row>)
    requires rows != []
    ensures var h := DetectColumns(rows, InitialAttrMap).cxScore;
      (h.None? <==> forall i :: 0 <= i < |rows[0]| ==> !ScoreHeader(rows[0][i].0))
      && (h.Some? ==> exists i :: 0 <= i < |rows[0]| && rows[0][i].0 == h.value && ScoreHeader(h.value)
                        && forall j :: 0 <= j < i ==> !ScoreHeader(rows[0][j].0))
  {
    assert DetectColumns(rows, InitialAttrMap).cxScore == FirstHeader(Keys(rows[0]), ScoreHeader);
    FirstHeaderOfKeys(rows[0], ScoreHeader);
  }

  /** The first accepted header in `row.keys()` is the header of the first
      accepted entry of the row; there is none exactly when no entry is
      accepted. */
  lemma FirstHeaderOfKeys(row: Row, accepts: string -> bool)
    ensures var h := FirstHeader(Keys(row), accepts);
      (h.None? <==> forall i :: 0 <= i < |row| ==> !accepts(row[i].0))
      && (h.Some? ==> exists i :: 0 <= i < |row| && row[i].0 == h.value && accepts(h.value)
                        && forall j :: 0 <= j < i ==> !accepts(row[j].0))
  {
    var ks := Keys(row);
    var h := FirstHeader(ks, accepts);
    if h.None? {
      forall i | 0 <= i < |row| ensures !accepts(row[i].0) {
        var l :| 0 <= l < |ks| && ks[l] == row[i].0;
      }
    } else {
      var l :| 0 <= l < |ks| && ks[l] == h.value && accepts(h.value)
               && forall j :: 0 <= j < l ==> !accepts(ks[j]);
      var i := FirstPos(row, h.value);
      forall j | 0 <= j < i ensures !accepts(row[j].0) {
        var l' := KeyBefore(row, l, j);
      }
    }
  }

  /** An entry before the first occurrence of the `l`-th key carries one
      of the keys listed before it. */
  lemma KeyBefore(row: Row, l: nat, j: nat) returns (l': nat)
    requires l < |Keys(row)| && j < FirstPos(row, Keys(row)[l])
    ensures l' < l && Keys(row)[l'] == row[j].0
  {
    var ks := Keys(row);
    l' :| 0 <= l' < |ks| && ks[l'] == row[j].0;
    assert FirstPos(row, ks[l']) <= j < FirstPos(row, ks[l]);
    if l < l' {
      KeysOrdered(row, l, l');
    }
  }

  /** Hence the detected explanation column, when the start had none, is
      the first header naming an explanation or breakdown, or none. */
  lemma DetectedExplanation(rows: seq<Row>)
    requires rows != []
    ensures DetectColumns(rows, InitialAttrMap).cxExplanation == FirstHeader(Keys(rows[0]), ExplanationHeader)
  {
    FallbackNeverSelects(Keys(rows[0]));
  }

  /* The deduplicating append loop. */

  /** `r.get("conversation_id") or r.get("id") or
      r.get(attr_map.get("conversation_id")) or ""`. */
  function DedupId(row: Row, attr: AttrMap): (id: string)
    ensures Truthy(Get(row, IdKey)) ==> id == Get(row, IdKey).value
    ensures !Truthy(Get(row, IdKey)) && Truthy(Get(row, "id")) ==> id == Get(row, "id").value
    ensures !Truthy(Get(row, IdKey)) && !Truthy(Get(row, "id")) ==>
      id == (if attr.conversationId.Some? && Truthy(Get(row, attr.conversationId.value))
             then Get(row, attr.conversationId.value).value else "")
    ensures id != "" <==>
      Truthy(Get(row, IdKey)) || Truthy(Get(row, "id"))
      || (attr.conversationId.Some? && Truthy(Get(row, attr.conversationId.value)))
  {
    if Truthy(Get(row, IdKey)) then Get(row, IdKey).value
    else if Truthy(Get(row, "id")) then Get(row, "id").value
    else if attr.conversationId.Some? && Truthy(Get(row, attr.conversationId.value)) then
      Get(row, attr.conversationId.value).value
    else ""
  }

  const BreakdownTokens: seq<string> := ["explain", "explanation", "breakdown", "reason"]

  /** `cx_breakdown`: the anonymised explanation column, else the first
      column named like an explanation with a value, anonymised, else "". */
  function Breakdown(row: Row, attr: AttrMap): (b: string)
    ensures DigitRunsBelow(b, 8)
  {
    if Truthy(attr.cxExplanation) && Truthy(Get(row, attr.cxExplanation.value)) then
      NoLongDigitRunSurvives(Get(row, attr.cxExplanation.value).value);
      Anonymize(Get(row, attr.cxExplanation.value).value)
    else
      match FirstKeywordValue(row, BreakdownTokens)
      case Some(t) =>
        NoLongDigitRunSurvives(t);
        Anonymize(t)
      case None => ""
  }

  /** The seven meaningful values of an appended row. */
  datatype SheetRow = SheetRow(canonical: Canonical, breakdown: string, jobId: string, exportedAt: string)

  /** `row_values`: the eleven cells, the last four left empty. */
  function Cells(r: SheetRow): (cells: seq<Cell>)
    ensures |cells| == 11
    ensures cells[1] == Str(r.canonical.agent) && cells[5] == Str(r.jobId) && cells[6] == Str(r.exportedAt)
    ensures cells[7] == Str("") && cells[8] == Str("") && cells[9] == Str("") && cells[10] == Str("")
  {
    var c := r.canonical;
    [Str(c.date), Str(c.agent), c.score, Str(c.conversationId), Str(r.breakdown),
     Str(r.jobId), Str(r.exportedAt), Str(""), Str(""), Str(""), Str("")]
  }

  /** Eleven cells, a non-empty agent, the job id sixth and the last four
      empty. */
  predicate SheetShaped(cells: seq<Cell>, jobId: string) {
    |cells| == 11 && cells[1] != Str("") && cells[5] == Str(jobId)
    && cells[7] == Str("") && cells[8] == Str("") && cells[9] == Str("") && cells[10] == Str("")
  }

  /** The values appended for an export row. */
  function SheetRowValues(row: Row, attr: AttrMap, jobId: string, exportedAt: string): (cells: seq<Cell>)
    ensures SheetShaped(cells, jobId)
  {
    var r := SheetRow(MapRowToCanonical(row, attr), Breakdown(row, attr), jobId, exportedAt);
    assert r.canonical.agent != "";
    Cells(r)
  }

  /* The deduplicating append loop, stated for any key and any row values:
     the export rows, the key `idOf` of a row, the ids the sheet holds, and
     `valuesOf(row, i)`, what row `i` appends. */

  /** Row `i` is appended: it has an id, the sheet does not hold it, and no
      earlier row of the export carries it. */
  predicate FirstNew(rows: seq<Row>, idOf: Row -> string, existing: set<string>, i: nat)
    requires i < |rows|
  {
    idOf(rows[i]) != "" && idOf(rows[i]) !in existing && forall j :: 0 <= j < i ==> idOf(rows[j]) != idOf(rows[i])
  }

  /** The ids of the export rows that have one. */
  function SeenIds(rows: seq<Row>, idOf: Row -> string): (ids: set<string>)
    ensures forall id :: id in ids <==> id != "" && exists j :: 0 <= j < |rows| && idOf(rows[j]) == id
  {
    set j | 0 <= j < |rows| && idOf(rows[j]) != "" :: idOf(rows[j])
  }

  /** The positions of the rows that are appended, in export order. */
  function NewIndices(rows: seq<Row>, idOf: Row -> string, existing: set<string>): (ix: seq<nat>)
    ensures forall k :: 0 <= k < |ix| ==> ix[k] < |rows| && FirstNew(rows, idOf, existing, ix[k])
    ensures forall i :: 0 <= i < |rows| && FirstNew(rows, idOf, existing, i) ==> i in ix
    ensures forall k, l :: 0 <= k < l < |ix| ==> ix[k] < ix[l]
  {
    if rows == [] then []
    else
      var n := |rows| - 1;
      var prev := NewIndices(rows[..n], idOf, existing);
      FirstNewOfPrefixes(rows, idOf, existing, n);
      if FirstNew(rows, idOf, existing, n) then prev + [n] else prev
  }

  /** Being new is decided by the rows up to and including the row. */
  lemma FirstNewOfPrefixes(rows: seq<Row>, idOf: Row -> string, existing: set<string>, n: nat)
    requires n <= |rows|
    ensures forall i :: 0 <= i < n ==> (FirstNew(rows[..n], idOf, existing, i) <==> FirstNew(rows, idOf, existing, i))
  {
    assert forall j :: 0 <= j < n ==> rows[..n][j] == rows[j];
  }

  /** What row `n` appends: its values when it is new, nothing otherwise. */
  function AppendedFor<T>(rows: seq<Row>, idOf: Row -> string, existing: set<string>, valuesOf: (Row, nat) -> T,
                          n: nat): (out: seq<T>)
    requires n < |rows|
  {
    if FirstNew(rows, idOf, existing, n) then [valuesOf(rows[n], n)] else []
  }

  /** The values appended, in export order. */
  function NewRows<T>(rows: seq<Row>, idOf: Row -> string, existing: set<string>, valuesOf: (Row, nat) -> T): (out: seq<T>)
    ensures |out| <= |rows|
  {
    if rows == [] then []
    else
      var n := |rows| - 1;
      NewRows(rows[..n], idOf, existing, valuesOf) + AppendedFor(rows, idOf, existing, valuesOf, n)
  }

  /** One value is appended per new row. */
  lemma {:induction false} NewRowsLength<T>(rows: seq<Row>, idOf: Row -> string, existing: set<string>,
                                           valuesOf: (Row, nat) -> T)
    ensures |NewRows(rows, idOf, existing, valuesOf)| == |NewIndices(rows, idOf, existing)|
  {
    if rows != [] {
      NewRowsLength(rows[..|rows| - 1], idOf, existing, valuesOf);
    }
  }

  /** Exactly the new rows are appended, once each, in export order: the
      `k`-th appended value is that of the `k`-th new row. */
  lemma {:induction false} NewRowAt<T>(rows: seq<Row>, idOf: Row -> string, existing: set<string>,
                                       valuesOf: (Row, nat) -> T, k: nat)
    requires k < |NewIndices(rows, idOf, existing)|
    ensures k < |NewRows(rows, idOf, existing, valuesOf)|
    ensures var i := NewIndices(rows, idOf, existing)[k];
      NewRows(rows, idOf, existing, valuesOf)[k] == valuesOf(rows[i], i)
  {
    NewRowsLength(rows, idOf, existing, valuesOf);
    var n := |rows| - 1;
    var prevIx := NewIndices(rows[..n], idOf, existing);
    NewRowsLength(rows[..n], idOf, existing, valuesOf);
    LastRowStep(rows, idOf, existing, valuesOf);
    if k < |prevIx| {
      NewRowAt(rows[..n], idOf, existing, valuesOf, k);
      assert rows[..n][prevIx[k]] == rows[prevIx[k]];
    }
  }

  /** The last row extends the positions and the values by itself when it
      is new, and by nothing otherwise. */
  lemma LastRowStep<T>(rows: seq<Row>, idOf: Row -> string, existing: set<string>, valuesOf: (Row, nat) -> T)
    requires rows != []
    ensures var n := |rows| - 1;
      NewIndices(rows, idOf, existing) ==
        NewIndices(rows[..n], idOf, existing) + (if FirstNew(rows, idOf, existing, n) then [n] else [])
      && NewRows(rows, idOf, existing, valuesOf) ==
        NewRows(rows[..n], idOf, existing, valuesOf) + (if FirstNew(rows, idOf, existing, n) then [valuesOf(rows[n], n)] else [])
  {
  }

  /** A row repeating the id of an earlier row is not appended: the first
      occurrence wins. */
  lemma RepeatedIdAppendsNothing(rows: seq<Row>, idOf: Row -> string, existing: set<string>, i: nat, j: nat)
    requires i < j < |rows| && idOf(rows[i]) == idOf(rows[j])
    ensures j !in NewIndices(rows, idOf, existing)
  {
    assert !FirstNew(rows, idOf, existing, j);
  }

  /** Row `i` is new exactly when its id is neither in the sheet nor among
      the ids of the rows before it. */
  lemma FirstNewBySeenIds(rows: seq<Row>, idOf: Row -> string, existing: set<string>, i: nat)
    requires i < |rows|
    ensures FirstNew(rows, idOf, existing, i) <==>
      idOf(rows[i]) != "" && idOf(rows[i]) !in existing + SeenIds(rows[..i], idOf)
  {
    assert forall j :: 0 <= j < i ==> rows[..i][j] == rows[j];
  }

  /** The ids seen grow by the id of the next row. */
  lemma SeenIdsStep(rows: seq<Row>, idOf: Row -> string, i: nat)
    requires i < |rows|
    ensures SeenIds(rows[..i + 1], idOf) ==
      SeenIds(rows[..i], idOf) + (if idOf(rows[i]) != "" then {idOf(rows[i])} else {})
  {
    assert forall j :: 0 <= j <= i ==> rows[..i + 1][j] == rows[j];
    assert forall j :: 0 <= j < i ==> rows[..i][j] == rows[j];
  }

  /** The values appended through row `i`. */
  lemma NewRowsStep<T>(rows: seq<Row>, idOf: Row -> string, existing: set<string>, valuesOf: (Row, nat) -> T, i: nat)
    requires i < |rows|
    ensures NewRows(rows[..i + 1], idOf, existing, valuesOf) ==
      NewRows(rows[..i], idOf, existing, valuesOf) + AppendedFor(rows, idOf, existing, valuesOf, i)
  {
    assert rows[..i + 1][..i] == rows[..i];
    FirstNewOfPrefixes(rows, idOf, existing, i + 1);
    assert rows[..i + 1][i] == rows[i];
  }

  /** The dedup key of the loop. */
  function IdOf(attr: AttrMap): Row -> string {
    row => DedupId(row, attr)
  }

  /** The cells of the loop; `now(i)` is the clock reading taken while row
      `i` is handled. */
  function ValuesOf(attr: AttrMap, jobId: string, now: nat -> string): (Row, nat) -> seq<Cell> {
    (row: Row, i: nat) => SheetRowValues(row, attr, jobId, now(i))
  }

  /** Every appended row has eleven cells, a non-empty agent, the job id
      sixth and the last four empty. */
  lemma NewSheetRowShape(rows: seq<Row>, attr: AttrMap, existing: set<string>, jobId: string, now: nat -> string, k: nat)
    requires k < |NewRows(rows, IdOf(attr), existing, ValuesOf(attr, jobId, now))|
    ensures SheetShaped(NewRows(rows, IdOf(attr), existing, ValuesOf(attr, jobId, now))[k], jobId)
  {
    NewRowsLength(rows, IdOf(attr), existing, ValuesOf(attr, jobId, now));
    NewRowAt(rows, IdOf(attr), existing, ValuesOf(attr, jobId, now), k);
    var i := NewIndices(rows, IdOf(attr), existing)[k];
    assert ValuesOf(attr, jobId, now)(rows[i], i) == SheetRowValues(rows[i], attr, jobId, now(i));
  }

  /** One pass of the loop, for any key and values: a row whose id is
      neither empty nor already recorded is appended and its id recorded. */
  lemma DedupStep<T>(rows: seq<Row>, idOf: Row -> string, existing: set<string>, valuesOf: (Row, nat) -> T, i: nat,
                     out: seq<T>, ids: set<string>)
    requires i < |rows|
    requires out == NewRows(rows[..i], idOf, existing, valuesOf)
    requires ids == existing + SeenIds(rows[..i], idOf)
    ensures var id := idOf(rows[i]);
      (if id != "" && id !in ids then out + [valuesOf(rows[i], i)] else out) == NewRows(rows[..i + 1], idOf, existing, valuesOf)
    ensures var id := idOf(rows[i]);
      (if id != "" && id !in ids then ids + {id} else ids) == existing + SeenIds(rows[..i + 1], idOf)
  {
    NewRowsStep(rows, idOf, existing, valuesOf, i);
    FirstNewBySeenIds(rows, idOf, existing, i);
    SeenIdsStep(rows, idOf, i);
  }

  /** One pass of the append loop of `run_window`. */
  method AppendRow(rows: seq<Row>, attr: AttrMap, existing: set<string>, jobId: string, now: nat -> string, i: nat,
                   toAppend: seq<seq<Cell>>, existingIds: set<string>)
    returns (toAppend': seq<seq<Cell>>, existingIds': set<string>)
    requires i < |rows|
    requires toAppend == NewRows(rows[..i], IdOf(attr), existing, ValuesOf(attr, jobId, now))
    requires existingIds == existing + SeenIds(rows[..i], IdOf(attr))
    ensures toAppend' == NewRows(rows[..i + 1], IdOf(attr), existing, ValuesOf(attr, jobId, now))
    ensures existingIds' == existing + SeenIds(rows[..i + 1], IdOf(attr))
  {
    var convId := DedupId(rows[i], attr);
    assert convId == IdOf(attr)(rows[i]);
    DedupStep(rows, IdOf(attr), existing, ValuesOf(attr, jobId, now), i, toAppend, existingIds);
    if convId != "" && convId !in existingIds {
      var cells := SheetRowValues(rows[i], attr, jobId, now(i));
      assert cells == ValuesOf(attr, jobId, now)(rows[i], i);
      toAppend' := toAppend + [cells];
      existingIds' := existingIds + {convId};
    } else {
      toAppend', existingIds' := toAppend, existingIds;
    }
  }

  /** The append loop of `run_window`: `existing_ids` grows by every id the
      export carries. */
  method AppendNewRows(rows: seq<Row>, attr: AttrMap, existing: set<string>, jobId: string, now: nat -> string)
    returns (toAppend: seq<seq<Cell>>, existingIds: set<string>)
    ensures toAppend == NewRows(rows, IdOf(attr), existing, ValuesOf(attr, jobId, now))
    ensures existingIds == existing + SeenIds(rows, IdOf(attr))
  {
    toAppend := [];
    existingIds := existing;
    for i := 0 to |rows|
      invariant toAppend == NewRows(rows[..i], IdOf(attr), existing, ValuesOf(attr, jobId, now))
      invariant existingIds == existing + SeenIds(rows[..i], IdOf(attr))
    {
      toAppend, existingIds := AppendRow(rows, attr, existing, jobId, now, i, toAppend, existingIds);
    }
    assert rows[..|rows|] == rows;
  }

  /** `run_window` after the export is parsed: detect the columns, then
      append the new rows. */
  method RunWindowRows(rows: seq<Row>, existing: set<string>, jobId: string, now: nat -> string)
    returns (attr: AttrMap, toAppend: seq<seq<Cell>>, existingIds: set<string>)
    ensures attr == DetectColumns(rows, InitialAttrMap)
    ensures attr.cxExplanation == (if rows == [] then None else FirstHeader(Keys(rows[0]), ExplanationHeader))
    ensures toAppend == NewRows(rows, IdOf(attr), existing, ValuesOf(attr, jobId, now))
    ensures existingIds == existing + SeenIds(rows, IdOf(attr))
  {
    attr := DetectColumns(rows, InitialAttrMap);
    if rows != [] {
      DetectedExplanation(rows);
    }
    toAppend, existingIds := AppendNewRows(rows, attr, existing, jobId, now);
  }
}
