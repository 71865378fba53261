/** Turning one Intercom conversation, as decoded from JSON, into a thread
    record and the list of its messages (`fetch_conversation_thread.py`).
    Every Python exception the parsing can raise (a method called on a JSON
    null, a missing list element, a join over non-text) is a `None` result:
    it ends the run for that conversation. */
module ConversationThread {
  import opened Text
  import opened Calendar

  /** A decoded JSON value. Numbers are whole numbers; a JSON object is a
      dict, here a map from key to value. */
  datatype Json = Null | Bool(b: bool) | Num(n: int) | Str(s: string) | List(items: seq<Json>) | Obj(fields: map<string, Json>)

  type Object = map<string, Json>

  /** Python truthiness of a decoded value. */
  predicate Truthy(j: Json) {
    match j
    case Null => false
    case Bool(b) => b
    case Num(n) => n != 0
    case Str(s) => s != ""
    case List(xs) => xs != []
    case Obj(f) => f != map[]
  }

  /** `o.get(key, default)`. */
  function GetOr(o: Object, key: string, default: Json): Json {
    if key in o then o[key] else default
  }

  /** `o.get(k1) or o.get(k2) or default`. */
  function EitherOr(o: Object, k1: string, k2: string, default: Json): (v: Json)
    ensures Truthy(default) ==> Truthy(v)
  {
    var a := GetOr(o, k1, Null);
    if Truthy(a) then a
    else
      var b := GetOr(o, k2, Null);
      if Truthy(b) then b else default
  }

  /** `str(j)`: text is itself; the rendering of any other value is given. */
  function StrOf(j: Json, show: Json -> string): string {
    if j.Str? then j.s else show(j)
  }

  /** The elements `for x in j` visits, or `None` when iterating raises:
      values that are not iterable raise at once, and the characters of a
      string or the keys of a dict, which are text, raise as soon as the loop
      calls `.get` on the first of them. */
  function Elements(j: Json): (r: Option<seq<Json>>)
    ensures j.List? ==> r == Some(j.items)
  {
    match j
    case List(xs) => Some(xs)
    case Str(s) => if s == "" then Some([]) else None
    case Obj(f) => if f == map[] then Some([]) else None
    case _ => None
  }

  // ---------------------------------------------------------------------
  // should_skip_part
  // ---------------------------------------------------------------------

  /** Event types skipped even when they carry content. */
  const AlwaysSkipTypes: seq<string> := [
    "tag_added", "tag_removed", "close", "open", "snoozed", "unsnoozed",
    "state_change", "priority_change", "language_detection_details",
    "custom_answer_applied", "operator_workflow_event", "quick_reply",
    "conversation_tags_updated", "conversation_attribute_updated_by_admin",
    "default_assignment"
  ]

  predicate AlwaysSkipped(part: Object) {
    var t := GetOr(part, "part_type", Str(""));
    t.Str? && t.s in AlwaysSkipTypes
  }

  /** `part.get(key, "").strip()`: a missing field reads as "", text is
      stripped. Any other value has no `strip`: as written that includes a
      JSON null, and the call raises; with `nullIsBlank` a null reads as "". */
  function StrippedField(part: Object, key: string, nullIsBlank: bool): (r: Option<string>)
    ensures r.Some? <==> key !in part || part[key].Str? || (nullIsBlank && part[key].Null?)
    ensures r.Some? && key in part && part[key].Str? ==> r.value == Strip(part[key].s)
    ensures r.Some? && !(key in part && part[key].Str?) ==> r.value == ""
  {
    if key !in part then Some("")
    else match part[key]
      case Str(s) => Some(Strip(s))
      case Null => if nullIsBlank then Some("") else None
      case _ => None
  }

  /** `part.get("blocks") and isinstance(part.get("blocks"), list) and len(...) > 0`. */
  predicate BlocksPresent(part: Object) {
    "blocks" in part && part["blocks"].List? && part["blocks"].items != []
  }

  /** `has_content`: body, text or message is non-blank, or there are
      blocks; the three `strip` calls run left to right and stop at the
      first non-blank one. */
  function HasContent(part: Object, nullIsBlank: bool): Option<bool> {
    match StrippedField(part, "body", nullIsBlank)
    case None => None
    case Some(b) =>
      if b != "" then Some(true)
      else match StrippedField(part, "text", nullIsBlank)
        case None => None
        case Some(t) =>
          if t != "" then Some(true)
          else match StrippedField(part, "message", nullIsBlank)
            case None => None
            case Some(m) => Some(m != "" || BlocksPresent(part))
  }

  /** `should_skip_part`, with `has_content` computed before the type is
      looked at. The assignment branch and the final check agree: every type
      outside the always-skip list is skipped exactly when it has no content. */
  function ShouldSkipWith(part: Object, nullIsBlank: bool): Option<bool> {
    match HasContent(part, nullIsBlank)
    case None => None
    case Some(c) =>
      if AlwaysSkipped(part) then Some(true)
      else if GetOr(part, "part_type", Str("")) == Str("assignment") then Some(!c)
      else Some(!c)
  }

  /** A field present with a value other than text. */
  predicate NonText(part: Object, key: string) {
    key in part && !part[key].Str?
  }

  /** `should_skip_part` as written: `None` where it raises, which only a
      field holding something other than text can make it do. */
  function ShouldSkipPart(part: Object): (r: Option<bool>)
    ensures r.Some? && AlwaysSkipped(part) ==> r.value
    ensures r.None? ==> NonText(part, "body") || NonText(part, "text") || NonText(part, "message")
  {
    ShouldSkipWith(part, false)
  }

  /** `should_skip_part` with a null body, text or message read as blank. */
  function CorrectedShouldSkipPart(part: Object): (r: Option<bool>)
    ensures r.Some? && AlwaysSkipped(part) ==> r.value
    ensures TextFieldsTyped(part) ==> r.Some?
  {
    assert "body" in ["body", "text", "message"];
    assert "text" in ["body", "text", "message"];
    assert "message" in ["body", "text", "message"];
    ShouldSkipWith(part, true)
  }

  /** A field that holds no text: missing, or blank text. */
  predicate NoText(part: Object, key: string) {
    key !in part || (part[key].Str? && IsBlank(part[key].s))
  }

  /** Body, text and message are each missing, null or text. */
  predicate TextFieldsTyped(part: Object) {
    (forall key :: key in part && key in ["body", "text", "message"] ==> part[key].Null? || part[key].Str?)
  }

  lemma StrippedBlank(part: Object, key: string, nullIsBlank: bool)
    requires StrippedField(part, key, nullIsBlank).Some?
    ensures StrippedField(part, key, nullIsBlank).value == "" <==> NoText(part, key) || (key in part && part[key].Null?)
  {
    if key in part && part[key].Str? {
      StripEmptyIffBlank(part[key].s);
    }
  }

  /** Parts of a type on the list are skipped whenever the test returns. */
  lemma AlwaysSkipTypesSkipped(part: Object, nullIsBlank: bool)
    requires AlwaysSkipped(part) && HasContent(part, nullIsBlank).Some?
    ensures ShouldSkipWith(part, nullIsBlank) == Some(true)
  {
  }

  /** Every other type, "assignment" included, is skipped exactly when body,
      text and message hold no text and there are no blocks. */
  lemma OtherTypesSkipIffNoContent(part: Object)
    requires !AlwaysSkipped(part) && ShouldSkipPart(part).Some?
    ensures ShouldSkipPart(part).value
      <==> NoText(part, "body") && NoText(part, "text") && NoText(part, "message") && !BlocksPresent(part)
  {
    StrippedBlank(part, "body", false);
    if StrippedField(part, "body", false).value == "" {
      StrippedBlank(part, "text", false);
      if StrippedField(part, "text", false).value == "" {
        StrippedBlank(part, "message", false);
      }
    }
  }

  /** As written, a null body makes the test raise, whatever the type. */
  lemma NullBodyRaises(part: Object)
    requires "body" in part && part["body"] == Null
    ensures ShouldSkipPart(part) == None
  {
  }

  /** A close event with a null body: the test raises instead of skipping. */
  lemma CloseWithNullBodyRaises()
    ensures ShouldSkipPart(map["part_type" := Str("close"), "body" := Null]) == None
    ensures CorrectedShouldSkipPart(map["part_type" := Str("close"), "body" := Null]) == Some(true)
  {
    var part := map["part_type" := Str("close"), "body" := Null];
    assert AlwaysSkipped(part);
  }

  /** Where the test as written answers, the corrected one agrees. */
  lemma CorrectedAgrees(part: Object)
    requires ShouldSkipPart(part).Some?
    ensures CorrectedShouldSkipPart(part) == ShouldSkipPart(part)
  {
  }

  // ---------------------------------------------------------------------
  // extract_message_body
  // ---------------------------------------------------------------------

  /** The text a block contributes: its truthy `text`, else `paragraph`,
      else `heading`; `Some(None)` when it has none, `None` when the block is
      not a dict and `.get` raises. */
  function BlockText(block: Json): (r: Option<Option<Json>>)
    ensures r.Some? <==> block.Obj?
    ensures r.Some? && r.value.Some? ==> Truthy(r.value.value)
  {
    match block
    case Obj(f) =>
      if Truthy(GetOr(f, "text", Null)) then Some(Some(f["text"]))
      else if Truthy(GetOr(f, "paragraph", Null)) then Some(Some(f["paragraph"]))
      else if Truthy(GetOr(f, "heading", Null)) then Some(Some(f["heading"]))
      else Some(None)
    case _ => None
  }

  /** `block_texts` after the loop over `blocks`. */
  function BlockTexts(blocks: seq<Json>): (r: Option<seq<Json>>)
    ensures r.Some? ==> forall k :: 0 <= k < |r.value| ==> Truthy(r.value[k])
    decreases |blocks|
  {
    if blocks == [] then Some([])
    else
      var k := |blocks| - 1;
      match BlockTexts(blocks[..k])
      case None => None
      case Some(texts) =>
        match BlockText(blocks[k])
        case None => None
        case Some(None) => Some(texts)
        case Some(Some(t)) => Some(texts + [t])
  }

  /** Once a block raises, the whole loop raises. */
  lemma {:induction false} BlockTextsRaiseKept(blocks: seq<Json>, i: nat)
    requires i <= |blocks| && BlockTexts(blocks[..i]) == None
    ensures BlockTexts(blocks) == None
    decreases |blocks| - i
  {
    if i < |blocks| {
      assert blocks[..i + 1][..i] == blocks[..i];
      BlockTextsRaiseKept(blocks, i + 1);
    } else {
      assert blocks[..i] == blocks;
    }
  }

  predicate AllStr(xs: seq<Json>) {
    forall k :: 0 <= k < |xs| ==> xs[k].Str?
  }

  function Strs(xs: seq<Json>): (ss: seq<string>)
    requires AllStr(xs)
    ensures |ss| == |xs| && forall k :: 0 <= k < |xs| ==> ss[k] == xs[k].s
  {
    seq(|xs|, k requires 0 <= k < |xs| => xs[k].s)
  }

  /** `"\n\n".join(block_texts)`, which raises on a value that is not text. */
  function JoinTexts(texts: seq<Json>): (r: Option<string>)
    ensures r.Some? <==> AllStr(texts)
  {
    if AllStr(texts) then Some(Join("\n\n", Strs(texts))) else None
  }

  /** A field `str(...)` turns into non-blank text. */
  predicate ShowsText(part: Object, key: string, show: Json -> string) {
    key in part && Truthy(part[key]) && Strip(StrOf(part[key], show)) != ""
  }

  /** `extract_message_body`: a truthy body whose text is non-blank, else
      such a text field, else a non-blank string message, else the block
      texts joined by blank lines, else "". */
  function MessageBody(part: Object, show: Json -> string): (r: Option<string>)
    ensures ShowsText(part, "body", show) ==> r == Some(StrOf(part["body"], show))
    ensures !ShowsText(part, "body", show) && ShowsText(part, "text", show) ==> r == Some(StrOf(part["text"], show))
  {
    if ShowsText(part, "body", show) then Some(StrOf(part["body"], show))
    else if ShowsText(part, "text", show) then Some(StrOf(part["text"], show))
    else if "message" in part && part["message"].Str? && Strip(part["message"].s) != "" then Some(part["message"].s)
    else if "blocks" in part && part["blocks"].List? && part["blocks"].items != [] then
      match BlockTexts(part["blocks"].items)
      case None => None
      case Some(texts) => if texts != [] then JoinTexts(texts) else Some("")
    else Some("")
  }

  /** The loop of `extract_message_body` over the blocks. */
  method CollectBlockTexts(blocks: seq<Json>) returns (r: Option<seq<Json>>)
    ensures r == BlockTexts(blocks)
  {
    var texts: seq<Json> := [];
    for i := 0 to |blocks|
      invariant BlockTexts(blocks[..i]) == Some(texts)
    {
      assert blocks[..i + 1][..i] == blocks[..i];
      var t := BlockText(blocks[i]);
      if t.None? {
        BlockTextsRaiseKept(blocks, i + 1);
        return None;
      }
      if t.value.Some? {
        texts := texts + [t.value.value];
      }
    }
    assert blocks[..|blocks|] == blocks;
    r := Some(texts);
  }

  /** `extract_message_body`, with its loop over the blocks. */
  method ExtractMessageBody(part: Object, show: Json -> string) returns (body: Option<string>)
    ensures body == MessageBody(part, show)
  {
    if ShowsText(part, "body", show) {
      return Some(StrOf(part["body"], show));
    }
    if ShowsText(part, "text", show) {
      return Some(StrOf(part["text"], show));
    }
    if "message" in part && part["message"].Str? && Strip(part["message"].s) != "" {
      return Some(part["message"].s);
    }
    if "blocks" in part && part["blocks"].List? && part["blocks"].items != [] {
      var texts := CollectBlockTexts(part["blocks"].items);
      if texts.None? {
        return None;
      }
      if texts.value != [] {
        return JoinTexts(texts.value);
      }
    }
    return Some("");
  }

  /** The part-skip test only reaches `extract_message_body` with body, text
      and message missing, null or text, so `str` of any other value is
      never taken: the extracted body does not depend on `show`. */
  lemma BodyIndependentOfShow(part: Object, show1: Json -> string, show2: Json -> string)
    requires HasContent(part, true).Some?
    ensures MessageBody(part, show1) == MessageBody(part, show2)
  {
    if !(Strip(StrippedField(part, "body", true).value) != "") {
      if StrippedField(part, "body", true).value == "" {
        assert ShowsText(part, "body", show1) == ShowsText(part, "body", show2) by {
          if "body" in part && part["body"].Str? {
            StripOfStripped(part["body"].s);
          }
        }
      }
    }
    StrippedText(part, "body", show1, show2);
    if !ShowsText(part, "body", show1) {
      StrippedText(part, "text", show1, show2);
    }
  }

  lemma StripOfStripped(s: string)
    ensures Strip(s) == "" ==> Strip(Strip(s)) == ""
  {
  }

  /** On a field the skip test could strip, `str` gives the same text
      whatever `show` says, and it is non-blank exactly when the strip was. */
  lemma StrippedText(part: Object, key: string, show1: Json -> string, show2: Json -> string)
    ensures StrippedField(part, key, true).Some? ==>
      ShowsText(part, key, show1) == ShowsText(part, key, show2)
      && (ShowsText(part, key, show1) <==> StrippedField(part, key, true).value != "")
      && (ShowsText(part, key, show1) ==> StrOf(part[key], show1) == StrOf(part[key], show2))
  {
  }

  /** A part with content in body, text or message yields a non-blank body. */
  lemma TextContentGivesBody(part: Object, show: Json -> string)
    requires HasContent(part, true) == Some(true) && !BlocksPresent(part)
    ensures MessageBody(part, show).Some? && !IsBlank(MessageBody(part, show).value)
  {
    StrippedText(part, "body", show, show);
    var b := MessageBody(part, show).value;
    if ShowsText(part, "body", show) {
      StripEmptyIffBlank(b);
    } else {
      StrippedText(part, "text", show, show);
      StripEmptyIffBlank(b);
    }
  }

  // ---------------------------------------------------------------------
  // parse_conversation_thread
  // ---------------------------------------------------------------------

  /** `conversation.get("id") or conversation.get("conversation_id")`: a
      falsy `id` gives the second value as it is, falsy or not. */
  function ConversationId(conv: Object): (id: Json)
    ensures Truthy(GetOr(conv, "id", Null)) ==> id == conv["id"]
    ensures !Truthy(GetOr(conv, "id", Null)) ==> id == GetOr(conv, "conversation_id", Null)
  {
    var a := GetOr(conv, "id", Null);
    if Truthy(a) then a else GetOr(conv, "conversation_id", Null)
  }

  /** A null `id` next to an empty `conversation_id` keeps the empty text. */
  lemma FalsyConversationIdKept()
    ensures ConversationId(map["id" := Null, "conversation_id" := Str("")]) == Str("")
  {
    var conv := map["id" := Null, "conversation_id" := Str("")];
    assert GetOr(conv, "id", Null) == Null;
  }

  /** `datetime.fromtimestamp(o[key], tz=timezone.utc).isoformat()` when
      `o.get(key)` is truthy, else `None`; the outer `None` is a raise (text
      is no timestamp, and years outside 1..9999 overflow). `True` counts as 1. */
  function TimestampField(o: Object, key: string): (r: Option<Option<string>>)
    ensures !Truthy(GetOr(o, key, Null)) ==> r == Some(None)
    ensures Truthy(GetOr(o, key, Null)) && TimestampSeconds(o[key]).None? ==> r.None?
    ensures r.Some? && r.value.Some? ==>
      TimestampSeconds(o[key]).Some? && r.value == IsoDateTime(TimestampSeconds(o[key]).value)
  {
    var v := GetOr(o, key, Null);
    if !Truthy(v) then Some(None)
    else
      match TimestampSeconds(v)
      case None => None
      case Some(t) =>
        match IsoDateTime(t)
        case None => None
        case Some(iso) => Some(Some(iso))
  }

  /** The whole seconds a JSON value stands for: a number, or a boolean as
      0 or 1; `None` for anything `fromtimestamp` refuses. */
  function TimestampSeconds(v: Json): Option<int> {
    match v
    case Num(n) => Some(n)
    case Bool(b) => Some(if b then 1 else 0)
    case _ => None
  }

  /** `title`, else the opening message's `subject`, else "No subject". */
  function Subject(conv: Object): (r: Option<Json>)
    ensures r.Some? ==> Truthy(r.value)
  {
    var title := GetOr(conv, "title", Null);
    if Truthy(title) then Some(title)
    else match GetOr(conv, "conversation_message", Obj(map[]))
      case Obj(f) =>
        var subject := GetOr(f, "subject", Null);
        Some(if Truthy(subject) then subject else Str("No subject"))
      case _ => None
  }

  /** `conversation["contacts"]["contacts"][0]` when `contacts` is truthy,
      else `{}`; an empty contact list raises. */
  function Customer(conv: Object): (r: Option<Object>)
    ensures !Truthy(GetOr(conv, "contacts", Null)) ==> r == Some(map[])
    ensures Truthy(GetOr(conv, "contacts", Null)) && r.Some? ==>
      conv["contacts"].Obj? && var list := GetOr(conv["contacts"].fields, "contacts", List([Obj(map[])]));
      list.List? && list.items != [] && list.items[0] == Obj(r.value)
  {
    var c := GetOr(conv, "contacts", Null);
    if !Truthy(c) then Some(map[])
    else match c
      case Obj(f) =>
        (match GetOr(f, "contacts", List([Obj(map[])]))
         case List(xs) => if xs != [] && xs[0].Obj? then Some(xs[0].fields) else None
         case _ => None)
      case _ => None
  }

  /** `[tag.get("name") for tag in tags if tag.get("name")]`. */
  function NamedTagValues(tags: seq<Json>): (names: Option<seq<Json>>)
    ensures names.Some? ==> |names.value| <= |tags| && forall k :: 0 <= k < |names.value| ==> Truthy(names.value[k])
    decreases |tags|
  {
    if tags == [] then Some([])
    else
      var k := |tags| - 1;
      match NamedTagValues(tags[..k])
      case None => None
      case Some(names) =>
        match tags[k]
        case Obj(f) =>
          var name := GetOr(f, "name", Null);
          Some(if Truthy(name) then names + [name] else names)
        case _ => None
  }

  /** Named tags keep their order: the names of `a + b` are those of `a`
      followed by those of `b`. */
  lemma {:induction false} NamedTagValuesAppend(a: seq<Json>, b: seq<Json>)
    requires NamedTagValues(a + b).Some?
    ensures NamedTagValues(a).Some? && NamedTagValues(b).Some?
    ensures NamedTagValues(a + b).value == NamedTagValues(a).value + NamedTagValues(b).value
    decreases |b|
  {
    if b == [] {
      assert a + b == a;
    } else {
      var k := |b| - 1;
      assert (a + b)[..|a| + k] == a + b[..k];
      assert (a + b)[|a| + k] == b[k];
      NamedTagValuesAppend(a, b[..k]);
    }
  }

  /** A single tag contributes its name exactly when the name is truthy. */
  lemma NamedTagValuesOne(f: Object)
    ensures NamedTagValues([Obj(f)]) == Some(if Truthy(GetOr(f, "name", Null)) then [f["name"]] else [])
  {
    var tags := [Obj(f)];
    assert tags[..0] == [] && tags[0] == Obj(f);
    assert NamedTagValues(tags[..0]) == Some([]);
    if Truthy(GetOr(f, "name", Null)) {
      assert [] + [f["name"]] == [f["name"]];
    }
  }

  /** The `tags` list of the conversation; `None` where reading it raises. */
  function ConversationTags(conv: Object): (r: Option<seq<Json>>)
    ensures r.Some? ==> forall k :: 0 <= k < |r.value| ==> Truthy(r.value[k])
    ensures "tags" !in conv ==> r == Some([])
  {
    match GetOr(conv, "tags", Obj(map[]))
    case Obj(f) =>
      (match Elements(GetOr(f, "tags", List([])))
       case None => None
       case Some(tags) => NamedTagValues(tags))
    case _ => None
  }

  /** A `conversation_threads` row. `full_data`, the tags' JSON text and
      `synced_at` are left out: they are `json.dumps` output and the clock. */
  datatype Thread = Thread(
    conversationId: Json, state: Json, subject: Json, createdAt: Option<string>, updatedAt: Option<string>,
    customerName: Json, customerEmail: Json, tags: seq<Json>, priority: Json)

  /** `parse_conversation_thread`: `None` exactly when one of the fields
      raises. */
  function ParseConversationThread(conv: Object): (r: Option<Thread>)
    ensures r.Some? <==>
      Subject(conv).Some? && TimestampField(conv, "created_at").Some? && TimestampField(conv, "updated_at").Some?
      && Customer(conv).Some? && ConversationTags(conv).Some?
    ensures r.Some? ==>
      r.value.conversationId == ConversationId(conv) && r.value.subject == Subject(conv).value
      && r.value.createdAt == TimestampField(conv, "created_at").value
      && r.value.updatedAt == TimestampField(conv, "updated_at").value
      && r.value.tags == ConversationTags(conv).value
      && r.value.customerName == EitherOr(Customer(conv).value, "name", "email", Str("Unknown"))
      && r.value.customerEmail == GetOr(Customer(conv).value, "email", Null)
    ensures r.Some? ==> Truthy(r.value.subject) && Truthy(r.value.customerName)
    ensures r.Some? ==> forall k :: 0 <= k < |r.value.tags| ==> Truthy(r.value.tags[k])
  {
    var subject := Subject(conv);
    var created := TimestampField(conv, "created_at");
    var updated := TimestampField(conv, "updated_at");
    var customer := Customer(conv);
    var tags := ConversationTags(conv);
    if subject.None? || created.None? || updated.None? || customer.None? || tags.None? then None
    else
      Some(Thread(
        ConversationId(conv), GetOr(conv, "state", Str("unknown")), subject.value, created.value, updated.value,
        EitherOr(customer.value, "name", "email", Str("Unknown")), GetOr(customer.value, "email", Null),
        tags.value, GetOr(conv, "priority", Str("normal"))))
  }

  /** The opening message's `subject` when it is truthy. */
  predicate HasMessageSubject(conv: Object) {
    var cm := GetOr(conv, "conversation_message", Obj(map[]));
    cm.Obj? && Truthy(GetOr(cm.fields, "subject", Null))
  }

  /** Subject, state and priority defaults: a truthy title wins, then a
      truthy subject of the opening message, then "No subject"; a title that
      is present but falsy counts as none. */
  lemma ThreadDefaults(conv: Object)
    requires ParseConversationThread(conv).Some?
    ensures var t := ParseConversationThread(conv).value;
      (Truthy(GetOr(conv, "title", Null)) ==> t.subject == conv["title"])
      && (!Truthy(GetOr(conv, "title", Null)) && HasMessageSubject(conv) ==>
            t.subject == conv["conversation_message"].fields["subject"])
      && (!Truthy(GetOr(conv, "title", Null)) && !HasMessageSubject(conv) ==> t.subject == Str("No subject"))
      && ("priority" !in conv ==> t.priority == Str("normal"))
      && ("state" !in conv ==> t.state == Str("unknown"))
  {
  }

  // ---------------------------------------------------------------------
  // parse_conversation_messages
  // ---------------------------------------------------------------------

  /** A `conversation_messages` row. `body_html` repeats `body`; the
      attachments' JSON text and `synced_at` are left out. */
  datatype Message = Message(
    conversationId: Json, partId: Json, partType: string, authorType: Json, authorId: Json,
    authorName: Json, body: string, createdAt: Option<string>, isNote: bool)

  predicate IsNoteType(t: string) {
    t == "note" || StartsWith(t, "note_")
  }

  /** What every stored message satisfies: a non-blank body, and the note
      flag set exactly for note types. */
  predicate WellFormed(m: Message) {
    !IsBlank(m.body) && (m.isNote <==> IsNoteType(m.partType))
  }

  lemma CommentIsNoNote()
    ensures !IsNoteType("comment")
  {
    assert "comment"[0] != "note_"[0];
  }

  /** The opening message: `None` where building it raises, `Some(None)`
      where there is none or it is skipped. */
  function OpenerMessage(conv: Object, convId: Json, show: Json -> string): (r: Option<Option<Message>>)
    ensures r.Some? && r.value.Some? ==> WellFormed(r.value.value) && r.value.value.partType == "comment"
  {
    var first := EitherOr(conv, "conversation_message", "source", Null);
    if !Truthy(first) then Some(None)
    else match first
      case Obj(f) =>
        (match CorrectedShouldSkipPart(f)
         case None => None
         case Some(skip) =>
           if skip then Some(None)
           else match MessageBody(f, show)
             case None => None
             case Some(body) =>
               if IsBlank(body) then Some(None)
               else
                 var created := if Truthy(GetOr(f, "created_at", Null)) then TimestampField(f, "created_at")
                                else TimestampField(conv, "created_at");
                 CommentIsNoNote();
                 match OpenerRecord(f, convId, body, created, show)
                 case None => None
                 case Some(m) => Some(Some(m)))
      case _ => None
  }

  /** The opener's row, once its body is known: `None` where the author is
      not a dict or the timestamp raised. */
  function OpenerRecord(f: Object, convId: Json, body: string, created: Option<Option<string>>, show: Json -> string): (r: Option<Message>)
    ensures r.Some? ==> r.value.body == body && r.value.partType == "comment" && !r.value.isNote
    ensures r.Some? ==> created.Some? && r.value.conversationId == convId && r.value.createdAt == created.value
    ensures r.Some? && "id" in f ==> r.value.partId == f["id"]
    ensures r.Some? && "id" !in f ==> r.value.partId == Str(StrOf(convId, show) + "_initial")
    ensures r.None? <==> !GetOr(f, "author", Obj(map[])).Obj? || created.None?
  {
    match GetOr(f, "author", Obj(map[]))
    case Obj(a) =>
      if created.None? then None
      else
        var partId := GetOr(f, "id", Str(StrOf(convId, show) + "_initial"));
        Some(Message(convId, partId, "comment", GetOr(a, "type", Str("user")), GetOr(a, "id", Null),
                     EitherOr(a, "name", "email", Str("Customer")), body, created.value, false))
    case _ => None
  }

  /** What one conversation part turns into. */
  datatype PartOutcome = Raised | Skipped | Kept(message: Message)

  /** One pass of the loop over the parts, with `n` messages collected so far. */
  function PartStep(part: Json, convId: Json, n: nat, show: Json -> string): (r: PartOutcome)
    ensures r.Kept? ==> WellFormed(r.message) && r.message.conversationId == convId
  {
    match part
    case Obj(p) =>
      (match CorrectedShouldSkipPart(p)
       case None => Raised
       case Some(skip) =>
         if skip then Skipped
         else match MessageBody(p, show)
           case None => Raised
           case Some(body) =>
             if IsBlank(body) then Skipped
             else match (GetOr(p, "author", Obj(map[])), GetOr(p, "part_type", Str("comment")))
               case (Obj(a), Str(t)) =>
                 var created := TimestampField(p, "created_at");
                 if created.None? then Raised
                 else
                   var partId := GetOr(p, "id", Str(StrOf(convId, show) + "_" + NatToString(n)));
                   Kept(Message(convId, partId, t, GetOr(a, "type", Null), GetOr(a, "id", Null),
                                EitherOr(a, "name", "email", Str("Unknown")), body, created.value, IsNoteType(t)))
               case _ => Raised)
    case _ => Raised
  }

  /** The loop step of one conversation. */
  function StepOf(convId: Json, show: Json -> string): (Json, nat) -> PartOutcome {
    (part: Json, n: nat) => PartStep(part, convId, n, show)
  }

  lemma StepOfIs(part: Json, convId: Json, n: nat, show: Json -> string, out: PartOutcome)
    requires out == PartStep(part, convId, n, show)
    ensures StepOf(convId, show)(part, n) == out
  {
  }

  /** The part messages and `skipped_count` after the loop over `parts`,
      with `base` messages collected before it. */
  function PartsFold(parts: seq<Json>, step: (Json, nat) -> PartOutcome, base: nat): (r: Option<(seq<Message>, nat)>)
    ensures r.Some? ==> |r.value.0| + r.value.1 == |parts|
    decreases |parts|
  {
    if parts == [] then Some(([], 0))
    else
      var k := |parts| - 1;
      match PartsFold(parts[..k], step, base)
      case None => None
      case Some((ms, skipped)) =>
        match step(parts[k], base + |ms|)
        case Raised => None
        case Skipped => Some((ms, skipped + 1))
        case Kept(m) => Some((ms + [m], skipped))
  }

  /** `conversation["conversation_parts"]["conversation_parts"]`, with the
      defaults `{}` and `[]`. */
  function ConversationParts(conv: Object): Option<seq<Json>> {
    match GetOr(conv, "conversation_parts", Obj(map[]))
    case Obj(f) => Elements(GetOr(f, "conversation_parts", List([])))
    case _ => None
  }

  /** The messages, opener first, and the number of parts skipped, from
      the opener's outcome, the parts and the loop step. */
  function Assemble(opener: Option<Option<Message>>, parts: Option<seq<Json>>, step: (Json, nat) -> PartOutcome)
    : Option<(seq<Message>, nat)>
  {
    match opener
    case None => None
    case Some(o) =>
      var first := if o.Some? then [o.value] else [];
      match parts
      case None => None
      case Some(ps) =>
        match PartsFold(ps, step, |first|)
        case None => None
        case Some((ms, skipped)) => Some((first + ms, skipped))
  }

  /** `parse_conversation_messages`: the messages, opener first, and the
      number of parts skipped. */
  function ConversationMessages(conv: Object, show: Json -> string): (r: Option<(seq<Message>, nat)>)
    ensures r.Some? ==> OpenerMessage(conv, ConversationId(conv), show).Some? && ConversationParts(conv).Some?
    ensures OpenerMessage(conv, ConversationId(conv), show).None? || ConversationParts(conv).None? ==> r.None?
    ensures r.Some? && OpenerMessage(conv, ConversationId(conv), show).value.Some? ==>
      r.value.0 != [] && r.value.0[0] == OpenerMessage(conv, ConversationId(conv), show).value.value
    ensures r.Some? ==> r.value.1 <= |ConversationParts(conv).value|
  {
    var convId := ConversationId(conv);
    Assemble(OpenerMessage(conv, convId, show), ConversationParts(conv), StepOf(convId, show))
  }

  /** The positions of the kept parts, in increasing order. */
  function KeptIndices(parts: seq<Json>, step: (Json, nat) -> PartOutcome, base: nat): (ks: seq<nat>)
    requires PartsFold(parts, step, base).Some?
    decreases |parts|
  {
    if parts == [] then []
    else
      var k := |parts| - 1;
      var prev := KeptIndices(parts[..k], step, base);
      if step(parts[k], base + |PartsFold(parts[..k], step, base).value.0|).Kept? then prev + [k] else prev
  }

  /** `ks` lists, in strictly increasing order, one part per message: the
      part that gave message `j` when `base + j` messages had been collected. */
  predicate KeptInOrder(parts: seq<Json>, step: (Json, nat) -> PartOutcome, base: nat, ms: seq<Message>, ks: seq<nat>) {
    |ks| == |ms|
    && (forall j :: 0 <= j < |ks| ==> ks[j] < |parts| && step(parts[ks[j]], base + j) == Kept(ms[j]))
    && (forall i, j :: 0 <= i < j < |ks| ==> ks[i] < ks[j])
  }

  /** Messages keep part order: the part messages come from the kept
      parts, one each, in the order of the parts. */
  lemma {:induction false} PartMessageOrigin(parts: seq<Json>, step: (Json, nat) -> PartOutcome, base: nat)
    requires PartsFold(parts, step, base).Some?
    ensures KeptInOrder(parts, step, base, PartsFold(parts, step, base).value.0, KeptIndices(parts, step, base))
    decreases |parts|
  {
    if parts != [] {
      var k := |parts| - 1;
      var init := parts[..k];
      PartMessageOrigin(init, step, base);
      var ms := PartsFold(init, step, base).value.0;
      var prev := KeptIndices(init, step, base);
      var out := step(parts[k], base + |ms|);
      var all := PartsFold(parts, step, base).value.0;
      var ks := KeptIndices(parts, step, base);
      if out.Kept? {
        assert all == ms + [out.message] && ks == prev + [k];
      } else {
        assert all == ms && ks == prev;
      }
      forall j | 0 <= j < |ks|
        ensures ks[j] < |parts| && step(parts[ks[j]], base + j) == Kept(all[j])
      {
        if j < |prev| {
          assert ks[j] == prev[j] && all[j] == ms[j] && parts[prev[j]] == init[prev[j]];
        }
      }
      forall i, j | 0 <= i < j < |ks|
        ensures ks[i] < ks[j]
      {
        if j >= |prev| {
          assert ks[i] == prev[i] < k;
        }
      }
    }
  }

  /** A kept part without an `id` is named after the conversation and the
      number of messages collected before it. */
  lemma PartIdFallback(p: Object, convId: Json, n: nat, show: Json -> string)
    requires "id" !in p && PartStep(Obj(p), convId, n, show).Kept?
    ensures PartStep(Obj(p), convId, n, show).message.partId == Str(StrOf(convId, show) + "_" + NatToString(n))
  {
  }

  /** The opener (if any) comes first, with type "comment" and no note flag. */
  lemma OpenerFirst(conv: Object, show: Json -> string, o: Message)
    requires ConversationMessages(conv, show).Some?
    requires OpenerMessage(conv, ConversationId(conv), show) == Some(Some(o))
    ensures var ms := ConversationMessages(conv, show).value.0;
      ms != [] && ms[0] == o && o.partType == "comment" && !o.isNote && WellFormed(o)
  {
    CommentIsNoNote();
  }

  /** The shape of an assembled run, for any step that keeps only well
      formed messages. */
  lemma AssembleShape(opener: Option<Option<Message>>, parts: Option<seq<Json>>, step: (Json, nat) -> PartOutcome)
    requires Assemble(opener, parts, step).Some?
    requires opener.value.Some? ==> WellFormed(opener.value.value)
    requires forall part, n :: step(part, n).Kept? ==> WellFormed(step(part, n).message)
    ensures var ms := Assemble(opener, parts, step).value.0;
      forall j :: 0 <= j < |ms| ==> WellFormed(ms[j])
    ensures var (ms, skipped) := Assemble(opener, parts, step).value;
      |ms| == (if opener.value.Some? then 1 else 0) + |parts.value| - skipped
  {
    var o := opener.value;
    var first := if o.Some? then [o.value] else [];
    var partMs := PartsFold(parts.value, step, |first|).value.0;
    var ms := Assemble(opener, parts, step).value.0;
    assert ms == first + partMs;
    PartMessageOrigin(parts.value, step, |first|);
    var ks := KeptIndices(parts.value, step, |first|);
    forall j | 0 <= j < |ms|
      ensures WellFormed(ms[j])
    {
      if j >= |first| {
        assert step(parts.value[ks[j - |first|]], |first| + (j - |first|)) == Kept(partMs[j - |first|]);
        assert ms[j] == partMs[j - |first|];
      }
    }
  }

  /** Every message of a run is well formed, and skipped parts plus part
      messages account for every part. */
  lemma MessagesShape(conv: Object, show: Json -> string)
    requires ConversationMessages(conv, show).Some?
    ensures var ms := ConversationMessages(conv, show).value.0;
      forall j :: 0 <= j < |ms| ==> WellFormed(ms[j])
    ensures var (ms, skipped) := ConversationMessages(conv, show).value;
      var o := OpenerMessage(conv, ConversationId(conv), show).value;
      |ms| == (if o.Some? then 1 else 0) + |ConversationParts(conv).value| - skipped
  {
    var convId := ConversationId(conv);
    AssembleShape(OpenerMessage(conv, convId, show), ConversationParts(conv), StepOf(convId, show));
  }

  /** A part whose only content is a block without text passes the skip
      test but extracts "", and is counted as skipped. */
  lemma EmptyBlockPartSkipped(convId: Json, n: nat, show: Json -> string)
    ensures CorrectedShouldSkipPart(map["blocks" := List([Obj(map[])])]) == Some(false)
    ensures PartStep(Obj(map["blocks" := List([Obj(map[])])]), convId, n, show) == Skipped
  {
    var blocks := [Obj(map[])];
    assert blocks[..0] == [];
    assert BlockTexts(blocks) == Some([]);
  }

  /** A part of an always-skipped type whose text fields are missing, null
      or text is skipped. */
  lemma AlwaysSkipTypePartSkipped(p: Object, convId: Json, n: nat, show: Json -> string)
    requires AlwaysSkipped(p) && TextFieldsTyped(p)
    ensures PartStep(Obj(p), convId, n, show) == Skipped
  {
  }

  /** One pass of the loop over the parts, with its `continue`s. */
  method ParsePart(part: Json, convId: Json, n: nat, show: Json -> string) returns (out: PartOutcome)
    ensures out == PartStep(part, convId, n, show)
  {
    if !part.Obj? {
      return Raised;
    }
    var p := part.fields;
    var skip := CorrectedShouldSkipPart(p);
    if skip.None? {
      return Raised;
    }
    if skip.value {
      return Skipped;
    }
    var partType := GetOr(p, "part_type", Str("comment"));
    var author := GetOr(p, "author", Obj(map[]));
    var body := ExtractMessageBody(p, show);
    if body.None? {
      return Raised;
    }
    if IsBlank(body.value) {
      return Skipped;
    }
    if !author.Obj? || !partType.Str? {
      return Raised;
    }
    var isNote := partType.s == "note" || StartsWith(partType.s, "note_");
    var created := TimestampField(p, "created_at");
    if created.None? {
      return Raised;
    }
    var a := author.fields;
    var partId := GetOr(p, "id", Str(StrOf(convId, show) + "_" + NatToString(n)));
    out := Kept(Message(convId, partId, partType.s, GetOr(a, "type", Null), GetOr(a, "id", Null),
                        EitherOr(a, "name", "email", Str("Unknown")), body.value, created.value, isNote));
  }

  /** One pass of the fold, for any step. */
  lemma FoldStep(parts: seq<Json>, step: (Json, nat) -> PartOutcome, base: nat, i: nat, ms: seq<Message>, skipped: nat,
                  out: PartOutcome)
    requires i < |parts| && PartsFold(parts[..i], step, base) == Some((ms, skipped))
    requires out == step(parts[i], base + |ms|)
    ensures PartsFold(parts[..i + 1], step, base) == match out
      case Raised => None
      case Skipped => Some((ms, skipped + 1))
      case Kept(m) => Some((ms + [m], skipped))
  {
    assert parts[..i + 1][..i] == parts[..i];
  }

  /** Once a part raises, the whole loop raises. */
  lemma {:induction false} FoldRaisedStays(parts: seq<Json>, step: (Json, nat) -> PartOutcome, base: nat, i: nat)
    requires i <= |parts| && PartsFold(parts[..i], step, base) == None
    ensures PartsFold(parts, step, base) == None
    decreases |parts| - i
  {
    if i == |parts| {
      assert parts[..i] == parts;
    } else {
      assert parts[..i + 1][..i] == parts[..i];
      FoldRaisedStays(parts, step, base, i + 1);
    }
  }

  /** One pass of the loop over the parts: the part messages and skip
      count after part `i`, or `raised` when the part raises. */
  method ParsePartAt(parts: seq<Json>, i: nat, convId: Json, show: Json -> string, base: nat,
                     ms: seq<Message>, skipped: nat)
    returns (raised: bool, ms': seq<Message>, skipped': nat)
    requires i < |parts| && PartsFold(parts[..i], StepOf(convId, show), base) == Some((ms, skipped))
    ensures raised ==> PartsFold(parts, StepOf(convId, show), base) == None
    ensures !raised ==> PartsFold(parts[..i + 1], StepOf(convId, show), base) == Some((ms', skipped'))
  {
    var n := base + |ms|;
    var out := ParsePart(parts[i], convId, n, show);
    StepOfIs(parts[i], convId, n, show, out);
    FoldStep(parts, StepOf(convId, show), base, i, ms, skipped, out);
    raised, ms', skipped' := false, ms, skipped;
    match out
    case Raised =>
      FoldRaisedStays(parts, StepOf(convId, show), base, i + 1);
      raised := true;
    case Skipped => skipped' := skipped + 1;
    case Kept(m) => ms' := ms + [m];
  }

  /** The loop over the parts, after `base` opening messages. */
  method ParseParts(parts: seq<Json>, convId: Json, show: Json -> string, base: seq<Message>)
    returns (r: Option<(seq<Message>, nat)>)
    ensures r.None? <==> PartsFold(parts, StepOf(convId, show), |base|).None?
    ensures r.Some? ==> r.value.0 == base + PartsFold(parts, StepOf(convId, show), |base|).value.0
    ensures r.Some? ==> r.value.1 == PartsFold(parts, StepOf(convId, show), |base|).value.1
  {
    var ms: seq<Message> := [];
    var skipped := 0;
    assert parts[..0] == [];
    for i := 0 to |parts|
      invariant PartsFold(parts[..i], StepOf(convId, show), |base|) == Some((ms, skipped))
    {
      var raised;
      raised, ms, skipped := ParsePartAt(parts, i, convId, show, |base|, ms, skipped);
      if raised {
        return None;
      }
    }
    assert parts[..|parts|] == parts;
    r := Some((base + ms, skipped));
  }

  /** `parse_conversation_messages`. */
  method ParseConversationMessages(conv: Object, show: Json -> string) returns (r: Option<(seq<Message>, nat)>)
    ensures r == ConversationMessages(conv, show)
  {
    var convId := ConversationId(conv);
    var opener := OpenerMessage(conv, convId, show);
    if opener.None? {
      return None;
    }
    var messages: seq<Message> := if opener.value.Some? then [opener.value.value] else [];
    var parts := ConversationParts(conv);
    if parts.None? {
      return None;
    }
    r := ParseParts(parts.value, convId, show, messages);
  }
}
