/** Teammate identities: the test for text that looks like an Intercom
    teammate id, the resolvers that turn an id into a display name, and the
    map from id to name built from the paginated `/admins` listing. */
module Agents {
  import opened Text
  import opened Rows

  predicate IsHexOrHyphen(c: char) {
    IsDigit(c) || ('a' <= c <= 'f') || ('A' <= c <= 'F') || c == '-'
  }

  /** `re.fullmatch(r"\d+", s) or re.fullmatch(r"[0-9a-fA-F\-]{8,}", s)`. */
  predicate IsIdShaped(s: string)
    ensures IsIdShaped(s) ==> s != [] && forall i :: 0 <= i < |s| ==> IsHexOrHyphen(s[i])
  {
    (s != [] && AllDigits(s))
    || (|s| >= 8 && forall i :: 0 <= i < |s| ==> IsHexOrHyphen(s[i]))
  }

  /** `looks_like_teammate_id` of the sheet export. */
  function LooksLikeTeammateId(s: string): (b: bool)
    ensures s == "" || s == "Unknown" ==> !b
    ensures s != [] && AllDigits(s) ==> b
    ensures |s| >= 8 && (forall i :: 0 <= i < |s| ==> IsHexOrHyphen(s[i])) ==> b
    ensures b ==> IsIdShaped(Strip(s))
    ensures s != "" && s != "Unknown" && IsIdShaped(Strip(s)) ==> b
  {
    if s == "" || s == "Unknown" then
      assert s == "Unknown" ==> !IsDigit(s[0]);
      false
    else
      NoSpaceStrips(s);
      IsIdShaped(Strip(s))
  }

  /** Text without surrounding whitespace is unchanged by `strip`. */
  lemma NoSpaceStrips(s: string)
    ensures s != [] && !IsSpace(s[0]) && !IsSpace(s[|s| - 1]) ==> Strip(s) == s
  {
    if s != [] && !IsSpace(s[0]) && !IsSpace(s[|s| - 1]) {
      assert TrimLeft(s) == s;
      assert TrimRight(s) == s;
    }
  }

  /** `resolve_agent_name` of the sync script. It resolves exactly the
      values `looks_like_teammate_id` accepts: those go through the map by
      their stripped form (`Unassigned` when missing); every other non-empty
      value other than `Unknown` is already a name and comes back unchanged. */
  function ResolveAgentName(agentId: string, admins: map<string, string>): (r: string)
    ensures agentId == "" || agentId == "Unknown" ==> r == "Unassigned"
    ensures LooksLikeTeammateId(agentId) ==>
      r == (if Strip(agentId) in admins then admins[Strip(agentId)] else "Unassigned")
    ensures agentId != "" && agentId != "Unknown" && !LooksLikeTeammateId(agentId) ==> r == agentId
  {
    if agentId == "" || agentId == "Unknown" then "Unassigned"
    else
      var t := Strip(agentId);
      if !IsIdShaped(t) then agentId
      else if t in admins then admins[t]
      else "Unassigned"
  }

  /** `resolve_agent_name` of the revision: `Unknown` for no agent, a name
      passes through, the map is looked up with the raw (unstripped) text,
      and an id missing from the map comes back as itself, so the result is
      never empty when no name in the map is. */
  function RevisionResolveAgentName(agentId: string, admins: map<string, string>): (r: string)
    ensures agentId == "" || agentId == "Unknown" ==> r == "Unknown"
    ensures !LooksLikeTeammateId(agentId) && agentId != "" && agentId != "Unknown" ==> r == agentId
    ensures LooksLikeTeammateId(agentId) ==> r == (if agentId in admins then admins[agentId] else agentId)
    ensures (forall k :: k in admins ==> admins[k] != "") ==> r != ""
  {
    if agentId == "" || agentId == "Unknown" then "Unknown"
    else if !IsIdShaped(Strip(agentId)) then agentId
    else if agentId in admins then admins[agentId]
    else agentId
  }

  /** The two resolvers agree on an id without surrounding whitespace that
      the map knows, and disagree on every unknown id: the sync script says
      `Unassigned`, the revision repeats the id. */
  lemma ResolversCompared(agentId: string, admins: map<string, string>)
    requires LooksLikeTeammateId(agentId) && Strip(agentId) == agentId
    ensures agentId in admins ==> ResolveAgentName(agentId, admins) == RevisionResolveAgentName(agentId, admins)
    ensures agentId !in admins ==>
      ResolveAgentName(agentId, admins) == "Unassigned" && RevisionResolveAgentName(agentId, admins) == agentId
  {
  }

  /** One response of the `/admins` listing: the HTTP status, the `admins`
      and `data` lists, and `pages.next`. */
  datatype AdminsPage = AdminsPage(status: int, admins: Option<seq<Row>>, data: Option<seq<Row>>, next: Option<string>)

  /** `data.get("admins") or data.get("data") or []`. */
  function AdminList(p: AdminsPage): (r: seq<Row>)
    ensures p.admins.Some? && p.admins.value != [] ==> r == p.admins.value
    ensures !(p.admins.Some? && p.admins.value != []) && p.data.Some? ==> r == p.data.value
    ensures (p.admins.None? || p.admins.value == []) && p.data.None? ==> r == []
  {
    if p.admins.Some? && p.admins.value != [] then p.admins.value
    else if p.data.Some? && p.data.value != [] then p.data.value
    else []
  }

  /** Id keys tried in order by each revision of `fetch_all_admins_map`. */
  const SyncAdminIdKeys: seq<string> := ["id", "admin_id"]
  const SheetAdminIdKeys: seq<string> := ["id", "admin_id", "user_id"]
  const RevisionAdminIdKeys: seq<string> := ["id"]

  /** The id of an admin record, `""` when none of the keys has a value. */
  function AdminId(a: Row, idKeys: seq<string>): string {
    FirstTruthy(a, idKeys, "")
  }

  /** `a.get("name") or a.get("email") or str(aid)`. */
  function AdminName(a: Row, idKeys: seq<string>): (r: string)
    ensures AdminId(a, idKeys) != "" ==> r != ""
  {
    FirstTruthy(a, ["name", "email"], AdminId(a, idKeys))
  }

  /** The map after the admin records `list` have been stored in order. */
  function AddAdmins(list: seq<Row>, idKeys: seq<string>, acc: map<string, string>): (m: map<string, string>)
    ensures forall k :: k in acc ==> k in m
    ensures forall k :: k in m && k !in acc ==> exists a :: a in list && AdminId(a, idKeys) == k
    ensures (forall k :: k in acc ==> acc[k] != "") ==> forall k :: k in m ==> m[k] != ""
    ensures forall a :: a in list && AdminId(a, idKeys) != "" ==> AdminId(a, idKeys) in m
  {
    if list == [] then acc
    else
      var prev := AddAdmins(list[..|list| - 1], idKeys, acc);
      var a := list[|list| - 1];
      assert list == list[..|list| - 1] + [a];
      if AdminId(a, idKeys) != "" then prev[AdminId(a, idKeys) := AdminName(a, idKeys)] else prev
  }

  /** The map after the page loop: a page other than 200 ends the listing,
      as does a page without a next link. */
  function PagesFold(pages: seq<AdminsPage>, idKeys: seq<string>, acc: map<string, string>): (m: map<string, string>)
    ensures forall k :: k in acc ==> k in m
    ensures pages == [] || pages[0].status != 200 ==> m == acc
    ensures pages != [] && pages[0].status == 200 ==>
      forall a :: a in AdminList(pages[0]) && AdminId(a, idKeys) != "" ==> AdminId(a, idKeys) in m
  {
    if pages == [] || pages[0].status != 200 then acc
    else
      var acc' := AddAdmins(AdminList(pages[0]), idKeys, acc);
      if Truthy(pages[0].next) then PagesFold(pages[1..], idKeys, acc') else acc'
  }

  /** The last record listed for an id decides its name. */
  lemma {:induction false} AddAdminsLastWins(list: seq<Row>, idKeys: seq<string>, acc: map<string, string>, j: nat)
    requires j < |list| && AdminId(list[j], idKeys) != ""
    requires forall i :: j < i < |list| ==> AdminId(list[i], idKeys) != AdminId(list[j], idKeys)
    ensures AddAdmins(list, idKeys, acc)[AdminId(list[j], idKeys)] == AdminName(list[j], idKeys)
  {
    var init := list[..|list| - 1];
    var id := AdminId(list[j], idKeys);
    AddAdminsStep(list, idKeys, acc);
    if j < |list| - 1 {
      assert init[j] == list[j];
      forall i | j < i < |init| ensures AdminId(init[i], idKeys) != id {
        assert init[i] == list[i];
      }
      AddAdminsLastWins(init, idKeys, acc, j);
      assert AdminId(list[|list| - 1], idKeys) != id;
      assert AddAdmins(list, idKeys, acc)[id] == AddAdmins(init, idKeys, acc)[id];
    }
  }

  /** One step of the loop over a listing: the last record adds or
      replaces its id. */
  lemma AddAdminsStep(list: seq<Row>, idKeys: seq<string>, acc: map<string, string>)
    requires list != []
    ensures var prev := AddAdmins(list[..|list| - 1], idKeys, acc);
      var a := list[|list| - 1];
      AddAdmins(list, idKeys, acc) ==
        if AdminId(a, idKeys) != "" then prev[AdminId(a, idKeys) := AdminName(a, idKeys)] else prev
  {
  }

  /** Every key of the resulting map is the id of an admin on a page the
      loop read, and every name is non-empty. */
  lemma {:induction false} PagesFoldKeys(pages: seq<AdminsPage>, idKeys: seq<string>, acc: map<string, string>)
    requires forall k :: k in acc ==> acc[k] != ""
    ensures var m := PagesFold(pages, idKeys, acc);
      forall k :: k in m ==> m[k] != "" && (k in acc || exists i, a :: 0 <= i < |pages| && a in AdminList(pages[i]) && AdminId(a, idKeys) == k)
  {
    if pages != [] && pages[0].status == 200 {
      var acc' := AddAdmins(AdminList(pages[0]), idKeys, acc);
      if Truthy(pages[0].next) {
        PagesFoldKeys(pages[1..], idKeys, acc');
        var m := PagesFold(pages[1..], idKeys, acc');
        forall k | k in m
          ensures k in acc || exists i, a :: 0 <= i < |pages| && a in AdminList(pages[i]) && AdminId(a, idKeys) == k
        {
          if k !in acc' {
            var i, a :| 0 <= i < |pages[1..]| && a in AdminList(pages[1..][i]) && AdminId(a, idKeys) == k;
            assert pages[1..][i] == pages[i + 1];
          } else if k !in acc {
            var a :| a in AdminList(pages[0]) && AdminId(a, idKeys) == k;
          }
        }
      } else {
        forall k | k in acc' && k !in acc
          ensures exists i, a :: 0 <= i < |pages| && a in AdminList(pages[i]) && AdminId(a, idKeys) == k
        {
          var a :| a in AdminList(pages[0]) && AdminId(a, idKeys) == k;
        }
      }
    }
  }

  /** The inner loop of `fetch_all_admins_map`: stores each admin record
      of one page under its id. */
  method StoreAdmins(list: seq<Row>, idKeys: seq<string>, acc: map<string, string>) returns (m: map<string, string>)
    ensures m == AddAdmins(list, idKeys, acc)
  {
    m := acc;
    var j := 0;
    while j < |list|
      invariant 0 <= j <= |list|
      invariant m == AddAdmins(list[..j], idKeys, acc)
    {
      var aid := AdminId(list[j], idKeys);
      assert list[..j + 1][..j] == list[..j];
      if aid != "" {
        m := m[aid := AdminName(list[j], idKeys)];
      }
      j := j + 1;
    }
    assert list[..|list|] == list;
  }

  /** `fetch_all_admins_map`: walks the pages the listing returns, in the
      order its next links give them (a response without a next link ends
      the walk, and so does the end of `pages`), and stores every admin with
      an id under that id. */
  method FetchAllAdminsMap(pages: seq<AdminsPage>, idKeys: seq<string>) returns (adminsMap: map<string, string>)
    ensures adminsMap == PagesFold(pages, idKeys, map[])
  {
    adminsMap := map[];
    var i := 0;
    while i < |pages|
      invariant 0 <= i <= |pages|
      invariant PagesFold(pages[i..], idKeys, adminsMap) == PagesFold(pages, idKeys, map[])
      decreases |pages| - i
    {
      var page := pages[i];
      assert pages[i..][0] == page && pages[i..][1..] == pages[i + 1..];
      if page.status != 200 {
        break;
      }
      adminsMap := StoreAdmins(AdminList(page), idKeys, adminsMap);
      if !Truthy(page.next) {
        break;
      }
      i := i + 1;
    }
  }
}
