/** Replacing teammate ids in the `RawData` sheet by display names
    (`resolve_teammate_ids_and_update_sheet` of the sheet export): rows whose
    agent cell looks like a teammate id are grouped by that id, each id is
    resolved once, and one cell update is produced per grouped row. */
module SheetTeammates {
  import opened Text
  import opened Rows
  import opened Agents

  /** One row of `RawData!A2:D10000` as the Sheets API returns it; trailing
      empty cells are omitted, so a row may be shorter than four cells. */
  type SheetRow = seq<string>

  /** Sheet row number of the row at index `k` of the fetched range, which
      starts at row 2. */
  function RowNumber(k: nat): nat { k + 2 }

  /** The padding loop: empty cells are appended until the row has four. */
  method PadRow(row: SheetRow) returns (padded: SheetRow)
    ensures |padded| == if |row| < 4 then 4 else |row|
    ensures padded[..|row|] == row
    ensures forall k :: |row| <= k < |padded| ==> padded[k] == ""
    ensures padded[1] == AgentCell(row)
  {
    padded := row;
    while |padded| < 4
      invariant |row| <= |padded| <= if |row| < 4 then 4 else |row|
      invariant padded[..|row|] == row
      invariant forall k :: |row| <= k < |padded| ==> padded[k] == ""
      decreases 4 - |padded|
    {
      padded := padded + [""];
    }
  }

  /** Column B of a row once padded: the agent cell. */
  function AgentCell(row: SheetRow): string {
    if |row| > 1 then row[1] else ""
  }

  /** A row whose agent cell holds a teammate id and so is grouped. */
  predicate Listed(row: SheetRow) {
    LooksLikeTeammateId(AgentCell(row))
  }

  /** The id a row is grouped under, or "" when it is not listed (the empty
      text never looks like a teammate id). */
  function KeyOf(row: SheetRow): (key: string)
    ensures key != "" <==> Listed(row)
    ensures Listed(row) ==> key == AgentCell(row)
  {
    if Listed(row) then AgentCell(row) else ""
  }

  /** The grouping key of every row, in sheet order. */
  function AgentKeys(rows: seq<SheetRow>): (keys: seq<string>)
    ensures |keys| == |rows|
    ensures forall k :: 0 <= k < |rows| ==> keys[k] == KeyOf(rows[k])
  {
    seq(|rows|, k requires 0 <= k < |rows| => KeyOf(rows[k]))
  }

  predicate StrictlyIncreasing(ns: seq<nat>) {
    forall a, b :: 0 <= a < b < |ns| ==> ns[a] < ns[b]
  }

  predicate NoDuplicates(xs: seq<string>) {
    forall a, b :: 0 <= a < b < |xs| ==> xs[a] != xs[b]
  }

  /** `id_to_rows[tid]`: the row numbers of the rows whose key is `tid`, in
      sheet order. */
  function RowNumbersOf(keys: seq<string>, tid: string): seq<nat>
    decreases |keys|
  {
    if keys == [] then []
    else
      var k := |keys| - 1;
      RowNumbersOf(keys[..k], tid) + (if keys[k] != "" && keys[k] == tid then [RowNumber(k)] else [])
  }

  /** The keys of `id_to_rows` in insertion order: each id at its first
      appearance. */
  function IdOrder(keys: seq<string>): seq<string>
    decreases |keys|
  {
    if keys == [] then []
    else
      var k := |keys| - 1;
      var prev := IdOrder(keys[..k]);
      if keys[k] != "" && keys[k] !in prev then prev + [keys[k]] else prev
  }

  /** A row number is listed under `tid` exactly when its row has key `tid`. */
  lemma {:induction false} RowNumbersOfMembers(keys: seq<string>, tid: string, n: nat)
    ensures n in RowNumbersOf(keys, tid) <==> 2 <= n < |keys| + 2 && tid != "" && keys[n - 2] == tid
  {
    if keys != [] {
      var k := |keys| - 1;
      RowNumbersOfMembers(keys[..k], tid, n);
      if 2 <= n < k + 2 {
        assert keys[..k][n - 2] == keys[n - 2];
      }
    }
  }

  /** The row numbers under one id are strictly increasing, so none is
      listed twice. */
  lemma {:induction false} RowNumbersIncreasing(keys: seq<string>, tid: string)
    ensures StrictlyIncreasing(RowNumbersOf(keys, tid))
  {
    if keys != [] {
      var k := |keys| - 1;
      var prev := RowNumbersOf(keys[..k], tid);
      var ns := RowNumbersOf(keys, tid);
      RowNumbersIncreasing(keys[..k], tid);
      forall a, b | 0 <= a < b < |ns|
        ensures ns[a] < ns[b]
      {
        assert ns[a] == prev[a];
        if b < |prev| {
          assert ns[b] == prev[b];
        } else {
          assert ns[b] == RowNumber(k) && prev[a] in prev;
          RowNumbersOfMembers(keys[..k], tid, prev[a]);
        }
      }
    }
  }

  /** An id is a key of `id_to_rows` exactly when some row is listed under it. */
  lemma {:induction false} IdOrderMembers(keys: seq<string>, tid: string)
    ensures tid in IdOrder(keys) <==> RowNumbersOf(keys, tid) != []
  {
    if keys != [] {
      IdOrderMembers(keys[..|keys| - 1], tid);
    }
  }

  /** Each id is a key once. */
  lemma {:induction false} IdOrderDistinct(keys: seq<string>)
    ensures NoDuplicates(IdOrder(keys))
  {
    if keys != [] {
      var k := |keys| - 1;
      var prev := IdOrder(keys[..k]);
      IdOrderDistinct(keys[..k]);
      if keys[k] != "" && keys[k] !in prev {
        var ids := prev + [keys[k]];
        assert IdOrder(keys) == ids;
        forall a, b | 0 <= a < b < |ids|
          ensures ids[a] != ids[b]
        {
          if b == |prev| {
            assert ids[a] == prev[a] && prev[a] in prev;
          } else {
            assert ids[a] == prev[a] && ids[b] == prev[b];
          }
        }
      }
    }
  }

  /** One pass of the grouping loop, for every id at once. */
  lemma GroupStep(keys: seq<string>, i: nat)
    requires i < |keys|
    ensures forall tid ::
      RowNumbersOf(keys[..i + 1], tid) == RowNumbersOf(keys[..i], tid) + (if keys[i] != "" && keys[i] == tid then [RowNumber(i)] else [])
    ensures var prev := IdOrder(keys[..i]);
      IdOrder(keys[..i + 1]) == if keys[i] != "" && keys[i] !in prev then prev + [keys[i]] else prev
  {
    var next := keys[..i + 1];
    assert next[..|next| - 1] == keys[..i] && next[|next| - 1] == keys[i];
  }

  /** One pass of the grouping loop, on the agent cell of row `i` and
      whether it looks like a teammate id. */
  method GroupRow(ghost keys: seq<string>, i: nat, agent: string, listed: bool,
                  ids: seq<string>, byId: map<string, seq<nat>>)
    returns (ids': seq<string>, byId': map<string, seq<nat>>)
    requires i < |keys| && keys[i] == (if listed then agent else "") && (listed ==> agent != "")
    requires ids == IdOrder(keys[..i])
    requires forall tid :: tid in byId <==> tid in ids
    requires forall tid :: tid in byId ==> byId[tid] == RowNumbersOf(keys[..i], tid)
    ensures ids' == IdOrder(keys[..i + 1])
    ensures forall tid :: tid in byId' <==> tid in ids'
    ensures forall tid :: tid in byId' ==> byId'[tid] == RowNumbersOf(keys[..i + 1], tid)
  {
    GroupStep(keys, i);
    IdOrderMembers(keys[..i], agent);
    ids', byId' := ids, byId;
    if listed {
      if agent !in byId' {
        ids' := ids' + [agent];
        byId' := byId'[agent := []];
      }
      byId' := byId'[agent := byId'[agent] + [RowNumber(i)]];
    }
  }

  /** The grouping loop: `ids` are the keys of `id_to_rows` in insertion
      order and `byId` its contents. */
  method GroupRowsById(rows: seq<SheetRow>) returns (ids: seq<string>, byId: map<string, seq<nat>>)
    ensures ids == IdOrder(AgentKeys(rows))
    ensures forall tid :: tid in byId <==> tid in ids
    ensures forall tid :: tid in byId ==> byId[tid] == RowNumbersOf(AgentKeys(rows), tid)
  {
    ghost var keys := AgentKeys(rows);
    ids, byId := [], map[];
    var i := 0;
    while i < |rows|
      invariant 0 <= i <= |rows|
      invariant ids == IdOrder(keys[..i])
      invariant forall tid :: tid in byId <==> tid in ids
      invariant forall tid :: tid in byId ==> byId[tid] == RowNumbersOf(keys[..i], tid)
    {
      var row := PadRow(rows[i]);
      var agent := row[1];
      ids, byId := GroupRow(keys, i, agent, LooksLikeTeammateId(agent), ids, byId);
      i := i + 1;
    }
    assert keys[..i] == keys;
  }

  /** What `GET /admins/{tid}` gave: an exception (network or JSON), or a
      reply with its status and, for a JSON object, its fields. */
  datatype AdminReply = Raised | Reply(status: int, body: Row)

  const NameKeys: seq<string> := ["name", "email"]

  /** The name written for `tid`: a truthy name from the admins map;
      otherwise, on a 200 reply, its `name` or `email` or the id itself;
      otherwise the id itself. */
  function NameFor(tid: string, admins: map<string, string>, lookup: string -> AdminReply): (name: string)
    ensures tid in admins && admins[tid] != "" ==> name == admins[tid]
    ensures !(tid in admins && admins[tid] != "") && !(lookup(tid).Reply? && lookup(tid).status == 200) ==> name == tid
    ensures tid != "" ==> name != ""
  {
    if tid in admins && admins[tid] != "" then admins[tid]
    else
      match lookup(tid)
      case Reply(status, body) =>
        if status == 200 then
          FirstTruthyNotEmpty(body, NameKeys, tid);
          FirstTruthy(body, NameKeys, tid)
        else tid
      case Raised => tid
  }

  lemma {:induction false} FirstTruthyNotEmpty(row: Row, keys: seq<string>, default: string)
    ensures default != "" ==> FirstTruthy(row, keys, default) != ""
  {
    if keys != [] {
      FirstTruthyNotEmpty(row, keys[1..], default);
    }
  }

  function NameOf(admins: map<string, string>, lookup: string -> AdminReply): string -> string {
    (tid: string) => NameFor(tid, admins, lookup)
  }

  /** `{"range": f"RawData!B{rnum}", "values": [[name]]}`. */
  datatype Update = Update(range: string, name: string)

  const RangePrefix: string := "RawData!B"

  function RangeOf(n: nat): string {
    RangePrefix + NatToString(n)
  }

  /** Different rows are addressed by different ranges. */
  lemma RangeOfInjective(a: nat, b: nat)
    ensures RangeOf(a) == RangeOf(b) ==> a == b
  {
    if RangeOf(a) == RangeOf(b) {
      assert RangeOf(a)[|RangePrefix|..] == NatToString(a);
      assert RangeOf(b)[|RangePrefix|..] == NatToString(b);
      DigitsValueOfNatToString(a);
      DigitsValueOfNatToString(b);
    }
  }

  /** No two updates address the same cell. */
  predicate DistinctRanges(us: seq<Update>) {
    forall a, b :: 0 <= a < b < |us| ==> us[a].range != us[b].range
  }

  /** The updates for one id: one per row number, all with its name. */
  function RowUpdates(ns: seq<nat>, name: string): (us: seq<Update>)
    ensures |us| == |ns|
    ensures forall j :: 0 <= j < |ns| ==> us[j] == Update(RangeOf(ns[j]), name)
  {
    seq(|ns|, j requires 0 <= j < |ns| => Update(RangeOf(ns[j]), name))
  }

  /** The `updates` list after the ids `ids` have been handled. */
  function UpdatesFor(ids: seq<string>, keys: seq<string>, nameOf: string -> string): seq<Update>
    decreases |ids|
  {
    if ids == [] then []
    else
      var tid := ids[|ids| - 1];
      UpdatesFor(ids[..|ids| - 1], keys, nameOf) + RowUpdates(RowNumbersOf(keys, tid), nameOf(tid))
  }

  /** The updates `resolve_teammate_ids_and_update_sheet` sends, given the
      admins map it fetched and the replies of `GET /admins/{tid}`. */
  function Resolution(rows: seq<SheetRow>, admins: map<string, string>, lookup: string -> AdminReply): seq<Update> {
    var keys := AgentKeys(rows);
    UpdatesFor(IdOrder(keys), keys, NameOf(admins, lookup))
  }

  /** Every update is for a row listed under one of the ids. */
  lemma {:induction false} UpdatesForMember(ids: seq<string>, keys: seq<string>, nameOf: string -> string, m: nat)
    returns (x: nat, n: nat)
    requires m < |UpdatesFor(ids, keys, nameOf)|
    ensures x < |ids| && n in RowNumbersOf(keys, ids[x])
    ensures UpdatesFor(ids, keys, nameOf)[m] == Update(RangeOf(n), nameOf(ids[x]))
  {
    var prev := UpdatesFor(ids[..|ids| - 1], keys, nameOf);
    if m < |prev| {
      x, n := UpdatesForMember(ids[..|ids| - 1], keys, nameOf, m);
    } else {
      x := |ids| - 1;
      n := RowNumbersOf(keys, ids[x])[m - |prev|];
    }
  }

  /** Every row listed under one of the ids gets its update. */
  lemma {:induction false} UpdatesForCovers(ids: seq<string>, keys: seq<string>, nameOf: string -> string, x: nat, n: nat)
    requires x < |ids| && n in RowNumbersOf(keys, ids[x])
    ensures Update(RangeOf(n), nameOf(ids[x])) in UpdatesFor(ids, keys, nameOf)
  {
    var k := |ids| - 1;
    var prev := UpdatesFor(ids[..k], keys, nameOf);
    var block := RowUpdates(RowNumbersOf(keys, ids[k]), nameOf(ids[k]));
    assert UpdatesFor(ids, keys, nameOf) == prev + block;
    if x < k {
      assert ids[..k][x] == ids[x];
      UpdatesForCovers(ids[..k], keys, nameOf, x, n);
    } else {
      RowUpdatesCover(RowNumbersOf(keys, ids[k]), nameOf(ids[k]), n);
    }
  }

  lemma RowUpdatesCover(ns: seq<nat>, name: string, n: nat)
    requires n in ns
    ensures Update(RangeOf(n), name) in RowUpdates(ns, name)
  {
    var j :| 0 <= j < |ns| && ns[j] == n;
    assert RowUpdates(ns, name)[j] == Update(RangeOf(n), name);
  }

  /** With distinct ids, no two updates address the same cell. */
  lemma {:induction false} UpdatesForDistinct(ids: seq<string>, keys: seq<string>, nameOf: string -> string)
    requires NoDuplicates(ids)
    ensures DistinctRanges(UpdatesFor(ids, keys, nameOf))
  {
    if ids != [] {
      var k := |ids| - 1;
      var tid := ids[k];
      var prev := UpdatesFor(ids[..k], keys, nameOf);
      var ns := RowNumbersOf(keys, tid);
      var us := UpdatesFor(ids, keys, nameOf);
      UpdatesForDistinct(ids[..k], keys, nameOf);
      RowNumbersIncreasing(keys, tid);
      forall a, b | 0 <= a < b < |us|
        ensures us[a].range != us[b].range
      {
        if b < |prev| {
          assert us[a] == prev[a] && us[b] == prev[b];
        } else {
          var nb := ns[b - |prev|];
          assert us[b].range == RangeOf(nb);
          RowNumbersOfMembers(keys, tid, nb);
          if a < |prev| {
            var x, n := UpdatesForMember(ids[..k], keys, nameOf, a);
            assert us[a].range == RangeOf(n);
            RowNumbersOfMembers(keys, ids[..k][x], n);
            RangeOfInjective(n, nb);
            assert ids[..k][x] == ids[x];
          } else {
            assert us[a].range == RangeOf(ns[a - |prev|]);
            RangeOfInjective(ns[a - |prev|], nb);
          }
        }
      }
    }
  }

  /** Every listed row has its cell updated with the name of its id. */
  lemma ListedRowUpdated(rows: seq<SheetRow>, admins: map<string, string>, lookup: string -> AdminReply, k: nat)
    requires k < |rows| && Listed(rows[k])
    ensures Update(RangeOf(RowNumber(k)), NameFor(AgentCell(rows[k]), admins, lookup)) in Resolution(rows, admins, lookup)
  {
    var keys := AgentKeys(rows);
    var tid := AgentCell(rows[k]);
    var ids := IdOrder(keys);
    RowNumbersOfMembers(keys, tid, RowNumber(k));
    IdOrderMembers(keys, tid);
    var x :| 0 <= x < |ids| && ids[x] == tid;
    UpdatesForCovers(ids, keys, NameOf(admins, lookup), x, RowNumber(k));
  }

  /** Every update writes, into a listed row, the name of that row's id. */
  lemma UpdateIsForListedRow(rows: seq<SheetRow>, admins: map<string, string>, lookup: string -> AdminReply, m: nat)
    requires m < |Resolution(rows, admins, lookup)|
    ensures exists k ::
      0 <= k < |rows| && Listed(rows[k]) && Resolution(rows, admins, lookup)[m] == Update(RangeOf(RowNumber(k)), NameFor(AgentCell(rows[k]), admins, lookup))
  {
    var keys := AgentKeys(rows);
    var ids := IdOrder(keys);
    var x, n := UpdatesForMember(ids, keys, NameOf(admins, lookup), m);
    RowNumbersOfMembers(keys, ids[x], n);
    var k := n - 2;
    assert RowNumber(k) == n && Listed(rows[k]);
  }

  /** No cell is written twice. */
  lemma UpdatesTouchDistinctCells(rows: seq<SheetRow>, admins: map<string, string>, lookup: string -> AdminReply)
    ensures DistinctRanges(Resolution(rows, admins, lookup))
  {
    var keys := AgentKeys(rows);
    IdOrderDistinct(keys);
    UpdatesForDistinct(IdOrder(keys), keys, NameOf(admins, lookup));
  }

  /** The update-building loop. A name fetched from `/admins/{tid}` is
      stored in the admins map, but since every id comes once the stored
      name is never read again: the result is that of the map as fetched. */
  method BuildUpdates(ids: seq<string>, byId: map<string, seq<nat>>, ghost keys: seq<string>,
                      admins: map<string, string>, lookup: string -> AdminReply)
    returns (updates: seq<Update>)
    requires NoDuplicates(ids)
    requires forall tid :: tid in ids ==> tid in byId && byId[tid] == RowNumbersOf(keys, tid)
    ensures updates == UpdatesFor(ids, keys, NameOf(admins, lookup))
  {
    var cache := admins;
    updates := [];
    for t := 0 to |ids|
      invariant updates == UpdatesFor(ids[..t], keys, NameOf(admins, lookup))
      invariant forall j :: t <= j < |ids| ==> (ids[j] in cache <==> ids[j] in admins)
      invariant forall j :: t <= j < |ids| && ids[j] in admins ==> cache[ids[j]] == admins[ids[j]]
    {
      var tid := ids[t];
      var name;
      name, cache := ResolveName(tid, cache, lookup);
      assert name == NameOf(admins, lookup)(tid);
      updates := AppendRowUpdates(updates, byId[tid], name);
      assert ids[..t + 1][..t] == ids[..t];
    }
    assert ids[..|ids|] == ids;
  }

  /** The name for one id, with the admins map as it stands: a name fetched
      from `/admins/{tid}` is stored under `tid` and nothing else changes. */
  method ResolveName(tid: string, cache: map<string, string>, lookup: string -> AdminReply)
    returns (name: string, cache': map<string, string>)
    ensures name == NameFor(tid, cache, lookup)
    ensures forall other :: other != tid ==> (other in cache' <==> other in cache)
    ensures forall other :: other != tid && other in cache ==> cache'[other] == cache[other]
  {
    cache' := cache;
    name := if tid in cache then cache[tid] else "";
    if name == "" {
      var reply := lookup(tid);
      if reply.Reply? && reply.status == 200 {
        name := FirstTruthy(reply.body, NameKeys, tid);
        cache' := cache[tid := name];
      } else {
        name := tid;
      }
    }
  }

  /** `for rnum in row_nums: updates.append(...)`. */
  method AppendRowUpdates(updates: seq<Update>, rowNums: seq<nat>, name: string) returns (updates': seq<Update>)
    ensures updates' == updates + RowUpdates(rowNums, name)
  {
    updates' := updates;
    for j := 0 to |rowNums|
      invariant updates' == updates + RowUpdates(rowNums[..j], name)
    {
      assert rowNums[..j + 1] == rowNums[..j] + [rowNums[j]];
      updates' := updates' + [Update(RangeOf(rowNums[j]), name)];
    }
    assert rowNums[..|rowNums|] == rowNums;
  }

  /** `resolve_teammate_ids_and_update_sheet` up to the batch update: the
      admins map is fetched only when some id needs resolving, so it is
      passed as the value that fetch returned. */
  method ResolveTeammateIds(rows: seq<SheetRow>, admins: map<string, string>, lookup: string -> AdminReply)
    returns (updates: seq<Update>)
    ensures updates == Resolution(rows, admins, lookup)
  {
    if rows == [] {
      return [];
    }
    var ids, byId := GroupRowsById(rows);
    if ids == [] {
      return [];
    }
    IdOrderDistinct(AgentKeys(rows));
    updates := BuildUpdates(ids, byId, AgentKeys(rows), admins, lookup);
  }
}
