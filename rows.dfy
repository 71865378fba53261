/** A decoded export row or a JSON object, as the Python scripts hold it: a
    `dict` from column name to text whose keys keep their insertion (header)
    order. A key that is not present reads as `None`. */
module Rows {
  import opened Text

  type Row = seq<(string, string)>

  /** `row.get(key)`: the value stored under `key`, if any. `csv.DictReader`
      builds each row with `dict(zip(fieldnames, cells))`, so when a column
      name repeats, the later cell overwrites the earlier one: the value is
      the one of the last entry for `key`. */
  function Get(row: Row, key: string): (r: Option<string>)
    ensures r.Some? <==> exists i :: 0 <= i < |row| && row[i].0 == key
    ensures r.Some? ==> exists i :: 0 <= i < |row| && row[i] == (key, r.value) && LastWithKey(row, key, i)
  {
    if row == [] then None
    else if row[|row| - 1].0 == key then Some(row[|row| - 1].1)
    else
      var r := Get(row[..|row| - 1], key);
      assert forall i :: 0 <= i < |row| - 1 ==> row[..|row| - 1][i] == row[i];
      r
  }

  /** Entry `i` is the last one for `key`. */
  predicate LastWithKey(row: Row, key: string, i: nat) {
    forall j :: i < j < |row| ==> row[j].0 != key
  }

  /** Python truthiness of `row.get(key)`: present and not the empty string. */
  predicate Truthy(o: Option<string>) {
    o.Some? && o.value != ""
  }

  /** `row.get(k1) or row.get(k2) or ... or default`. */
  function FirstTruthy(row: Row, keys: seq<string>, default: string): (r: string)
    ensures (forall i :: 0 <= i < |keys| ==> !Truthy(Get(row, keys[i]))) ==> r == default
    ensures forall i :: 0 <= i < |keys| && Truthy(Get(row, keys[i]))
              && (forall j :: 0 <= j < i ==> !Truthy(Get(row, keys[j])))
              ==> r == Get(row, keys[i]).value
  {
    if keys == [] then default
    else
      var v := Get(row, keys[0]);
      if Truthy(v) then v.value else FirstTruthy(row, keys[1..], default)
  }

  /** Some entry of the row has header `k`. */
  predicate HasKey(row: Row, k: string) {
    exists i :: 0 <= i < |row| && row[i].0 == k
  }

  /** The position of the first entry with header `k`. */
  function FirstPos(row: Row, k: string): (p: nat)
    requires HasKey(row, k)
    ensures p < |row| && row[p].0 == k && forall m :: 0 <= m < p ==> row[m].0 != k
  {
    if row[0].0 == k then 0
    else
      var i :| 0 <= i < |row| && row[i].0 == k;
      assert row[1..][i - 1].0 == k;
      1 + FirstPos(row[1..], k)
  }

  /** A header present in a prefix first occurs at the same place in the
      whole row. */
  lemma FirstPosOfPrefix(row: Row, n: nat, k: string)
    requires n <= |row| && HasKey(row[..n], k)
    ensures HasKey(row, k) && FirstPos(row, k) == FirstPos(row[..n], k)
  {
    var p := FirstPos(row[..n], k);
    assert row[p].0 == k;
  }

  /** `row.keys()` of the dict `dict(zip(fieldnames, cells))`: every header
      once, in the order of its first occurrence (see `KeysOrdered`), since
      storing a repeated key again keeps its place. */
  function Keys(row: Row): (ks: seq<string>)
    ensures forall i :: 0 <= i < |row| ==> row[i].0 in ks
    ensures forall j :: 0 <= j < |ks| ==> HasKey(row, ks[j])
  {
    if row == [] then []
    else
      var init := row[..|row| - 1];
      var ks := Keys(init);
      assert forall j :: 0 <= j < |ks| ==> HasKey(row, ks[j]) by {
        forall j | 0 <= j < |ks| ensures HasKey(row, ks[j]) {
          var i :| 0 <= i < |init| && init[i].0 == ks[j];
          assert row[i].0 == ks[j];
        }
      }
      assert forall i :: 0 <= i < |row| - 1 ==> row[i].0 == init[i].0;
      if row[|row| - 1].0 in ks then ks else ks + [row[|row| - 1].0]
  }

  /** The keys come in the order of their first occurrence, each once. */
  lemma {:induction false} KeysOrdered(row: Row, j: nat, l: nat)
    requires j < l < |Keys(row)|
    ensures FirstPos(row, Keys(row)[j]) < FirstPos(row, Keys(row)[l])
    decreases |row|
  {
    var init := row[..|row| - 1];
    var ks := Keys(init);
    var last := row[|row| - 1].0;
    assert Keys(row) == if last in ks then ks else ks + [last];
    assert j < |ks| && Keys(row)[j] == ks[j];
    FirstPosOfPrefix(row, |row| - 1, ks[j]);
    if l < |ks| {
      KeysOrdered(init, j, l);
      FirstPosOfPrefix(row, |row| - 1, ks[l]);
    } else {
      assert Keys(row)[l] == last && last !in ks;
      assert forall i :: 0 <= i < |row| - 1 ==> row[i].0 != last by {
        forall i | 0 <= i < |row| - 1 ensures row[i].0 != last {
          assert init[i].0 in ks;
        }
      }
    }
  }

  /** A value written to a spreadsheet cell: text, a float or an int. */
  datatype Cell = Str(s: string) | Real(x: real) | Int(n: int)
}
