/**
  The JSON-file record store: a collection is the array of plain objects one
  JSON file holds, here an in-memory sequence of records. Records are
  compared by `String(record.id)`, new records get the next integer id, an
  update spreads the new fields over the old ones, and removal drops every
  record with the id.

  A field assigned `undefined` is dropped when the collection is written back
  as JSON, so it is modelled as the key being absent.
 */
module JsonStore {
  import opened Common
  import Strings
  import Seqs

  /** The JSON scalars a record field can hold (arrays, objects and fractions are not modelled). */
  datatype Value = Num(n: int) | Str(s: string) | Bool(b: bool) | Null

  type Record = map<string, Value>

  /** JavaScript's `String(v)`. */
  function ToString(v: Value): string {
    match v
    case Num(n) => Strings.IntString(n)
    case Str(s) => s
    case Bool(b) => if b then "true" else "false"
    case Null => "null"
  }

  /** JavaScript truthiness. */
  predicate Truthy(v: Value) {
    match v
    case Num(n) => n != 0
    case Str(s) => s != ""
    case Bool(b) => b
    case Null => false
  }

  /** `String(r[key])`, which reads `"undefined"` for a missing key. */
  function FieldString(r: Record, key: string): string {
    if key in r then ToString(r[key]) else "undefined"
  }

  /** `String(r.id) === String(id)` with the right-hand side already a string. */
  predicate HasId(r: Record, id: string) {
    FieldString(r, "id") == id
  }

  /** Position of the first record with the id (`findIndex`). */
  function IndexOfId(rows: seq<Record>, id: string): (r: Option<nat>)
    ensures r.Some? ==> r.value < |rows| && HasId(rows[r.value], id)
    ensures r.Some? ==> forall j :: 0 <= j < r.value ==> !HasId(rows[j], id)
    ensures r.None? <==> forall j :: 0 <= j < |rows| ==> !HasId(rows[j], id)
    decreases |rows|
  {
    if |rows| == 0 then None
    else if HasId(rows[0], id) then Some(0)
    else match IndexOfId(rows[1..], id)
      case None => None
      case Some(k) => Some(k + 1)
  }

  /** `findById(name, id)`: the first record whose id reads as `id`, else null. */
  function FindById(rows: seq<Record>, id: string): (r: Option<Record>)
    ensures r.Some? <==> exists j :: 0 <= j < |rows| && HasId(rows[j], id)
    ensures r.Some? ==> exists j :: 0 <= j < |rows| && rows[j] == r.value && HasId(rows[j], id)
                          && forall i :: 0 <= i < j ==> !HasId(rows[i], id)
  {
    match IndexOfId(rows, id)
    case None => None
    case Some(k) => Some(rows[k])
  }

  /** `findMany(name, predicate)`: the records satisfying `p`, in stored order. */
  function FindMany(rows: seq<Record>, p: Record -> bool): (r: seq<Record>)
    ensures forall x :: x in r <==> x in rows && p(x)
  {
    Seqs.Filter(rows, p)
  }

  // ---------------------------------------------------------------------------
  // insert

  /** `Number(r.id) || 0`; a string id counts as 0 (see README). */
  function NumericId(r: Record): int {
    if "id" in r then
      match r["id"]
      case Num(n) => n
      case Bool(b) => if b then 1 else 0
      case _ => 0
    else 0
  }

  /** `Math.max(...rows.map(r => Number(r.id) || 0))` */
  function MaxId(rows: seq<Record>): (m: int)
    requires |rows| > 0
    ensures forall k :: 0 <= k < |rows| ==> NumericId(rows[k]) <= m
    ensures exists k :: 0 <= k < |rows| && NumericId(rows[k]) == m
    decreases |rows|
  {
    if |rows| == 1 then NumericId(rows[0])
    else
      var m := MaxId(rows[1..]);
      assert forall k :: 1 <= k < |rows| ==> rows[k] == rows[1..][k - 1];
      if NumericId(rows[0]) >= m then NumericId(rows[0])
      else
        var k :| 0 <= k < |rows[1..]| && NumericId(rows[1..][k]) == m;
        assert rows[k + 1] == rows[1..][k];
        m
  }

  /** The id `insert` assigns: 1 for an empty collection, else one more than the largest. */
  function NextId(rows: seq<Record>): (n: int)
    ensures forall k :: 0 <= k < |rows| ==> NumericId(rows[k]) < n
    ensures |rows| == 0 ==> n == 1
    ensures |rows| > 0 ==> exists k :: 0 <= k < |rows| && NumericId(rows[k]) == n - 1
  {
    if |rows| > 0 then MaxId(rows) + 1 else 1
  }

  /**
    `insert(name, record)`: sets the id, keeps a truthy `createdAt` (else
    stamps `now`) and appends the record, which it also returns.
   */
  function Insert(rows: seq<Record>, record: Record, now: string): (r: (seq<Record>, Record))
    ensures r.0 == rows + [r.1]
    ensures r.1.Keys == record.Keys + {"id", "createdAt"}
    ensures "id" in r.1 && r.1["id"] == Num(NextId(rows))
    ensures "createdAt" in r.1 && "createdAt" in record && Truthy(record["createdAt"]) ==> r.1["createdAt"] == record["createdAt"]
    ensures "createdAt" in r.1 && !("createdAt" in record && Truthy(record["createdAt"])) ==> r.1["createdAt"] == Str(now)
    ensures forall k :: k in record && k != "id" && k != "createdAt" ==> k in r.1 && r.1[k] == record[k]
  {
    var withId := record["id" := Num(NextId(rows))];
    var stamped := withId["createdAt" := if "createdAt" in record && Truthy(record["createdAt"])
                                         then record["createdAt"] else Str(now)];
    (rows + [stamped], stamped)
  }

  /** Every stored id is a number (what `insert` writes). */
  predicate NumericIds(rows: seq<Record>) {
    forall k :: 0 <= k < |rows| ==> "id" in rows[k] && rows[k]["id"].Num?
  }

  /** No two records share an id as `String` sees it. */
  predicate UniqueIds(rows: seq<Record>) {
    forall i, j :: 0 <= i < j < |rows| ==> FieldString(rows[i], "id") != FieldString(rows[j], "id")
  }

  /** The id `insert` assigns is not yet taken, so numeric unique ids stay unique. */
  lemma InsertKeepsIdsUnique(rows: seq<Record>, record: Record, now: string)
    requires NumericIds(rows)
    ensures var rows1 := Insert(rows, record, now).0;
            NumericIds(rows1) && (UniqueIds(rows) ==> UniqueIds(rows1))
            && forall k :: 0 <= k < |rows| ==> !HasId(rows[k], Strings.IntString(NextId(rows)))
  {
    var n := NextId(rows);
    forall k | 0 <= k < |rows| ensures !HasId(rows[k], Strings.IntString(n)) {
      Strings.IntStringInjective(rows[k]["id"].n, n);
    }
  }

  /** After an insert, looking up the new id finds exactly the inserted record. */
  lemma InsertThenFind(rows: seq<Record>, record: Record, now: string)
    requires NumericIds(rows)
    ensures var (rows1, stored) := Insert(rows, record, now);
            FindById(rows1, Strings.IntString(NextId(rows))) == Some(stored)
  {
    InsertKeepsIdsUnique(rows, record, now);
    var (rows1, stored) := Insert(rows, record, now);
    var id := Strings.IntString(NextId(rows));
    assert HasId(stored, id);
    assert forall j :: 0 <= j < |rows| ==> rows1[j] == rows[j] && !HasId(rows1[j], id);
    assert rows1[|rows|] == stored;
    assert IndexOfId(rows1, id) == Some(|rows|);
  }

  // ---------------------------------------------------------------------------
  // updateById and removeById

  /**
    `{ ...r, ...updates }` as it is stored: every update key takes its new
    value, an `undefined` one (`None`) disappears, other keys are kept.
   */
  function Merge(r: Record, updates: map<string, Option<Value>>): (m: Record)
    ensures forall k :: k in updates && updates[k].Some? ==> k in m && m[k] == updates[k].value
    ensures forall k :: k in updates && updates[k].None? ==> k !in m
    ensures forall k :: k !in updates ==> (k in m <==> k in r) && (k in r ==> m[k] == r[k])
  {
    map k | k in r.Keys + updates.Keys && (k in updates ==> updates[k].Some?) ::
      if k in updates then updates[k].value else r[k]
  }

  /**
    `updateById(name, id, updates)`: the first record with the id becomes
    the merge of it and `updates`, stamped with `updatedAt`; an unknown id
    changes nothing and answers null.
   */
  function UpdateById(rows: seq<Record>, id: string, updates: map<string, Option<Value>>, now: string)
    : (r: (seq<Record>, Option<Record>))
    ensures r.1.None? <==> forall j :: 0 <= j < |rows| ==> !HasId(rows[j], id)
    ensures r.1.None? ==> r.0 == rows
    ensures |r.0| == |rows|
    ensures r.1.Some? ==>
              var k := IndexOfId(rows, id).value;
              && r.0[k] == r.1.value
              && r.1.value == Merge(rows[k], updates)["updatedAt" := Str(now)]
              && forall j :: 0 <= j < |rows| && j != k ==> r.0[j] == rows[j]
  {
    match IndexOfId(rows, id)
    case None => (rows, None)
    case Some(k) =>
      var merged := Merge(rows[k], updates)["updatedAt" := Str(now)];
      (rows[k := merged], Some(merged))
  }

  /** An update that does not touch `id` can be read back under the same id. */
  lemma UpdateThenFind(rows: seq<Record>, id: string, updates: map<string, Option<Value>>, now: string)
    requires exists j :: 0 <= j < |rows| && HasId(rows[j], id)
    requires "id" !in updates
    ensures var (rows1, updated) := UpdateById(rows, id, updates, now);
            updated.Some? && FindById(rows1, id) == updated
  {
    var (rows1, updated) := UpdateById(rows, id, updates, now);
    var k := IndexOfId(rows, id).value;
    assert HasId(rows1[k], id);
    assert IndexOfId(rows1, id) == Some(k);
  }

  /** `removeById(name, id)`: drops every record with the id and says whether there was one. */
  function RemoveById(rows: seq<Record>, id: string): (r: (seq<Record>, bool))
    ensures r.1 <==> exists j :: 0 <= j < |rows| && HasId(rows[j], id)
    ensures forall j :: 0 <= j < |r.0| ==> !HasId(r.0[j], id)
    ensures forall x :: x in r.0 <==> x in rows && !HasId(x, id)
    ensures r.0 == Seqs.Filter(rows, (x: Record) => !HasId(x, id))
  {
    (Seqs.Filter(rows, (x: Record) => !HasId(x, id)), IndexOfId(rows, id).Some?)
  }

  /** After a removal the id is not found, and removing it again reports nothing removed. */
  lemma RemoveThenFind(rows: seq<Record>, id: string)
    ensures FindById(RemoveById(rows, id).0, id).None?
    ensures RemoveById(RemoveById(rows, id).0, id) == (RemoveById(rows, id).0, false)
  {
    var rows1 := RemoveById(rows, id).0;
    Seqs.FilterKeepsAll(rows1, (x: Record) => !HasId(x, id));
  }

  /** Removal keeps the other records in their relative order: removing from a concatenation removes from each part. */
  lemma RemoveKeepsOrder(a: seq<Record>, b: seq<Record>, id: string)
    ensures RemoveById(a + b, id).0 == RemoveById(a, id).0 + RemoveById(b, id).0
  {
    Seqs.FilterAppend(a, b, (x: Record) => !HasId(x, id));
  }
}
