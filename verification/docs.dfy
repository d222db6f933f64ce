/**
  A MongoDB collection as the handlers see it: documents in natural
  (insertion) order, each with an `_id`. `findById` and `findOne` return the
  first match, `findByIdAndUpdate` rewrites the first document with the id
  and does nothing when there is none, and `create` appends. Identifiers are
  handed in by the caller (ObjectId generation is outside the model); an
  insert whose id is already taken fails as the unique `_id` index makes it.
 */
module Docs {
  import opened Common

  type Id = nat

  datatype Doc<T> = Doc(id: Id, body: T)

  type Collection<T> = seq<Doc<T>>

  /** Position of the first document with `_id == id`. */
  function IndexOf<T>(c: Collection<T>, id: Id): (r: Option<nat>)
    ensures r.Some? ==> r.value < |c| && c[r.value].id == id
    ensures r.Some? ==> forall j :: 0 <= j < r.value ==> c[j].id != id
    ensures r.None? <==> forall j :: 0 <= j < |c| ==> c[j].id != id
    decreases |c|
  {
    if |c| == 0 then None
    else if c[0].id == id then Some(0)
    else match IndexOf(c[1..], id)
      case None => None
      case Some(k) => Some(k + 1)
  }

  predicate Has<T>(c: Collection<T>, id: Id) {
    IndexOf(c, id).Some?
  }

  /** `Model.findById(id)` */
  function Get<T>(c: Collection<T>, id: Id): Option<T> {
    match IndexOf(c, id)
    case None => None
    case Some(k) => Some(c[k].body)
  }

  /** Lookup only looks at ids: two collections with the same ids position by position find the same positions. */
  lemma {:induction false} IndexOfSameIds<T>(a: Collection<T>, b: Collection<T>, id: Id)
    requires |a| == |b|
    requires forall j :: 0 <= j < |a| ==> a[j].id == b[j].id
    ensures IndexOf(a, id) == IndexOf(b, id)
    decreases |a|
  {
    if |a| > 0 && a[0].id != id {
      IndexOfSameIds(a[1..], b[1..], id);
    }
  }

  /** `Model.findByIdAndUpdate(id, ...)` with the document's new value: only the first document with the id changes. */
  function Set<T>(c: Collection<T>, id: Id, v: T): (r: Collection<T>)
    ensures |r| == |c|
    ensures forall j :: 0 <= j < |c| ==> r[j].id == c[j].id
    ensures forall j :: 0 <= j < |c| ==> r[j] == c[j] || r[j] == Doc(id, v)
    ensures Get(r, id) == (if Has(c, id) then Some(v) else None)
    ensures forall other :: other != id ==> Get(r, other) == Get(c, other)
    ensures !Has(c, id) ==> r == c
  {
    match IndexOf(c, id)
    case None => c
    case Some(k) =>
      var r := c[k := Doc(id, v)];
      forall other ensures IndexOf(r, other) == IndexOf(c, other) {
        IndexOfSameIds(r, c, other);
      }
      r
  }

  /** `Set` rewrites the document at the position `IndexOf` finds. */
  lemma SetAt<T>(c: Collection<T>, id: Id, v: T)
    requires Has(c, id)
    ensures Set(c, id, v) == c[IndexOf(c, id).value := Doc(id, v)]
    ensures Bodies(Set(c, id, v)) == Bodies(c)[IndexOf(c, id).value := v]
  {
  }

  /** Writing back the value a document already has changes nothing. */
  lemma SetSame<T>(c: Collection<T>, id: Id)
    requires Has(c, id)
    ensures Set(c, id, Get(c, id).value) == c
  {
    var k := IndexOf(c, id).value;
    assert c[k := Doc(id, c[k].body)] == c;
  }

  /** Setting the same id twice keeps only the second value. */
  lemma SetSet<T>(c: Collection<T>, id: Id, v: T, w: T)
    ensures Set(Set(c, id, v), id, w) == Set(c, id, w)
  {
    if Has(c, id) {
      IndexOfSameIds(Set(c, id, v), c, id);
    }
  }

  /** `Model.create(v)` with the id `id`: appended at the end. */
  function Add<T>(c: Collection<T>, id: Id, v: T): (r: Collection<T>)
    requires !Has(c, id)
    ensures |r| == |c| + 1 && r[..|c|] == c && r[|c|] == Doc(id, v)
    ensures Get(r, id) == Some(v)
    ensures forall other :: other != id ==> Get(r, other) == Get(c, other)
  {
    var r := c + [Doc(id, v)];
    assert r[..|c|] == c;
    forall other ensures IndexOf(r, other) == (if other == id then Some(|c|) else IndexOf(c, other)) {
      AddIndex(c, Doc(id, v), other);
    }
    r
  }

  lemma {:induction false} AddIndex<T>(c: Collection<T>, d: Doc<T>, other: Id)
    ensures IndexOf(c + [d], other) ==
      (if IndexOf(c, other).Some? then IndexOf(c, other)
       else if d.id == other then Some(|c|) else None)
    decreases |c|
  {
    if |c| > 0 {
      assert (c + [d])[1..] == c[1..] + [d];
      AddIndex(c[1..], d, other);
    }
  }

  /** Position of the first document whose body satisfies `p` (`Model.findOne(filter)`). */
  function FirstWhere<T>(c: Collection<T>, p: T -> bool): (r: Option<nat>)
    ensures r.Some? ==> r.value < |c| && p(c[r.value].body)
    ensures r.Some? ==> forall j :: 0 <= j < r.value ==> !p(c[j].body)
    ensures r.None? <==> forall j :: 0 <= j < |c| ==> !p(c[j].body)
    decreases |c|
  {
    if |c| == 0 then None
    else if p(c[0].body) then Some(0)
    else match FirstWhere(c[1..], p)
      case None => None
      case Some(k) => Some(k + 1)
  }

  /** `findOne` only looks at whether each position matches, so equal match patterns give equal answers. */
  lemma {:induction false} FirstWhereCongruent<T>(a: Collection<T>, b: Collection<T>, p: T -> bool, q: T -> bool)
    requires |a| == |b|
    requires forall j :: 0 <= j < |a| ==> p(a[j].body) == q(b[j].body)
    ensures FirstWhere(a, p) == FirstWhere(b, q)
    decreases |a|
  {
    if |a| > 0 && !p(a[0].body) {
      FirstWhereCongruent(a[1..], b[1..], p, q);
    }
  }

  /** The document bodies in natural order (what `find({})` returns before sorting). */
  function Bodies<T>(c: Collection<T>): (r: seq<T>)
    ensures |r| == |c|
    ensures forall j :: 0 <= j < |c| ==> r[j] == c[j].body
  {
    seq(|c|, j requires 0 <= j < |c| => c[j].body)
  }

  /** No two documents share an id (what the unique `_id` index guarantees). */
  predicate DistinctIds<T>(c: Collection<T>) {
    forall i, j :: 0 <= i < j < |c| ==> c[i].id != c[j].id
  }

  /** With distinct ids, the document at position `k` is the one `findById` returns for its id. */
  lemma IndexOfDistinct<T>(c: Collection<T>, k: nat)
    requires DistinctIds(c) && k < |c|
    ensures IndexOf(c, c[k].id) == Some(k)
  {
  }

  /** Neither `Set` nor a fresh `Add` can break id distinctness. */
  lemma DistinctIdsPreserved<T>(c: Collection<T>, id: Id, v: T)
    ensures DistinctIds(c) ==> DistinctIds(Set(c, id, v))
    ensures DistinctIds(c) && !Has(c, id) ==> DistinctIds(Add(c, id, v))
  {
  }
}
