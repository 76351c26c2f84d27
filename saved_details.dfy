/** The saved-visitors page: the list loaded from the back end, with each
    record prepared for display, and deletion by the record's `_id`. Records
    are JSON objects: maps from keys to values, where a missing key reads as
    `undefined`. Strict equality on values is equality of `Value`s. */
module SavedDetails {
  import opened Wrappers

  datatype Value = Undefined | Null | Str(s: string) | Other(token: nat)

  type Record = map<string, Value>

  /** `record.key`. */
  function Field(r: Record, key: string): Value {
    if key in r then r[key] else Undefined
  }

  const IdKey: string := "_id"
  const DateKey: string := "date"
  const SelfieImageKey: string := "selfieImage"
  const SignatureImageKey: string := "signatureImage"

  /** The keys every loaded record is given. */
  const AddedKeys: set<string> := {DateKey, SelfieImageKey, SignatureImageKey}

  /** `{...visitor, date: format(visitor.dateOfEntry), selfieImage:
      visitor.selfie, signatureImage: visitor.signature}`; the date pipe is
      the `formatDate` parameter. A prepared record keeps every original
      field except the three it sets, and gains `selfieImage` equal to
      `selfie` and `signatureImage` equal to `signature`, even when those
      are undefined. */
  function Prepare(r: Record, formatDate: Value -> Value): (p: Record)
    ensures p.Keys == r.Keys + AddedKeys
    ensures forall k :: k in r && k !in AddedKeys ==> p[k] == r[k]
    ensures Field(p, SelfieImageKey) == Field(r, "selfie")
    ensures Field(p, SignatureImageKey) == Field(r, "signature")
    ensures Field(p, DateKey) == formatDate(Field(r, "dateOfEntry"))
  {
    r[DateKey := formatDate(Field(r, "dateOfEntry"))]
     [SelfieImageKey := Field(r, "selfie")]
     [SignatureImageKey := Field(r, "signature")]
  }

  /** `data.map(...)`. */
  function PrepareAll(data: seq<Record>, formatDate: Value -> Value): (vs: seq<Record>)
    ensures |vs| == |data|
    ensures forall i :: 0 <= i < |data| ==> vs[i] == Prepare(data[i], formatDate)
  {
    if data == [] then []
    else [Prepare(data[0], formatDate)] + PrepareAll(data[1..], formatDate)
  }

  /** `visitors.filter(visitor => visitor._id !== id)`. */
  function WithoutId(vs: seq<Record>, id: Value): (r: seq<Record>)
    ensures |r| <= |vs|
    ensures forall i :: 0 <= i < |r| ==> Field(r[i], IdKey) != id
  {
    if vs == [] then []
    else if Field(vs[0], IdKey) != id then [vs[0]] + WithoutId(vs[1..], id)
    else WithoutId(vs[1..], id)
  }

  /** `a` is `b` with some entries left out, the rest in the same order. */
  predicate SubsequenceOf(a: seq<Record>, b: seq<Record>)
    decreases |b|
  {
    if a == [] then true
    else if b == [] then false
    else if a[0] == b[0] then SubsequenceOf(a[1..], b[1..])
    else SubsequenceOf(a, b[1..])
  }

  /** The entries kept stay in their original relative order. */
  lemma {:induction false} WithoutIdKeepsOrder(vs: seq<Record>, id: Value)
    ensures SubsequenceOf(WithoutId(vs, id), vs)
  {
    if vs != [] {
      WithoutIdKeepsOrder(vs[1..], id);
      var rest := WithoutId(vs[1..], id);
      if Field(vs[0], IdKey) != id {
        assert ([vs[0]] + rest)[1..] == rest;
      } else {
        SkipFirst(rest, vs);
      }
    }
  }

  /** Dropping `b`'s first entry from consideration is always allowed when
      `a` is already a subsequence of the rest. */
  lemma {:induction false} SkipFirst(a: seq<Record>, b: seq<Record>)
    requires b != [] && SubsequenceOf(a, b[1..])
    ensures SubsequenceOf(a, b)
    decreases |b|, 1
  {
    if a != [] && a[0] == b[0] {
      // a[1..] is a subsequence of b[1..] because a is one of b[1..]
      SubsequenceTail(a, b[1..]);
    }
  }

  lemma {:induction false} SubsequenceTail(a: seq<Record>, b: seq<Record>)
    requires a != [] && SubsequenceOf(a, b)
    ensures SubsequenceOf(a[1..], b)
    decreases |b|, 2
  {
    if a[0] == b[0] {
      if b[1..] != [] {
        SkipFirst(a[1..], b);
      } else {
        assert a[1..] == [];
      }
    } else {
      SubsequenceTail(a, b[1..]);
      SkipFirst(a[1..], b);
    }
  }

  /** Every entry with that id is removed and every other entry is kept as
      often as it occurred. */
  lemma {:induction false} WithoutIdCounts(vs: seq<Record>, id: Value, x: Record)
    ensures multiset(WithoutId(vs, id))[x] == if Field(x, IdKey) == id then 0 else multiset(vs)[x]
  {
    if vs != [] {
      WithoutIdCounts(vs[1..], id, x);
      assert vs == [vs[0]] + vs[1..];
    }
  }

  /** Filtering by an id no entry has changes nothing; in particular a
      second delete of the same id is a no-op. */
  lemma {:induction false} WithoutIdAbsent(vs: seq<Record>, id: Value)
    requires forall i :: 0 <= i < |vs| ==> Field(vs[i], IdKey) != id
    ensures WithoutId(vs, id) == vs
  {
    if vs != [] {
      WithoutIdAbsent(vs[1..], id);
    }
  }

  lemma WithoutIdIdempotent(vs: seq<Record>, id: Value)
    ensures WithoutId(WithoutId(vs, id), id) == WithoutId(vs, id)
  {
    WithoutIdAbsent(WithoutId(vs, id), id);
  }

  class SavedDetails {
    var visitors: seq<Record>
    /** The `_id`s sent in DELETE requests, oldest first. */
    var deleteRequests: seq<Value>

    constructor ()
      ensures visitors == [] && deleteRequests == []
    {
      visitors, deleteRequests := [], [];
    }

    /** `loadVisitorData` once the GET has settled: `None` is the error
        callback, which leaves the list alone. */
    method LoadVisitorData(response: Option<seq<Record>>, formatDate: Value -> Value)
      modifies this`visitors
      ensures response.None? ==> visitors == old(visitors)
      ensures response.Some? ==> visitors == PrepareAll(response.value, formatDate)
    {
      if response.Some? {
        visitors := PrepareAll(response.value, formatDate);
      }
    }

    /** `deleteVisitor` with the alert's answer and the DELETE's outcome:
        on "Delete" the id read is that of `visitors[index]`; an index with
        no entry makes the handler throw, so no request is made. */
    method DeleteVisitor(index: int, confirmed: bool, succeeded: bool) returns (requested: Option<Value>)
      modifies this`visitors, this`deleteRequests
      ensures requested.Some? <==> confirmed && 0 <= index < |old(visitors)|
      ensures requested.Some? ==> requested.value == Field(old(visitors)[index], IdKey)
      ensures requested.Some? ==> deleteRequests == old(deleteRequests) + [requested.value]
      ensures requested.None? ==> deleteRequests == old(deleteRequests) && visitors == old(visitors)
      ensures requested.Some? ==>
        visitors == if succeeded then WithoutId(old(visitors), requested.value) else old(visitors)
    {
      requested := None;
      if !confirmed || index < 0 || index >= |visitors| {
        return;
      }
      var visitorToDelete := visitors[index];
      requested := Some(Field(visitorToDelete, IdKey));
      DeleteVisitorFromApi(requested.value, succeeded);
    }

    /** `deleteVisitorFromApi`: one DELETE; on success every entry with
        that id goes, on error the list stays as it was. */
    method DeleteVisitorFromApi(visitorId: Value, succeeded: bool)
      modifies this`visitors, this`deleteRequests
      ensures deleteRequests == old(deleteRequests) + [visitorId]
      ensures visitors == if succeeded then WithoutId(old(visitors), visitorId) else old(visitors)
    {
      deleteRequests := deleteRequests + [visitorId];
      if succeeded {
        visitors := WithoutId(visitors, visitorId);
      }
    }
  }
}
