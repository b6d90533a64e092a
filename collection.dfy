/**
 * A MongoDB collection as the controllers use it: documents in natural
 * order, taken here to be insertion order, each carrying a generated `_id`, with the queries
 * `findOne`, `findById` and `find`, and the effect of `findByIdAndDelete`.
 */
module Collection {
  import opened Common

  /** A stored document: its `_id` and its fields. */
  datatype Doc<+T> = Doc(id: Id, data: T)

  /** A collection, in natural order. */
  type Table<T> = seq<Doc<T>>

  /** Every `_id` was handed out before `next`, and no two documents share one. */
  ghost predicate Keyed<T>(t: Table<T>, next: Id)
  {
    && (forall i | 0 <= i < |t| :: t[i].id < next)
    && (forall i, j | 0 <= i < j < |t| :: t[i].id != t[j].id)
  }

  /** `findOne(filter)`: the position of the first document, in natural
      order, that satisfies the filter. */
  function First<T>(t: Table<T>, p: Doc<T> -> bool): (k: Option<nat>)
    ensures k.Some? ==> k.value < |t| && p(t[k.value]) && forall j | 0 <= j < k.value :: !p(t[j])
    ensures k.None? ==> forall j | 0 <= j < |t| :: !p(t[j])
    decreases |t|
  {
    if |t| == 0 then None
    else if p(t[0]) then Some(0)
    else match First(t[1..], p)
      case None => None
      case Some(j) => Some(j + 1)
  }

  /** `findById(id)`: the position of the document whose `_id` is `id`. */
  function IndexOf<T>(t: Table<T>, id: Id): (k: Option<nat>)
    ensures k.Some? ==> k.value < |t| && t[k.value].id == id
    ensures k.None? <==> forall j | 0 <= j < |t| :: t[j].id != id
  {
    First(t, (d: Doc<T>) => d.id == id)
  }

  /** `findById` on a reference taken from a request body, which may be
      absent (`findById(undefined)` finds nothing). */
  function Lookup<T>(t: Table<T>, ref: Option<Id>): (r: Option<T>)
    ensures r.Some? <==> ref.Some? && exists j | 0 <= j < |t| :: t[j].id == ref.value
    ensures r.Some? ==> Doc(ref.value, r.value) in t
  {
    if ref.None? then None
    else match IndexOf(t, ref.value)
      case None => None
      case Some(k) => Some(t[k].data)
  }

  /** `find(filter)`: the documents that satisfy the filter, in natural order. */
  function Where<T>(t: Table<T>, p: Doc<T> -> bool): (r: Table<T>)
    ensures |r| <= |t|
    ensures forall i | 0 <= i < |r| :: r[i] in t && p(r[i])
    ensures forall i | 0 <= i < |t| && p(t[i]) :: t[i] in r
    decreases |t|
  {
    if |t| == 0 then []
    else (if p(t[0]) then [t[0]] else []) + Where(t[1..], p)
  }

  /** With natural order taken as insertion order, a document added last is
      found last. */
  lemma {:induction false} WhereAppend<T>(t: Table<T>, d: Doc<T>, p: Doc<T> -> bool)
    ensures Where(t + [d], p) == Where(t, p) + (if p(d) then [d] else [])
    decreases |t|
  {
    if |t| == 0 {
      assert t + [d] == [d];
      assert Where([d], p) == (if p(d) then [d] else []) + Where([], p);
    } else {
      assert (t + [d])[0] == t[0];
      assert (t + [d])[1..] == t[1..] + [d];
      WhereAppend(t[1..], d, p);
    }
  }

  /** The collection without the document at position `k`. */
  function RemoveAt<T>(t: Table<T>, k: nat): (r: Table<T>)
    requires k < |t|
    ensures |r| == |t| - 1
  {
    t[..k] + t[k + 1..]
  }

  /** `findByIdAndDelete`: removing the document found at `k` removes exactly
      the document with that `_id` and keeps the collection keyed. */
  lemma RemoveAtDropsOnlyThatId<T>(t: Table<T>, next: Id, k: nat)
    requires Keyed(t, next) && k < |t|
    ensures Keyed(RemoveAt(t, k), next)
    ensures forall d :: d in RemoveAt(t, k) <==> d in t && d.id != t[k].id
  {
    var r := RemoveAt(t, k);
    assert forall i | 0 <= i < |r| :: r[i] == if i < k then t[i] else t[i + 1];
    forall d | d in t && d.id != t[k].id
      ensures d in r
    {
      var i :| 0 <= i < |t| && t[i] == d;
      if i < k {
        assert r[i] == d;
      } else {
        assert r[i - 1] == d;
      }
    }
  }

  /** Appending a document with a fresh `_id` keeps the collection keyed. */
  lemma KeyedInsert<T>(t: Table<T>, next: Id, x: T)
    requires Keyed(t, next)
    ensures Keyed(t + [Doc(next, x)], next + 1)
  {
  }

  /** Replacing a document's fields in place keeps the collection keyed. */
  lemma KeyedReplace<T>(t: Table<T>, next: Id, k: nat, x: T)
    requires Keyed(t, next) && k < |t|
    ensures Keyed(t[k := Doc(t[k].id, x)], next)
  {
  }
}
