/** Properties of the document mutations: what delete keeps and in which
    order, idempotence, and how deleting and adding interact. */
module StoreLemmas {
  import opened Json
  import opened Store
  import opened Wrappers

  /** An item survives the filter exactly when it was there and its id differs. */
  lemma {:induction false} WithoutMembership(items: seq<Item>, id: int, x: Item)
    ensures x in Without(items, id) <==> x in items && x.id != id
  {
    if |items| > 0 {
      WithoutMembership(items[1..], id, x);
      assert items == [items[0]] + items[1..];
    }
  }

  /** Filtering distributes over concatenation, so it keeps the survivors in
      their original relative order. */
  lemma {:induction false} WithoutConcat(a: seq<Item>, b: seq<Item>, id: int)
    ensures Without(a + b, id) == Without(a, id) + Without(b, id)
  {
    if |a| == 0 {
      assert a + b == b;
    } else {
      assert (a + b)[1..] == a[1..] + b;
      WithoutConcat(a[1..], b, id);
    }
  }

  /** The filter leaves a sequence alone exactly when no item carries the id. */
  lemma {:induction false} WithoutUnchanged(items: seq<Item>, id: int)
    ensures Without(items, id) == items <==> forall i :: 0 <= i < |items| ==> items[i].id != id
  {
    if |items| > 0 {
      WithoutUnchanged(items[1..], id);
      if items[0].id == id {
        assert |Without(items, id)| < |items| by {
          assert Without(items, id) == Without(items[1..], id);
        }
      } else if forall i :: 0 <= i < |items| ==> items[i].id != id {
        assert forall i :: 0 <= i < |items[1..]| ==> items[1..][i].id != id by {
          forall i | 0 <= i < |items[1..]| ensures items[1..][i].id != id {
            assert items[1..][i] == items[i + 1];
          }
        }
      } else {
        var j :| 0 <= j < |items| && items[j].id == id;
        assert items[1..][j - 1] == items[j];
      }
    }
  }

  /** Filtering twice by the same id is filtering once. */
  lemma WithoutIdempotent(items: seq<Item>, id: int)
    ensures Without(Without(items, id), id) == Without(items, id)
  {
    WithoutUnchanged(Without(items, id), id);
  }

  /** The number of items the filter drops is the number that carry the id. */
  function CountId(items: seq<Item>, id: int): (n: nat)
    ensures n <= |items|
  {
    if |items| == 0 then 0
    else (if items[0].id == id then 1 else 0) + CountId(items[1..], id)
  }

  lemma {:induction false} WithoutLength(items: seq<Item>, id: int)
    ensures |Without(items, id)| == |items| - CountId(items, id)
  {
    if |items| > 0 {
      WithoutLength(items[1..], id);
    }
  }

  /** The stored record is the object spread `{...body, id: now}`: the
      timestamp replaces any id the body carried, every other property is
      the body's. */
  lemma SpreadOverridesBodyId(body: Object, now: nat)
    ensures ToObject(MakeItem(body, now)) == SpreadWith(body, IdKey, Num(now))
    ensures IdKey in body ==> ToObject(MakeItem(body, now))[IdKey] == Num(now)
  {
    var o := ToObject(MakeItem(body, now));
    var s := SpreadWith(body, IdKey, Num(now));
    assert o.Keys == s.Keys;
    forall k | k in o ensures o[k] == s[k] {
    }
  }

  /** Storing an item and reading it back gives the same item. */
  lemma ObjectRoundTrip(it: Item)
    requires it.Valid()
    ensures FromObject(ToObject(it)) == Some(it)
  {
    assert ToObject(it) - {IdKey} == it.rest;
  }

  /** Loading an object with a numeric id and saving it again gives the
      same object, so every such object is the image of exactly one item. */
  lemma ItemRoundTrip(o: Object)
    requires IdKey in o && o[IdKey].Num?
    ensures FromObject(o).Some?
    ensures ToObject(FromObject(o).value) == o
  {
    var o' := ToObject(FromObject(o).value);
    assert o'.Keys == o.Keys;
  }

  /** Applying the same delete twice equals applying it once. */
  lemma DeleteIdempotent(d: Document, kind: string, id: int)
    ensures Delete(Delete(d, kind, id), kind, id) == Delete(d, kind, id)
  {
    WithoutIdempotent(d.news, id);
    WithoutIdempotent(d.wishes, id);
  }

  /** Deleting an id the targeted collection does not hold changes nothing. */
  lemma DeleteMissingIsNoop(d: Document, kind: string, id: int)
    requires kind == "news" ==> forall i :: 0 <= i < |d.news| ==> d.news[i].id != id
    requires kind == "wish" ==> forall i :: 0 <= i < |d.wishes| ==> d.wishes[i].id != id
    ensures Delete(d, kind, id) == d
  {
    WithoutUnchanged(d.news, id);
    WithoutUnchanged(d.wishes, id);
  }

  /** After a delete, no item of the targeted collection carries the id,
      and every item that did not carry it is still there. */
  lemma DeleteRemovesExactly(d: Document, kind: string, id: int, x: Item)
    ensures kind == "news" ==> (x in Delete(d, kind, id).news <==> x in d.news && x.id != id)
    ensures kind == "wish" ==> (x in Delete(d, kind, id).wishes <==> x in d.wishes && x.id != id)
  {
    WithoutMembership(d.news, id, x);
    WithoutMembership(d.wishes, id, x);
  }

  /** A delete with a type string other than "news" and "wish" (including
      the collection's own name "wishes") leaves the document as it was. */
  lemma DeleteUnknownTypeIsNoop(d: Document, kind: string, id: int)
    requires CollectionOf(kind).None?
    ensures Delete(d, kind, id) == d
  {
  }

  /** The wish collection's own property name is not a delete type: only
      "wish" selects it. */
  lemma CollectionNameIsNotType()
    ensures CollectionOf("wishes").None?
    ensures CollectionOf("wish") == Some(Wishes)
  {
  }

  /** Deleting by the id a post just received undoes that post, provided
      no older item of the collection shares the timestamp. */
  lemma DeleteUndoesAddNews(d: Document, body: Object, now: nat)
    requires forall i :: 0 <= i < |d.news| ==> d.news[i].id != now
    ensures Delete(AddNews(d, body, now), "news", now) == d
  {
    var d' := AddNews(d, body, now);
    assert d'.news == d.news + [MakeItem(body, now)];
    WithoutConcat(d.news, [MakeItem(body, now)], now);
    WithoutUnchanged(d.news, now);
  }

  lemma DeleteUndoesAddWish(d: Document, body: Object, now: nat)
    requires forall i :: 0 <= i < |d.wishes| ==> d.wishes[i].id != now
    ensures Delete(AddWish(d, body, now), "wish", now) == d
  {
    var d' := AddWish(d, body, now);
    assert d'.wishes == d.wishes + [MakeItem(body, now)];
    WithoutConcat(d.wishes, [MakeItem(body, now)], now);
    WithoutUnchanged(d.wishes, now);
  }

  /** Deleting another id commutes with a post: the new item survives and
      lands last either way. */
  lemma DeleteCommutesWithAdd(d: Document, c: Collection, body: Object, now: nat, kind: string, id: int)
    requires id != now
    ensures Delete(Add(d, c, body, now), kind, id) == Add(Delete(d, kind, id), c, body, now)
  {
    WithoutConcat(Get(d, c), [MakeItem(body, now)], id);
    assert Get(Add(d, c, body, now), c) == Get(d, c) + [MakeItem(body, now)];
  }
}
