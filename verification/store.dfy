/** The shared bulletin document and the in-memory mutations the request
    handlers apply to it between loading and saving it. */
module Store {
  import opened Json
  import opened Wrappers

  /** The property name the server stamps on every new record. */
  const IdKey: string := "id"

  /** A stored record: the timestamp id, and every other property of the
      request body it was built from. `rest` never holds the id key itself,
      so the id lives in exactly one place. */
  datatype Item = Item(id: int, rest: Object)
  {
    ghost predicate Valid() {
      IdKey !in rest
    }
  }

  /** The whole persisted state: two ordered collections, oldest first. */
  datatype Document = Document(news: seq<Item>, wishes: seq<Item>)

  /** The two collections a request can target. */
  datatype Collection = News | Wishes

  /** The document written when there is no data file yet. */
  function Empty(): (d: Document)
    ensures |d.news| == 0 && |d.wishes| == 0
  {
    Document([], [])
  }

  /** The record `{...body, id: now}`: the body's own `id`, if it carries
      one, is replaced by the timestamp. */
  function MakeItem(body: Object, now: nat): (it: Item)
    ensures it.Valid()
    ensures it.id == now
    ensures it.rest.Keys == body.Keys - {IdKey}
    ensures forall k :: k in it.rest ==> it.rest[k] == body[k]
  {
    Item(now, body - {IdKey})
  }

  /** The JSON object an item is stored as. */
  function ToObject(it: Item): (o: Object)
    ensures IdKey in o && o[IdKey] == Num(it.id)
  {
    it.rest[IdKey := Num(it.id)]
  }

  /** Reading a stored object back as an item: the id must be a number. */
  function FromObject(o: Object): (r: Option<Item>)
    ensures r.Some? <==> IdKey in o && o[IdKey].Num?
    ensures r.Some? ==> r.value.Valid()
  {
    if IdKey in o && o[IdKey].Num? then Some(Item(o[IdKey].n, o - {IdKey})) else None
  }

  /** The delete filter: the items whose id differs from `id`, in their
      original order. */
  function Without(items: seq<Item>, id: int): (r: seq<Item>)
    ensures |r| <= |items|
    ensures forall i :: 0 <= i < |r| ==> r[i].id != id
  {
    if |items| == 0 then []
    else if items[0].id != id then [items[0]] + Without(items[1..], id)
    else Without(items[1..], id)
  }

  /** The collection `c` of `d`. */
  function Get(d: Document, c: Collection): seq<Item> {
    match c
    case News => d.news
    case Wishes => d.wishes
  }

  /** `d` with collection `c` replaced by `items`. */
  function Put(d: Document, c: Collection, items: seq<Item>): (r: Document)
    ensures Get(r, c) == items
    ensures forall c' :: c' != c ==> Get(r, c') == Get(d, c')
  {
    match c
    case News => d.(news := items)
    case Wishes => d.(wishes := items)
  }

  /** Pushing the record built from `body` at time `now` onto collection `c`. */
  function Add(d: Document, c: Collection, body: Object, now: nat): (r: Document)
    ensures |Get(r, c)| == |Get(d, c)| + 1
    ensures Get(r, c)[..|Get(d, c)|] == Get(d, c)
    ensures Get(r, c)[|Get(d, c)|] == MakeItem(body, now)
    ensures forall c' :: c' != c ==> Get(r, c') == Get(d, c')
  {
    Put(d, c, Get(d, c) + [MakeItem(body, now)])
  }

  /** POST /news. */
  function AddNews(d: Document, body: Object, now: nat): (r: Document)
    ensures |r.news| == |d.news| + 1
    ensures r.news[..|d.news|] == d.news
    ensures r.news[|d.news|].id == now
    ensures r.news[|d.news|].rest == body - {IdKey}
    ensures r.wishes == d.wishes
  {
    Add(d, News, body, now)
  }

  /** POST /wish. */
  function AddWish(d: Document, body: Object, now: nat): (r: Document)
    ensures |r.wishes| == |d.wishes| + 1
    ensures r.wishes[..|d.wishes|] == d.wishes
    ensures r.wishes[|d.wishes|].id == now
    ensures r.wishes[|d.wishes|].rest == body - {IdKey}
    ensures r.news == d.news
  {
    Add(d, Wishes, body, now)
  }

  /** The `type` strings the delete request recognises. Note that the wish
      collection is selected by "wish", not by its property name "wishes". */
  function CollectionOf(kind: string): (r: Option<Collection>)
    ensures r == Some(News) <==> kind == "news"
    ensures r == Some(Wishes) <==> kind == "wish"
  {
    if kind == "news" then Some(News)
    else if kind == "wish" then Some(Wishes)
    else None
  }

  /** POST /delete: remove every item with id `id` from the collection the
      `type` string names; any other string changes nothing. */
  function Delete(d: Document, kind: string, id: int): (r: Document)
    ensures kind == "news" ==> r.wishes == d.wishes && r.news == Without(d.news, id)
    ensures kind == "wish" ==> r.news == d.news && r.wishes == Without(d.wishes, id)
    ensures kind != "news" && kind != "wish" ==> r == d
  {
    match CollectionOf(kind)
    case Some(c) => Put(d, c, Without(Get(d, c), id))
    case None => d
  }
}
