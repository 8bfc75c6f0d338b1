# Team Space bulletin server — Dafny model

Team Space's Express backend keeps one shared JSON document with two
ordered collections, `news` and `wishes`. Each mutating request loads the
document, changes it in memory, writes it back, and answers
`{ success: true }`:

- `POST /news` and `POST /wish` push the request body onto the end of their
  collection. The pushed record is `{...body, id: Date.now()}`, so the
  timestamp replaces any `id` the body carried.
- `POST /delete` takes a `type` and an `id`. It keeps only the items whose
  id differs from `id`, in the collection that `type` names. Only `"news"`
  and `"wish"` name a collection. Any other string, including `"wishes"`,
  changes nothing, but the document is still written and success is still
  reported.
- When there is no data file, loading gives `{ news: [], wishes: [] }`.
- `POST /upload` stores the file as `<timestamp>_<original name>` and
  answers with the URL `/uploads/<that name>`. A request with no `file`
  part makes the handler throw, and the answer is a server error.

The model is made of pure functions over immutable datatypes:

- `Json`: request bodies as JSON objects, and the object spread.
- `Store`: `Item`, `Document`, and the mutations `AddNews`, `AddWish` and
  `Delete`, with `Without` as the id filter.
- `StoreLemmas`: what the filter keeps and in what order, idempotence of
  delete, and how delete interacts with add.
- `Decimal`: base-ten rendering of the timestamp, with its parser.
- `Uploads`: the stored file name and the returned URL, with their inverses.
- `Server`: one request end to end (load or default, mutate, store, reply),
  and a run of several requests.

The clock is a parameter, `now: nat`. Storage is an
`Option<Document>` that is `None` while no data file exists.

## Model

| member | source | states |
|---|---|---|
| Server.ReadData | server.js:45-48 | With no data file the loaded document has empty news and empty wishes; otherwise it is the stored document |
| Store.Empty | server.js:46 | The default document has no news and no wishes |
| Store.MakeItem | server.js:61 | The new record's id is the timestamp; its other properties are exactly the body's properties other than `id` |
| StoreLemmas.SpreadOverridesBodyId | server.js:61 | The stored object equals the spread `{...body, id: now}`: the timestamp wins over an `id` already in the body |
| Json.SpreadWith | server.js:61 | The spread keeps every property of the base, adds the key, and gives it the new value whether or not the base had it |
| Store.AddNews | server.js:59-64 | News grows by one; the old news is an unchanged prefix; the new last item has id `now` and the body's other properties; wishes are unchanged |
| Store.AddWish | server.js:67-72 | Wishes grow by one; the old wishes are an unchanged prefix; the new last item has id `now` and the body's other properties; news is unchanged |
| Store.Add | server.js:59-72 | The push shared by both posts (AddNews and AddWish are Add at News and Wishes): the targeted collection grows by one, the old items are an unchanged prefix, the last item is the record built from the body at `now`, and the other collection is unchanged |
| Store.Without | server.js:79 | The filter never lengthens the collection, and no surviving item carries the deleted id |
| StoreLemmas.WithoutMembership | server.js:79 | An item survives exactly when it was present and its id differs from the deleted id |
| StoreLemmas.WithoutConcat | server.js:79 | The filter distributes over concatenation, so survivors keep their original relative order |
| StoreLemmas.WithoutUnchanged | server.js:79 | The filter leaves a collection unchanged exactly when no item carries the id |
| StoreLemmas.WithoutIdempotent | server.js:79 | Filtering twice by the same id gives the same result as filtering once |
| StoreLemmas.WithoutLength | server.js:79 | The filter drops exactly as many items as carry the id, duplicates included |
| Store.CollectionOf | server.js:78-80 | The type string `"news"` selects news, `"wish"` selects wishes, and nothing else selects a collection |
| Store.Delete | server.js:75-85 | Type `"news"` filters news and leaves wishes alone; type `"wish"` does the reverse; any other type leaves the document unchanged |
| StoreLemmas.DeleteIdempotent | server.js:78-82 | Applying the same delete twice equals applying it once |
| StoreLemmas.DeleteMissingIsNoop | server.js:78-82 | Deleting an id that the targeted collection does not hold changes nothing |
| StoreLemmas.DeleteRemovesExactly | server.js:78-82 | After a delete, an item is in the targeted collection exactly when it was there before and does not carry the id |
| StoreLemmas.DeleteUnknownTypeIsNoop | server.js:78-84 | A delete whose type names no collection leaves the document unchanged |
| StoreLemmas.CollectionNameIsNotType | server.js:78-80 | The collection's own name `"wishes"` names no collection for delete; only `"wish"` selects the wishes |
| StoreLemmas.DeleteUndoesAddNews | server.js:59-85 | Deleting news by the id a post just received restores the document, if no older news shares that timestamp |
| StoreLemmas.DeleteUndoesAddWish | server.js:67-85 | Deleting a wish by the id a post just received restores the document, if no older wish shares that timestamp |
| StoreLemmas.DeleteCommutesWithAdd | server.js:59-85 | Deleting a different id commutes with a post, and the new item ends up last either way |
| Store.ToObject | server.js:49-50 | The object an item is saved as carries its id under `id` |
| Store.FromObject | server.js:45-48 | A loaded object is an item exactly when its `id` is a number |
| StoreLemmas.ItemRoundTrip | server.js:45-51 | Loading an object whose `id` is a number and saving it again gives the same object |
| StoreLemmas.ObjectRoundTrip | server.js:45-51 | Saving an item and loading it back gives the same item |
| Decimal.Show | server.js:31 | The timestamp renders as at least one digit, only digits, with no leading zero |
| Decimal.ParseShow | server.js:31 | Reading the rendered timestamp back gives the timestamp |
| Decimal.ShowInjective | server.js:31 | Distinct timestamps render as distinct strings |
| Uploads.FileName | server.js:30-33 | The stored name is the decimal timestamp, an underscore, then the original name, so it ends with the original name |
| Uploads.FileNameRoundTrip | server.js:31 | Splitting the stored name at its first underscore recovers the timestamp and the original name |
| Uploads.Url | server.js:38-40 | The returned URL is `/uploads/` followed by the stored name |
| Uploads.UrlRoundTrip | server.js:39 | Removing the `/uploads/` prefix from the returned URL gives the stored name back |
| Server.Handle | server.js:38-85 | Reads and uploads leave storage alone; news, wish and delete requests write exactly the changed document and reply success; an upload replies with exactly `/uploads/` + decimal timestamp + `_` + original name, which ends with the original name; an upload with no file replies with a server error |
| Server.RunWithoutDeleteKeepsPrefix | server.js:59-72 | Without a delete request, the news and wishes loaded at the start stay a prefix of what is stored after any run of requests |
| Server.FirstDeleteWritesEmptyDocument | server.js:75-85 | On a server with no data file, a delete of any type with any id at any time writes the empty default document and replies success |
| Server.PostPostDeleteScenario | server.js:59-85 | On a fresh server, a news post, a wish post and a delete of that news leave exactly the wish, at any times, including a wish posted in the same millisecond that carries the deleted id |

## Left out

- HTTP routing, body-size limits, static file serving and `app.listen` (server.js:8-19, 88-89): these are web-framework plumbing.
- multer disk storage and creating the upload directory (server.js:22-35): these are a third-party library and filesystem effects. Only the naming rule and the returned URL are modelled.
- Reading and writing `data.json` and `JSON.parse`/`JSON.stringify`: these are I/O. Storage is a value. A corrupt file makes `JSON.parse` throw, and the server has no fallback, so that path is not modelled.
- A `data.json` that parses but lacks a `news` or `wishes` array, or is `null`: a request that touches the missing or non-array collection throws at server.js:61, 69, 79 or 81 before anything is written. Requests that do not touch the missing collection succeed and leave it as it was: `GET /data` returns the file, a post or delete on the collection that is present changes only that collection, and a delete whose type names no collection writes the file back unchanged. The model's stored document always has both collections, so none of these paths is modelled.
- Top-level properties of `data.json` other than `news` and `wishes`: the server would carry them through untouched, but the document models only the two collections.
- `Date.now()`: this is a nondeterministic clock, so it is passed in as `now`. One `now` serves a whole request.
- JSON numbers are modelled as integers. JavaScript writes integers of 1e21 and above in exponent form, but `Decimal.Show` always writes plain digits. Millisecond timestamps are far below 1e21.
- Strict-equality mismatches in the delete filter are not modelled. Examples are a string `id` in the request against a numeric stored id, or a stored item with no `id`. Ids are a single integer type.
- Races between interleaved read-modify-write requests: this is a concurrency concern. `Server.Run` serves requests strictly one after another.
- The delete route's comment says "admin", but the route does no credential check. So no admin check is modelled. Likes, presence, incremental sync and comments do not appear in this server.
