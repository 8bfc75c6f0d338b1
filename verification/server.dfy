/** One request to the bulletin server, end to end: load the document (or
    the default when there is no data file), apply the handler's mutation,
    save, and answer. Storage is `None` while no data file exists. */
module Server {
  import opened Json
  import opened Wrappers
  import opened Store
  import Uploads

  datatype Request =
    | GetData
    | PostNews(body: Object)
    | PostWish(body: Object)
    | PostDelete(kind: string, id: int)
    /** `file` is the original name of the uploaded file part, or `None`
        when the request carries no part named `file`. */
    | Upload(file: Option<string>)

  datatype Reply =
    | Data(doc: Document)
    | Success
    | File(url: string)
    /** The handler threw, and the framework answered with status 500. */
    | ServerError

  /** What a request leaves in storage and what it answers. */
  datatype Outcome = Outcome(stored: Option<Document>, reply: Reply)

  /** Loading the document: the stored one, or empty collections when
      there is no data file. */
  function ReadData(stored: Option<Document>): (d: Document)
    ensures stored.None? ==> d.news == [] && d.wishes == []
    ensures stored.Some? ==> d == stored.value
  {
    match stored
    case None => Empty()
    case Some(doc) => doc
  }

  predicate Mutates(req: Request) {
    req.PostNews? || req.PostWish? || req.PostDelete?
  }

  /** Serving `req` at time `now` against the stored document. */
  function Handle(stored: Option<Document>, req: Request, now: nat): (r: Outcome)
    ensures !Mutates(req) ==> r.stored == stored
    ensures Mutates(req) ==> r.stored.Some? && r.reply == Success
    ensures req.GetData? ==> r.reply == Data(ReadData(stored))
    ensures req.PostNews? ==> r.stored == Some(AddNews(ReadData(stored), req.body, now))
    ensures req.PostWish? ==> r.stored == Some(AddWish(ReadData(stored), req.body, now))
    ensures req.PostDelete? ==> r.stored == Some(Delete(ReadData(stored), req.kind, req.id))
    ensures req.Upload? && req.file.None? ==> r.reply == ServerError
    ensures req.Upload? && req.file.Some? ==> r.reply == File(Uploads.Url(Uploads.FileName(now, req.file.value)))
    // A corollary of the exact reply above, spelled out: the URL ends with
    // the client's original file name.
    ensures req.Upload? && req.file.Some? ==>
      var url := r.reply.url;
      |url| >= |req.file.value| && url[|url| - |req.file.value|..] == req.file.value
  {
    var doc := ReadData(stored);
    match req
    case GetData => Outcome(stored, Data(doc))
    case PostNews(body) => Outcome(Some(AddNews(doc, body, now)), Success)
    case PostWish(body) => Outcome(Some(AddWish(doc, body, now)), Success)
    case PostDelete(kind, id) => Outcome(Some(Delete(doc, kind, id)), Success)
    case Upload(None) => Outcome(stored, ServerError)
    case Upload(Some(original)) =>
      var url := Uploads.Url(Uploads.FileName(now, original));
      // Supports the corollary: the suffix of the URL is the suffix of the name.
      assert url[|url| - |original|..] == original;
      Outcome(stored, File(url))
  }

  /** Serving the requests one after another, `clock[i]` being the time
      the i-th one is served. */
  function Run(stored: Option<Document>, reqs: seq<Request>, clock: seq<nat>): (r: Option<Document>)
    requires |clock| == |reqs|
    decreases |reqs|
  {
    if |reqs| == 0 then stored
    else Run(Handle(stored, reqs[0], clock[0]).stored, reqs[1..], clock[1..])
  }

  /** Only a delete request ever removes or reorders items: without one,
      the news and wishes already loaded stay a prefix of what is stored. */
  lemma {:induction false} RunWithoutDeleteKeepsPrefix(stored: Option<Document>, reqs: seq<Request>, clock: seq<nat>)
    requires |clock| == |reqs|
    requires forall i :: 0 <= i < |reqs| ==> !reqs[i].PostDelete?
    ensures ReadData(stored).news <= ReadData(Run(stored, reqs, clock)).news
    ensures ReadData(stored).wishes <= ReadData(Run(stored, reqs, clock)).wishes
    decreases |reqs|
  {
    if |reqs| > 0 {
      var next := Handle(stored, reqs[0], clock[0]).stored;
      assert forall i :: 0 <= i < |reqs[1..]| ==> !reqs[1..][i].PostDelete? by {
        forall i | 0 <= i < |reqs[1..]| ensures !reqs[1..][i].PostDelete? {
          assert reqs[1..][i] == reqs[i + 1];
        }
      }
      RunWithoutDeleteKeepsPrefix(next, reqs[1..], clock[1..]);
      assert ReadData(stored).news <= ReadData(next).news;
      assert ReadData(stored).wishes <= ReadData(next).wishes;
    }
  }

  /** The first write of a fresh server stores the default document with
      the change applied, even for a delete that names no collection. */
  lemma FirstDeleteWritesEmptyDocument(kind: string, id: int, now: nat)
    ensures Handle(None, PostDelete(kind, id), now).stored == Some(Document([], []))
    ensures Handle(None, PostDelete(kind, id), now).reply == Success
  {
  }

  /** A news post, a wish post and a delete of the news post on a fresh
      server leave exactly the wish, even when both posts share a
      millisecond and the wish carries the deleted id. */
  lemma PostPostDeleteScenario(news: Object, wish: Object, t1: nat, t2: nat, t3: nat)
    ensures Run(None, [PostNews(news), PostWish(wish), PostDelete("news", t1)], [t1, t2, t3])
         == Some(Document([], [MakeItem(wish, t2)]))
  {
    var s1 := Handle(None, PostNews(news), t1).stored;
    assert s1 == Some(Document([MakeItem(news, t1)], []));
    var s2 := Handle(s1, PostWish(wish), t2).stored;
    assert s2 == Some(Document([MakeItem(news, t1)], [MakeItem(wish, t2)]));
    var reqs := [PostNews(news), PostWish(wish), PostDelete("news", t1)];
    var clock := [t1, t2, t3];
    assert Run(None, reqs, clock) == Run(s1, reqs[1..], clock[1..]);
    assert Run(s1, reqs[1..], clock[1..]) == Run(s2, reqs[2..], clock[2..]);
    var s3 := Handle(s2, PostDelete("news", t1), t3).stored;
    assert s3 == Some(Document([], [MakeItem(wish, t2)]));
    assert Run(s2, reqs[2..], clock[2..]) == Run(s3, [], []);
  }
}
