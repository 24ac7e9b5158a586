/** The serverless `/api/performances` handler over the Mongo collection:
    CORS headers on every answer, OPTIONS answered before the database is
    touched, GET newest first, POST with the required-field check, and 405
    with an `Allow` header otherwise. Whether `connectDB` (and the query
    after it) succeeds, whether `save` succeeds, the clock and `new Date(text)`
    are parameters. */
module PerformancesApi {
  import opened Collections
  import opened Http

  /** A stored document; `kind` is the `type` path, `createdAt` is `created_at`. */
  datatype Doc = Doc(
    artist: string, kind: string, province: string,
    city: Option<string>, venue: Option<string>, notes: Option<string>,
    date: Option<int>, createdAt: int)

  /** The string fields of the JSON body. */
  type Json = map<string, string>

  /** A header name and its field lines (an array value sends one line each). */
  type Headers = map<string, seq<string>>

  /** The headers set before the method is looked at. */
  const CorsHeaders: Headers := map[
    "Access-Control-Allow-Credentials" := ["true"],
    "Access-Control-Allow-Origin" := ["*"],
    "Access-Control-Allow-Methods" := ["GET,OPTIONS,PATCH,DELETE,POST,PUT"],
    "Access-Control-Allow-Headers" := ["X-CSRF-Token, X-Requested-With, Accept, Accept-Version, Content-Length, Content-MD5, Content-Type, Date, X-Api-Version"]]

  /** A body field that is present and not empty (truthy). */
  predicate Given(body: Json, key: string)
  {
    key in body && body[key] != ""
  }

  /** A body field as the document keeps it: absent stays unset. */
  function Optional(body: Json, key: string): (v: Option<string>)
    ensures v.Some? <==> key in body
    ensures v.Some? ==> v.value == body[key]
  {
    if key in body then Some(body[key]) else None
  }

  /** What the handler does with one request. */
  datatype Outcome =
    | Preflight                // OPTIONS: 200, empty body
    | Fail                     // an exception: 500
    | List                     // GET: 200 with every document
    | Reject                   // POST without artist, type or province: 400
    | Save(doc: Doc)           // POST: 200 with the saved document
    | NotAllowed               // any other method: 405

  /** A POST body with the three fields the handler insists on. */
  predicate Complete(body: Json)
  {
    Given(body, "artist") && Given(body, "type") && Given(body, "province")
  }

  /** A POST body whose `date`, if given, is one `new Date` can read. */
  predicate ReadableDate(body: Json, parseDate: string -> Option<int>)
  {
    Given(body, "date") ==> parseDate(body["date"]).Some?
  }

  /** The decision of the handler: OPTIONS before the connection, then the
      method switch. `connects` says whether `connectDB` (and, for GET, the
      query) resolves; `saves` whether `save` resolves. A date that `new Date`
      cannot read fails the cast to `Date` when saving, which ends in the 500
      branch like any other rejected promise. */
  function Decide(verb: string, body: Json, connects: bool, saves: bool, parseDate: string -> Option<int>, now: int): (o: Outcome)
    ensures verb == "OPTIONS" ==> o == Preflight
    ensures verb != "OPTIONS" && !connects ==> o == Fail
    ensures connects && verb == "GET" ==> o == List
    ensures connects && verb == "POST" ==> (o == Reject <==> !Complete(body))
    ensures connects && verb == "POST" && Complete(body) ==>
              (o.Save? <==> saves && ReadableDate(body, parseDate))
    ensures connects && verb == "POST" && Complete(body) && !ReadableDate(body, parseDate) ==> o == Fail
    ensures connects && verb == "POST" && Complete(body) && !saves ==> o == Fail
    ensures o.Save? ==>
              && verb == "POST" && connects && saves
              && o.doc.artist == body["artist"] && o.doc.kind == body["type"] && o.doc.province == body["province"]
              && o.doc.artist != "" && o.doc.kind != "" && o.doc.province != ""
              && o.doc.city == Optional(body, "city") && o.doc.venue == Optional(body, "venue")
              && o.doc.notes == Optional(body, "notes")
              && (o.doc.date.None? <==> !Given(body, "date"))
              && (o.doc.date.Some? ==> parseDate(body["date"]) == o.doc.date)
              && o.doc.createdAt == now
    ensures connects && verb !in {"OPTIONS", "GET", "POST"} ==> o == NotAllowed
  {
    if verb == "OPTIONS" then Preflight
    else if !connects then Fail
    else if verb == "GET" then List
    else if verb == "POST" then
      if !Complete(body) then Reject
      else if Given(body, "date") && parseDate(body["date"]).None? then Fail
      else if !saves then Fail
      else
        var date := if Given(body, "date") then parseDate(body["date"]) else None;
        Save(Doc(body["artist"], body["type"], body["province"],
                 Optional(body, "city"), Optional(body, "venue"), Optional(body, "notes"),
                 date, now))
    else NotAllowed
  }

  /** `Performance.find().sort({ created_at: -1 })`: every document, newest
      first. Documents with the same `created_at` keep their stored order
      here; the database promises no order among them. */
  function NewestFirst(docs: seq<Doc>): (r: seq<Doc>)
    ensures multiset(r) == multiset(docs)
    ensures forall i, j :: 0 <= i < j < |r| ==> r[i].createdAt >= r[j].createdAt
  {
    var r := SortBy(docs, (d: Doc) => -d.createdAt);
    assert forall i, j :: 0 <= i < j < |r| ==> -r[i].createdAt <= -r[j].createdAt;
    r
  }

  /** What goes back to the client. */
  datatype Response = Response(status: Status, headers: Headers, data: seq<Doc>)

  /** The status of each outcome. */
  function StatusOf(o: Outcome): (s: Status)
    ensures s.Ok? <==> o.Preflight? || o.List? || o.Save?
    ensures s == BadRequest <==> o.Reject?
    ensures s == MethodNotAllowed <==> o.NotAllowed?
    ensures s == ServerError <==> o.Fail?
  {
    match o
    case Preflight => Ok
    case Fail => ServerError
    case List => Ok
    case Reject => BadRequest
    case Save(_) => Ok
    case NotAllowed => MethodNotAllowed
  }

  /** The headers of each outcome: the CORS ones, and for 405 also `Allow`. */
  function HeadersOf(o: Outcome): (h: Headers)
    ensures forall k :: k in CorsHeaders ==> k in h && h[k] == CorsHeaders[k]
    ensures "Allow" in h <==> o.NotAllowed?
    ensures o.NotAllowed? ==> h["Allow"] == ["GET", "POST"]
  {
    if o.NotAllowed? then CorsHeaders["Allow" := ["GET", "POST"]] else CorsHeaders
  }

  /** The collection. */
  class PerformanceStore {
    var docs: seq<Doc>

    constructor ()
      ensures docs == []
    {
      docs := [];
    }

    /** One request: only a successful POST changes the collection, by
        appending the new document. */
    method Handle(verb: string, body: Json, connects: bool, saves: bool, parseDate: string -> Option<int>, now: int)
      returns (resp: Response)
      modifies this
      ensures var o := Decide(verb, body, connects, saves, parseDate, now);
              && resp.status == StatusOf(o)
              && resp.headers == HeadersOf(o)
              && docs == (if o.Save? then old(docs) + [o.doc] else old(docs))
              && resp.data == (if o.List? then NewestFirst(old(docs)) else if o.Save? then [o.doc] else [])
    {
      var o := Decide(verb, body, connects, saves, parseDate, now);
      var data: seq<Doc> := [];
      match o {
        case List =>
          data := NewestFirst(docs);
        case Save(doc) =>
          docs := docs + [doc];
          data := [doc];
        case _ =>
      }
      resp := Response(StatusOf(o), HeadersOf(o), data);
    }
  }

  /** A preflight is answered even when the database is down, and a method
      the handler does not know is only answered 405 once the database is
      reached: without a connection it gets 500. */
  lemma PreflightFirst(body: Json, saves: bool, parseDate: string -> Option<int>, now: int)
    ensures Decide("OPTIONS", body, false, saves, parseDate, now) == Preflight
    ensures StatusOf(Decide("PUT", body, false, saves, parseDate, now)) == ServerError
    ensures StatusOf(Decide("PUT", body, true, saves, parseDate, now)) == MethodNotAllowed
  {
  }
}
