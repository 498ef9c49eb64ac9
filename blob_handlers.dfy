/** The three blob-backed key/value endpoints: per-page notes, per-page status,
    and one shared notes text. The blob store is a map from pathname to stored
    content; each handler reads and rewrites only its own pathname. Request
    bodies and stored JSON are JSON values; the network calls, CORS headers and
    the 500 error path are outside the model. */
module BlobApi {
  import opened Wrappers
  import opened Text

  /** A JSON value as the handlers see it. Numbers are integers here. */
  datatype Json =
    | JNull
    | JBool(b: bool)
    | JNum(n: int)
    | JStr(s: string)
    | JArray(items: seq<Json>)
    | JObject(fields: map<string, Json>)

  /** JavaScript truthiness of an optional (possibly undefined) JSON value. */
  predicate Truthy(v: Option<Json>) {
    match v
    case None => false
    case Some(JNull) => false
    case Some(JBool(b)) => b
    case Some(JNum(n)) => n != 0
    case Some(JStr(s)) => s != ""
    case Some(_) => true
  }

  /** `String(v)`: the property key a value becomes when used as `obj[v]`. */
  function KeyOf(v: Option<Json>): string {
    match v
    case None => "undefined"
    case Some(j) => JsonKey(j)
  }

  function JsonKey(j: Json): string
    decreases j
  {
    match j
    case JNull => "null"
    case JBool(b) => if b then "true" else "false"
    case JNum(n) => IntToDecimal(n)
    case JStr(s) => s
    case JObject(_) => "[object Object]"
    case JArray(items) =>
      if items == [] then ""
      else Join(seq(|items|, i requires 0 <= i < |items| =>
                      if items[i].JNull? then "" else JsonKey(items[i])), ',')
  }

  /** `obj[key] = v` followed by a JSON round trip: an undefined value is dropped
      by `JSON.stringify`. */
  function Assign(m: map<string, Json>, key: string, v: Option<Json>): (r: map<string, Json>)
    ensures v.Some? ==> key in r && r[key] == v.value
    ensures v.None? ==> key !in r
    ensures forall k :: k != key ==> (k in r <==> k in m)
    ensures forall k :: k != key && k in m ==> r[k] == m[k]
  {
    if v.Some? then m[key := v.value] else m - {key}
  }

  const PageNotesFile := "proxa-page-notes.json"
  const StatusFile := "proxa-status.json"
  const NotesFile := "proxa-notes.txt"

  /** What a pathname holds: a text, or a parsed JSON object. */
  datatype Content = Text(text: string) | Entries(entries: map<string, Json>)

  /** The handlers' own pathnames hold what they write. */
  predicate Typed(blobs: map<string, Content>) {
    && (PageNotesFile in blobs ==> blobs[PageNotesFile].Entries?)
    && (StatusFile in blobs ==> blobs[StatusFile].Entries?)
    && (NotesFile in blobs ==> blobs[NotesFile].Text?)
  }

  datatype Verb = OPTIONS | GET | POST | OtherVerb

  /** A request: its method, its query parameters and its parsed JSON body. */
  datatype Request = Request(verb: Verb, query: map<string, string>, body: map<string, Json>)

  /** A response: the status code and the JSON body, if any (`end()` sends none). */
  datatype Response = Response(status: nat, body: Option<Json>)

  function Field(body: map<string, Json>, name: string): Option<Json> {
    if name in body then Some(body[name]) else None
  }

  function Ok(body: Json): Response {
    Response(200, Some(body))
  }

  function ErrorBody(message: string): Json {
    JObject(map["error" := JStr(message)])
  }

  const MethodNotAllowed := Response(405, Some(ErrorBody("Method not allowed")))
  const Preflight := Response(200, None)
  const Success := JObject(map["success" := JBool(true)])

  function EntriesAt(blobs: map<string, Content>, name: string): map<string, Json>
    requires name in blobs ==> blobs[name].Entries?
  {
    if name in blobs then blobs[name].entries else map[]
  }

  // ---------------------------------------------------------------------
  // api/page-notes.js
  // ---------------------------------------------------------------------

  /** The page-notes handler: its response and the store after it. */
  function PageNotesStep(blobs: map<string, Content>, req: Request): (Response, map<string, Content>)
    requires Typed(blobs)
  {
    match req.verb
    case OPTIONS => (Preflight, blobs)
    case GET =>
      if PageNotesFile !in blobs then (Ok(JObject(map[])), blobs)
      else
        var all := blobs[PageNotesFile].entries;
        if "page" in req.query && req.query["page"] != "" then
          var page := req.query["page"];
          var v := if page in all then Some(all[page]) else None;
          (Ok(JObject(map["notes" := if Truthy(v) then v.value else JStr("")])), blobs)
        else (Ok(JObject(all)), blobs)
    case POST =>
      var page := Field(req.body, "page");
      if !Truthy(page) then (Response(400, Some(ErrorBody("Page ID required"))), blobs)
      else
        var all := Assign(EntriesAt(blobs, PageNotesFile), KeyOf(page), Field(req.body, "notes"));
        (Ok(Success), blobs[PageNotesFile := Entries(all)])
    case OtherVerb => (MethodNotAllowed, blobs)
  }

  /** With nothing stored, a GET returns the empty object. */
  lemma PageNotesGetEmpty(blobs: map<string, Content>, req: Request)
    requires Typed(blobs) && req.verb == GET && PageNotesFile !in blobs
    ensures PageNotesStep(blobs, req).0 == Ok(JObject(map[]))
  {
  }

  /** A GET for one page returns that page's notes, or '' when they are absent or
      falsy. */
  lemma PageNotesGetPage(blobs: map<string, Content>, req: Request, page: string)
    requires Typed(blobs) && req.verb == GET && PageNotesFile in blobs
    requires "page" in req.query && req.query["page"] == page && page != ""
    ensures var all := blobs[PageNotesFile].entries;
      PageNotesStep(blobs, req).0 ==
        Ok(JObject(map["notes" := if page in all && Truthy(Some(all[page])) then all[page] else JStr("")]))
  {
  }

  /** A POST without a (truthy) page is refused with 400 and stores nothing. */
  lemma PageNotesNeedPage(blobs: map<string, Content>, req: Request)
    requires Typed(blobs) && req.verb == POST && !Truthy(Field(req.body, "page"))
    ensures PageNotesStep(blobs, req).0.status == 400
    ensures PageNotesStep(blobs, req).1 == blobs
  {
  }

  /** A POST with a page sets exactly that page's notes, starting from no notes
      when nothing is stored; every other page and every other blob is kept. */
  lemma PageNotesPostSets(blobs: map<string, Content>, req: Request)
    requires Typed(blobs) && req.verb == POST && Truthy(Field(req.body, "page"))
    ensures var after := PageNotesStep(blobs, req).1;
      var key := KeyOf(Field(req.body, "page"));
      var old_ := EntriesAt(blobs, PageNotesFile);
      && PageNotesStep(blobs, req).0 == Ok(Success)
      && Typed(after)
      && PageNotesFile in after
      && (Field(req.body, "notes").Some? ==>
            key in after[PageNotesFile].entries && after[PageNotesFile].entries[key] == req.body["notes"])
      && (forall k :: k != key ==> (k in after[PageNotesFile].entries <==> k in old_))
      && (forall k :: k != key && k in old_ ==> after[PageNotesFile].entries[k] == old_[k])
      && after - {PageNotesFile} == blobs - {PageNotesFile}
  {
  }

  /** Saving a page's notes and then asking for that page returns them. */
  lemma {:induction false} PageNotesRoundTrip(blobs: map<string, Content>, page: string, notes: Json,
                                              query: map<string, string>)
    requires Typed(blobs) && page != "" && Truthy(Some(notes))
    requires "page" in query && query["page"] == page
    ensures var saved := PageNotesStep(blobs, Request(POST, map[], map["page" := JStr(page), "notes" := notes])).1;
      Typed(saved) && PageNotesStep(saved, Request(GET, query, map[])).0 == Ok(JObject(map["notes" := notes]))
  {
    var body := map["page" := JStr(page), "notes" := notes];
    assert Field(body, "page") == Some(JStr(page));
    assert Field(body, "notes") == Some(notes);
    var saved := PageNotesStep(blobs, Request(POST, map[], body)).1;
    assert saved[PageNotesFile].entries[page] == notes;
  }

  // ---------------------------------------------------------------------
  // api/status.js
  // ---------------------------------------------------------------------

  function StatusStep(blobs: map<string, Content>, req: Request): (Response, map<string, Content>)
    requires Typed(blobs)
  {
    match req.verb
    case OPTIONS => (Preflight, blobs)
    case GET =>
      if StatusFile !in blobs then (Ok(JObject(map[])), blobs)
      else (Ok(JObject(blobs[StatusFile].entries)), blobs)
    case POST =>
      var statuses := Assign(EntriesAt(blobs, StatusFile), KeyOf(Field(req.body, "page")),
                             Field(req.body, "status"));
      (Ok(JObject(map["success" := JBool(true), "statuses" := JObject(statuses)])),
       blobs[StatusFile := Entries(statuses)])
    case OtherVerb => (MethodNotAllowed, blobs)
  }

  /** A status POST sets one key, with no check that a page was given (a missing
      page is the key "undefined"); the response carries exactly the map that is
      stored; nothing else in the store changes. */
  lemma StatusPostSets(blobs: map<string, Content>, req: Request)
    requires Typed(blobs) && req.verb == POST
    ensures var (res, after) := StatusStep(blobs, req);
      var key := KeyOf(Field(req.body, "page"));
      var old_ := EntriesAt(blobs, StatusFile);
      && Typed(after) && StatusFile in after
      && res == Ok(JObject(map["success" := JBool(true), "statuses" := JObject(after[StatusFile].entries)]))
      && (Field(req.body, "status").Some? ==> after[StatusFile].entries[key] == req.body["status"])
      && (Field(req.body, "status").None? ==> key !in after[StatusFile].entries)
      && (forall k :: k != key ==> (k in after[StatusFile].entries <==> k in old_))
      && (forall k :: k != key && k in old_ ==> after[StatusFile].entries[k] == old_[k])
      && after - {StatusFile} == blobs - {StatusFile}
  {
  }

  /** Without a page the status lands under "undefined". */
  lemma StatusWithoutPage(blobs: map<string, Content>, status: Json)
    requires Typed(blobs)
    ensures var after := StatusStep(blobs, Request(POST, map[], map["status" := status])).1;
      StatusFile in after && after[StatusFile].Entries? && after[StatusFile].entries["undefined"] == status
  {
    assert Field(map["status" := status], "page") == None;
  }

  /** A GET after a POST sees the POST's response map. */
  lemma {:induction false} StatusRoundTrip(blobs: map<string, Content>, req: Request, query: map<string, string>)
    requires Typed(blobs) && req.verb == POST
    ensures var (res, after) := StatusStep(blobs, req);
      Typed(after) && res.body.Some? && res.body.value.JObject? && "statuses" in res.body.value.fields
      && StatusStep(after, Request(GET, query, map[])).0 == Ok(res.body.value.fields["statuses"])
  {
    StatusPostSets(blobs, req);
  }

  // ---------------------------------------------------------------------
  // api/notes.js
  // ---------------------------------------------------------------------

  /** `content || ''` as the stored text: a truthy value is stored as its string
      form. */
  function StoredText(content: Option<Json>): string {
    if Truthy(content) then KeyOf(content) else ""
  }

  function NotesStep(blobs: map<string, Content>, req: Request): (Response, map<string, Content>)
    requires Typed(blobs)
  {
    match req.verb
    case OPTIONS => (Preflight, blobs)
    case GET =>
      var text := if NotesFile in blobs then blobs[NotesFile].text else "";
      (Ok(JObject(map["content" := JStr(text)])), blobs)
    case POST =>
      (Ok(Success), blobs[NotesFile := Text(StoredText(Field(req.body, "content")))])
    case OtherVerb => (MethodNotAllowed, blobs)
  }

  /** A POST replaces the whole text, and a later GET returns the text stored;
      a string is stored as itself, an absent or falsy content as ''. */
  lemma {:induction false} NotesRoundTrip(blobs: map<string, Content>, req: Request, query: map<string, string>)
    requires Typed(blobs) && req.verb == POST
    ensures var after := NotesStep(blobs, req).1;
      var stored := StoredText(Field(req.body, "content"));
      && Typed(after)
      && after - {NotesFile} == blobs - {NotesFile}
      && NotesStep(after, Request(GET, query, map[])).0 == Ok(JObject(map["content" := JStr(stored)]))
      && (forall s :: Field(req.body, "content") == Some(JStr(s)) && s != "" ==> stored == s)
      && (!Truthy(Field(req.body, "content")) ==> stored == "")
  {
    var after := NotesStep(blobs, req).1;
    assert NotesFile in after && after[NotesFile] == Text(StoredText(Field(req.body, "content")));
  }

  /** With no notes stored, a GET returns empty content. */
  lemma NotesGetEmpty(blobs: map<string, Content>, req: Request)
    requires Typed(blobs) && req.verb == GET && NotesFile !in blobs
    ensures NotesStep(blobs, req).0 == Ok(JObject(map["content" := JStr("")]))
  {
  }

  // ---------------------------------------------------------------------
  // Shared dispatch
  // ---------------------------------------------------------------------

  /** In all three handlers OPTIONS answers 200 with no body, a method other than
      GET, POST and OPTIONS answers 405, and neither, nor a GET, changes the
      store. */
  lemma DispatchRules(blobs: map<string, Content>, req: Request)
    requires Typed(blobs)
    ensures req.verb == OPTIONS ==>
      PageNotesStep(blobs, req).0 == Preflight && StatusStep(blobs, req).0 == Preflight
      && NotesStep(blobs, req).0 == Preflight
    ensures req.verb == OtherVerb ==>
      PageNotesStep(blobs, req).0.status == 405 && StatusStep(blobs, req).0.status == 405
      && NotesStep(blobs, req).0.status == 405
    ensures req.verb != POST ==>
      PageNotesStep(blobs, req).1 == blobs && StatusStep(blobs, req).1 == blobs
      && NotesStep(blobs, req).1 == blobs
  {
  }

  /** The store the three handlers share. */
  class BlobStore {
    var blobs: map<string, Content>

    ghost predicate Valid()
      reads this
    {
      Typed(blobs)
    }

    constructor (initial: map<string, Content>)
      requires Typed(initial)
      ensures Valid() && blobs == initial
    {
      blobs := initial;
    }

    /** Loads the stored page map, or `{}` when there is none. */
    method LoadEntries(name: string) returns (m: map<string, Json>)
      requires name in blobs ==> blobs[name].Entries?
      ensures m == EntriesAt(blobs, name)
    {
      m := map[];
      if name in blobs {
        m := blobs[name].entries;
      }
    }

    /** `api/page-notes.js`. */
    method PageNotes(req: Request) returns (res: Response)
      requires Valid()
      modifies this
      ensures Valid()
      ensures (res, blobs) == PageNotesStep(old(blobs), req)
    {
      if req.verb == OPTIONS {
        return Preflight;
      }
      if req.verb == GET {
        if PageNotesFile !in blobs {
          return Ok(JObject(map[]));
        }
        var allNotes := blobs[PageNotesFile].entries;
        if "page" in req.query && req.query["page"] != "" {
          var page := req.query["page"];
          var notes: Json := JStr("");
          if page in allNotes && Truthy(Some(allNotes[page])) {
            notes := allNotes[page];
          }
          return Ok(JObject(map["notes" := notes]));
        }
        return Ok(JObject(allNotes));
      }
      if req.verb == POST {
        var page := Field(req.body, "page");
        if !Truthy(page) {
          return Response(400, Some(ErrorBody("Page ID required")));
        }
        var allNotes := LoadEntries(PageNotesFile);
        allNotes := Assign(allNotes, KeyOf(page), Field(req.body, "notes"));
        blobs := blobs[PageNotesFile := Entries(allNotes)];
        return Ok(Success);
      }
      return MethodNotAllowed;
    }

    /** `api/status.js`. */
    method Status(req: Request) returns (res: Response)
      requires Valid()
      modifies this
      ensures Valid()
      ensures (res, blobs) == StatusStep(old(blobs), req)
    {
      if req.verb == OPTIONS {
        return Preflight;
      }
      if req.verb == GET {
        if StatusFile !in blobs {
          return Ok(JObject(map[]));
        }
        return Ok(JObject(blobs[StatusFile].entries));
      }
      if req.verb == POST {
        var statuses := LoadEntries(StatusFile);
        statuses := Assign(statuses, KeyOf(Field(req.body, "page")), Field(req.body, "status"));
        blobs := blobs[StatusFile := Entries(statuses)];
        return Ok(JObject(map["success" := JBool(true), "statuses" := JObject(statuses)]));
      }
      return MethodNotAllowed;
    }

    /** `api/notes.js`. */
    method Notes(req: Request) returns (res: Response)
      requires Valid()
      modifies this
      ensures Valid()
      ensures (res, blobs) == NotesStep(old(blobs), req)
    {
      if req.verb == OPTIONS {
        return Preflight;
      }
      if req.verb == GET {
        if NotesFile !in blobs {
          return Ok(JObject(map["content" := JStr("")]));
        }
        return Ok(JObject(map["content" := JStr(blobs[NotesFile].text)]));
      }
      if req.verb == POST {
        var content := Field(req.body, "content");
        blobs := blobs[NotesFile := Text(if Truthy(content) then KeyOf(content) else "")];
        return Ok(Success);
      }
      return MethodNotAllowed;
    }
  }
}
