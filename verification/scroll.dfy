/**
 The scroll-position endpoint (`/api/scroll`): a visitor's last saved state, kept
 in a key-value store under the visitor's `uuid` cookie. `GET` reads it back as
 JSON, `PUT` replaces it with the request body; both refuse a request without the
 cookie. `ReadScroll` and `WriteScroll` say what the handlers do; `ScrollStore`
 holds the store and its methods are proved to do it.
 */
module Scroll {
  import opened Wrappers
  import opened Http
  import opened Json
  import VisitorId

  /** A handler either returns a response or throws (an unparsable stored value). */
  datatype Outcome = Returned(response: Response) | Threw

  /** The visitor key a request carries: the `uuid` cookie's value, when there is one. */
  function VisitorKey(cookies: map<string, Cookie>): Option<string> {
    if VisitorId.COOKIE_NAME in cookies then Some(cookies[VisitorId.COOKIE_NAME].value) else None
  }

  /** The storage library's read of `key`: the decoded stored text, or `null`. */
  function Retrieve<V>(codec: Codec<V>, items: map<string, string>, key: string): Option<string> {
    if key in items then Some(codec.unquote(items[key])) else None
  }

  /** `JSON.parse` of what was read; `null` is converted to the text "null" first. */
  function ParseStored<V>(codec: Codec<V>, stored: Option<string>): Option<V> {
    codec.parse(if stored.None? then "null" else stored.value)
  }

  /** What `GET` answers, for the request's cookies and the store's items. */
  function ReadScroll<V>(codec: Codec<V>, cookies: map<string, Cookie>, items: map<string, string>): Outcome {
    match VisitorKey(cookies)
    case None => Returned(BadRequest)
    case Some(uuid) =>
      if uuid == "" then Returned(BadRequest)
      else
        match ParseStored(codec, Retrieve(codec, items, uuid))
        case None => Threw
        case Some(scroll) => Returned(JsonOk(codec.stringify(scroll)))
  }

  /** What `PUT` answers: only the presence of the cookie is checked. */
  function WriteResponse(cookies: map<string, Cookie>): Response {
    if VisitorKey(cookies).None? then BadRequest else NoContent
  }

  /** The store's items after `PUT` with request body `body`. */
  function WriteScroll<V>(codec: Codec<V>, cookies: map<string, Cookie>, items: map<string, string>, body: string): map<string, string> {
    match VisitorKey(cookies)
    case None => items
    case Some(uuid) => items[uuid := codec.quote(body)]
  }

  /** The module-level store and the two handlers over it. */
  class ScrollStore {
    var items: map<string, string>

    constructor ()
      ensures items == map[]
    {
      items := map[];
    }

    /** `setInStorage`: stores the JSON text of `value` under `key`. */
    method SetInStorage<V>(codec: Codec<V>, key: string, value: string)
      modifies this
      ensures items == old(items)[key := codec.quote(value)]
    {
      items := items[key := codec.quote(value)];
    }

    /** `retrieveFromStorage`: the parsed value stored under `key`; `None` when
        parsing throws. */
    method RetrieveFromStorage<V>(codec: Codec<V>, key: string) returns (r: Option<V>)
      ensures r == ParseStored(codec, Retrieve(codec, items, key))
    {
      var value: Option<string> := None;
      if key in items {
        value := Some(codec.unquote(items[key]));
      }
      r := codec.parse(if value.None? then "null" else value.value);
    }

    method Get<V>(codec: Codec<V>, cookies: CookieJar) returns (out: Outcome)
      ensures out == ReadScroll(codec, cookies.entries, items)
    {
      if VisitorId.COOKIE_NAME !in cookies.entries {
        return Returned(BadRequest);
      }
      var uuid := cookies.entries[VisitorId.COOKIE_NAME].value;
      if uuid == "" {
        return Returned(BadRequest);
      }
      var scroll := RetrieveFromStorage(codec, uuid);
      if scroll.None? {
        return Threw;
      }
      out := Returned(JsonOk(codec.stringify(scroll.value)));
    }

    method Put<V>(codec: Codec<V>, cookies: CookieJar, body: string) returns (r: Response)
      modifies this
      ensures r == WriteResponse(cookies.entries)
      ensures items == WriteScroll(codec, cookies.entries, old(items), body)
    {
      if VisitorId.COOKIE_NAME !in cookies.entries {
        return BadRequest;
      }
      var uuid := cookies.entries[VisitorId.COOKIE_NAME].value;
      SetInStorage(codec, uuid, body);
      r := NoContent;
    }
  }

  // ---------------------------------------------------------------------
  // The guards

  /** `GET` answers 400 exactly when the cookie is missing or empty. */
  lemma ReadGuard<V>(codec: Codec<V>, cookies: map<string, Cookie>, items: map<string, string>)
    ensures ReadScroll(codec, cookies, items) == Returned(BadRequest) <==>
      VisitorKey(cookies) == None || VisitorKey(cookies) == Some("")
  {
  }

  /** `PUT` without the cookie answers 400 and writes nothing; with it, it answers 204
      and stores the body's JSON text under the cookie's value, even an empty one. */
  lemma WriteGuard<V>(codec: Codec<V>, cookies: map<string, Cookie>, items: map<string, string>, body: string)
    ensures VisitorKey(cookies) == None ==>
      WriteResponse(cookies) == BadRequest && WriteScroll(codec, cookies, items, body) == items
    ensures forall k :: VisitorKey(cookies) == Some(k) ==>
      WriteResponse(cookies) == NoContent && WriteScroll(codec, cookies, items, body)[k] == codec.quote(body)
  {
  }

  /** `PUT` accepts an empty `uuid`, which `GET` then refuses: what is written under
      the empty key can never be read back. */
  lemma EmptyKeyWritesButNeverReads<V>(codec: Codec<V>, cookies: map<string, Cookie>, items: map<string, string>, body: string)
    requires VisitorKey(cookies) == Some("")
    ensures WriteResponse(cookies) == NoContent
    ensures "" in WriteScroll(codec, cookies, items, body)
    ensures ReadScroll(codec, cookies, WriteScroll(codec, cookies, items, body)) == Returned(BadRequest)
  {
  }

  // ---------------------------------------------------------------------
  // The store

  /** `PUT` changes the entry of its own visitor and no other. */
  lemma WriteOnlyItsKey<V>(codec: Codec<V>, cookies: map<string, Cookie>, items: map<string, string>, body: string, k: string)
    requires VisitorKey(cookies) != Some(k)
    ensures k in WriteScroll(codec, cookies, items, body) <==> k in items
    ensures k in items ==> WriteScroll(codec, cookies, items, body)[k] == items[k]
  {
  }

  /** Of two `PUT`s by the same visitor, the second one's body is what remains. */
  lemma LastWriteWins<V>(codec: Codec<V>, cookies: map<string, Cookie>, items: map<string, string>, b1: string, b2: string)
    ensures WriteScroll(codec, cookies, WriteScroll(codec, cookies, items, b1), b2)
      == WriteScroll(codec, cookies, items, b2)
  {
  }

  /** A visitor's `PUT` does not change what another visitor's `GET` answers. */
  lemma OtherVisitorsUnaffected<V>(codec: Codec<V>, writer: map<string, Cookie>, reader: map<string, Cookie>,
                                   items: map<string, string>, body: string)
    requires VisitorKey(writer) != VisitorKey(reader)
    ensures ReadScroll(codec, reader, WriteScroll(codec, writer, items, body)) == ReadScroll(codec, reader, items)
  {
    match VisitorKey(reader)
    case None =>
    case Some(k) =>
      WriteOnlyItsKey(codec, writer, items, body, k);
      assert Retrieve(codec, WriteScroll(codec, writer, items, body), k) == Retrieve(codec, items, k);
  }

  // ---------------------------------------------------------------------
  // Reading back

  /** A visitor who never saved anything reads the JSON `null`. */
  lemma NeverWrittenReadsNull<V(!new)>(codec: Codec<V>, cookies: map<string, Cookie>, items: map<string, string>, k: string)
    requires Lawful(codec)
    requires VisitorKey(cookies) == Some(k) && k != "" && k !in items
    ensures ReadScroll(codec, cookies, items) == Returned(JsonOk("null"))
  {
    NullParses(codec);
  }

  /** After a visitor's `PUT`, their `GET` answers the body parsed and serialised
      again, and throws when the body is not JSON. */
  lemma ReadAfterWrite<V(!new)>(codec: Codec<V>, cookies: map<string, Cookie>, items: map<string, string>, body: string)
    requires Lawful(codec)
    requires VisitorKey(cookies).Some? && VisitorKey(cookies).value != ""
    ensures ReadScroll(codec, cookies, WriteScroll(codec, cookies, items, body)).Threw? <==> codec.parse(body).None?
    ensures forall v :: codec.parse(body) == Some(v) ==>
      ReadScroll(codec, cookies, WriteScroll(codec, cookies, items, body)) == Returned(JsonOk(codec.stringify(v)))
  {
    var k := VisitorKey(cookies).value;
    assert Retrieve(codec, WriteScroll(codec, cookies, items, body), k) == Some(body);
  }

  /** A body that is already serialised JSON is read back exactly. */
  lemma RoundTrip<V(!new)>(codec: Codec<V>, cookies: map<string, Cookie>, items: map<string, string>, v: V)
    requires Lawful(codec)
    requires VisitorKey(cookies).Some? && VisitorKey(cookies).value != ""
    ensures ReadScroll(codec, cookies, WriteScroll(codec, cookies, items, codec.stringify(v)))
      == Returned(JsonOk(codec.stringify(v)))
  {
    ReadAfterWrite(codec, cookies, items, codec.stringify(v));
  }

  // ---------------------------------------------------------------------
  // With the identification endpoint

  /** A jar that went through `GET /api/id` passes both guards of `GET`, unless the
      visitor arrived with an empty `uuid` cookie, which that endpoint keeps. */
  lemma IdentifiedVisitorPassesGuards<V>(codec: Codec<V>, jar: map<string, Cookie>, env: VisitorId.Environment,
                                         id: string, items: map<string, string>)
    requires id != ""
    requires VisitorId.COOKIE_NAME in jar ==> jar[VisitorId.COOKIE_NAME].value != ""
    ensures ReadScroll(codec, VisitorId.AssignId(jar, env, id), items) != Returned(BadRequest)
    ensures WriteResponse(VisitorId.AssignId(jar, env, id)) == NoContent
  {
    ReadGuard(codec, VisitorId.AssignId(jar, env, id), items);
  }

  /** An empty `uuid` cookie is kept by the identification endpoint, so `GET` keeps
      answering 400 for that visitor. */
  lemma EmptyCookieSticks<V>(codec: Codec<V>, jar: map<string, Cookie>, env: VisitorId.Environment,
                             id: string, items: map<string, string>)
    requires VisitorId.COOKIE_NAME in jar && jar[VisitorId.COOKIE_NAME].value == ""
    ensures ReadScroll(codec, VisitorId.AssignId(jar, env, id), items) == Returned(BadRequest)
  {
  }

  /** A first visit: the identification endpoint sets the cookie, the visitor saves a
      serialised value, and a later `GET` with the same cookies reads it back. */
  method FirstVisit<V(!new)>(codec: Codec<V>, env: VisitorId.Environment, newId: string, v: V) returns (out: Outcome)
    requires Lawful(codec) && newId != ""
    ensures out == Returned(JsonOk(codec.stringify(v)))
  {
    var cookies := new CookieJar(map[]);
    var idResponse := VisitorId.IdentifyVisitor(cookies, env, newId);
    var store := new ScrollStore();
    var putResponse := store.Put(codec, cookies, codec.stringify(v));
    RoundTrip(codec, cookies.entries, map[], v);
    out := store.Get(codec, cookies);
  }
}
