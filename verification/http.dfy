/**
 The parts of an HTTP exchange the endpoints use: the cookie jar of one request
 (Astro's `cookies`) and the response they build.
 */
module Http {
  import opened Wrappers

  /** A cookie and the attributes of section 4.1.2 of RFC 6265 that the site sets. */
  datatype Cookie = Cookie(value: string, domain: Option<string>, httpOnly: bool, secure: bool)

  /** A response: status, body (`null` is `None`) and headers. */
  datatype Response = Response(status: int, body: Option<string>, headers: map<string, string>)

  const BadRequest := Response(400, None, map[])
  const NoContent := Response(204, None, map[])

  /** The default `new Response(body, { headers })`: status 200 with a JSON content type. */
  function JsonOk(body: string): Response {
    Response(200, Some(body), map["Content-Type" := "application/json"])
  }

  /** The cookies of one request; cookies set while handling it are visible to later reads. */
  class CookieJar {
    var entries: map<string, Cookie>

    constructor (entries: map<string, Cookie>)
      ensures this.entries == entries
    {
      this.entries := entries;
    }

    /** `cookies.set(name, ...)`: adds the cookie, replacing one of the same name. */
    method Set(name: string, c: Cookie)
      modifies this
      ensures entries == old(entries)[name := c]
    {
      entries := entries[name := c];
    }
  }
}
