/**
 The visitor identification endpoint (`GET /api/id`): answers 204 with no body
 and, when the request carries no `uuid` cookie, sets one holding a fresh
 identifier, scoped to the production domain and marked HttpOnly and Secure in
 production only. The identifier generator is a parameter.
 */
module VisitorId {
  import opened Wrappers
  import opened Http

  const COOKIE_NAME := "uuid"
  const PRODUCTION_DOMAIN := "brittle.systems"

  /** The build environment: `import.meta.env.PROD`. */
  datatype Environment = Environment(production: bool)

  /** The cookie set for a new visitor. */
  function IdCookie(id: string, env: Environment): (c: Cookie)
    ensures c.value == id
    ensures env.production ==> c.domain == Some(PRODUCTION_DOMAIN) && c.httpOnly && c.secure
    ensures !env.production ==> c.domain == None && !c.httpOnly && !c.secure
  {
    Cookie(id, if env.production then Some(PRODUCTION_DOMAIN) else None, env.production, env.production)
  }

  /** The jar after the handler: unchanged when a `uuid` cookie is there, otherwise
      with the new visitor's cookie added. */
  function AssignId(jar: map<string, Cookie>, env: Environment, id: string): map<string, Cookie> {
    if COOKIE_NAME in jar then jar else jar[COOKIE_NAME := IdCookie(id, env)]
  }

  /** The handler. `newId` stands for `randomUUID()`, which is never empty. */
  method IdentifyVisitor(cookies: CookieJar, env: Environment, newId: string) returns (r: Response)
    requires newId != ""
    modifies cookies
    ensures r == NoContent
    ensures cookies.entries == AssignId(old(cookies.entries), env, newId)
  {
    r := NoContent;
    if COOKIE_NAME in cookies.entries {
      return;
    }
    cookies.Set(COOKIE_NAME, IdCookie(newId, env));
  }

  // ---------------------------------------------------------------------

  /** A visitor who already has a `uuid` cookie keeps the jar as it is. */
  lemma KnownVisitorUntouched(jar: map<string, Cookie>, env: Environment, id: string)
    requires COOKIE_NAME in jar
    ensures AssignId(jar, env, id) == jar
  {
  }

  /** A new visitor gets exactly one cookie more, named `uuid` and holding the new
      identifier with the environment's attributes; every other cookie is kept. */
  lemma NewVisitorGetsOneCookie(jar: map<string, Cookie>, env: Environment, id: string)
    requires COOKIE_NAME !in jar
    ensures AssignId(jar, env, id).Keys == jar.Keys + {COOKIE_NAME}
    ensures |AssignId(jar, env, id)| == |jar| + 1
    ensures AssignId(jar, env, id)[COOKIE_NAME] == IdCookie(id, env)
    ensures forall k :: k in jar ==> AssignId(jar, env, id)[k] == jar[k]
  {
    assert AssignId(jar, env, id).Keys == jar.Keys + {COOKIE_NAME};
  }

  /** After the first call, calling again keeps the identifier the visitor was given,
      whatever identifier or environment the second call has. */
  lemma AssignIdIdempotent(jar: map<string, Cookie>, env: Environment, id: string, env2: Environment, id2: string)
    ensures AssignId(AssignId(jar, env, id), env2, id2) == AssignId(jar, env, id)
    ensures COOKIE_NAME in AssignId(jar, env, id)
  {
  }
}
