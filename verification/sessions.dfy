/**
  Session cookies. A session is a cookie whose value is the JSON text of a payload object;
  the server reads it back with `JSON.parse` and inspects the `role` (and sometimes `id`)
  field. `JSON.parse` itself is not modelled: a cookie value is classified by what it
  parses to.
 */
module Sessions {
  import opened Wrappers

  /** The fields of a parsed session object; a field the object lacks is `None`. */
  datatype Payload = Payload(id: Option<string>, email: Option<string>, role: Option<string>, fullName: Option<string>)

  /** What `JSON.parse` returns: `null`, an object, or any other JSON value. */
  datatype Json = JNull | JObject(fields: Payload) | JOther

  /** A cookie's value: the empty string, text `JSON.parse` throws on, or parseable JSON. */
  datatype CookieValue = EmptyValue | Unparsable | Parsed(json: Json)

  /** The request's cookies by name. */
  type Jar = map<string, CookieValue>

  const AdminSessionCookie: string := "admin-session"
  /** The admin cookie name used by app/actions/admin-actions.ts. */
  const DbAdminSessionCookie: string := "admin_session"
  const UserSessionCookie: string := "user-session"

  const AdminRole: string := "admin"
  const StudentRole: string := "student"

  /** `cookies().get(name)?.value` is truthy: the cookie exists with a non-empty value. */
  predicate CookiePresent(jar: Jar, name: string) {
    name in jar && jar[name] != EmptyValue
  }

  /** The parsed session object under `name`, when the cookie is present and holds a JSON object. */
  function SessionObject(jar: Jar, name: string): (r: Option<Payload>)
    ensures r.Some? <==> name in jar && jar[name].Parsed? && jar[name].json.JObject?
    ensures r.Some? ==> jar[name] == Parsed(JObject(r.value))
  {
    if name in jar then
      match jar[name]
      case Parsed(JObject(p)) => Some(p)
      case _ => None
    else None
  }

  datatype AuthCheck<U> = Unauthenticated | Authenticated(user: U)

  /**
    The payload-only check of app/actions/auth-actions.ts: the cookie must be present, parse,
    and carry `role === role`. A missing or empty cookie, unparsable text (the `JSON.parse`
    exception is caught), `null` (reading `.role` of `null` throws and is caught) and any
    other role all fail closed.
   */
  function PayloadWithRole(jar: Jar, name: string, role: string): (r: AuthCheck<Payload>)
    ensures r.Authenticated? <==> SessionObject(jar, name).Some? && SessionObject(jar, name).value.role == Some(role)
    ensures r.Authenticated? ==> jar[name] == Parsed(JObject(r.user))
  {
    if !CookiePresent(jar, name) then Unauthenticated
    else match jar[name]
      case Parsed(JObject(p)) => if p.role == Some(role) then Authenticated(p) else Unauthenticated
      case _ => Unauthenticated
  }

  /** `cookies().set(name, JSON.stringify(payload), ...)`. */
  function SetSession(jar: Jar, name: string, p: Payload): (r: Jar)
    ensures SessionObject(r, name) == Some(p)
    ensures forall n :: n != name ==> (n in r <==> n in jar) && (n in jar ==> r[n] == jar[n])
  {
    jar[name := Parsed(JObject(p))]
  }

  /** `cookies().delete(name)`. */
  function DeleteCookie(jar: Jar, name: string): (r: Jar)
    ensures name !in r
    ensures forall n :: n != name ==> (n in r <==> n in jar) && (n in jar ==> r[n] == jar[n])
  {
    jar - {name}
  }
}
