/** The serverless relay: it accepts a POST with a JSON `{email}` and adds the address to a
    mailing-list group of the marketing service. The environment's key and the upstream call's
    outcome are inputs; the reply records the upstream request when one is made. */
module SubscribeApi {
  import opened Wrappers

  const MEMBERS_URL := "https://webapi.mymarketing.co.il/api/groups/350602/members"

  /** The `email` property of the parsed body: absent, a string, or some other JSON value. */
  datatype Field = Missing | Text(value: string) | NotText

  /** `req.body`: absent (or falsy, replaced by `{}`) or an object with its `email` property.
      A body that is not an object has no `email` and is `Object(Missing)`. */
  datatype Body = NoBody | Object(email: Field)

  /** How the upstream `fetch` settled: a response with its `ok` flag, or a thrown error. */
  datatype Upstream = Responded(ok: bool) | Threw

  /** The upstream POST: URL, `Authorization` header and the JSON body `{email, status: '1'}`. */
  datatype UpstreamCall = UpstreamCall(url: string, authorization: string, email: string, memberStatus: string)

  /** The JSON reply: `{error: text}` or `{success: true}`. */
  datatype Payload = ErrorText(text: string) | SuccessTrue

  datatype Reply = Reply(status: int, payload: Payload, call: Option<UpstreamCall>)

  /** The address when it is a non-empty string; no syntax check is made. */
  function EmailOf(body: Body): (email: Option<string>)
    ensures email.Some? <==> body.Object? && body.email.Text? && body.email.value != ""
    ensures email.Some? ==> email.value == body.email.value
  {
    match body
    case NoBody => None
    case Object(field) =>
      match field
      case Text(v) => if v == "" then None else Some(v)
      case _ => None
  }

  /** A usable key: set and non-empty. */
  predicate HasKey(apiKey: Option<string>)
  {
    apiKey.Some? && apiKey.value != ""
  }

  /** `handler(req, res)`. The guards run in order 405, 400, 500, and only then is the upstream
      service called; its failure in any form is a 502, its success a 200. */
  function Handler(httpMethod: string, body: Body, apiKey: Option<string>, upstream: Upstream): (r: Reply)
    ensures r.status in {200, 400, 405, 500, 502}
    ensures r.status == 405 <==> httpMethod != "POST"
    ensures r.status == 400 <==> httpMethod == "POST" && EmailOf(body) == None
    ensures r.status == 500 <==> httpMethod == "POST" && EmailOf(body).Some? && !HasKey(apiKey)
    ensures r.call.Some? <==> httpMethod == "POST" && EmailOf(body).Some? && HasKey(apiKey)
    ensures r.call.Some? ==> r.call.value == UpstreamCall(MEMBERS_URL, apiKey.value, EmailOf(body).value, "1")
    ensures r.status == 200 <==> r.call.Some? && upstream == Responded(true)
    ensures r.status == 502 <==> r.call.Some? && upstream != Responded(true)
    ensures r.payload == SuccessTrue <==> r.status == 200
  {
    if httpMethod != "POST" then Reply(405, ErrorText("Method not allowed"), None)
    else match EmailOf(body)
      case None => Reply(400, ErrorText("Email is required"), None)
      case Some(email) =>
        if !HasKey(apiKey) then Reply(500, ErrorText("Server configuration error"), None)
        else
          var call := Some(UpstreamCall(MEMBERS_URL, apiKey.value, email, "1"));
          match upstream
          case Responded(ok) =>
            if ok then Reply(200, SuccessTrue, call) else Reply(502, ErrorText("Newsletter signup failed"), call)
          case Threw => Reply(502, ErrorText("Newsletter signup failed"), call)
  }

  /** Any string passes the relay's validation, `not-an-email` included: with a key and a
      willing upstream it is added and answered with 200. */
  lemma NoSyntaxCheck(address: string, key: string)
    requires address != "" && key != ""
    ensures Handler("POST", Object(Text(address)), Some(key), Responded(true)) == 
      Reply(200, SuccessTrue, Some(UpstreamCall(MEMBERS_URL, key, address, "1")))
  {
  }

  /** The method check comes first: no body, key or upstream outcome changes a 405. */
  lemma MethodCheckFirst(httpMethod: string, b1: Body, b2: Body, k1: Option<string>, k2: Option<string>,
                         u1: Upstream, u2: Upstream)
    requires httpMethod != "POST"
    ensures Handler(httpMethod, b1, k1, u1) == Handler(httpMethod, b2, k2, u2)
  {
  }
}
