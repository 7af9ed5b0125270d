/** The key-check serverless function: says whether the speech service key
    is configured without sending the key. */
module KeyFunction {
  import opened Base

  datatype Payload =
    | NoBody
    | ErrorPayload(error: string)
    | KeyPayload(available: bool, apiKey: Option<string>)

  datatype Response = Response(status: int, payload: Payload)

  /** The handler, given the key environment variable. */
  function Handle(verb: HttpMethod, key: Option<string>): (r: Response)
    ensures verb == OPTIONS ==> r == Response(200, NoBody)
    ensures verb != OPTIONS && verb != GET ==> r == Response(405, ErrorPayload("Method not allowed"))
    ensures verb == GET ==> r.status == 200 && r.payload.KeyPayload?
    ensures verb == GET ==> (r.payload.available <==> Truthy(key))
    ensures verb == GET ==> r.payload.apiKey in {Some("available"), None}
  {
    if verb == OPTIONS then Response(200, NoBody)
    else if verb != GET then Response(405, ErrorPayload("Method not allowed"))
    else
      var has := Truthy(key);
      Response(200, KeyPayload(has, if has then Some("available") else None))
  }

  /** The reply depends on the key only through whether it is set: two
      different secrets give the same reply, so none is ever sent. */
  lemma SecretNotSent(verb: HttpMethod, k1: string, k2: string)
    requires k1 != "" && k2 != ""
    ensures Handle(verb, Some(k1)) == Handle(verb, Some(k2))
    ensures Handle(verb, Some(k1)) == Handle(verb, Some("available"))
  {
  }
}
