/** The voice-id serverless function: the two voice ids come from the
    environment, falling back to fixed defaults. */
module VoicesFunction {
  import opened Base

  const DefaultFemaleVoiceId: string := "M7ya1YbaeFaPXljg9BpK"
  const DefaultMaleVoiceId: string := "ZthjuvLPty3kTMaNKVKb"

  datatype Payload =
    | NoBody
    | ErrorPayload(error: string)
    | VoicesPayload(femaleVoiceId: string, maleVoiceId: string, available: bool)

  datatype Response = Response(status: int, payload: Payload)

  /** `process.env.X || default` */
  function EnvOr(env: Option<string>, default: string): (r: string)
    ensures Truthy(env) ==> r == env.value
    ensures !Truthy(env) ==> r == default
  {
    if Truthy(env) then env.value else default
  }

  /** The handler, given the two environment variables. */
  function Handle(verb: HttpMethod, femaleEnv: Option<string>, maleEnv: Option<string>): (r: Response)
    ensures verb == OPTIONS ==> r == Response(200, NoBody)
    ensures verb != OPTIONS && verb != GET ==> r == Response(405, ErrorPayload("Method not allowed"))
    ensures verb == GET ==> r.status == 200 && r.payload.VoicesPayload?
  {
    if verb == OPTIONS then Response(200, NoBody)
    else if verb != GET then Response(405, ErrorPayload("Method not allowed"))
    else
      Response(200, VoicesPayload(EnvOr(femaleEnv, DefaultFemaleVoiceId),
                                  EnvOr(maleEnv, DefaultMaleVoiceId),
                                  Truthy(femaleEnv) && Truthy(maleEnv)))
  }

  /** Each id is the configured one when set and the default otherwise, so
      it is never empty; `available` holds exactly when both are set. */
  lemma VoiceIds(femaleEnv: Option<string>, maleEnv: Option<string>)
    ensures var p := Handle(GET, femaleEnv, maleEnv).payload;
            && (p.femaleVoiceId == if Truthy(femaleEnv) then femaleEnv.value else DefaultFemaleVoiceId)
            && (p.maleVoiceId == if Truthy(maleEnv) then maleEnv.value else DefaultMaleVoiceId)
            && p.femaleVoiceId != "" && p.maleVoiceId != ""
            && (p.available <==> Truthy(femaleEnv) && Truthy(maleEnv))
  {
  }

  /** With only one id configured the reply still carries two ids but says
      the voices are not available. */
  lemma OneIdIsNotEnough(id: string)
    requires id != ""
    ensures Handle(GET, Some(id), None).payload == VoicesPayload(id, DefaultMaleVoiceId, false)
  {
  }
}
