/** The text-to-speech serverless function: request validation, the voice
    and settings sent to the speech service, and the error statuses. The
    key is a flag, the parsed body and the upstream exchange are
    parameters; the base64 encoding of the audio is not modelled. */
module SpeechFunction {
  import opened Base

  /** The voice used when the request names none. */
  const DefaultVoiceId: string := "pNInz6obpgDQGcFmaJgB"

  const ModelId: string := "eleven_monolingual_v1"

  datatype VoiceSettings = VoiceSettings(
    stability: real,
    similarityBoost: real,
    style: real,
    useSpeakerBoost: bool)

  /** The settings used when the request gives none. */
  const DefaultSettings: VoiceSettings := VoiceSettings(0.75, 0.85, 0.5, true)

  /** The result of `JSON.parse(event.body)`: a parse error (a missing body
      included), the value `null`, or a value with its three destructured
      properties. `voiceId` is `None` when undefined; `settings` is `None`
      when absent or falsy. */
  datatype Body =
    | Unparsable
    | NullBody
    | Fields(text: Option<string>, voiceId: Option<string>, settings: Option<VoiceSettings>)

  /** The request made to the speech service. */
  datatype SpeechRequest = SpeechRequest(voiceId: string, text: string, modelId: string, settings: VoiceSettings)

  /** What the speech service call ended in. */
  datatype Upstream = Unreachable | Answer(ok: bool, audio: seq<bv8>)

  datatype Payload =
    | NoBody
    | ErrorPayload(error: string)
    | AudioPayload(audio: seq<bv8>)

  datatype Response = Response(status: int, payload: Payload)

  datatype Outcome = Outcome(response: Response, call: Option<SpeechRequest>)

  /** The destructuring default: applies only when `voice_id` is undefined,
      so an empty id is kept. */
  function VoiceOf(given: Option<string>): (id: string)
    ensures given.Some? ==> id == given.value
    ensures given.None? ==> id == DefaultVoiceId
  {
    if given.Some? then given.value else DefaultVoiceId
  }

  /** `voice_settings || {…}` */
  function SettingsOf(given: Option<VoiceSettings>): (s: VoiceSettings)
    ensures given.Some? ==> s == given.value
    ensures given.None? ==> s == DefaultSettings
  {
    if given.Some? then given.value else DefaultSettings
  }

  /** The text property, with `null` read as having none. */
  function TextOf(body: Body): Option<string> {
    if body.Fields? then body.text else None
  }

  /** The handler with `null` read as an object without properties: the
      checks run in the order OPTIONS, method, key, parse, text; only a
      request passing them all reaches the speech service. */
  function Handle(verb: HttpMethod, hasKey: bool, body: Body, upstream: Upstream): (r: Outcome)
    ensures verb == OPTIONS ==> r == Outcome(Response(200, NoBody), None)
    ensures verb != OPTIONS && verb != POST ==> r.response.status == 405 && r.call.None?
    ensures verb == POST && !hasKey ==>
              r == Outcome(Response(500, ErrorPayload("ElevenLabs API key not configured")), None)
    ensures verb == POST && hasKey && body.Unparsable? ==>
              r == Outcome(Response(400, ErrorPayload("Invalid JSON")), None)
    ensures verb == POST && hasKey && !body.Unparsable? && !Truthy(TextOf(body)) ==>
              r == Outcome(Response(400, ErrorPayload("Text is required")), None)
    ensures r.call.Some? <==> verb == POST && hasKey && body.Fields? && Truthy(body.text)
    ensures r.call.Some? ==>
              r.call.value == SpeechRequest(VoiceOf(body.voiceId), body.text.value, ModelId,
                                            SettingsOf(body.settings))
    ensures r.call.Some? ==>
              (r.response.status == 200 <==> upstream.Answer? && upstream.ok)
    ensures r.call.Some? && r.response.status == 200 ==> r.response.payload == AudioPayload(upstream.audio)
    ensures r.call.Some? && r.response.status != 200 ==>
              r.response == Response(500, ErrorPayload("Text-to-speech generation failed"))
  {
    if verb == OPTIONS then Outcome(Response(200, NoBody), None)
    else if verb != POST then Outcome(Response(405, ErrorPayload("Method not allowed")), None)
    else if !hasKey then Outcome(Response(500, ErrorPayload("ElevenLabs API key not configured")), None)
    else if body.Unparsable? then Outcome(Response(400, ErrorPayload("Invalid JSON")), None)
    else if !Truthy(TextOf(body)) then Outcome(Response(400, ErrorPayload("Text is required")), None)
    else
      var request := SpeechRequest(VoiceOf(body.voiceId), body.text.value, ModelId, SettingsOf(body.settings));
      if upstream.Answer? && upstream.ok then Outcome(Response(200, AudioPayload(upstream.audio)), Some(request))
      else Outcome(Response(500, ErrorPayload("Text-to-speech generation failed")), Some(request))
  }

  /** The handler as written: destructuring `null` throws outside every
      `try`, so the invocation fails instead of answering. */
  function HandleAsWritten(verb: HttpMethod, hasKey: bool, body: Body, upstream: Upstream): (r: Option<Outcome>)
    ensures r.None? <==> verb == POST && hasKey && body.NullBody?
    ensures r.Some? ==> r.value == Handle(verb, hasKey, body, upstream)
  {
    if verb == OPTIONS || verb != POST || !hasKey || body.Unparsable? then Some(Handle(verb, hasKey, body, upstream))
    else if body.NullBody? then None
    else Some(Handle(verb, hasKey, body, upstream))
  }

  /** The body `null` passes the parse check and then makes the handler
      fail; the corrected handler rejects it as a request without text. */
  lemma NullBodyFails(upstream: Upstream)
    ensures HandleAsWritten(POST, true, NullBody, upstream).None?
    ensures Handle(POST, true, NullBody, upstream).response == Response(400, ErrorPayload("Text is required"))
  {
  }

  /** The key is checked before the body is even parsed: without it every
      POST gets 500, whatever it carries. */
  lemma KeyCheckedFirst(b1: Body, b2: Body, u1: Upstream, u2: Upstream)
    ensures Handle(POST, false, b1, u1) == Handle(POST, false, b2, u2)
    ensures Handle(POST, false, b1, u1).response.status == 500
  {
  }

  /** A request naming no voice and no settings is spoken with the default
      voice and settings; one naming both uses them unchanged. */
  lemma DefaultsOnlyWhenAbsent(text: string, voice: string, settings: VoiceSettings, upstream: Upstream)
    requires text != ""
    ensures Handle(POST, true, Fields(Some(text), None, None), upstream).call ==
              Some(SpeechRequest(DefaultVoiceId, text, ModelId, DefaultSettings))
    ensures Handle(POST, true, Fields(Some(text), Some(voice), Some(settings)), upstream).call ==
              Some(SpeechRequest(voice, text, ModelId, settings))
  {
  }
}
