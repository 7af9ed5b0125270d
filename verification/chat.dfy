/** The chat serverless function: request validation, the profile context
    appended to the system prompt, the message list sent upstream, and the
    fallback when the upstream call fails. The environment key is a flag,
    the parsed request body and the upstream exchange are parameters, and
    the random fallback choice is an index. */
module ChatFunction {
  import opened Base
  import opened Text
  import Profile
  import Conversation
  import AIResponse

  // ---------------------------------------------------------------------
  // Profile context
  // ---------------------------------------------------------------------

  /** The label the server puts before each profile field. */
  function ServerLabel(f: Profile.Field): string {
    match f
    case PreferredName => "User's name: "
    case Pronouns => "Pronouns: "
    case AgeRange => "Age: "
    case Diagnoses => "Mental health conditions: "
    case Medications => "Current medications: "
    case TreatmentHistory => "Treatment background: "
    case CustomCommunication => "Custom communication style: "
    case Triggers => "Topics to approach carefully: "
    case TherapyGoals => "Current therapy goals: "
    case CopingStrategies => "Effective coping strategies: "
    case CurrentStressors => "Current stressors: "
    case TherapistInfo => "Therapist information: "
  }

  /** The line for a present field. */
  function Entry(p: Profile.UserProfile, f: Profile.Field): string
    requires Profile.Has(p, f)
  {
    ServerLabel(f) + p.text[f]
  }

  /** The fields tested before the communication preferences, and after. */
  const BeforeStyles: seq<Profile.Field> :=
    [Profile.PreferredName, Profile.Pronouns, Profile.AgeRange, Profile.Diagnoses,
     Profile.Medications, Profile.TreatmentHistory]
  const AfterStyles: seq<Profile.Field> :=
    [Profile.CustomCommunication, Profile.Triggers, Profile.TherapyGoals,
     Profile.CopingStrategies, Profile.CurrentStressors, Profile.TherapistInfo]

  /** Every profile field is tested by the server. */
  lemma AllFieldsTested(f: Profile.Field)
    ensures f in BeforeStyles || f in AfterStyles
  {
  }

  /** The lines pushed for the fields `fs`, in the order of `fs`. */
  function Entries(p: Profile.UserProfile, fs: seq<Profile.Field>): (r: seq<string>)
    ensures |r| <= |fs|
  {
    if |fs| == 0 then []
    else (if Profile.Has(p, fs[0]) then [Entry(p, fs[0])] else []) + Entries(p, fs[1..])
  }

  /** A present field gives its line. */
  lemma {:induction false} EntriesPresent(p: Profile.UserProfile, fs: seq<Profile.Field>, i: nat)
    requires i < |fs| && Profile.Has(p, fs[i])
    ensures Entry(p, fs[i]) in Entries(p, fs)
    decreases i
  {
    if i > 0 {
      assert fs[1..][i - 1] == fs[i];
      EntriesPresent(p, fs[1..], i - 1);
    }
  }

  /** No line at all exactly when no tested field is present. */
  lemma {:induction false} EntriesEmpty(p: Profile.UserProfile, fs: seq<Profile.Field>)
    ensures Entries(p, fs) == [] <==> forall i :: 0 <= i < |fs| ==> !Profile.Has(p, fs[i])
  {
    if |fs| > 0 {
      EntriesEmpty(p, fs[1..]);
      assert forall i :: 1 <= i < |fs| ==> fs[1..][i - 1] == fs[i];
    }
  }

  /** The lines depend only on the present fields and their values. */
  lemma {:induction false} EntriesAgree(p: Profile.UserProfile, q: Profile.UserProfile, fs: seq<Profile.Field>)
    requires forall f :: Profile.Has(p, f) ==> Profile.Has(q, f) && p.text[f] == q.text[f]
    requires forall f :: Profile.Has(q, f) ==> Profile.Has(p, f)
    ensures Entries(p, fs) == Entries(q, fs)
  {
    if |fs| > 0 {
      EntriesAgree(p, q, fs[1..]);
    }
  }

  /** `communicationStyle` is a non-empty list. */
  predicate HasStyles(p: Profile.UserProfile) {
    p.communicationStyle.Some? && |p.communicationStyle.value| > 0
  }

  const StylesLabel: string := "Communication preferences: "

  function StyleEntry(p: Profile.UserProfile): (r: seq<string>)
    ensures |r| <= 1
  {
    if HasStyles(p) then [StylesLabel + Join(p.communicationStyle.value, ", ")] else []
  }

  /** The `context` array, in the order the handler pushes to it. */
  function ServerLines(p: Profile.UserProfile): seq<string> {
    Entries(p, BeforeStyles) + StyleEntry(p) + Entries(p, AfterStyles)
  }

  const ContextHeader: string := "\n\nUser Profile:\n"

  /** `profileContext`: empty without a profile or when it would hold no
      line, otherwise the header followed by the lines joined by newlines. */
  function ProfileContext(profile: Option<Profile.UserProfile>): (r: string)
    ensures r != "" ==> profile.Some? && StartsWith(r, ContextHeader)
  {
    if profile.None? then ""
    else
      var lines := ServerLines(profile.value);
      if |lines| == 0 then ""
      else
        StartsWithPrefix(ContextHeader, Join(lines, "\n"));
        ContextHeader + Join(lines, "\n")
  }

  /** The context is empty exactly when there is no profile, or no field of
      it is present and no communication style is chosen. */
  lemma ProfileContextEmpty(profile: Option<Profile.UserProfile>)
    ensures ProfileContext(profile) == "" <==>
              profile.None? ||
              (!HasStyles(profile.value) && forall f :: !Profile.Has(profile.value, f))
  {
    if profile.Some? {
      var p := profile.value;
      EntriesEmpty(p, BeforeStyles);
      EntriesEmpty(p, AfterStyles);
      if forall f :: !Profile.Has(p, f) {
        assert Entries(p, BeforeStyles) == [] && Entries(p, AfterStyles) == [];
      }
      if Entries(p, BeforeStyles) == [] && Entries(p, AfterStyles) == [] {
        forall f ensures !Profile.Has(p, f) {
          AllFieldsTested(f);
        }
      }
      assert |ContextHeader| > 0;
    }
  }

  /** A present field has its line among the server lines. */
  lemma EntryListed(p: Profile.UserProfile, f: Profile.Field)
    requires Profile.Has(p, f)
    ensures Entry(p, f) in ServerLines(p)
  {
    AllFieldsTested(f);
    if f in BeforeStyles {
      var i :| 0 <= i < |BeforeStyles| && BeforeStyles[i] == f;
      EntriesPresent(p, BeforeStyles, i);
    } else {
      var i :| 0 <= i < |AfterStyles| && AfterStyles[i] == f;
      EntriesPresent(p, AfterStyles, i);
    }
  }

  /** Every server line occurs in the context. */
  lemma LineInContext(p: Profile.UserProfile, line: string)
    requires line in ServerLines(p)
    ensures Contains(ProfileContext(Some(p)), line)
  {
    var lines := ServerLines(p);
    var k :| 0 <= k < |lines| && lines[k] == line;
    JoinContains(lines, "\n", k);
    ContainsAppendLeft(ContextHeader, Join(lines, "\n"), line);
  }

  /** Every present field, the age range included, is sent with its label;
      and so is the joined style list when one is chosen. */
  lemma ProfileContextLists(p: Profile.UserProfile, f: Profile.Field)
    ensures Profile.Has(p, f) ==> Contains(ProfileContext(Some(p)), Entry(p, f))
    ensures HasStyles(p) ==>
              Contains(ProfileContext(Some(p)), StylesLabel + Join(p.communicationStyle.value, ", "))
  {
    if Profile.Has(p, f) {
      EntryListed(p, f);
      LineInContext(p, Entry(p, f));
    }
    if HasStyles(p) {
      var line := StylesLabel + Join(p.communicationStyle.value, ", ");
      assert ServerLines(p)[|Entries(p, BeforeStyles)|] == line;
      LineInContext(p, line);
    }
  }

  /** Absent and empty fields contribute nothing: two profiles with the
      same present values and styles give the same context. */
  lemma ProfileContextAgrees(p: Profile.UserProfile, q: Profile.UserProfile)
    requires forall f :: Profile.Has(p, f) ==> Profile.Has(q, f) && p.text[f] == q.text[f]
    requires forall f :: Profile.Has(q, f) ==> Profile.Has(p, f)
    requires p.communicationStyle == q.communicationStyle
    ensures ProfileContext(Some(p)) == ProfileContext(Some(q))
  {
    EntriesAgree(p, q, BeforeStyles);
    EntriesAgree(p, q, AfterStyles);
  }

  // ---------------------------------------------------------------------
  // Messages sent upstream
  // ---------------------------------------------------------------------

  datatype Role = UserRole | AssistantRole

  /** One element of the upstream `messages` list. */
  datatype Turn = Turn(role: Role, content: string)

  /** History entries whose sender is neither `user` nor `assistant` are
      dropped. */
  predicate Kept(m: Message) {
    m.sender == User || m.sender == Assistant
  }

  function TurnOf(m: Message): (t: Turn)
    requires Kept(m)
    ensures t.content == m.content
    ensures t.role == UserRole <==> m.sender == User
  {
    Turn(if m.sender == User then UserRole else AssistantRole, m.content)
  }

  /** The loop over `recentHistory`. */
  function HistoryTurns(h: seq<Message>): (r: seq<Turn>)
    ensures |r| <= |h|
  {
    if |h| == 0 then []
    else (if Kept(h[0]) then [TurnOf(h[0])] else []) + HistoryTurns(h[1..])
  }

  /** The loop handles each entry on its own, so it distributes over
      concatenation: relative order is kept. */
  lemma {:induction false} HistoryTurnsAppend(a: seq<Message>, b: seq<Message>)
    ensures HistoryTurns(a + b) == HistoryTurns(a) + HistoryTurns(b)
  {
    if |a| > 0 {
      assert (a + b)[0] == a[0];
      assert (a + b)[1..] == a[1..] + b;
      HistoryTurnsAppend(a[1..], b);
    } else {
      assert a + b == b;
    }
  }

  /** Nothing is dropped exactly when every entry is from the user or the
      assistant. */
  lemma {:induction false} HistoryTurnsComplete(h: seq<Message>)
    ensures |HistoryTurns(h)| == |h| <==> forall i :: 0 <= i < |h| ==> Kept(h[i])
  {
    if |h| > 0 {
      HistoryTurnsComplete(h[1..]);
      assert forall i :: 1 <= i < |h| ==> h[1..][i - 1] == h[i];
    }
  }

  /** Every turn comes from some history entry. */
  lemma {:induction false} HistoryTurnsSound(h: seq<Message>, t: Turn)
    requires t in HistoryTurns(h)
    ensures exists i :: 0 <= i < |h| && Kept(h[i]) && TurnOf(h[i]) == t
  {
    if |h| > 0 {
      if !(Kept(h[0]) && t == TurnOf(h[0])) {
        HistoryTurnsSound(h[1..], t);
        var i :| 0 <= i < |h[1..]| && Kept(h[1..][i]) && TurnOf(h[1..][i]) == t;
        assert h[i + 1] == h[1..][i];
      }
    }
  }

  /** The last twenty history entries are considered. */
  const HistoryWindow: nat := 20

  /** The upstream `messages` list: the kept entries of the last twenty
      history entries, then the current message as a user turn. An absent
      or empty history (or one that is not an array) adds nothing. */
  function UpstreamMessages(history: Option<seq<Message>>, message: string): (r: seq<Turn>)
    ensures 1 <= |r| <= HistoryWindow + 1
    ensures r[|r| - 1] == Turn(UserRole, message)
  {
    var earlier :=
      if history.Some? && |history.value| > 0
      then HistoryTurns(Conversation.LastN(history.value, HistoryWindow))
      else [];
    earlier + [Turn(UserRole, message)]
  }

  /** Entries older than the last twenty never reach the upstream list;
      the rest keep their order. */
  lemma OlderHistoryIgnored(older: seq<Message>, recent: seq<Message>, message: string)
    requires |recent| == HistoryWindow
    ensures UpstreamMessages(Some(older + recent), message) == UpstreamMessages(Some(recent), message)
    ensures UpstreamMessages(Some(recent), message) == HistoryTurns(recent) + [Turn(UserRole, message)]
  {
    assert (older + recent)[|older + recent| - HistoryWindow..] == recent;
  }

  // ---------------------------------------------------------------------
  // The handler
  // ---------------------------------------------------------------------

  /** The result of `JSON.parse(event.body || '{}')`: a parse error, the
      value `null`, or a value whose three destructured properties are
      given (any other value reads as all three absent). A missing body is
      `Fields(None, None, None)`. */
  datatype Body =
    | Unparsable
    | NullBody
    | Fields(message: Option<string>, profile: Option<Profile.UserProfile>, history: Option<seq<Message>>)

  /** What the upstream call ended in: a rejected `fetch`, or a response
      with its `ok` flag and the texts of its `content` blocks (`None` when
      the body is not JSON or has no `content` array). */
  datatype Upstream =
    | Unreachable
    | Answer(ok: bool, content: Option<seq<Option<string>>>)

  /** What the handler made of the upstream call: an exception, or the
      value of `claudeData.content[0].text` (`None` when undefined). */
  datatype Read = Threw | Got(text: Option<string>)

  function ReadUpstream(u: Upstream): (r: Read)
    ensures r.Got? <==> u.Answer? && u.ok && u.content.Some? && |u.content.value| > 0
  {
    match u
    case Unreachable => Threw
    case Answer(ok, content) =>
      if !ok || content.None? || |content.value| == 0 then Threw
      else Got(content.value[0])
  }

  /** The JSON body of a response. */
  datatype Payload =
    | EmptyPayload
    | ErrorPayload(error: string)
    | ReplyPayload(response: Option<string>)

  datatype Response = Response(status: int, payload: Payload)

  /** What the upstream call is given beyond the fixed model name, token
      limit and system prompt. */
  datatype UpstreamRequest = UpstreamRequest(profileContext: string, messages: seq<Turn>)

  /** A handled request: the response and the upstream request, if one
      was made. */
  datatype Outcome = Outcome(response: Response, call: Option<UpstreamRequest>)

  const NoKeyReply: string :=
    "I'm having trouble connecting right now, but I'm here to listen. How are you feeling?"

  /** The catch block's replies: the first three of the client's list. */
  const ServerFallbacks: seq<string> := AIResponse.FallbackResponses[..3]

  /** The message property, with `null` read as having none. */
  function MessageOf(body: Body): Option<string> {
    if body.Fields? then body.message else None
  }

  /** The handler with every property read from a `null` body reading as
      absent: the checks run in the order OPTIONS, verb, parse, message,
      key; only a request passing them all is sent upstream, and then the
      reply is 200 with either the upstream text or a fallback. */
  function Handle(verb: HttpMethod, hasKey: bool, body: Body, upstream: Upstream, pick: nat): (r: Outcome)
    requires pick < |ServerFallbacks|
    ensures verb == OPTIONS ==> r == Outcome(Response(200, EmptyPayload), None)
    ensures verb != OPTIONS && verb != POST ==> r.response.status == 405 && r.call.None?
    ensures verb == POST && body.Unparsable? ==> r.response == Response(400, ErrorPayload("Invalid JSON"))
    ensures verb == POST && !body.Unparsable? && !Truthy(MessageOf(body)) ==>
              r.response == Response(400, ErrorPayload("Message is required"))
    ensures verb == POST && !body.Unparsable? && Truthy(MessageOf(body)) && !hasKey ==>
              r == Outcome(Response(200, ReplyPayload(Some(NoKeyReply))), None)
    ensures r.call.Some? <==> verb == POST && body.Fields? && Truthy(body.message) && hasKey
    ensures r.call.Some? ==>
              r.call.value == UpstreamRequest(ProfileContext(body.profile),
                                              UpstreamMessages(body.history, body.message.value))
    ensures r.call.Some? ==> r.response.status == 200 && r.response.payload.ReplyPayload?
    ensures r.call.Some? && ReadUpstream(upstream).Threw? ==>
              r.response.payload.response == Some(ServerFallbacks[pick])
    ensures r.call.Some? && ReadUpstream(upstream).Got? ==>
              r.response.payload.response == ReadUpstream(upstream).text
  {
    if verb == OPTIONS then Outcome(Response(200, EmptyPayload), None)
    else if verb != POST then Outcome(Response(405, ErrorPayload("Method not allowed")), None)
    else if body.Unparsable? then Outcome(Response(400, ErrorPayload("Invalid JSON")), None)
    else if !Truthy(MessageOf(body)) then Outcome(Response(400, ErrorPayload("Message is required")), None)
    else if !hasKey then Outcome(Response(200, ReplyPayload(Some(NoKeyReply))), None)
    else
      var request := UpstreamRequest(ProfileContext(body.profile),
                                     UpstreamMessages(body.history, body.message.value));
      match ReadUpstream(upstream)
      case Threw => Outcome(Response(200, ReplyPayload(Some(ServerFallbacks[pick]))), Some(request))
      case Got(t) => Outcome(Response(200, ReplyPayload(t)), Some(request))
  }

  /** The handler as written: destructuring `null` throws outside every
      `try`, so the invocation fails instead of answering. `None` is that
      failure. */
  function HandleAsWritten(verb: HttpMethod, hasKey: bool, body: Body, upstream: Upstream, pick: nat): (r: Option<Outcome>)
    requires pick < |ServerFallbacks|
    ensures r.None? <==> verb == POST && body.NullBody?
    ensures r.Some? ==> r.value == Handle(verb, hasKey, body, upstream, pick)
  {
    if verb == OPTIONS then Some(Outcome(Response(200, EmptyPayload), None))
    else if verb != POST then Some(Outcome(Response(405, ErrorPayload("Method not allowed")), None))
    else if body.Unparsable? then Some(Outcome(Response(400, ErrorPayload("Invalid JSON")), None))
    else if body.NullBody? then None
    else Some(Handle(verb, hasKey, body, upstream, pick))
  }

  /** The request body `null` is valid JSON, passes the parse check and
      then makes the handler fail; the corrected handler rejects it as a
      request without a message. */
  lemma NullBodyFails(hasKey: bool, upstream: Upstream)
    ensures HandleAsWritten(POST, hasKey, NullBody, upstream, 0).None?
    ensures Handle(POST, hasKey, NullBody, upstream, 0).response ==
              Response(400, ErrorPayload("Message is required"))
  {
  }

  /** Whatever the verb, key, body and upstream, the corrected handler
      answers, and every status it gives is one of 200, 400 and 405. */
  lemma HandleAlwaysAnswers(verb: HttpMethod, hasKey: bool, body: Body, upstream: Upstream, pick: nat)
    requires pick < |ServerFallbacks|
    ensures Handle(verb, hasKey, body, upstream, pick).response.status in {200, 400, 405}
  {
  }

  // ---------------------------------------------------------------------
  // What the client makes of the reply
  // ---------------------------------------------------------------------

  /** The response as `callAIAPI` sees it: `ok` for a 2xx status, an empty
      body is not JSON, and no payload of this handler carries a
      `fallback` flag. */
  function ToExchange(resp: Response): (x: AIResponse.Exchange)
    ensures x.Reply? && (x.ok <==> 200 <= resp.status < 300)
    ensures x.body.Some? ==> !x.body.value.fallback
  {
    AIResponse.Reply(
      200 <= resp.status < 300,
      match resp.payload
      case EmptyPayload => None
      case ErrorPayload(_) => Some(AIResponse.ReplyBody(false, None))
      case ReplyPayload(t) => Some(AIResponse.ReplyBody(false, t)))
  }

  /** When the upstream call fails, the user sees the server's fallback and
      not one of the client's: the server answers 200 without a `fallback`
      flag, so the client takes the text as the model's reply. */
  lemma UpstreamFailureShown(p: Option<Profile.UserProfile>, h: Option<seq<Message>>,
                             message: string, upstream: Upstream, pick: nat, clientPick: nat)
    requires message != "" && pick < |ServerFallbacks|
    requires clientPick < |AIResponse.FallbackResponses|
    requires ReadUpstream(upstream).Threw?
    ensures AIResponse.GetAIResponse(
              ToExchange(Handle(POST, true, Fields(Some(message), p, h), upstream, pick).response),
              clientPick) == Some(ServerFallbacks[pick])
  {
  }

  /** Without the key the user sees the fixed reply; with a message missing
      the user sees a client fallback. */
  lemma ClientViewOfRejections(p: Option<Profile.UserProfile>, h: Option<seq<Message>>,
                               message: string, upstream: Upstream, pick: nat, clientPick: nat)
    requires pick < |ServerFallbacks|
    requires clientPick < |AIResponse.FallbackResponses|
    ensures message != "" ==>
              AIResponse.GetAIResponse(
                ToExchange(Handle(POST, false, Fields(Some(message), p, h), upstream, pick).response),
                clientPick) == Some(NoKeyReply)
    ensures AIResponse.GetAIResponse(
              ToExchange(Handle(POST, true, Fields(None, p, h), upstream, pick).response),
              clientPick) == Some(AIResponse.FallbackResponses[clientPick])
  {
  }
}
