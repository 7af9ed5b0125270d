/** The AI response manager: the request sent to the chat function, how the
    outcome of that call becomes the text shown to the user, and the
    offline therapeutic reply chosen by keyword category. Random picks are
    index parameters. */
module AIResponse {
  import opened Base
  import opened Text
  import Profile

  // ---------------------------------------------------------------------
  // Calling the chat function
  // ---------------------------------------------------------------------

  /** The body sent to the chat function: the contextual message, the
      profile, and the conversation log. */
  datatype ChatRequest = ChatRequest(
    message: string,
    profile: Option<Profile.UserProfile>,
    history: seq<Message>)

  /** `callAIAPI`'s request for `message`, with the whole client log as
      history; the log is sent as it is, so a message already in it is not
      removed. */
  function BuildRequest(s: Profile.ProfileState, message: string, log: seq<Message>): (r: ChatRequest)
    ensures r.history == log && r.profile == s.profile
    ensures s.profile.None? ==> r.message == message
    ensures EndsWith(r.message, message)
  {
    var m := Profile.BuildContextualMessage(s, message);
    assert EndsWith(m, message) by {
      if s.profile.Some? {
        EndsWithShorter(m, Profile.MessageLead, message);
      } else {
        assert m[|m| - |message|..] == m;
      }
    }
    ChatRequest(m, s.profile, log)
  }

  /** The parsed JSON of a chat-function reply, as far as the client reads
      it: the truthiness of `fallback` and the `response` field. */
  datatype ReplyBody = ReplyBody(fallback: bool, response: Option<string>)

  /** What `fetch` produced: a rejected promise, or a response with its
      `ok` flag and its body (`None` when it is not JSON). */
  datatype Exchange =
    | NetworkFailure
    | Reply(ok: bool, body: Option<ReplyBody>)

  /** `callAIAPI` either throws or returns `data.response`. */
  datatype CallResult = Failed | Returned(text: Option<string>)

  /** `callAIAPI`: a non-ok status, a body that is not JSON and a truthy
      `fallback` flag all throw; otherwise the reply is `data.response`. */
  function CallAIAPI(x: Exchange): (r: CallResult)
    ensures r.Returned? <==> x.Reply? && x.ok && x.body.Some? && !x.body.value.fallback
    ensures r.Returned? ==> r.text == x.body.value.response
  {
    match x
    case NetworkFailure => Failed
    case Reply(ok, body) =>
      if !ok then Failed
      else if body.None? then Failed
      else if body.value.fallback then Failed
      else Returned(body.value.response)
  }

  const FallbackResponses: seq<string> := [
    "I'm here for you, even though I'm having some connection issues right now. How are you feeling?",
    "I'm experiencing some technical difficulties, but I'm still listening. What's on your mind?",
    "Something's not quite working on my end, mate, but I want you to know I'm here. Can you tell me what's going on?",
    "I hit a technical snag, but your feelings are important. What would help you feel supported right now?"
  ]

  /** `getAIResponse`: never throws. Any failure of the call gives the
      fallback text at `pick`; a successful call gives `data.response`
      (`None` models an absent field). */
  function GetAIResponse(x: Exchange, pick: nat): (r: Option<string>)
    requires pick < |FallbackResponses|
    ensures CallAIAPI(x).Failed? ==> r.Some? && r.value in FallbackResponses && r.value == FallbackResponses[pick]
    ensures CallAIAPI(x).Returned? ==> r == CallAIAPI(x).text
  {
    match CallAIAPI(x)
    case Failed => Some(FallbackResponses[pick])
    case Returned(text) => text
  }

  /** A non-ok status gives a fallback whatever the body says; a truthy
      `fallback` flag gives one whatever the response text; otherwise the
      response text is passed through unchanged. */
  lemma OutcomeMapping(body: Option<ReplyBody>, response: Option<string>, pick: nat)
    requires pick < |FallbackResponses|
    ensures GetAIResponse(Reply(false, body), pick) == Some(FallbackResponses[pick])
    ensures GetAIResponse(NetworkFailure, pick) == Some(FallbackResponses[pick])
    ensures GetAIResponse(Reply(true, None), pick) == Some(FallbackResponses[pick])
    ensures GetAIResponse(Reply(true, Some(ReplyBody(true, response))), pick) == Some(FallbackResponses[pick])
    ensures GetAIResponse(Reply(true, Some(ReplyBody(false, response))), pick) == response
  {
  }

  // ---------------------------------------------------------------------
  // Offline replies
  // ---------------------------------------------------------------------

  /** The keyword categories of `simulateTherapeuticResponse`. */
  datatype Category = Crisis | Anxiety | Sadness | Anger | Loneliness | Overwhelm | Default

  /** Position in the order the categories are tested. */
  function Precedence(c: Category): nat {
    match c
    case Crisis => 0
    case Anxiety => 1
    case Sadness => 2
    case Anger => 3
    case Loneliness => 4
    case Overwhelm => 5
    case Default => 6
  }

  function Keywords(c: Category): seq<string> {
    match c
    case Crisis => ["hurt myself", "kill myself", "suicide", "end it all", "not worth living"]
    case Anxiety => ["anxious", "anxiety", "worried", "panic"]
    case Sadness => ["sad", "depressed", "down", "hopeless", "empty"]
    case Anger => ["angry", "frustrated", "mad", "furious", "rage"]
    case Loneliness => ["alone", "lonely", "abandon", "isolated", "rejected"]
    case Overwhelm => ["overwhelmed", "too much", "stressed", "pressure", "burden"]
    case Default => []
  }

  /** `containsKeywords(message.toLowerCase(), keywords)` for the category. */
  predicate Triggers(message: string, c: Category) {
    ContainsAny(Lower(message), Keywords(c))
  }

  /** The category whose branch `simulateTherapeuticResponse` takes. */
  function Classify(message: string): (c: Category)
    ensures c != Default ==> Triggers(message, c)
    ensures forall d :: Precedence(d) < Precedence(c) ==> !Triggers(message, d)
  {
    if Triggers(message, Crisis) then Crisis
    else if Triggers(message, Anxiety) then Anxiety
    else if Triggers(message, Sadness) then Sadness
    else if Triggers(message, Anger) then Anger
    else if Triggers(message, Loneliness) then Loneliness
    else if Triggers(message, Overwhelm) then Overwhelm
    else Default
  }

  /** The chosen category is the first one, in test order, whose keywords
      occur; no keyword at all gives the default. */
  lemma ClassifyIsFirstMatch(message: string, c: Category)
    requires c != Default && Triggers(message, c)
    requires forall d :: Precedence(d) < Precedence(c) ==> !Triggers(message, d)
    ensures Classify(message) == c
  {
  }

  /** Matching is on the lower-cased message, so case never matters. */
  lemma ClassifyIgnoresCase(message: string)
    ensures Classify(Lower(message)) == Classify(message)
  {
    LowerIdempotent(message);
  }

  const CrisisIntro: string :=
    "I'm really concerned about what you're sharing, mate. These thoughts about hurting yourself are serious, and I want you to get proper support right away."
  const EmergencyNumber: string := "000"
  const LifelineNumber: string := "13 11 14"
  const BeyondBlueNumber: string := "1300 22 4636"
  const EmergencyLine: string := "\U{2022} Emergency Services: " + EmergencyNumber
  const LifelineLine: string := "\U{2022} Lifeline: " + LifelineNumber
  const BeyondBlueLine: string := "\U{2022} Beyond Blue: " + BeyondBlueNumber
  const CrisisClose: string :=
    "You don't have to go through this alone. There are people who want to help you right now. Can you reach out to one of these services or someone you trust?"

  const CrisisHead: string := CrisisIntro + "\n\nPlease reach out for immediate help:\n"
  const Resources: string := EmergencyLine + "\n" + LifelineLine + "\n" + BeyondBlueLine
  const CrisisTail: string := "\n\n" + CrisisClose

  /** `getCrisisResponse`: one fixed text. */
  const CrisisResponse: string := CrisisHead + Resources + CrisisTail

  /** A line ends with the number it gives. */
  lemma EndsInNumber(lead: string, number: string)
    ensures Contains(lead + number, number)
  {
    assert (lead + number)[|lead|..|lead| + |number|] == number;
    ContainsAt(lead + number, number, |lead|);
  }

  /** What one of three separated lines contains, the list contains. */
  lemma InList(x: string, y: string, z: string, sep: string, p: string)
    requires Contains(x, p) || Contains(y, p) || Contains(z, p)
    ensures Contains(x + sep + y + sep + z, p)
  {
    if Contains(x, p) {
      ContainsAppendRight(x, sep + y + sep + z, p);
      assert x + (sep + y + sep + z) == x + sep + y + sep + z;
    } else if Contains(y, p) {
      ContainsAppendLeft(x + sep, y, p);
      ContainsAppendRight(x + sep + y, sep + z, p);
      assert x + sep + y + (sep + z) == x + sep + y + sep + z;
    } else {
      ContainsAppendLeft(x + sep + y + sep, z, p);
    }
  }

  /** What the middle part contains, the whole contains. */
  lemma InMiddle(head: string, body: string, tail: string, p: string)
    requires Contains(body, p)
    ensures Contains(head + body + tail, p)
  {
    ContainsAppendLeft(head, body, p);
    ContainsAppendRight(head + body, tail, p);
  }

  /** The crisis text lists the emergency number and both help lines. */
  lemma CrisisResponseListsServices()
    ensures Contains(CrisisResponse, EmergencyNumber)
    ensures Contains(CrisisResponse, LifelineNumber)
    ensures Contains(CrisisResponse, BeyondBlueNumber)
  {
    EndsInNumber("\U{2022} Emergency Services: ", EmergencyNumber);
    EndsInNumber("\U{2022} Lifeline: ", LifelineNumber);
    EndsInNumber("\U{2022} Beyond Blue: ", BeyondBlueNumber);
    InList(EmergencyLine, LifelineLine, BeyondBlueLine, "\n", EmergencyNumber);
    InList(EmergencyLine, LifelineLine, BeyondBlueLine, "\n", LifelineNumber);
    InList(EmergencyLine, LifelineLine, BeyondBlueLine, "\n", BeyondBlueNumber);
    InMiddle(CrisisHead, Resources, CrisisTail, EmergencyNumber);
    InMiddle(CrisisHead, Resources, CrisisTail, LifelineNumber);
    InMiddle(CrisisHead, Resources, CrisisTail, BeyondBlueNumber);
  }

  const AnxietyReplies: seq<string> := [
    "I can hear that you're feeling anxious right now. What do you think might be triggering that anxiety for you?",
    "Anxiety can be really overwhelming. What's going through your mind when those feelings come up?",
    "That sounds like a lot of worry to carry. What are you telling yourself about this situation?"]

  const SadnessReplies: seq<string> := [
    "It sounds like you're feeling really low at the moment. That must be tough, mate. When you notice that sadness, what thoughts tend to come with it?",
    "I can hear the sadness in what you're sharing. What do you think might be underneath those feelings?",
    "That sounds really heavy. What would it mean to you to feel differently about this?"]

  const AngerReplies: seq<string> := [
    "I can hear the frustration in what you're saying. Anger often tells us something important about what we need or value. What do you think might be underneath that anger?",
    "That sounds really frustrating. What do you think your anger might be trying to tell you?",
    "It makes sense you'd feel angry about that. What would you need to feel differently?"]

  const LonelinessReplies: seq<string> := [
    "Feeling alone can be really painful. It sounds like this is bringing up some difficult feelings for you. What does being alone mean to you in this situation?",
    "Loneliness can be so hard to sit with. What are you telling yourself when those feelings come up?",
    "That sounds really isolating. What would connection look like for you right now?"]

  const OverwhelmReplies: seq<string> := [
    "That sounds really overwhelming, mate. When everything feels like too much, it can be hard to know where to start. What feels like the most pressing thing on your mind right now?",
    "I can hear how much you're dealing with. What would it feel like to have some space from all of this?",
    "That's a lot to carry. What do you think you need most right now?"]

  const DefaultReplies: seq<string> := [
    "That sounds really significant for you. What do you think is at the heart of those feelings?",
    "I can hear that this is affecting you quite a bit. What comes up for you when you think about why this might be hitting you so hard?",
    "It sounds like there's a lot going on beneath the surface there. What do you think might be driving those reactions?",
    "That must feel pretty intense. When you notice yourself feeling this way, what thoughts tend to go through your head?",
    "I'm hearing that this is really important to you. What would it mean if things were different in this situation?"]

  /** `TalbotConfig.RESPONSE_PATTERNS`: the replies for each emotion. */
  datatype Patterns = Patterns(
    anxiety: seq<string>,
    sadness: seq<string>,
    anger: seq<string>,
    loneliness: seq<string>,
    overwhelm: seq<string>)

  const ResponsePatterns: Patterns :=
    Patterns(AnxietyReplies, SadnessReplies, AngerReplies, LonelinessReplies, OverwhelmReplies)

  /** The replies of a category: the configured list for the five emotions,
      the fixed default list otherwise. */
  function Pool(patterns: Patterns, c: Category): seq<string>
    requires c != Crisis
  {
    match c
    case Anxiety => patterns.anxiety
    case Sadness => patterns.sadness
    case Anger => patterns.anger
    case Loneliness => patterns.loneliness
    case Overwhelm => patterns.overwhelm
    case Default => DefaultReplies
  }

  /** `simulateTherapeuticResponse`: the crisis text when a crisis phrase
      occurs, whatever else the message says and whatever `pick` is;
      otherwise entry `pick` of the first matching category's list. */
  function SimulateTherapeuticResponse(patterns: Patterns, message: string, pick: nat): (r: string)
    requires Classify(message) == Crisis || pick < |Pool(patterns, Classify(message))|
    ensures Triggers(message, Crisis) ==> r == CrisisResponse
    ensures !Triggers(message, Crisis) ==> r in Pool(patterns, Classify(message))
                                           && r == Pool(patterns, Classify(message))[pick]
  {
    var c := Classify(message);
    if c == Crisis then CrisisResponse else Pool(patterns, c)[pick]
  }

  /** A crisis phrase in any letter case wins over every emotion word. */
  lemma ShoutedCrisisWins()
    ensures Classify("I'm anxious and want to END IT ALL") == Crisis
  {
    var m := "I'm anxious and want to END IT ALL";
    var low := Lower(m);
    assert low[24..34] == "end it all";
    ContainsAt(low, "end it all", 24);
    assert Keywords(Crisis)[3] == "end it all";
  }
}
