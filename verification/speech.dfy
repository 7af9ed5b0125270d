/** The speech manager's decisions: which browser voice is preferred, how a
    reply is spoken (not at all, by the browser, or by the speech service),
    the voice-mode cycle, how recognition results become the input text,
    the listening flags, and the punctuation clean-up before speaking. The
    browser objects are records; audio and recognition engines are left
    out. */
module Speech {
  import opened Base
  import opened Text

  // ---------------------------------------------------------------------
  // Configuration
  // ---------------------------------------------------------------------

  /** The `TalbotConfig` switches the speech manager reads. */
  datatype Config = Config(developmentMode: bool, disableElevenLabsInDev: bool, maxTextLength: nat)

  /** The shipped configuration. */
  const Shipped: Config := Config(true, true, 300)

  // ---------------------------------------------------------------------
  // Browser voice selection
  // ---------------------------------------------------------------------

  /** A `SpeechSynthesisVoice`, as far as the scoring reads it. */
  datatype Voice = Voice(name: string, lang: string, localService: bool, isDefault: bool)

  /** Names matched case-insensitively for the preferred-name bonus. */
  const PreferredNames: seq<string> := ["karen", "samantha", "allison", "ava"]

  /** Only English voices are considered. */
  predicate English(v: Voice) {
    StartsWith(v.lang, "en")
  }

  function Bonus(b: bool, points: nat): nat {
    if b then points else 0
  }

  /** The sum of the fixed bonuses a voice earns. */
  function Score(v: Voice): nat {
    Bonus(Contains(v.lang, "AU"), 20)
    + Bonus(Contains(v.lang, "GB"), 15)
    + Bonus(ContainsAny(Lower(v.name), PreferredNames), 15)
    + Bonus(Contains(Lower(v.name), "female"), 10)
    + Bonus(v.localService, 10)
    + Bonus(v.isDefault, 5)
  }

  /** What a voice counts for in the selection: its score if English,
      nothing otherwise. */
  function Points(v: Voice): nat {
    if English(v) then Score(v) else 0
  }

  /** Scores range from 0 to 75, a voice that is not English counts for
      nothing, and a voice on the device beats an otherwise equal remote
      one by 10. */
  lemma ScoreFacts(v: Voice)
    ensures Score(v) <= 75
    ensures !English(v) ==> Points(v) == 0
    ensures Score(v.(localService := true)) == Score(v.(localService := false)) + 10
  {
  }

  /** The scan of `selectBestVoice` over the points of each voice: the
      first position with the strictly highest positive value, starting
      from a best score of 0. */
  method FirstStrictMax(points: seq<nat>) returns (at: Option<nat>)
    ensures at.None? <==> forall j :: 0 <= j < |points| ==> points[j] == 0
    ensures at.Some? ==> at.value < |points| && points[at.value] > 0
    ensures at.Some? ==> forall j :: 0 <= j < |points| ==> points[j] <= points[at.value]
    ensures at.Some? ==> forall j :: 0 <= j < at.value ==> points[j] < points[at.value]
  {
    at := None;
    var highest := 0;
    var i := 0;
    while i < |points|
      invariant 0 <= i <= |points|
      invariant at.None? ==> highest == 0
      invariant at.Some? ==> at.value < i && highest == points[at.value] > 0
      invariant forall j :: 0 <= j < i ==> points[j] <= highest
      invariant at.Some? ==> forall j :: 0 <= j < at.value ==> points[j] < highest
    {
      if points[i] > highest {
        highest, at := points[i], Some(i);
      }
      i := i + 1;
    }
  }

  /** `selectBestVoice`: the first voice with the strictly highest positive
      score, skipping voices that are not English; none when the list is
      absent or empty or no English voice scores. */
  method SelectBestVoice(voices: Option<seq<Voice>>) returns (best: Option<Voice>, at: nat)
    ensures voices.None? ==> best.None?
    ensures best.None? <==>
              voices.None? || forall j :: 0 <= j < |voices.value| ==> Points(voices.value[j]) == 0
    ensures best.Some? ==> voices.Some? && at < |voices.value| && voices.value[at] == best.value
    ensures best.Some? ==> English(best.value) && Score(best.value) > 0
    ensures best.Some? ==> forall j :: 0 <= j < |voices.value| ==> Points(voices.value[j]) <= Score(best.value)
    ensures best.Some? ==> forall j :: 0 <= j < at ==> Points(voices.value[j]) < Score(best.value)
  {
    best, at := None, 0;
    if voices.None? || |voices.value| == 0 {
      return;
    }
    var vs := voices.value;
    var points := seq(|vs|, j requires 0 <= j < |vs| => Points(vs[j]));
    assert forall j :: 0 <= j < |vs| ==> points[j] == Points(vs[j]);
    var k := FirstStrictMax(points);
    if k.Some? {
      best, at := Some(vs[k.value]), k.value;
      assert Points(vs[at]) > 0;
      assert English(vs[at]) && Points(vs[at]) == Score(vs[at]);
    }
  }

  // ---------------------------------------------------------------------
  // Voice mode
  // ---------------------------------------------------------------------

  /** `voiceMode`: 0 mute, 1 female, 2 male. */
  predicate ValidMode(mode: int) {
    0 <= mode <= 2
  }

  /** JavaScript `%` with a positive divisor: the remainder takes the sign
      of the dividend. */
  function JsRem(a: int, b: int): (r: int)
    requires b > 0
    ensures a >= 0 ==> 0 <= r < b
    ensures a < 0 ==> -b < r <= 0
  {
    if a >= 0 then a % b else -((-a) % b)
  }

  /** `togglePremiumVoice` */
  function TogglePremiumVoice(mode: int): (r: int)
    ensures mode >= -1 ==> ValidMode(r)
    ensures ValidMode(mode) ==> r != mode
  {
    JsRem(mode + 1, 3)
  }

  /** The cycle is 0, 1, 2, 0: three presses return to the start. */
  lemma ToggleCycle(mode: int)
    requires ValidMode(mode)
    ensures TogglePremiumVoice(0) == 1 && TogglePremiumVoice(1) == 2 && TogglePremiumVoice(2) == 0
    ensures TogglePremiumVoice(TogglePremiumVoice(TogglePremiumVoice(mode))) == mode
  {
  }

  /** `updateButtonVisibility`: the settings button is shown when the
      speech service is available or in development mode; when hidden, the
      mode is forced to mute. */
  function UpdateButtonVisibility(mode: int, available: bool, cfg: Config): (r: (bool, int))
    ensures r.0 <==> available || cfg.developmentMode
    ensures r.0 ==> r.1 == mode
    ensures !r.0 ==> r.1 == 0
  {
    var shown := available || cfg.developmentMode;
    (shown, if shown then mode else 0)
  }

  /** `getIsPremiumVoiceEnabled`: premium voice is only ever reported
      while the settings button is shown and the voice mode is kept. */
  function PremiumVoiceEnabled(mode: int, available: bool, cfg: Config): (b: bool)
    ensures b ==> UpdateButtonVisibility(mode, available, cfg) == (true, mode) && mode != 0
    ensures b ==> Shipped != cfg
  {
    mode > 0 && available && !cfg.developmentMode
  }

  /** The voice id sent to the speech service. */
  function VoiceIdFor(mode: int, femaleId: string, maleId: string): (id: string)
    ensures mode == 1 ==> id == femaleId
    ensures mode != 1 ==> id == maleId
  {
    if mode == 1 then femaleId else maleId
  }

  // ---------------------------------------------------------------------
  // Speaking a reply
  // ---------------------------------------------------------------------

  datatype Route = Silent | BrowserVoice | ElevenLabsVoice

  /** `speakMessage`: `natural` is the text after `makeTextMoreNatural`,
      whose JavaScript length (UTF-16 code units) decides between the two
      voices. */
  function SpeakRoute(text: string, natural: string, mode: int, available: bool, cfg: Config): (r: Route)
    ensures r == Silent <==> text == "" || mode == 0
    ensures r == ElevenLabsVoice ==> available && !cfg.developmentMode && Utf16Length(natural) <= cfg.maxTextLength
    ensures r != Silent && cfg.developmentMode && cfg.disableElevenLabsInDev ==> r == BrowserVoice
    ensures r != Silent && Utf16Length(natural) > cfg.maxTextLength ==> r == BrowserVoice
  {
    if text == "" || mode == 0 then Silent
    else if cfg.developmentMode && cfg.disableElevenLabsInDev then BrowserVoice
    else if Utf16Length(natural) > cfg.maxTextLength then BrowserVoice
    else if available && !cfg.developmentMode then ElevenLabsVoice
    else BrowserVoice
  }

  /** The speech service speaks a reply exactly when premium voice is
      reported enabled and the text is short enough. */
  lemma RouteAgreesWithPremium(text: string, natural: string, mode: int, available: bool, cfg: Config)
    requires ValidMode(mode)
    ensures SpeakRoute(text, natural, mode, available, cfg) == ElevenLabsVoice <==>
              text != "" && PremiumVoiceEnabled(mode, available, cfg) && Utf16Length(natural) <= cfg.maxTextLength
  {
  }

  /** A text exactly at the limit goes to the browser voice when it holds
      an astral character (an emoji, say), which JavaScript counts twice,
      and to the speech service when it holds none and the service may be
      used. */
  lemma AstralTextGoesToBrowser(text: string, natural: string, mode: int, available: bool, cfg: Config)
    requires text != "" && mode != 0 && |natural| == cfg.maxTextLength
    ensures (exists i :: 0 <= i < |natural| && IsAstral(natural[i])) ==>
              SpeakRoute(text, natural, mode, available, cfg) == BrowserVoice
    ensures (forall i :: 0 <= i < |natural| ==> !IsAstral(natural[i])) && available && !cfg.developmentMode ==>
              SpeakRoute(text, natural, mode, available, cfg) == ElevenLabsVoice
  {
  }

  /** With the settings button hidden nothing is spoken; with the shipped
      configuration the speech service is never used. */
  lemma HiddenButtonSilences(text: string, natural: string, mode: int, available: bool, cfg: Config)
    ensures !UpdateButtonVisibility(mode, available, cfg).0 ==>
              SpeakRoute(text, natural, UpdateButtonVisibility(mode, available, cfg).1, available, cfg) == Silent
    ensures SpeakRoute(text, natural, mode, available, Shipped) != ElevenLabsVoice
  {
  }

  // ---------------------------------------------------------------------
  // Punctuation clean-up
  // ---------------------------------------------------------------------

  /** No two consecutive `c`. */
  predicate NoRun(s: string, c: char) {
    forall i :: 0 <= i < |s| - 1 ==> !(s[i] == c && s[i + 1] == c)
  }

  /** Every run of two or more `c` replaced by one `c`. */
  function Collapse(s: string, c: char): (r: string)
    ensures |r| <= |s|
    ensures |s| > 0 ==> |r| > 0 && r[0] == s[0]
  {
    if |s| <= 1 then s
    else if s[0] == c && s[1] == c then Collapse(s[1..], c)
    else [s[0]] + Collapse(s[1..], c)
  }

  /** Collapsing leaves no run of `c`, and leaves runs of any other
      character as they were absent. */
  lemma {:induction false} CollapseNoRun(s: string, c: char, d: char)
    requires d != c ==> NoRun(s, d)
    ensures NoRun(Collapse(s, c), c)
    ensures d != c ==> NoRun(Collapse(s, c), d)
    decreases |s|
  {
    if |s| > 1 {
      var t := Collapse(s[1..], c);
      if d != c {
        assert NoRun(s[1..], d) by {
          forall i | 0 <= i < |s[1..]| - 1 ensures !(s[1..][i] == d && s[1..][i + 1] == d) {
            assert s[1..][i] == s[i + 1] && s[1..][i + 1] == s[i + 2];
          }
        }
      }
      CollapseNoRun(s[1..], c, d);
      if !(s[0] == c && s[1] == c) {
        var r := [s[0]] + t;
        forall i | 0 <= i < |r| - 1 ensures !(r[i] == c && r[i + 1] == c) {
          if i > 0 {
            assert r[i] == t[i - 1] && r[i + 1] == t[i];
          }
        }
        if d != c {
          forall i | 0 <= i < |r| - 1 ensures !(r[i] == d && r[i + 1] == d) {
            if i > 0 {
              assert r[i] == t[i - 1] && r[i + 1] == t[i];
            }
          }
        }
      }
    }
  }

  /** Text without a run of `c` is left unchanged. */
  lemma {:induction false} CollapseKeeps(s: string, c: char)
    requires NoRun(s, c)
    ensures Collapse(s, c) == s
    decreases |s|
  {
    if |s| > 1 {
      assert !(s[0] == c && s[1] == c);
      assert NoRun(s[1..], c) by {
        forall i | 0 <= i < |s[1..]| - 1 ensures !(s[1..][i] == c && s[1..][i + 1] == c) {
          assert s[1..][i] == s[i + 1] && s[1..][i + 1] == s[i + 2];
        }
      }
      CollapseKeeps(s[1..], c);
      assert s == [s[0]] + s[1..];
    }
  }

  /** The punctuation part of `makeTextMoreNatural`: runs of full stops,
      exclamation marks and question marks each become one. */
  function CollapsePunctuation(text: string): (r: string)
    ensures |r| <= |text|
    ensures |text| > 0 ==> |r| > 0 && r[0] == text[0]
  {
    Collapse(Collapse(Collapse(text, '.'), '!'), '?')
  }

  /** The cleaned text has no "..", "!!" or "??", and text that had none is
      left as it is. */
  lemma CollapsePunctuationSpec(text: string)
    ensures NoRun(CollapsePunctuation(text), '.')
    ensures NoRun(CollapsePunctuation(text), '!')
    ensures NoRun(CollapsePunctuation(text), '?')
    ensures NoRun(text, '.') && NoRun(text, '!') && NoRun(text, '?') ==> CollapsePunctuation(text) == text
  {
    var a := Collapse(text, '.');
    var b := Collapse(a, '!');
    CollapseNoRun(text, '.', '.');
    CollapseNoRun(a, '!', '.');
    CollapseNoRun(b, '?', '.');
    CollapseNoRun(a, '!', '!');
    CollapseNoRun(b, '?', '!');
    CollapseNoRun(b, '?', '?');
    if NoRun(text, '.') && NoRun(text, '!') && NoRun(text, '?') {
      CollapseKeeps(text, '.');
      CollapseKeeps(text, '!');
      CollapseKeeps(text, '?');
    }
  }

  // ---------------------------------------------------------------------
  // Recognition results
  // ---------------------------------------------------------------------

  /** One entry of `event.results`: its first alternative and whether it
      is final. */
  datatype RecognitionResult = RecognitionResult(transcript: string, isFinal: bool)

  /** `finalTranscript`: each final segment followed by a space. */
  function Finals(rs: seq<RecognitionResult>): (r: string)
    ensures r == "" <==> forall i :: 0 <= i < |rs| ==> !rs[i].isFinal
    ensures r != "" ==> r[|r| - 1] == ' '
  {
    if |rs| == 0 then ""
    else (if rs[0].isFinal then rs[0].transcript + " " else "") + Finals(rs[1..])
  }

  /** `interimTranscript`: the other segments, back to back. */
  function Interims(rs: seq<RecognitionResult>): (r: string)
    ensures (forall i :: 0 <= i < |rs| ==> rs[i].isFinal || rs[i].transcript == "") ==> r == ""
  {
    if |rs| == 0 then ""
    else (if rs[0].isFinal then "" else rs[0].transcript) + Interims(rs[1..])
  }

  /** The input text after a result event: trimmed on both sides, and empty
      when no segment was recognised. */
  function OnResultText(rs: seq<RecognitionResult>): (r: string)
    ensures r == [] || (!IsSpace(r[0]) && !IsSpace(r[|r| - 1]))
    ensures |rs| == 0 ==> r == ""
  {
    Trim(Finals(rs) + Interims(rs))
  }

  /** Both transcripts are built segment by segment, so they distribute
      over concatenation of the result list. */
  lemma {:induction false} FinalsAppend(a: seq<RecognitionResult>, b: seq<RecognitionResult>)
    ensures Finals(a + b) == Finals(a) + Finals(b)
  {
    if |a| == 0 {
      assert a + b == b;
    } else {
      assert (a + b)[0] == a[0];
      assert (a + b)[1..] == a[1..] + b;
      FinalsAppend(a[1..], b);
    }
  }

  lemma {:induction false} InterimsAppend(a: seq<RecognitionResult>, b: seq<RecognitionResult>)
    ensures Interims(a + b) == Interims(a) + Interims(b)
  {
    if |a| == 0 {
      assert a + b == b;
    } else {
      assert (a + b)[0] == a[0];
      assert (a + b)[1..] == a[1..] + b;
      InterimsAppend(a[1..], b);
    }
  }

  /** All final text comes before all interim text, whatever the order of
      the results: an interim segment followed by a final one reads with
      the final one first. */
  lemma FinalsFirst(interim: string, final: string)
    ensures OnResultText([RecognitionResult(interim, false), RecognitionResult(final, true)]) ==
              Trim(final + " " + interim)
  {
    var rs := [RecognitionResult(interim, false), RecognitionResult(final, true)];
    var tail := [RecognitionResult(final, true)];
    assert rs[1..] == tail && tail[1..] == [];
    assert Finals(tail) == final + " " by {
      assert Finals(tail) == (final + " ") + Finals([]);
    }
    assert Interims(tail) == "" by {
      assert Interims(tail) == "" + Interims([]);
    }
    assert Finals(rs) == final + " " by {
      assert Finals(rs) == "" + Finals(tail);
    }
    assert Interims(rs) == interim by {
      assert Interims(rs) == interim + Interims(tail);
    }
  }

  // ---------------------------------------------------------------------
  // Listening state
  // ---------------------------------------------------------------------

  /** The fields the voice-input methods read and write. */
  datatype Listening = Listening(
    isListening: bool,
    isRecording: bool,
    finalTranscript: string,
    interimTranscript: string,
    input: string)

  /** `startListening`: clears the input and transcripts and starts the
      recogniser; the flags are set by its start event. Nothing happens
      without a recogniser or while listening. */
  function StartListening(s: Listening, hasRecognition: bool): (r: Listening)
    ensures !hasRecognition || s.isListening ==> r == s
    ensures hasRecognition && !s.isListening ==>
              r == s.(finalTranscript := "", interimTranscript := "", input := "")
  {
    if !hasRecognition || s.isListening then s
    else s.(finalTranscript := "", interimTranscript := "", input := "")
  }

  /** The recogniser's start event. */
  function OnStart(s: Listening): (r: Listening)
    ensures r.isListening && r.isRecording && r.finalTranscript == "" && r.interimTranscript == ""
    ensures r.input == s.input
  {
    s.(isListening := true, isRecording := true, finalTranscript := "", interimTranscript := "")
  }

  /** A result event: transcripts rebuilt from all results, input set to
      their trimmed concatenation. */
  function OnResult(s: Listening, rs: seq<RecognitionResult>): (r: Listening)
    ensures r.isListening == s.isListening && r.isRecording == s.isRecording
    ensures r.input == Trim(r.finalTranscript + r.interimTranscript)
  {
    s.(finalTranscript := Finals(rs), interimTranscript := Interims(rs),
       input := Trim(Finals(rs) + Interims(rs)))
  }

  /** `finalizeRecording`: both flags and both transcripts cleared, the
      input kept; the recorded text, when non-empty, is the trimmed input. */
  function FinalizeRecording(s: Listening): (r: (Listening, Option<string>))
    ensures !r.0.isListening && !r.0.isRecording
    ensures r.0.finalTranscript == "" && r.0.interimTranscript == "" && r.0.input == s.input
    ensures r.1.Some? <==> Trim(s.input) != ""
    ensures r.1.Some? ==> r.1.value == Trim(s.input)
  {
    var text := Trim(s.input);
    (Listening(false, false, "", "", s.input), if text != "" then Some(text) else None)
  }

  /** `stopListening`: stops recording and finalizes; nothing happens
      without a recogniser or when not listening. */
  function StopListening(s: Listening, hasRecognition: bool): (r: (Listening, Option<string>))
    ensures !hasRecognition || !s.isListening ==> r == (s, None)
    ensures hasRecognition && s.isListening ==> r == FinalizeRecording(s.(isRecording := false))
  {
    if !hasRecognition || !s.isListening then (s, None)
    else FinalizeRecording(s.(isRecording := false))
  }

  /** The recogniser's end event: while still recording it is restarted
      and the state is kept; otherwise the recording is finalized. */
  function OnEnd(s: Listening): (r: (Listening, Option<string>))
    ensures s.isRecording ==> r == (s, None)
    ensures !s.isRecording ==> r == FinalizeRecording(s)
  {
    if s.isRecording then (s, None) else FinalizeRecording(s)
  }

  /** `toggleListening` */
  function ToggleListening(s: Listening, hasRecognition: bool): (r: (Listening, Option<string>))
    ensures s.isListening ==> r == StopListening(s, hasRecognition)
    ensures !s.isListening ==> r == (StartListening(s, hasRecognition), None)
  {
    if s.isListening then StopListening(s, hasRecognition) else (StartListening(s, hasRecognition), None)
  }

  /** Stopping ends listening for good: the end event the recogniser sends
      afterwards finalizes again without changing the state or the
      recorded text, and a second stop does nothing. */
  lemma StopThenEnd(s: Listening, hasRecognition: bool)
    requires hasRecognition && s.isListening
    ensures var (t, text) := StopListening(s, hasRecognition);
            && !t.isListening && !t.isRecording
            && OnEnd(t).0 == t && OnEnd(t).1 == text
            && StopListening(t, hasRecognition) == (t, None)
  {
    TrimIdempotent(s.input);
  }

  /** A full session: start, one result event, stop. The recorded text is
      exactly the trimmed transcript of the results. */
  lemma SessionRecordsTranscript(s: Listening, rs: seq<RecognitionResult>)
    requires !s.isListening
    ensures var t := OnResult(OnStart(StartListening(s, true)), rs);
            StopListening(t, true).1.Some? <==> OnResultText(rs) != ""
    ensures var t := OnResult(OnStart(StartListening(s, true)), rs);
            StopListening(t, true).1.Some? ==> StopListening(t, true).1.value == OnResultText(rs)
  {
    TrimIdempotent(Finals(rs) + Interims(rs));
  }
}
