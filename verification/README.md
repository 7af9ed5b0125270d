# Talbot, modelled in Dafny

Talbot is a browser chat companion for people between therapy sessions. The
browser keeps a message log, a user profile with uploaded documents, and a
"conversation memory" saved when a new conversation starts. Each user
message is sent, with the profile text and the log, to a serverless `chat`
function that calls a language model. Three more serverless functions serve
text-to-speech: speaking a reply, reporting the voice ids, and reporting
whether the speech key is set. A speech manager in the browser picks voices,
cleans text before speaking and turns speech recognition into input text.

This project models that core as pure Dafny functions over immutable
datatypes and proves what each operation promises. There is one module per
source file:

| module | file | what it covers |
|---|---|---|
| `Base` | (shared) | `Option`, messages and senders, JavaScript truthiness, HTTP verbs |
| `Text` | (shared) | `toLowerCase` on ASCII, `includes`, `startsWith`, `endsWith`, `trim`, `join` |
| `Profile` | profile-manager.js | saving and restoring the profile form, the contextual message, documents, photo, clearing |
| `Conversation` | conversation-manager.js | topics, emotional tone, themes, summary, preview, memory, the two reset actions, memory rendered as text |
| `SubmissionGate` | ui-manager.js | the duplicate-send gate of the chat input |
| `AIResponse` | ai-response-manager.js | the request to `chat`, how its outcome becomes the shown text, the offline keyword replies |
| `ChatFunction` | netlify/functions/chat.js | validation, profile context, upstream message list, fallbacks |
| `SpeechFunction` | netlify/functions/elevenlabs-tts.js | validation, voice and settings defaults, error statuses |
| `VoicesFunction` | netlify/functions/elevenlabs-voices.js | the two voice ids and `available` |
| `KeyFunction` | netlify/functions/elevenlabs-key.js | whether the key is set, without the key |
| `Speech` | speech-manager.js | voice scoring, voice mode, speak routing, punctuation clean-up, recognition results, listening flags |

The environment is made explicit. The clock, `Math.random()` choices, the
`confirm` dialog, environment variables, parsed request bodies and upstream
replies are all parameters. Storage, the DOM and timers are left out. An
index parameter stands for each random pick.

Three behaviours of the code that are easy to misread:

- **Tone ties.** `analyzeEmotionalTone` reduces with `>`, so a tie between
  two tones goes to the LATER key (anxious, sad, angry, positive).
  `Conversation.DominantTone` states this.
- **History de-duplication.** The client sends the whole log as history, and
  the current message is already in it. The `chat` function appends the
  message again. Nothing de-duplicates, and `AIResponse.BuildRequest` keeps
  the log as it is.
- **Server fallback.** When the model call fails, `chat` answers 200 with one
  of its own fallback texts and no `fallback` flag. The client therefore
  shows that text as if it were a reply (`ChatFunction.UpstreamFailureShown`).
  The client's own fallback list is never used for that case.

## Model

| member | source | states |
|---|---|---|
| Profile.Styles | profile-manager.js:176-182 | The saved styles are exactly the ticked boxes with a non-empty value, and there are no more of them than boxes |
| Profile.StylesAppend | profile-manager.js:176-182 | The list is read box by box: two runs of boxes give the first run's list followed by the second's, and one box gives itself exactly when ticked and non-empty; so form order and one entry per ticked box are kept |
| Profile.StylesNonEmpty | profile-manager.js:176-186 | A style list is saved exactly when some non-empty box is ticked |
| Profile.StylesStable | profile-manager.js:176-182 | Ticking the saved styles again and re-reading them gives the same list |
| Profile.StylesAgree | profile-manager.js:176-182 | The style list depends only on the ticks of boxes that are in the form |
| Profile.TrimmedValues | profile-manager.js:142-173 | A field is kept exactly when its trimmed value is non-empty, and is kept trimmed |
| Profile.SaveProfile | profile-manager.js:135-192 | The saved profile has exactly the fields with non-empty trimmed values; styles are saved only when some are ticked; the photo only when truthy |
| Profile.PopulateForm | profile-manager.js:310-338 | The form receives a value for exactly the fields the profile has |
| Profile.PopulateTicks | profile-manager.js:341-352 | A box is ticked exactly when its style is in the saved list; without saved styles none is |
| Profile.SavedKeys | profile-manager.js:310-338 | Re-saving a restored clean profile keeps exactly its field names |
| Profile.SavedValues | profile-manager.js:310-338 | Re-saving a restored clean profile keeps every field value |
| Profile.SavedTextStable | profile-manager.js:310-338 | Re-saving the restored text fields of a clean profile gives the same fields |
| Profile.SaveRestoreRoundTrip | profile-manager.js:135-353 | Saving, restoring into the form and saving again gives back the same profile |
| Profile.FieldLines | profile-manager.js:377-430 | The field lines are field lines for fields that are tested, at most one per field |
| Profile.FieldLinesMembers | profile-manager.js:377-430 | A field line is emitted exactly when the field is tested, present and carries its value |
| Profile.DocumentLines | profile-manager.js:389-394 | The documents block is a heading then one entry per document, in order, and only when there are documents |
| Profile.StyleLines | profile-manager.js:404-406 | The style line appears exactly when a non-empty style list is saved |
| Profile.RenderedFields | profile-manager.js:372-433 | Every field except the age range is rendered |
| Profile.DocumentLinesKinds | profile-manager.js:389-394 | The documents block holds only the heading and entries |
| Profile.ContextFieldLine | profile-manager.js:377-430 | Each field other than the age range has its line exactly when present, with its value |
| Profile.ContextDocuments | profile-manager.js:389-394 | The documents heading appears exactly when there are documents, and every document has its entry |
| Profile.ContextStyles | profile-manager.js:404-406 | The style line appears exactly when a non-empty list is saved |
| Profile.ContextLinesOrdered | profile-manager.js:372-433 | Lines come in the fixed order name, pronouns, diagnoses, documents, medications, treatment, styles, custom, triggers, goals, coping, stressors, therapist |
| Profile.ContextLines | profile-manager.js:372-433 | At most one line per rendered field plus the style line, plus the documents block; the documents heading is emitted exactly when there are documents |
| Profile.Render | profile-manager.js:377-430 | Every rendered line is non-empty and ends with a line break |
| Profile.ContextLinesRenderable | profile-manager.js:372-433 | No emitted line is the age range |
| Profile.BuildContextualMessage | profile-manager.js:372-433 | Without a profile the message is unchanged; with one it starts with the heading and ends with the message after its lead |
| Profile.LineShown | profile-manager.js:372-433 | Every emitted line occurs in the message text |
| Profile.FieldShown | profile-manager.js:377-430 | Every present field but the age range occurs as its labelled line |
| Profile.ContextIgnoresAbsentAndAge | profile-manager.js:372-433 | The message depends only on present field values and styles, not on the age range or the photo |
| Profile.ReadFileContent | profile-manager.js:467-485 | A text file gives its contents; any other file gives a placeholder starting with its name |
| Profile.HandleFileUpload | profile-manager.js:436-465 | The earlier documents are kept as a prefix, at most one document is added per file, and every added document is at most 5 MB |
| Profile.UploadAppend | profile-manager.js:439-456 | Uploading two batches in turn equals uploading them together, and one file is appended exactly when it is at most 5 MB; so documents come in file order, one per small file |
| Profile.UploadKeepsSmall | profile-manager.js:439-456 | Every file of at most 5 MB is loaded, with its id |
| Profile.UploadOnlyLoads | profile-manager.js:439-456 | Every appended document is a loaded file of at most 5 MB |
| Profile.RemoveUploadedFile | profile-manager.js:513-515 | The documents left all have another id and were there before |
| Profile.RemoveKeepsOthers | profile-manager.js:513-515 | Every document with another id is kept |
| Profile.RemoveDistributes | profile-manager.js:513-515 | Removal works piecewise, so the remaining documents keep their order |
| Profile.RemoveAbsent | profile-manager.js:513-515 | Removing an id nobody has changes nothing |
| Profile.HandlePhotoUpload | profile-manager.js:66-131 | The photo changes only for an image of at most 2 MB whose resize resolved; wrong type, oversize and a rejected resize give their error texts and keep the photo; an image that never loads leaves the upload pending, with no message and the photo kept |
| Profile.ClearProfileData | profile-manager.js:272-307 | A confirmed clear drops profile, photo and documents; a cancelled one changes nothing |
| Profile.GetUserAvatar | profile-manager.js:264-269 | A truthy photo gives an image tag holding it; otherwise the default avatar |
| Profile.ClearedProfileIsSilent | profile-manager.js:272-307 | After a confirmed clear messages go out bare and the avatar is the default |
| Conversation.KeywordsDistinct | conversation-manager.js:127-132 | The topic vocabulary has no repeated word |
| Conversation.AddTopicsExtends | conversation-manager.js:137-141 | The inner loop keeps collected topics as a prefix and appends only new contained words |
| Conversation.AddTopicsComplete | conversation-manager.js:137-141 | Every contained vocabulary word from the current position on is collected |
| Conversation.AddTopicsOrdered | conversation-manager.js:137-141 | Appended words follow vocabulary order and never repeat |
| Conversation.AddTopicsSpec | conversation-manager.js:137-141 | The inner loop appends exactly the new contained words, in vocabulary order |
| Conversation.StepSound | conversation-manager.js:134-143 | A user message adds only words it mentions |
| Conversation.StepComplete | conversation-manager.js:134-143 | After a user message every mentioned word is collected |
| Conversation.StepOrdered | conversation-manager.js:134-143 | A user message keeps the topics in encounter order and free of repeats |
| Conversation.StepOther | conversation-manager.js:134-135 | A message not from the user changes nothing |
| Conversation.CollectTopicsSpec | conversation-manager.js:125-146 | Topics are without repeats, all mentioned by users, all mentioned ones are listed, in encounter order |
| Conversation.ExtractTopicsSpec | conversation-manager.js:125-146 | The same for the fixed 23-word vocabulary |
| Conversation.ExtractTopics | conversation-manager.js:125-146 | The result is a topic list for the log: every mentioned keyword once, nothing else, in encounter order |
| Conversation.EncounterOrderUnique | conversation-manager.js:125-146 | Two duplicate-free lists of the same words, both in encounter order, are equal |
| Conversation.TopicListUnique | conversation-manager.js:125-146 | A log has exactly one topic list, so the topics are fixed by what the user messages mention |
| Conversation.UserMessages | conversation-manager.js:236 | The filter keeps only user messages and is empty exactly when there are none |
| Conversation.TopicsOnlyFromUsers | conversation-manager.js:134-136 | Assistant messages contribute no topics |
| Conversation.LastN | conversation-manager.js:237 | `slice(-n)` is the last n elements, or everything when shorter |
| Conversation.CountWordsIn | conversation-manager.js:263-267 | The count for one message is zero exactly when it contains none of the words |
| Conversation.ToneCount | conversation-manager.js:260-269 | A tone counts at most one per message and word |
| Conversation.ToneCountZero | conversation-manager.js:260-269 | A tone scores zero exactly when no user message mentions any of its words |
| Conversation.AnalyzeEmotionalTone | conversation-manager.js:249-277 | A tone other than neutral has a positive count |
| Conversation.DominantTone | conversation-manager.js:272-276 | Neutral exactly when all counts are zero; otherwise a maximal tone, and ties go to the later key |
| Conversation.NeutralIffNoToneWord | conversation-manager.js:249-277 | Neutral exactly when no user message mentions any tone word |
| Conversation.SomeUserContainsAny | conversation-manager.js:292-295 | The nested `some` holds exactly when some user message contains some pattern |
| Conversation.SomeUserContainsAnyIff | conversation-manager.js:292-295 | That is the same as some pattern being mentioned |
| Conversation.ThemePresence | conversation-manager.js:291-296 | The presence flags are exactly the themes mentioned, in key order |
| Conversation.PushThemesBounds | conversation-manager.js:291-300 | Only theme names are pushed, from the current key on |
| Conversation.PushThemesOrdered | conversation-manager.js:291-300 | Pushed names follow the key order strictly |
| Conversation.PushThemesPresent | conversation-manager.js:291-300 | A theme is pushed exactly when it is present |
| Conversation.ExtractKeyThemesSpec | conversation-manager.js:279-303 | Themes are exactly those present, each once, in the fixed key order |
| Conversation.ExtractKeyThemes | conversation-manager.js:279-303 | Only theme names, each at most once, strictly in key order |
| Conversation.MainTopicSpec | conversation-manager.js:243-244 | The main topic is the earliest-encountered word, or "general wellbeing" exactly when none is mentioned |
| Conversation.MainTopic | conversation-manager.js:243-244 | The main topic is a keyword the window mentions, or "general wellbeing" |
| Conversation.GenerateConversationSummary | conversation-manager.js:234-247 | The brief text exactly when no user message exists; otherwise the main topic of the last five user messages |
| Conversation.SummaryShapeVisible | conversation-manager.js:239-246 | Both summary shapes start with a visible character |
| Conversation.SummaryIsVisible | conversation-manager.js:234-247 | Every summary is non-empty and starts with a visible character |
| Conversation.PreviewFallbacks | conversation-manager.js:107-120 | Empty log and topic-free log give their fixed texts |
| Conversation.GenerateContextPreview | conversation-manager.js:107-123 | The no-context text appears exactly for an empty log |
| Conversation.PreviewShowsTail | conversation-manager.js:114-122 | With some topic, the preview lists the last three topics, or all when there are fewer |
| Conversation.PreviewListsLatestTopics | conversation-manager.js:107-123 | Once a keyword is mentioned, the preview lists the last min(3, n) of the n mentioned topics in encounter order, keeping that order |
| Conversation.TailLeavesOutOlder | conversation-manager.js:114-115 | The last three entries of a topic list are mentioned keywords, and every mentioned keyword left out comes before each of them |
| Conversation.PreviewOmitsOlderTopics | conversation-manager.js:107-123 | The preview shows one to three mentioned topics, and every mentioned topic left out was encountered before each one shown |
| Conversation.SaveConversationContext | conversation-manager.js:209-232 | An empty log saves nothing; otherwise the memory counts every message and carries the clock reading |
| Conversation.ClearMessageHistory | conversation-manager.js:305-323 | The log is emptied and the memory kept |
| Conversation.ClearConversationMemory | conversation-manager.js:325-331 | The memory is forgotten and the log kept |
| Conversation.HandleKeepContext | conversation-manager.js:148-170 | The log is emptied; the memory is derived from the old log when it had messages |
| Conversation.HandleCompleteReset | conversation-manager.js:172-207 | A confirmed reset empties both; a cancelled one changes nothing |
| Conversation.KeepContextLaws | conversation-manager.js:148-207 | Keep-context is idempotent and leaves a memory; a complete reset forgets it |
| Conversation.HasConversationMemory | conversation-manager.js:404-411 | Without a saved memory the conversation context is empty |
| Conversation.DeriveMemory | conversation-manager.js:217-224 | The saved memory counts every message, holds the topic list of the log, a visible summary, a tone with a positive count unless neutral, and themes in key order |
| Conversation.SummarySection | conversation-manager.js:415-417 | The summary sentence is empty exactly when the summary is |
| Conversation.TopicsSection | conversation-manager.js:419-421 | The topics sentence is empty exactly when there are no topics |
| Conversation.ToneSection | conversation-manager.js:423-425 | The tone sentence is empty exactly when the tone is neutral |
| Conversation.ThemesSection | conversation-manager.js:427-429 | The themes sentence is empty exactly when there are no themes |
| Conversation.GetConversationContext | conversation-manager.js:408-411 | Without memory the context is empty |
| Conversation.ConversationContextLayout | conversation-manager.js:413-431 | The trimmed context is the four sentences in order, less the final space |
| Conversation.ContextStartsWithSummary | conversation-manager.js:413-431 | A visible summary opens the context |
| Conversation.DerivedContextStartsWithSummary | conversation-manager.js:218-225 | Any saved memory renders a context opening with its summary sentence |
| Conversation.KeepAnxiousAboutWork | conversation-manager.js:148-170 | Keeping a log where a user is anxious about work leaves topic "work", theme "work-stress" and a non-neutral tone |
| Conversation.AnxiousToneNotNeutral | conversation-manager.js:249-276 | A user message mentioning "anxious" makes the tone non-neutral |
| Conversation.WorkTopicListed | conversation-manager.js:134-141 | A user message mentioning "work" lists the topic |
| Conversation.WorkStressThemeListed | conversation-manager.js:288-299 | A user message mentioning "work" lists the theme |
| Conversation.AnxiousAboutWorkExample | conversation-manager.js:136 | The lower-cased sample message contains both words |
| SubmissionGate.Attempt | ui-manager.js:8-25 | A send is handled exactly when 300 ms have passed and none is processing; an accepted send sets the flag, the time and the 200 ms release |
| SubmissionGate.Tick | ui-manager.js:23 | The release timer clears the flag once due, and nothing else |
| SubmissionGate.KeySource | ui-manager.js:38-43 | Only Enter without Shift asks to send |
| SubmissionGate.RunSpaced | ui-manager.js:8-44 | Over any event trace, accepted sends are at least 300 ms apart |
| SubmissionGate.SpacedPairwise | ui-manager.js:12 | Any two accepted sends are 300 ms per step apart, so none share a time |
| SubmissionGate.StepConsistent | ui-manager.js:17-23 | The flag is set exactly while the release timer is pending |
| SubmissionGate.FlagRedundant | ui-manager.js:12-23 | With the timer on time, acceptance depends only on the 300 ms interval |
| SubmissionGate.ThrowIrrelevant | ui-manager.js:20-24 | A throwing handler changes neither state nor acceptance |
| SubmissionGate.AdaptersShareGate | ui-manager.js:28-44 | Click and Enter share one gate; other keys change nothing |
| SubmissionGate.DoublePressRefused | ui-manager.js:8-44 | A second press 250 ms after a click is refused although the flag is clear |
| AIResponse.BuildRequest | ai-response-manager.js:28-43 | The request carries the log unchanged, the profile, and a message ending with the user's text |
| AIResponse.CallAIAPI | ai-response-manager.js:28-68 | The call returns exactly for an ok JSON reply without a truthy fallback flag, and returns its response |
| AIResponse.GetAIResponse | ai-response-manager.js:8-25 | Never throws: any failure gives the chosen fallback text, otherwise the reply |
| AIResponse.OutcomeMapping | ai-response-manager.js:8-68 | Non-ok, network failure, non-JSON and a fallback flag each give a fallback; otherwise the text passes through |
| AIResponse.Classify | ai-response-manager.js:83-114 | The category chosen triggers, and no earlier category does |
| AIResponse.ClassifyIsFirstMatch | ai-response-manager.js:83-114 | The first triggering category in test order is the one chosen |
| AIResponse.ClassifyIgnoresCase | ai-response-manager.js:84 | Letter case does not change the category |
| AIResponse.CrisisResponseListsServices | ai-response-manager.js:136-147 | The crisis text contains 000, 13 11 14 and 1300 22 4636 |
| AIResponse.SimulateTherapeuticResponse | ai-response-manager.js:83-114 | A crisis phrase always gives the crisis text; otherwise the picked reply of the first matching category |
| AIResponse.ShoutedCrisisWins | ai-response-manager.js:84-89 | An upper-case crisis phrase wins over an emotion word |
| ChatFunction.AllFieldsTested | netlify/functions/chat.js:109-159 | The server tests every profile field, the age range included |
| ChatFunction.Entries | netlify/functions/chat.js:109-159 | At most one line per tested field |
| ChatFunction.EntriesPresent | netlify/functions/chat.js:109-159 | A present field gives its labelled line |
| ChatFunction.EntriesEmpty | netlify/functions/chat.js:109-159 | No line exactly when no tested field is present |
| ChatFunction.EntriesAgree | netlify/functions/chat.js:109-159 | The lines depend only on present fields and their values |
| ChatFunction.StyleEntry | netlify/functions/chat.js:133-135 | At most one style line |
| ChatFunction.ProfileContext | netlify/functions/chat.js:104-164 | A non-empty context needs a profile and starts with the header |
| ChatFunction.ProfileContextEmpty | netlify/functions/chat.js:104-164 | The context is empty exactly when there is no profile or nothing in it to say |
| ChatFunction.EntryListed | netlify/functions/chat.js:107-159 | A present field's line is among the pushed lines |
| ChatFunction.LineInContext | netlify/functions/chat.js:161-163 | Every pushed line occurs in the context |
| ChatFunction.ProfileContextLists | netlify/functions/chat.js:104-164 | Every present field and a chosen style list occur in the context |
| ChatFunction.ProfileContextAgrees | netlify/functions/chat.js:104-164 | Profiles with the same present values and styles give the same context |
| ChatFunction.TurnOf | netlify/functions/chat.js:177-187 | A turn keeps the content and has the user role exactly for user messages |
| ChatFunction.HistoryTurns | netlify/functions/chat.js:176-188 | The loop gives at most one turn per entry |
| ChatFunction.HistoryTurnsAppend | netlify/functions/chat.js:176-188 | The loop distributes over concatenation, so order is kept |
| ChatFunction.HistoryTurnsComplete | netlify/functions/chat.js:176-188 | Nothing is dropped exactly when every sender is user or assistant |
| ChatFunction.HistoryTurnsSound | netlify/functions/chat.js:176-188 | Every turn comes from a kept history entry |
| ChatFunction.UpstreamMessages | netlify/functions/chat.js:167-195 | One to 21 turns, ending with the current message as a user turn |
| ChatFunction.OlderHistoryIgnored | netlify/functions/chat.js:170-195 | Entries before the last twenty never reach upstream |
| ChatFunction.ReadUpstream | netlify/functions/chat.js:215-230 | A text is read exactly for an ok reply with a non-empty content list |
| ChatFunction.Handle | netlify/functions/chat.js:6-250 | Checks run OPTIONS, verb, parse, message, key; only a passing request goes upstream, answered 200 with the text or a server fallback |
| ChatFunction.HandleAsWritten | netlify/functions/chat.js:38 | The handler fails exactly on a POST whose body is `null`, and otherwise agrees with the corrected one |
| ChatFunction.NullBodyFails | netlify/functions/chat.js:27-46 | A `null` body passes the parse check and fails; the corrected handler answers 400 |
| ChatFunction.HandleAlwaysAnswers | netlify/functions/chat.js:6-250 | The corrected handler only gives statuses 200, 400 and 405 |
| ChatFunction.ToExchange | ai-response-manager.js:47-60 | The client sees ok for 2xx and never a fallback flag from this handler |
| ChatFunction.UpstreamFailureShown | netlify/functions/chat.js:234-250 | When the model call fails, the user sees the server fallback, not a client one |
| ChatFunction.ClientViewOfRejections | netlify/functions/chat.js:40-56 | Without key the user sees the fixed reply; without message a client fallback |
| SpeechFunction.VoiceOf | netlify/functions/elevenlabs-tts.js:46 | The default voice applies only when the id is undefined |
| SpeechFunction.SettingsOf | netlify/functions/elevenlabs-tts.js:71-76 | The default settings apply only when none are given |
| SpeechFunction.Handle | netlify/functions/elevenlabs-tts.js:6-116 | Checks run OPTIONS, method, key, parse, text; only a passing request reaches the service; 200 with the audio exactly when it answers ok, else 500 |
| SpeechFunction.HandleAsWritten | netlify/functions/elevenlabs-tts.js:46 | The handler fails exactly on a keyed POST whose body is `null` |
| SpeechFunction.NullBodyFails | netlify/functions/elevenlabs-tts.js:35-54 | A `null` body passes the parse check and fails; the corrected handler answers 400 |
| SpeechFunction.KeyCheckedFirst | netlify/functions/elevenlabs-tts.js:26-33 | Without the key every POST gets the same 500, whatever it carries |
| SpeechFunction.DefaultsOnlyWhenAbsent | netlify/functions/elevenlabs-tts.js:46-77 | Absent voice and settings give the defaults; given ones are used unchanged |
| VoicesFunction.EnvOr | netlify/functions/elevenlabs-voices.js:24-25 | A truthy variable wins over the default |
| VoicesFunction.Handle | netlify/functions/elevenlabs-voices.js:4-37 | OPTIONS gives 200, other non-GET verbs 405, GET a 200 with the ids |
| VoicesFunction.VoiceIds | netlify/functions/elevenlabs-voices.js:24-36 | Each id is configured or default, never empty; available exactly when both are set |
| VoicesFunction.OneIdIsNotEnough | netlify/functions/elevenlabs-voices.js:36 | With one id set the voices are reported unavailable |
| KeyFunction.Handle | netlify/functions/elevenlabs-key.js:4-35 | GET reports available exactly when the key is set and never sends more than the word "available" |
| KeyFunction.SecretNotSent | netlify/functions/elevenlabs-key.js:24-35 | Two different secrets give the same reply |
| Speech.ScoreFacts | speech-manager.js:493-500 | Scores are at most 75, non-English voices count nothing, a local voice earns 10 more |
| Speech.FirstStrictMax | speech-manager.js:487-506 | The scan finds the first position with the highest positive value, or none when all are zero |
| Speech.SelectBestVoice | speech-manager.js:484-509 | The first English voice with the strictly highest positive score; none when absent, empty or no English voice scores |
| Speech.JsRem | speech-manager.js:891 | `%` keeps the sign of the dividend |
| Speech.TogglePremiumVoice | speech-manager.js:889-891 | A valid mode moves to another valid mode |
| Speech.ToggleCycle | speech-manager.js:891 | The modes cycle 0, 1, 2, 0 |
| Speech.UpdateButtonVisibility | speech-manager.js:146-158 | Shown exactly when available or in development mode; hidden forces mute |
| Speech.VoiceIdFor | speech-manager.js:209 | Mode 1 speaks with the female id, any other with the male id |
| Speech.SpeakRoute | speech-manager.js:161-193 | Silent exactly for empty text or mute; the service only when available, not in development mode and short enough in UTF-16 code units |
| Speech.AstralTextGoesToBrowser | speech-manager.js:178-181 | A text exactly at the limit goes to the browser voice when it holds an astral character, and to the service when it holds none and the service may be used |
| Speech.RouteAgreesWithPremium | speech-manager.js:161-193 | The service speaks exactly when premium voice is enabled and the text is short enough |
| Speech.PremiumVoiceEnabled | speech-manager.js:885-887 | Premium voice is only reported while the settings button is shown and the mode is not mute, and never with the shipped configuration |
| Speech.HiddenButtonSilences | speech-manager.js:146-193 | A hidden button mutes; the shipped configuration never uses the service |
| Speech.Collapse | speech-manager.js:779-781 | Collapsing never lengthens and keeps the first character |
| Speech.CollapseNoRun | speech-manager.js:779-781 | No run of the character is left, and no run of another is created |
| Speech.CollapseKeeps | speech-manager.js:779-781 | Text without a run is unchanged |
| Speech.CollapsePunctuationSpec | speech-manager.js:779-781 | No "..", "!!" or "??" remain, and clean text is unchanged |
| Speech.CollapsePunctuation | speech-manager.js:779-781 | The cleaned text is never longer and starts with the same character |
| Speech.FinalsAppend | speech-manager.js:402-409 | The final transcript distributes over the result list |
| Speech.InterimsAppend | speech-manager.js:402-409 | The interim transcript distributes over the result list |
| Speech.Finals | speech-manager.js:402-409 | The final transcript is empty exactly when no segment is final, and otherwise ends with a space |
| Speech.Interims | speech-manager.js:402-409 | The interim transcript is empty when every segment is final or empty |
| Speech.OnResultText | speech-manager.js:411-413 | The input text is trimmed at both ends, and empty for an empty result list |
| Speech.FinalsFirst | speech-manager.js:397-413 | Final text precedes interim text whatever the result order |
| Speech.StartListening | speech-manager.js:587-603 | Without a recogniser or while listening nothing changes; otherwise input and transcripts are cleared |
| Speech.OnStart | speech-manager.js:385-395 | Both flags are set and the transcripts cleared |
| Speech.OnResult | speech-manager.js:397-413 | The input becomes the trimmed transcripts; flags untouched |
| Speech.FinalizeRecording | speech-manager.js:621-657 | Flags and transcripts are cleared; text is recorded exactly when the trimmed input is non-empty |
| Speech.StopListening | speech-manager.js:605-619 | Without a recogniser or when not listening nothing happens; otherwise recording stops and is finalized |
| Speech.OnEnd | speech-manager.js:439-457 | While recording the state is kept; otherwise the recording is finalized |
| Speech.ToggleListening | speech-manager.js:579-585 | Listening stops; otherwise listening starts |
| Speech.StopThenEnd | speech-manager.js:605-619 | After a stop the end event changes nothing and a second stop does nothing |
| Speech.SessionRecordsTranscript | speech-manager.js:385-657 | Start, one result, stop records exactly the trimmed transcript |
| Text.Trim | profile-manager.js:145 | `trim()` never lengthens and leaves no white space at either end |
| Text.Lower | ai-response-manager.js:84 | `toLowerCase()` keeps the length and lowers each character |
| Text.Utf16Length | speech-manager.js:178 | `length` counts UTF-16 code units: between the number of characters and twice it, equal exactly when no character is astral |
| Text.Utf16LengthAppend | speech-manager.js:178 | The UTF-16 length of a concatenation is the sum of the lengths |

## Left out

- Storage (`localStorage`), the DOM, CSS, modals, toasts and status lines are left out. So are timers other than the send gate's release, and logging.
- `fetch`, `FileReader`, canvas resizing, audio playback and the speech recognition and synthesis engines are left out. What they deliver is a parameter.
- `Math.random()` and `Date.now()` become index and clock parameters, and document ids are given.
- The system prompts and the `RESPONSE_PATTERNS` texts are not analysed. The configured reply lists are carried as data (`AIResponse.Patterns`).
- Profile.HandlePhotoUpload: the resize is reduced to how its promise settles (`Profile.Resize`). The scaling arithmetic and the JPEG encoding are left out, and an upload that never settles is a `pending` flag rather than a suspended handler.
- Text.Lower: lowercases ASCII letters only, because the keywords and the texts the properties mention are ASCII.
- Speech.SpeakRoute: takes the cleaned text as a parameter, and measures it in UTF-16 code units as JavaScript does. The word substitutions of `makeTextMoreNatural` (speech-manager.js:784-791) are not modelled, because only its length decides the route. The regex at line 778 replaces a match with itself.
- Speech.ScoreFacts: proves the score range and the local bonus, not an ordering between regional bonuses.
- Speech.JsRem: states only the sign and range of the remainder, not its full value.
- Profile.PopulateTicks: finds each box by an id equal to its value, as in the form. A box whose id differs is not modelled.
- Profile.ReadFileContent: the text of a failed read is not stated.
- `checkElevenLabsAPI`, `speakWithElevenLabs`, `speakWithBrowser`, voice preferences and the silence timer are not modelled. They are I/O; only their decisions are modelled.
- ChatFunction.Handle: a `message` that is not a string, and a `null` `voice_id` in the speech function, are not modelled. Property values are strings or absent.
- SpeechFunction.Handle: the base64 encoding of the audio and the `details` field of the 500 body are not modelled.
- ChatFunction.UpstreamMessages: history entries are messages; non-array histories read as absent.
- `loadProfile`, `loadConversationMemory` and `displaySavedDocuments` read storage back; they are left out with storage.
- Floating-point voice settings are carried as `real` constants and never computed with.

## Findings

| source | as written | input that shows it | evidently intended | confidence | as-written member | corrected member |
|---|---|---|---|---|---|---|
| netlify/functions/chat.js:38 | `const { message, profile, conversationHistory } = body;` runs outside every `try`, after a parse that accepts `null` | a POST with body `null` | answer 400 "Message is required" like any request without a message | not executed | ChatFunction.HandleAsWritten, ChatFunction.NullBodyFails | ChatFunction.Handle |
| netlify/functions/elevenlabs-tts.js:46 | `const { text, voice_id = …, voice_settings } = requestBody;` runs outside every `try`, after a parse that accepts `null` | a POST with body `null` and the key set | answer 400 "Text is required" | not executed | SpeechFunction.HandleAsWritten, SpeechFunction.NullBodyFails | SpeechFunction.Handle |
