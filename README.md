# Saber Universal quiz: a Dafny model of its logic

Saber Universal is a small browser trivia game. The player stores a Gemini
API key, picks one of eight topics, and answers ten generated questions (two
sets of five), each with a fifteen-second countdown and a generated
illustration. The results screen then shows the score. It also has a
plain-text summary download, but the quiz's finish call as wired never hands
it the questions, so the download button is never offered (see Findings).

This project models the game's sequential logic and proves properties of it:

- **GeminiService.** Validation and reshaping of the generated question list:
  - reject fewer than ten questions;
  - keep only the first ten;
  - chunk into sets of five and check the shape.
  It also models the ordered, substring-based classification of service errors
  into user messages, and the per-topic guidance text.
- **Quiz.** The quiz session as a class whose methods are the screen's handlers:
  - loading, and routing a failed load;
  - answer selection and time-up, which share one answer latch;
  - the grace delay after a time-up;
  - advancing through the ten positions;
  - the illustration slot.
  It also models what the views derive from the session: titles, labels,
  failure notices and answer-button looks.
- **Timer.** The countdown as a class: the tick step, pausing, and the
  bar-colour thresholds.
- **App.** The four-screen flow as a class. Browser storage is a map from
  storage keys to texts, and the key lives under `gemini_api_key`.
- **Results.** The rounded percentage, the feedback tiers, the confetti
  threshold, the count-up display loop, and the download text built in a loop.
- **ApiKeySetup.** The key form: trim the typed key, and refuse a blank one.
- **Constants.** The fixed sizes, the timer length and the topic tables.
- **Strings.** The JavaScript string operations the code relies on:
  `includes`, `trim`, and decimal rendering inside template literals.

Network results are inputs:

- `ContentReply` is the parsed question list or a thrown value (syntax error,
  error with a message, or non-Error). A parsed reply is always an array of
  complete question records (see Left out).
- `ImageReply` is the list of generated payloads or a thrown value.

Timers are explicit events: `Timer.CountdownTimer.Tick` and
`Quiz.QuizSession.GraceElapsed`.
Callbacks to the enclosing screen are method results, such as
`MoveToNextQuestion`'s finished score and `LoadQuiz`'s `apiKeyInvalid`.

Three behaviours of the code that a reader might not expect are modelled as
written:

- `ImageResolved`, like components/Quiz.tsx:73-81, does not check that a late
  image result belongs to the question now on screen.
- The quiz passes only its score to the finish handler (see Findings).
- `TOPIC_DETAILS` covers 8 of the 14 `Topic` values, so `TopicDetailsOf`
  returns `None` for the other six.

## Model

| member | source | states |
|---|---|---|
| `Constants.SizesAgree` | constants.ts:25-28 | a set holds 5 questions and a topic holds 2 sets, so 10 questions in all; the timer is 15 seconds |
| `Constants.TopicsDistinct` | constants.ts:3-12 | eight topics are offered, and no topic is listed twice |
| `Constants.TopicDetailsOf` | constants.ts:14-23 | the details lookup succeeds exactly for the offered topics, and then yields the table's entry |
| `Constants.TopicDetailsKeys` | constants.ts:14-23 | the keys of the details table are exactly the offered topics |
| `Types.Flatten` | components/Results.tsx:55 | `flat()` keeps every question of every set and adds none |
| `GeminiService.GetTopicContext` | services/geminiService.ts:5-26 | no contract of its own; the two lemmas below state what the lookup gives |
| `GeminiService.TopicContextCoversOfferedTopics` | services/geminiService.ts:5-26 | a topic gets a text other than "Cultura general." exactly when it is one of the eight offered topics |
| `GeminiService.OfferedTopicHasSpecificContext` | services/geminiService.ts:7-22 | each of the eight offered topics gets a text other than the general one |
| `GeminiService.ErrorText` | services/geminiService.ts:108 | an Error contributes its own message; any other thrown value gives the fixed unknown-error text, which holds no digit 4 and no capital R |
| `GeminiService.UnknownErrorIsWrapped` | services/geminiService.ts:108-115 | a thrown non-Error is wrapped behind the prefix, on the content and on the image path |
| `GeminiService.InsufficientMessage` | services/geminiService.ts:81 | the count error opens with "La IA generó solo ", followed by the count in decimal and a space, and names the required count with "se necesitan 10" |
| `GeminiService.InsufficientMessageNamesCount` | services/geminiService.ts:81 | two count errors are the same text exactly when they name the same count |
| `GeminiService.ContentErrorMessage` | services/geminiService.ts:103-116 | the content catch sorts errors in a fixed order, and each message arises exactly in its own case: syntax error gives the invalid-JSON message; otherwise '400' gives invalid key; otherwise '429' or 'RESOURCE_EXHAUSTED' gives quota; otherwise the prefix followed by the error text |
| `GeminiService.ContentMessagesDistinct` | services/geminiService.ts:106-115 | the four kinds of content message are pairwise different, and no fixed message looks like a wrapped one |
| `GeminiService.BadRequestTakesPrecedence` | services/geminiService.ts:109-113 | a text with both '400' and '429' reads as an invalid key on the content path, and as the quota code on the image path |
| `GeminiService.InsufficientErrorIsRewrapped` | services/geminiService.ts:80-115 | the too-few-questions error is caught by its own catch, carries no code, and is rethrown behind "No se pudo generar el cuestionario: " |
| `GeminiService.Chunks` | services/geminiService.ts:91-94 | the slices are never empty and never longer than the size, all but the last are full, and there are none exactly for an empty list |
| `GeminiService.FlattenChunks` | services/geminiService.ts:91-94 | concatenating the chunks gives back the list |
| `GeminiService.ChunksOfMultiple` | services/geminiService.ts:91-94 | a list of k·size questions gives k chunks, each of exactly size |
| `GeminiService.TenQuestionsAreWellShaped` | services/geminiService.ts:97-101 | ten questions always chunk into two sets of five, so for an array reply the final shape check cannot fail |
| `GeminiService.ChunkQuestions` | services/geminiService.ts:91-94 | the loop that steps by five produces exactly the consecutive slices of five |
| `GeminiService.QuizFromReply` | services/geminiService.ts:74-101 | a thrown value propagates; for fewer than 10 it raises the count error naming the actual count; otherwise it returns the chunks of the first ten questions |
| `GeminiService.Sufficient` | services/geminiService.ts:80-82 | no contract of its own; `GenerateQuiz` succeeds exactly when it holds, a parsed reply of at least ten questions |
| `GeminiService.RejectionMessage` | services/geminiService.ts:103-115 | a parsed reply with too few questions is rejected with a text that opens with "No se pudo generar el cuestionario: " and names the required "se necesitan 10" |
| `GeminiService.GenerateQuiz` | services/geminiService.ts:74-116 | succeeds exactly with at least ten questions, yielding two sets of five that flatten to the first ten in order; every failure carries the classified message |
| `GeminiService.ImageErrorMessage` | services/geminiService.ts:139-153 | the image catch checks quota first and then gives exactly 'QUOTA_EXCEEDED'; otherwise '400' gives invalid key; otherwise the image prefix followed by the error text (each case exactly) |
| `GeminiService.ImageMessagesDistinct` | services/geminiService.ts:141-152 | the three kinds of image message are pairwise different |
| `GeminiService.GenerateImage` | services/geminiService.ts:132-137 | an image call succeeds exactly when it returns a non-empty payload list, and yields the first payload |
| `GeminiService.EmptyImageReplyIsRewrapped` | services/geminiService.ts:132-152 | a reply without images fails with "No se pudo generar la imagen: La IA no generó ninguna imagen." |
| `GeminiService.PlainImageErrorIsWrapped` | services/geminiService.ts:139-152 | an error text containing neither the digit 4 nor a capital R is wrapped behind the image prefix |
| `Timer.TickStep` | components/Timer.tsx:33-40 | with no active interval, a tick changes nothing; otherwise at 1 second or less it sets 0, stops and fires; otherwise it takes one second off and keeps running |
| `Timer.AfterNeverRises` | components/Timer.tsx:33-40 | any number of ticks never raises the seconds left |
| `Timer.CountsDown` | components/Timer.tsx:33-40 | started at n and not paused, k < n ticks leave n − k seconds and the interval running |
| `Timer.StoppedStaysStopped` | components/Timer.tsx:34-37 | once the interval is cleared, no later tick changes the count or fires |
| `Timer.FiresExactlyOnce` | components/Timer.tsx:33-38 | starting from n seconds with no pause, time-up fires on tick n (on tick 1 when n is 0), and on no other tick |
| `Timer.BarColorOf` | components/Timer.tsx:50-54 | red below 25% of the duration, yellow from 25% up to 50%, indigo from 50%, as integer comparisons |
| `Timer.UrgencyGrowsAsTimeRunsOut` | components/Timer.tsx:50-54 | fewer seconds left never gives a calmer colour |
| `Timer.QuizBarThresholds` | components/Timer.tsx:50-54 | over 15 seconds: red at 3 or fewer, yellow from 4 to 7, indigo from 8 |
| `Timer.CountdownTimer.constructor` | components/Timer.tsx:13 | the count starts at the duration, and the interval runs unless the timer starts paused |
| `Timer.CountdownTimer.SetPaused` | components/Timer.tsx:17-23 | pausing clears the interval and unpausing starts one; the count is kept; setting the same value changes nothing |
| `Timer.CountdownTimer.Tick` | components/Timer.tsx:25-41 | a tick performs `TickStep` on the count and the interval; a paused timer neither moves nor fires |
| `Timer.CountdownTimer.Color` | components/Timer.tsx:50-54 | a full bar is indigo; over 15 seconds the bar is red at 3 or fewer, yellow from 4 to 7, indigo from 8 |
| `Quiz.LinearIndex` | components/Quiz.tsx:89 | a set index below 2 and a question index below 5 give a position below 10 |
| `Quiz.PositionFromLinearIndex` | components/Quiz.tsx:89-102 | set and question indices are the quotient and remainder of the linear position by five |
| `Quiz.QuizSession.constructor` | components/Quiz.tsx:25-34 | a new session has no quiz, is at position (0, 0) with score 0, shows the loader, and has an empty image slot |
| `Quiz.QuizSession.CurrentQuestion` | components/Quiz.tsx:64-67 | the question at the current set and question index; none when nothing is loaded or either index is out of range |
| `Quiz.CurrentQuestionIsLinear` | components/Quiz.tsx:64-67 | in a valid loaded session the current question exists, and it is the question at the linear position of the flattened quiz |
| `Quiz.QuizSession.QuestionNumber` | components/Quiz.tsx:176 | the number shown runs from 1 to 10, and the button reads "Ver Resultados" exactly on the question after which the quiz finishes |
| `Quiz.IsCorrect` | components/Quiz.tsx:120 | no answer scores without a current question; an answer scores exactly when the explanation titles it correct, and an unscored one is titled incorrect |
| `Quiz.QuizSession.LoadQuiz` | components/Quiz.tsx:41-56 | with enough questions the first question is shown; a failure naming the invalid key signals the key reset and stays on the loader; any other failure is stored and shown |
| `Quiz.QuizSession.ShowQuiz` | components/Quiz.tsx:46-47 | the fetched sets are stored and the question view shows, keeping the session invariant |
| `Quiz.QuizSession.ShowFailure` | components/Quiz.tsx:49-55 | the key reset is signalled exactly when the message names the invalid key, and then view and error are untouched; otherwise the message is stored and the error view shows |
| `Quiz.RoutesToKeySetup` | components/Quiz.tsx:50 | a message opening with "La clave de API no es válida" sends the player to the key setup; one shorter than that marker never does |
| `Quiz.InvalidKeyMessageRoutesToKeySetup` | components/Quiz.tsx:48-55 | the service's invalid-key message passes the screen's test |
| `Quiz.LoadFailureRouting` | components/Quiz.tsx:48-55 | exactly these content failures reset the key: those with '400', and plain errors whose own text names the invalid key; invalid-JSON and quota failures never do |
| `Quiz.WrappedFailureRouting` | services/geminiService.ts:115 | behind the generic prefix, a text names the invalid key exactly when it did before |
| `Quiz.InsufficientCountIsShownAsError` | components/Quiz.tsx:48-55 | the rewrapped too-few-questions failure goes to the error view, not to the key reset |
| `Quiz.QuizSession.RequestImage` | components/Quiz.tsx:69-73 | on the question view with a question present, the slot shows the loader, the old failure is cleared, and exactly that question's image prompt is requested; otherwise nothing happens |
| `Quiz.QuizSession.ImageResolved` | components/Quiz.tsx:73-81 | a payload becomes a JPEG data URL; a failure marks the slot failed and keeps the message; nothing ties the result to the question that asked for it |
| `Quiz.QuizSession.AnswerSelect` | components/Quiz.tsx:114-125 | it is a no-op once the question is answered; otherwise it latches, records the choice and its outcome, adds one point exactly for the correct answer, and shows the explanation at once |
| `Quiz.QuizSession.TimeUp` | components/Quiz.tsx:127-137 | it is a no-op once the question is answered; otherwise it latches with no selection, records a wrong outcome, keeps the score and the view, and schedules the explanation |
| `Quiz.QuizSession.GraceElapsed` | components/Quiz.tsx:134-136 | the scheduled switch shows the explanation |
| `Quiz.QuizSession.MoveToNextQuestion` | components/Quiz.tsx:86-112 | after the tenth question it returns the score and changes nothing; that score counts the correct answers among ten recorded outcomes and is at most 10; before the tenth, the linear position rises by one and the per-question state is cleared |
| `Quiz.ExplanationTitle` | components/Quiz.tsx:179-190 | no selection gives the time-up title; the correct answer gives the correct title; any other answer gives the incorrect title, each exactly |
| `Quiz.NextButtonLabel` | components/Quiz.tsx:236 | the button reads "Ver Resultados" exactly from question number 10 on, and "Siguiente" before it |
| `Quiz.ImageFailureNotice` | components/Quiz.tsx:207-215 | the quota notice shows exactly when a failure text exists and includes 'cuota' |
| `Quiz.QuotaImageErrorGetsGenericNotice` | components/Quiz.tsx:207-209 | every quota failure of the image call shows the generic notice, because 'QUOTA_EXCEEDED' does not include 'cuota' |
| `Quiz.IntendedImageFailureNotice` | components/Quiz.tsx:207-215 | corrected notice: the quota wording shows exactly for the code 'QUOTA_EXCEEDED' |
| `Quiz.IntendedNoticeMatchesQuota` | services/geminiService.ts:141-145 | with the corrected test, the quota notice shows exactly for errors whose text carries a quota code |
| `Quiz.OptionLookOf` | components/Quiz.tsx:242-260 | after a time-up the correct option is highlighted and the others faded; in every other state all options look plain |
| `Results.Percentage` | components/Results.tsx:16 | the integer nearest to 100·score/total, halves rounded up; 0 when total is 0; at most 100 when score ≤ total |
| `Results.PercentageMonotone` | components/Results.tsx:16 | more correct answers never give a lower percentage |
| `Results.QuizPercentage` | components/Results.tsx:16 | over ten questions the percentage is exactly 10·score |
| `Results.TierOf` | components/Results.tsx:74-79 | the tier is Master from 90, Excellent from 70, GoodTry from 50, KeepStudying below; established as disjoint ranges that cover every percentage |
| `Results.TierMonotone` | components/Results.tsx:74-79 | a higher percentage never earns a lower tier |
| `Results.FeedbackOf` | components/Results.tsx:74-79 | no contract of its own; `FeedbackDistinct` states that the tiers' titles differ |
| `Results.FeedbackDistinct` | components/Results.tsx:75-78 | two different tiers get two different titles |
| `Results.ConfettiFires` | components/Results.tsx:40 | no contract of its own; `ConfettiForTopTiers` states what it means |
| `Results.ConfettiForTopTiers` | components/Results.tsx:40 | confetti goes with exactly the two top tiers, which over ten questions means seven or more correct |
| `Results.StepTime` | components/Results.tsx:24 | the step is at least 1 ms; for scores up to 1000 it is the largest step with step·score ≤ 1000 |
| `Results.CountUp` | components/Results.tsx:18-34 | score 0 shows 0 at once; otherwise the display shows 1, 2, …, score in order, never above the score, and ends on it |
| `Results.QuestionLine` | components/Results.tsx:59 | no contract of its own; `BlockShowsQuestion` states its shape |
| `Results.ExplanationLine` | components/Results.tsx:60 | no contract of its own; `BlockShowsQuestion` states its shape |
| `Results.Block` | components/Results.tsx:59-60 | no contract of its own; `BlockShowsQuestion` states its shape |
| `Results.BlockShowsQuestion` | components/Results.tsx:59-60 | the question line opens with "Pregunta ", holds the question and ends the line; the explanation line opens with "Explicación: ", holds the explanation and ends with a blank line; a block holds both |
| `Results.Join` | components/Results.tsx:58-61 | no contract of its own; `JoinConcat`, `JoinAt` and `JoinContainsPart` state its properties |
| `Results.JoinConcat` | components/Results.tsx:58-61 | joining the parts of a concatenation is joining each half, one after the other |
| `Results.JoinAt` | components/Results.tsx:58-61 | a join is the parts before any part, the part itself, and the parts after it |
| `Results.JoinContainsPart` | components/Results.tsx:58-61 | every part can be found in the join |
| `Results.Blocks` | components/Results.tsx:58-61 | there is one block per question, and block k is the block of question k numbered first + k |
| `Results.BlocksConcat` | components/Results.tsx:58-61 | numbering continues across concatenated question lists |
| `Results.SummaryOfSets` | components/Results.tsx:55-61 | the summary of several sets is the first set's blocks followed by the rest, numbered on |
| `Results.BlockAt` | components/Results.tsx:58-61 | question k of the list is written as block number first + k, in place between the blocks before and after it |
| `Results.BuildSummary` | components/Results.tsx:52-61 | no text without quiz data; otherwise the header, then one "Pregunta i: …" / "Explicación: …" block per flattened question, numbered from 1 |
| `Results.SummaryNamesEveryQuestion` | components/Results.tsx:55-61 | the summary holds the block of every question under its number, and so that question's text and its explanation |
| `Results.Summary` | components/Results.tsx:52-61 | there is a text exactly when there is quiz data; it opens with the header, and is the header alone for no questions |
| `Results.DownloadOffered` | components/Results.tsx:136-137 | the download button shows exactly when there is a summary to download |
| `App.App.constructor` | App.tsx:18-26 | storage is as found; a non-empty stored key is loaded and the topic selection is shown; otherwise the key setup is shown |
| `App.App.StoredKey` | App.tsx:19 | the stored key is present exactly when storage holds an entry under `gemini_api_key`, and it is that entry |
| `App.App.HandleKeySubmit` | App.tsx:28-32 | the key is written under `gemini_api_key`, leaving other storage entries alone, and held; the topic selection is shown |
| `App.Truthy` | App.tsx:20 | no contract of its own; `App.App.constructor` and `App.App.Render` state where a missing or empty key counts as absent |
| `App.App.HandleTopicSelect` | App.tsx:34-37 | the topic is recorded and the quiz is shown |
| `App.App.HandleQuizFinish` | App.tsx:39-43 | score and quiz data are recorded and the results are shown |
| `App.App.FinishQuizAsWired` | components/Quiz.tsx:92 | the finish call passes only the score, so the results get no quiz data and offer no download |
| `App.App.FinishQuizWithData` | App.tsx:39-43 | corrected finish: the results get the quiz's sets and offer their summary |
| `App.App.HandleRestart` | App.tsx:45-50 | topic, score and data are cleared and the topic selection is shown; the key in memory and in storage is kept |
| `App.App.HandleApiKeyInvalid` | App.tsx:52-56 | only the `gemini_api_key` entry is removed from storage; the key is dropped from memory, and the key setup is shown |
| `App.App.Render` | App.tsx:58-70 | in the quiz state the quiz renders exactly with a topic and a non-empty key; the results state always renders out of 10 questions; each other state renders its own screen |
| `App.QuizAlwaysRenders` | App.tsx:61 | when every screen past the setup holds a usable key, the in-quiz guard never fails |
| `ApiKeySetup.ValidateKey` | components/ApiKeySetup.tsx:13-18 | blank or whitespace-only input gives nothing; otherwise the trimmed key, never empty, with no whitespace at either end |
| `ApiKeySetup.ValidatedKeyIsStable` | components/ApiKeySetup.tsx:13-18 | a submitted key passes the check again unchanged |
| `ApiKeySetup.ApiKeyForm.constructor` | components/ApiKeySetup.tsx:8-9 | the form starts with an empty field and no error |
| `ApiKeySetup.ApiKeyForm.Type` | components/ApiKeySetup.tsx:37 | typing replaces the field's text |
| `ApiKeySetup.ApiKeyForm.HandleSubmit` | components/ApiKeySetup.tsx:11-19 | a blank key sets the error and submits nothing; any other key clears the error and is submitted once, trimmed; the typed text is untouched in both cases |
| `ApiKeySetup.ApiKeyForm.ErrorShown` | components/ApiKeySetup.tsx:44 | the blank-key message is shown, and a cleared error hides the line |
| `Strings.Trim` | components/ApiKeySetup.tsx:13 | `trim()` drops only whitespace, from both ends, leaves a result that neither starts nor ends with whitespace, and is empty exactly for whitespace-only input |
| `Strings.NatToString` | services/geminiService.ts:81 | a template's `${n}` for a count: non-empty, digits only, one digit exactly below 10, no leading zero (also the question number at components/Results.tsx:59) |
| `Strings.ParseNatToString` | components/Results.tsx:59 | the decimal text loses nothing: reading it back gives the number |
| `Strings.NatToStringInjective` | services/geminiService.ts:81 | distinct numbers render as distinct texts |
| `Strings.Contains` | services/geminiService.ts:109 | `includes()`: a text includes only what fits in it, and every text includes the empty string |
| `Strings.ContainsAt` | services/geminiService.ts:109 | an inclusion is an occurrence at some offset |
| `Strings.AtContains` | services/geminiService.ts:109 | an occurrence at any offset is an inclusion |
| `Strings.ContainsTransitive` | services/geminiService.ts:109 | what an included text includes, the including text includes too |

## Left out

- A parsed reply is taken to be an array of complete question records, as the `as Question[]` cast at services/geminiService.ts:75 presumes. Non-array JSON is not modelled: an object, `null`, a number or a string takes other paths in the source. For example, `{}` has no `length`, so neither count check fires, the loop never runs, and the shape check at services/geminiService.ts:97-98 throws. Only under this abstraction does `GeminiService.TenQuestionsAreWellShaped` make that check unreachable. Missing fields of a question record are not modelled either.
- The Gemini SDK calls and the prompt text (services/geminiService.ts:28-72 and 119-130) are not modelled. Their outcome is the `ContentReply` or `ImageReply` argument. `response.text.trim()` and `JSON.parse` are folded into that outcome, and a parse failure is a thrown `SyntaxError`.
- Real time is not modelled:
  - `setInterval` and `setTimeout` are explicit `Tick`/`GraceElapsed` events;
  - React's effect re-runs, dependency arrays and asynchronous interleaving are left out;
  - a new `Timer` per question (the `key` at components/Quiz.tsx:273) is a fresh `Timer.CountdownTimer`, not a field of the session.
- The fallback text at components/Quiz.tsx:49 for a thrown non-Error is not modelled, because the quiz service only throws `Error` values.
- Quiz: speech synthesis (`cancel`/`speak` and the speak handler) is not modelled; it is browser audio output.
- Timer: the tick sound (components/Timer.tsx:26-31) is not modelled; it is audio output.
- Results: the Blob, object URL and link click of the download (components/Results.tsx:63-71) are not modelled; the model stops at the text handed to them. The confetti call's parameters and its 500 ms delay (components/Results.tsx:41-48) are not modelled either; only whether it fires is.
- Floating-point display maths is not modelled: the progress ring (components/Results.tsx:83-93) and the bar width.
- `Results.Percentage` uses exact rational rounding. JavaScript's `score / total * 100` is a float. It can round an exact half down for some totals, for example 29/200. Over the quiz's ten questions both give 10·score.
- `Timer.BarColorOf` compares exact ratios. The source compares the float `timeLeft / duration * 100`. A zero duration gives NaN there, which also yields indigo.
- `Timer.FiresExactlyOnce` covers an uninterrupted countdown only. Runs with pauses are described step by step by `Timer.CountdownTimer.SetPaused` and `Timer.CountdownTimer.Tick`, without an all-runs lemma. Unpausing after the count has reached zero would start an interval that fires again on its first tick.
- `Quiz.QuizSession.MoveToNextQuestion` requires the explanation view, because its button is rendered only there (components/Quiz.tsx:235).
- Pure presentation is not modelled: markup, CSS class strings, icons, the topic selector (components/TopicSelector.tsx) and `console` logging. `getButtonClass` is modelled by the look an option gets, not by its class string.
- The feedback texts of each tier are transcribed in `Results.FeedbackOf`. Only the titles are proved to differ (`Results.FeedbackDistinct`); nothing is stated about the messages and colours.

## Findings

| source | as written | input that shows it | evidently intended | confidence | as-written member | corrected member |
|---|---|---|---|---|---|---|
| components/Quiz.tsx:207 | the failed-image notice uses the quota wording when the failure text includes 'cuota' | an image call failing with a message containing '429': the service rethrows 'QUOTA_EXCEEDED', which has no 'cuota', so the generic notice shows | show the quota notice for the service's quota code 'QUOTA_EXCEEDED' (services/geminiService.ts:144) | not executed | `Quiz.QuotaImageErrorGetsGenericNotice` | `Quiz.IntendedNoticeMatchesQuota` |
| components/Quiz.tsx:92 | the quiz calls `onFinish(score)`, but `handleQuizFinish` takes `(score, quizData)` (App.tsx:39-43) | any quiz played to the tenth question: `completedQuizData` is undefined, and the results screen shows no download button | pass the quiz sets too, so the summary can be downloaded | not executed | `App.App.FinishQuizAsWired` | `App.App.FinishQuizWithData` |
