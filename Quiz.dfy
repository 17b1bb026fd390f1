/**
 * The quiz screen: it loads ten questions for a topic, shows them one at
 * a time with a countdown, records the first of "answer chosen" and
 * "time up" for each question, illustrates each question with a generated
 * image, and reports the score when the last question has been seen.
 *
 * The session is a class whose methods are the screen's handlers; the
 * network results arrive as arguments (`ContentReply`, `ImageReply`), the
 * three-second delay after a time-up is the explicit `GraceElapsed` event,
 * and the callbacks to the enclosing screen are the methods' results.
 */
module Quiz {
  import opened Types
  import opened Strings
  import opened Constants
  import opened GeminiService

  datatype View = Loading | ErrorView | QuestionView | Explanation

  /** The illustration slot: nothing yet, a request in flight, a failure, or an image URL. */
  datatype ImageSlot = NoImage | ImageLoading | ImageFailed | ImageData(url: string)

  /** The part of a load failure message that sends the user back to the key setup. */
  const ApiKeyInvalidMarker := "La clave de API no es válida"
  const ImageUrlPrefix := "data:image/jpeg;base64,"

  /**
   * Whether a load failure with this message is routed to the key setup
   * instead of the error view: a message opening with the marker routes,
   * and one shorter than the marker never does.
   */
  predicate RoutesToKeySetup(message: string)
    ensures StartsWith(message, ApiKeyInvalidMarker) ==> RoutesToKeySetup(message)
    ensures RoutesToKeySetup(message) ==> |message| >= |ApiKeyInvalidMarker|
  {
    Contains(message, ApiKeyInvalidMarker)
  }

  /** The position of the question in the whole quiz, counted from zero. */
  function LinearIndex(setIndex: nat, questionIndex: nat): (r: nat)
    ensures setIndex < SetsPerTopic && questionIndex < QuestionsPerSet ==> r < TotalQuestionsPerTopic
  {
    setIndex * QuestionsPerSet + questionIndex
  }

  /** A position with the question index below five is recovered from its linear index. */
  lemma PositionFromLinearIndex(setIndex: nat, questionIndex: nat)
    requires questionIndex < QuestionsPerSet
    ensures LinearIndex(setIndex, questionIndex) / QuestionsPerSet == setIndex
    ensures LinearIndex(setIndex, questionIndex) % QuestionsPerSet == questionIndex
  {
  }

  /** A well-shaped quiz flattens to its first set followed by its second. */
  lemma FlattenWellShaped(data: seq<QuizSet>, s: nat, q: nat)
    requires WellShaped(data) && s < SetsPerTopic && q < QuestionsPerSet
    ensures |Flatten(data)| == TotalQuestionsPerTopic
    ensures Flatten(data)[LinearIndex(s, q)] == data[s][q]
  {
    assert Flatten(data) == data[0] + (data[1] + Flatten(data[2..]));
    assert Flatten(data[2..]) == [];
  }

  /** How many of the recorded outcomes are correct answers. */
  function CountCorrect(outcomes: seq<bool>): (n: nat)
    ensures n <= |outcomes|
  {
    if outcomes == [] then 0
    else CountCorrect(outcomes[..|outcomes| - 1]) + if outcomes[|outcomes| - 1] then 1 else 0
  }

  /** Recording one more outcome adds one exactly for a correct answer. */
  lemma CountCorrectSnoc(outcomes: seq<bool>, b: bool)
    ensures CountCorrect(outcomes + [b]) == CountCorrect(outcomes) + if b then 1 else 0
  {
    assert (outcomes + [b])[..|outcomes|] == outcomes;
  }

  class QuizSession {
    const topic: Topic
    const apiKey: string
    var quizSets: Option<seq<QuizSet>>
    var setIndex: nat
    var questionIndex: nat
    var score: nat
    var selected: Option<string>
    var isAnswered: bool
    var view: View
    var error: Option<string>
    var image: ImageSlot
    var imageError: Option<string>
    /** A time-up has scheduled the switch to the explanation, which has not happened yet. */
    var gracePending: bool
    /** For each question decided so far, in order: whether it was answered correctly. */
    ghost var outcomes: seq<bool>

    function Linear(): nat
      reads this`setIndex, this`questionIndex
    {
      LinearIndex(setIndex, questionIndex)
    }

    /** Questions already decided: those before the current one, plus the current one once answered. */
    function Decided(): nat
      reads this`setIndex, this`questionIndex, this`isAnswered
    {
      Linear() + if isAnswered then 1 else 0
    }

    /**
     * The position stays inside the ten questions with the question index
     * below five, one outcome is recorded per question decided and the
     * score counts the correct ones, a loaded quiz is two sets of five, and
     * the answer latch is set whenever a selection is recorded, a time-up
     * is pending or the explanation shows.
     */
    ghost predicate Valid()
      reads this
    {
      && questionIndex < QuestionsPerSet
      && Linear() < TotalQuestionsPerTopic
      && |outcomes| == Decided()
      && score == CountCorrect(outcomes)
      && (quizSets.Some? ==> WellShaped(quizSets.value))
      && (selected.Some? ==> isAnswered)
      && (gracePending ==> isAnswered && selected.None? && view != Explanation)
      && (view == Explanation ==> isAnswered)
    }

    /** Mounting: first question of the first set, score zero, nothing loaded yet. */
    constructor(topic: Topic, apiKey: string)
      ensures Valid()
      ensures this.topic == topic && this.apiKey == apiKey
      ensures quizSets == None && setIndex == 0 && questionIndex == 0 && score == 0
      ensures selected == None && !isAnswered && view == Loading && error == None
      ensures image == NoImage && imageError == None && !gracePending && outcomes == []
    {
      this.topic := topic;
      this.apiKey := apiKey;
      quizSets := None;
      setIndex := 0;
      questionIndex := 0;
      score := 0;
      selected := None;
      isAnswered := false;
      view := Loading;
      error := None;
      image := NoImage;
      imageError := None;
      gracePending := false;
      outcomes := [];
    }

    /**
     * `currentQuestion`: the question at the current position, or none
     * when nothing is loaded or the position is outside the sets.
     */
    function CurrentQuestion(): (r: Option<Question>)
      reads this
      ensures r.Some? ==> quizSets.Some? && setIndex < |quizSets.value|
                          && questionIndex < |quizSets.value[setIndex]|
                          && r.value == quizSets.value[setIndex][questionIndex]
      ensures r.None? ==> quizSets.None? || setIndex >= |quizSets.value|
                          || questionIndex >= |quizSets.value[setIndex]|
    {
      if quizSets.None? then None
      else
        var sets := quizSets.value;
        if setIndex < |sets| && questionIndex < |sets[setIndex]| then
          Some(sets[setIndex][questionIndex])
        else
          None
    }

    /**
     * The fetch on mount: the view shows the loader while the content call
     * runs; a quiz moves to the first question; a failure whose message
     * names the invalid key reports `apiKeyInvalid` and stays on the
     * loader; any other failure is stored and shown.
     */
    method LoadQuiz(reply: ContentReply) returns (apiKeyInvalid: bool)
      requires Valid()
      modifies this`view, this`error, this`quizSets
      ensures Valid()
      ensures Sufficient(reply) ==>
                && !apiKeyInvalid && view == QuestionView && error == None && quizSets.Some?
                && Flatten(quizSets.value) == reply.questions[..TotalQuestionsPerTopic]
      ensures !Sufficient(reply) ==>
                && quizSets == old(quizSets)
                && (apiKeyInvalid <==> RoutesToKeySetup(RejectionMessage(reply)))
                && (apiKeyInvalid ==> view == Loading && error == None)
                && (!apiKeyInvalid ==> view == ErrorView && error == Some(RejectionMessage(reply)))
      ensures unchanged(this`setIndex, this`questionIndex, this`score, this`selected, this`isAnswered)
      ensures unchanged(this`image, this`imageError, this`gracePending, this`outcomes)
    {
      view := Loading;
      error := None;
      var r := GenerateQuiz(reply);
      match r {
        case Success(data) =>
          ShowQuiz(data);
          apiKeyInvalid := false;
        case Failure(message) =>
          apiKeyInvalid := ShowFailure(message);
      }
    }

    /** The success path of the fetch: the sets are stored and the first question shows. */
    method ShowQuiz(data: seq<QuizSet>)
      requires Valid() && WellShaped(data)
      modifies this`view, this`quizSets
      ensures Valid()
      ensures quizSets == Some(data) && view == QuestionView
    {
      quizSets := Some(data);
      view := QuestionView;
    }

    /**
     * The failure path of the fetch: a message naming the invalid key is
     * reported and nothing else changes; any other is stored and shown.
     */
    method ShowFailure(message: string) returns (apiKeyInvalid: bool)
      requires Valid() && view != Explanation
      modifies this`view, this`error
      ensures Valid()
      ensures apiKeyInvalid <==> RoutesToKeySetup(message)
      ensures apiKeyInvalid ==> view == old(view) && error == old(error)
      ensures !apiKeyInvalid ==> view == ErrorView && error == Some(message)
    {
      if RoutesToKeySetup(message) {
        apiKeyInvalid := true;
      } else {
        error := Some(message);
        view := ErrorView;
        apiKeyInvalid := false;
      }
    }

    /**
     * The image effect: on the question view with a question present, the
     * slot shows the loader, the old failure text is cleared and the
     * question's image prompt is sent; otherwise nothing happens.
     */
    method RequestImage() returns (prompt: Option<string>)
      requires Valid()
      modifies this`image, this`imageError
      ensures Valid()
      ensures prompt.Some? <==> old(view) == QuestionView && CurrentQuestion().Some?
      ensures prompt.Some? ==> prompt.value == CurrentQuestion().value.imagePrompt
                               && image == ImageLoading && imageError == None
      ensures prompt.None? ==> image == old(image) && imageError == old(imageError)
    {
      var q := CurrentQuestion();
      if view == QuestionView && q.Some? {
        image := ImageLoading;
        imageError := None;
        prompt := Some(q.value.imagePrompt);
      } else {
        prompt := None;
      }
    }

    /**
     * The image call settles: the first payload becomes a JPEG data URL;
     * a failure marks the slot failed and keeps the message. No check
     * ties the result to the question that asked for it.
     */
    method ImageResolved(reply: ImageReply)
      requires Valid()
      modifies this`image, this`imageError
      ensures Valid()
      ensures GenerateImage(reply).Success? ==>
                image == ImageData(ImageUrlPrefix + GenerateImage(reply).value) && imageError == old(imageError)
      ensures GenerateImage(reply).Failure? ==>
                image == ImageFailed && imageError == Some(GenerateImage(reply).error)
    {
      match GenerateImage(reply) {
        case Success(bytes) =>
          image := ImageData(ImageUrlPrefix + bytes);
        case Failure(message) =>
          image := ImageFailed;
          imageError := Some(message);
      }
    }

    /**
     * `handleAnswerSelect`: ignored once the question is decided;
     * otherwise it latches the question, records the choice, adds one
     * point exactly when the choice is the correct answer, and shows the
     * explanation at once.
     */
    method AnswerSelect(answer: string)
      requires Valid()
      modifies this`isAnswered, this`selected, this`score, this`view, this`outcomes
      ensures Valid()
      ensures old(isAnswered) ==>
                && isAnswered && selected == old(selected) && score == old(score) && view == old(view)
                && outcomes == old(outcomes)
      ensures !old(isAnswered) ==>
                && isAnswered && selected == Some(answer) && view == Explanation
                && outcomes == old(outcomes) + [IsCorrect(old(CurrentQuestion()), answer)]
                && score == old(score) + if IsCorrect(old(CurrentQuestion()), answer) then 1 else 0
    {
      if isAnswered {
        return;
      }
      var q := CurrentQuestion();
      isAnswered := true;
      selected := Some(answer);
      CountCorrectSnoc(outcomes, IsCorrect(q, answer));
      outcomes := outcomes + [IsCorrect(q, answer)];
      if IsCorrect(q, answer) {
        score := score + 1;
      }
      view := Explanation;
    }

    /**
     * `handleTimeUp`: ignored once the question is decided; otherwise it
     * latches the question with no selection, keeps the score and the
     * question view, and schedules the switch to the explanation.
     */
    method TimeUp()
      requires Valid()
      modifies this`isAnswered, this`selected, this`gracePending, this`outcomes
      ensures Valid()
      ensures old(isAnswered) ==>
                && isAnswered && selected == old(selected) && gracePending == old(gracePending)
                && outcomes == old(outcomes)
      ensures !old(isAnswered) ==>
                isAnswered && selected == None && gracePending && outcomes == old(outcomes) + [false]
    {
      if isAnswered {
        return;
      }
      CountCorrectSnoc(outcomes, false);
      outcomes := outcomes + [false];
      isAnswered := true;
      selected := None;
      gracePending := true;
    }

    /** The delay after a time-up has passed: the explanation is shown. */
    method GraceElapsed()
      requires Valid() && gracePending
      modifies this`view, this`gracePending
      ensures Valid()
      ensures view == Explanation && !gracePending
    {
      view := Explanation;
      gracePending := false;
    }

    /**
     * `moveToNextQuestion`, offered on the explanation view: after the
     * tenth question it reports the score and changes nothing; before it,
     * the linear position rises by exactly one (the question index wraps
     * at five into the next set) and the per-question state is cleared.
     */
    method MoveToNextQuestion() returns (finished: Option<nat>)
      requires Valid() && view == Explanation
      modifies this`isAnswered, this`selected, this`image, this`imageError
      modifies this`questionIndex, this`setIndex, this`view
      ensures Valid()
      ensures finished.Some? <==> old(Linear()) + 1 >= TotalQuestionsPerTopic
      ensures finished.Some? ==>
                && finished.value == score && finished.value <= TotalQuestionsPerTopic
                && |outcomes| == TotalQuestionsPerTopic && finished.value == CountCorrect(outcomes)
                && setIndex == old(setIndex) && questionIndex == old(questionIndex)
                && isAnswered == old(isAnswered) && selected == old(selected)
                && image == old(image) && imageError == old(imageError) && view == old(view)
      ensures finished.None? ==>
                && Linear() == old(Linear()) + 1
                && !isAnswered && selected == None && image == NoImage && imageError == None
                && view == QuestionView
    {
      var totalAnswered := setIndex * QuestionsPerSet + questionIndex + 1;
      if totalAnswered >= TotalQuestionsPerTopic {
        return Some(score);
      }
      var nextQuestionIndex := questionIndex + 1;
      var nextSetIndex := setIndex;
      if nextQuestionIndex >= QuestionsPerSet {
        nextQuestionIndex := 0;
        nextSetIndex := nextSetIndex + 1;
      }
      isAnswered := false;
      selected := None;
      image := NoImage;
      imageError := None;
      questionIndex := nextQuestionIndex;
      setIndex := nextSetIndex;
      view := QuestionView;
      finished := None;
    }

    /**
     * The number shown as "Pregunta n / 10": from 1 to 10, and the
     * explanation's button reads "Ver Resultados" exactly on the question
     * after which `MoveToNextQuestion` finishes.
     */
    function QuestionNumber(): (n: nat)
      reads this
      ensures Valid() ==> 1 <= n <= TotalQuestionsPerTopic
      ensures NextButtonLabel(n) == ResultsLabel <==> Linear() + 1 >= TotalQuestionsPerTopic
    {
      Linear() + 1
    }
  }

  /**
   * In a valid session with a loaded quiz the current question is always
   * present, and it is the question at the linear position of the
   * flattened quiz.
   */
  lemma CurrentQuestionIsLinear(session: QuizSession)
    requires session.Valid() && session.quizSets.Some?
    ensures session.CurrentQuestion().Some?
    ensures |Flatten(session.quizSets.value)| == TotalQuestionsPerTopic
    ensures session.CurrentQuestion().value == Flatten(session.quizSets.value)[session.Linear()]
  {
    assert session.setIndex < SetsPerTopic;
    FlattenWellShaped(session.quizSets.value, session.setIndex, session.questionIndex);
  }

  /**
   * `answer === currentQuestion?.correctAnswer`: with no current question
   * the comparison is with `undefined`, which no answer equals. The point
   * awarded and the explanation's title agree: a scored answer is titled
   * correct, an unscored one incorrect.
   */
  predicate IsCorrect(q: Option<Question>, answer: string)
    ensures q.None? ==> !IsCorrect(q, answer)
    ensures q.Some? ==>
              (IsCorrect(q, answer) <==> ExplanationTitle(Some(answer), q.value.correctAnswer) == CorrectTitle)
    ensures q.Some? && !IsCorrect(q, answer) ==>
              ExplanationTitle(Some(answer), q.value.correctAnswer) == IncorrectTitle
  {
    q.Some? && answer == q.value.correctAnswer
  }

  // ---------------------------------------------------------------------
  // Routing of load failures
  // ---------------------------------------------------------------------

  /** The service's invalid-key text passes the screen's test, so that failure resets the key. */
  lemma InvalidKeyMessageRoutesToKeySetup()
    ensures RoutesToKeySetup(InvalidKeyMessage)
  {
    assert InvalidKeyMessage[0..0 + |ApiKeyInvalidMarker|] == ApiKeyInvalidMarker;
    AtContains(InvalidKeyMessage, ApiKeyInvalidMarker, 0);
  }

  /**
   * Which content failures reset the key: every error text with '400'
   * (unless it is a syntax error), and otherwise only a plain error whose
   * own text, wrapped behind the prefix, names the invalid key. Invalid
   * JSON and quota failures never do.
   */
  lemma LoadFailureRouting(e: Thrown)
    ensures RoutesToKeySetup(ContentErrorMessage(e)) <==>
              || (!e.SyntaxError? && Contains(ErrorText(e), "400"))
              || (!e.SyntaxError? && !Contains(ErrorText(e), "400") && !IsQuotaText(ErrorText(e))
                  && Contains(ErrorText(e), ApiKeyInvalidMarker))
  {
    var m := ErrorText(e);
    if e.SyntaxError? {
      InvalidJsonKeepsKey();
    } else if Contains(m, "400") {
      InvalidKeyMessageRoutesToKeySetup();
    } else if IsQuotaText(m) {
      QuotaFailureKeepsKey();
    } else {
      WrappedFailureRouting(m);
    }
  }

  /** A text missing one of the marker's characters does not name the invalid key. */
  lemma MissingMarkerChar(m: string, c: char)
    requires c in ApiKeyInvalidMarker && c !in m
    ensures !RoutesToKeySetup(m)
  {
    MissingCharNotContained(m, ApiKeyInvalidMarker, c);
  }

  lemma InvalidJsonKeepsKey()
    ensures !RoutesToKeySetup(InvalidJsonMessage)
  {
    assert 'c' !in InvalidJsonMessage;
    MissingMarkerChar(InvalidJsonMessage, 'c');
  }

  lemma QuotaFailureKeepsKey()
    ensures !RoutesToKeySetup(ContentQuotaMessage)
  {
    assert 'L' !in ContentQuotaMessage;
    MissingMarkerChar(ContentQuotaMessage, 'L');
  }

  /** Behind the prefix, a text names the invalid key exactly when it did before. */
  lemma WrappedFailureRouting(m: string)
    ensures RoutesToKeySetup(QuizFailurePrefix + m) <==> RoutesToKeySetup(m)
  {
    assert 'L' !in QuizFailurePrefix;
    if Contains(QuizFailurePrefix + m, ApiKeyInvalidMarker) {
      ContainsAfterPrefix(QuizFailurePrefix, m, ApiKeyInvalidMarker);
    }
    if Contains(m, ApiKeyInvalidMarker) {
      ContainsInConcat(m, QuizFailurePrefix, ApiKeyInvalidMarker);
    }
  }

  /** Too few questions is shown on the error view: that text never names the invalid key. */
  lemma InsufficientCountIsShownAsError(n: nat)
    ensures !RoutesToKeySetup(QuizFailurePrefix + InsufficientMessage(n))
  {
    InsufficientPartsHaveNoAccent();
    NoLetterInNumber(n, 'á');
    var msg := QuizFailurePrefix + InsufficientMessage(n);
    CharNotInParts(QuizFailurePrefix, InsufficientLead, NatToString(n), InsufficientTail, 'á');
    MissingMarkerChar(msg, 'á');
  }

  /** A character missing from every part, and not a space, is missing from the count message around them. */
  lemma CharNotInParts(p: string, lead: string, digits: string, tail: string, c: char)
    requires c !in p && c !in lead && c !in digits && c !in tail && c != ' '
    ensures c !in p + (lead + " " + digits + " " + tail)
  {
  }

  lemma InsufficientPartsHaveNoAccent()
    ensures 'á' !in QuizFailurePrefix && 'á' !in InsufficientLead && 'á' !in InsufficientTail
  {
    assert 'á' !in "preguntas, pero " && 'á' !in "se necesitan " && 'á' !in TryAgain;
    CharNotInTail('á');
  }

  // ---------------------------------------------------------------------
  // What the views derive from the session
  // ---------------------------------------------------------------------

  const TimeUpTitle := "¡Se acabó el tiempo!"
  const CorrectTitle := "¡Respuesta Correcta!"
  const IncorrectTitle := "Respuesta Incorrecta"

  /** The explanation heading: no selection means the time ran out. */
  function ExplanationTitle(selected: Option<string>, correctAnswer: string): (title: string)
    ensures title == TimeUpTitle <==> selected.None?
    ensures title == CorrectTitle <==> selected == Some(correctAnswer)
    ensures title == IncorrectTitle <==> selected.Some? && selected.value != correctAnswer
  {
    assert TimeUpTitle[1] != CorrectTitle[1] && IncorrectTitle[0] != TimeUpTitle[0];
    assert IncorrectTitle[0] != CorrectTitle[0];
    if selected.None? then TimeUpTitle
    else if selected.value == correctAnswer then CorrectTitle
    else IncorrectTitle
  }

  const ResultsLabel := "Ver Resultados"
  const NextLabel := "Siguiente"

  /** The explanation's button leads to the results exactly on the tenth question. */
  function NextButtonLabel(questionNumber: nat): (text: string)
    ensures text == ResultsLabel <==> questionNumber >= TotalQuestionsPerTopic
    ensures text == NextLabel <==> questionNumber < TotalQuestionsPerTopic
  {
    assert ResultsLabel[0] != NextLabel[0];
    if questionNumber >= TotalQuestionsPerTopic then ResultsLabel else NextLabel
  }

  /** The two lines shown in a failed illustration slot. */
  datatype FailureNotice = FailureNotice(title: string, detail: string)

  const QuotaNotice := FailureNotice("Límite de imágenes alcanzado", "Has excedido la cuota gratuita de la API.")
  const GenericNotice := FailureNotice("Error al cargar imagen", "El cuestionario continuará.")

  /** The failed-slot notice as the screen chooses it: quota wording when the text includes 'cuota'. */
  function ImageFailureNotice(imageError: Option<string>): (n: FailureNotice)
    ensures n == QuotaNotice <==> imageError.Some? && Contains(imageError.value, "cuota")
    ensures n == GenericNotice <==> !(imageError.Some? && Contains(imageError.value, "cuota"))
  {
    assert QuotaNotice.title[0] != GenericNotice.title[0];
    if imageError.Some? && Contains(imageError.value, "cuota") then QuotaNotice else GenericNotice
  }

  /** The failed-slot notice keyed on the code the image service throws for quota errors. */
  function IntendedImageFailureNotice(imageError: Option<string>): (n: FailureNotice)
    ensures n == QuotaNotice <==> imageError == Some(QuotaExceededCode)
    ensures n == GenericNotice <==> imageError != Some(QuotaExceededCode)
  {
    assert QuotaNotice.title[0] != GenericNotice.title[0];
    if imageError == Some(QuotaExceededCode) then QuotaNotice else GenericNotice
  }

  /** How an answer button looks. */
  datatype OptionLook = RevealCorrect | Faded | Plain

  /**
   * `getButtonClass`: after a time-up (latched, nothing selected) the
   * correct answer is highlighted and the others faded; in every other
   * state all buttons look the same.
   */
  function OptionLookOf(isAnswered: bool, selected: Option<string>, correctAnswer: string, option: string)
    : (look: OptionLook)
    ensures look == RevealCorrect <==> isAnswered && selected.None? && option == correctAnswer
    ensures look == Faded <==> isAnswered && selected.None? && option != correctAnswer
    ensures look == Plain <==> !(isAnswered && selected.None?)
  {
    if isAnswered && selected == None then
      if option == correctAnswer then RevealCorrect else Faded
    else
      Plain
  }

  /**
   * As written, a quota failure of the image call never gets the quota
   * notice: the service replaces it by the code 'QUOTA_EXCEEDED', which
   * does not include 'cuota'.
   */
  lemma QuotaImageErrorGetsGenericNotice(e: Thrown)
    requires IsQuotaText(ErrorText(e))
    ensures ImageFailureNotice(Some(ImageErrorMessage(e))) == GenericNotice
  {
    assert ImageErrorMessage(e) == QuotaExceededCode;
    MissingCharNotContained(QuotaExceededCode, "cuota", 'c');
  }

  /** Keyed on the service's code, the quota notice shows exactly for quota failures. */
  lemma IntendedNoticeMatchesQuota(e: Thrown)
    ensures IntendedImageFailureNotice(Some(ImageErrorMessage(e))) == QuotaNotice <==> IsQuotaText(ErrorText(e))
  {
  }
}
