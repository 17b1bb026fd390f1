/**
 * The content and illustration fetchers. The remote generation calls are
 * not modelled: a call is represented by its outcome, either the parsed
 * reply or the value it threw. A parsed reply is taken to be an array of
 * complete question records, as the `as Question[]` cast presumes. What
 * is modelled is what the service does with that outcome: the count
 * check, the truncation to ten questions, the chunking into sets of five,
 * the final shape check, and the classification of every thrown value
 * into the message the caller sees.
 */
module GeminiService {
  import opened Types
  import opened Strings
  import opened Constants

  // ---------------------------------------------------------------------
  // Topic guidance embedded in the content request
  // ---------------------------------------------------------------------

  const GeneralContext := "Cultura general."
  const SpecificLead := "Preguntas "
  const BiodiversityContext := SpecificLead + BiodiversityDetail
  const BiodiversityDetail := "de cultura general sobre ecología, animales y plantas famosos o curiosos, y conceptos ambientales básicos que todos deberían conocer. Ej: ¿Qué gas absorben las plantas?, ¿Cuál es el mamífero más grande?"
  const ZoologyContext := SpecificLead + ZoologyDetail
  const ZoologyDetail := "de cultura general sobre animales: récords (el más rápido, el más grande), animales icónicos, grupos de animales (mamíferos, insectos) y curiosidades que la mayoría de la gente podría saber. Evitar terminología científica compleja."
  const HistoryContext := SpecificLead + HistoryDetail
  const HistoryDetail := "sobre eventos históricos mundiales muy conocidos, personajes famosos (reyes, inventores, líderes), y civilizaciones icónicas de una manera accesible. Enfocarse en hechos culturales populares, evitando fechas y datos demasiado específicos."
  const ReligionContext := SpecificLead + ReligionDetail
  const ReligionDetail := "de conocimiento general sobre las principales religiones del mundo (Cristianismo, Islam, Judaísmo, Budismo, Hinduismo) y mitologías famosas (griega, romana). Enfocado en símbolos, figuras clave y festividades más conocidas, no en teología profunda."
  const GeographyContext := SpecificLead + GeographyDetail
  const GeographyDetail := "de cultura general sobre geografía: capitales de países importantes, ríos y montañas famosos, banderas, y lugares icónicos que la gente reconoce (Torre Eiffel, Gran Muralla China, etc.)."
  const ScienceTechContext := SpecificLead + ScienceTechDetail
  const ScienceTechDetail := "de cultura general sobre ciencia y tecnología: inventos que cambiaron el mundo (rueda, imprenta, internet), científicos famosos (Einstein, Newton, Curie), y conceptos básicos del cuerpo humano y del espacio."
  const ArtLiteratureContext := SpecificLead + ArtLiteratureDetail
  const ArtLiteratureDetail := "de cultura general sobre arte y literatura: pintores y obras maestras famosas (Mona Lisa, El Grito), autores y libros clásicos conocidos mundialmente (Don Quijote, Romeo y Julieta), y movimientos artísticos básicos."
  const SportsContext := SpecificLead + SportsDetail
  const SportsDetail := "de cultura general sobre deportes: reglas básicas de deportes populares (fútbol, baloncesto), atletas legendarios (Michael Jordan, Pelé), y eventos mundiales importantes como los Juegos Olímpicos o la Copa del Mundo."

  /**
   * The guidance text for a topic; every topic not offered gets the
   * general one. Long texts are split into named parts.
   */
  function GetTopicContext(topic: Topic): string
  {
    match topic
    case Biodiversity => BiodiversityContext
    case Zoology => ZoologyContext
    case History => HistoryContext
    case Religion => ReligionContext
    case Geography => GeographyContext
    case ScienceTech => ScienceTechContext
    case ArtLiterature => ArtLiteratureContext
    case Sports => SportsContext
    case _ => GeneralContext
  }

  /** The lookup is total, and exactly the offered topics get a specific text. */
  lemma TopicContextCoversOfferedTopics(t: Topic)
    ensures GetTopicContext(t) != GeneralContext <==> t in Topics
  {
    if t in Topics {
      OfferedTopicHasSpecificContext(t);
    }
  }

  /** Each offered topic has a text other than the general one. */
  lemma OfferedTopicHasSpecificContext(t: Topic)
    requires t in Topics
    ensures GetTopicContext(t) != GeneralContext
  {
    match t
    case Biodiversity => SpecificIsNotGeneral(BiodiversityDetail);
    case Zoology => SpecificIsNotGeneral(ZoologyDetail);
    case History => SpecificIsNotGeneral(HistoryDetail);
    case Religion => SpecificIsNotGeneral(ReligionDetail);
    case Geography => SpecificIsNotGeneral(GeographyDetail);
    case ScienceTech => SpecificIsNotGeneral(ScienceTechDetail);
    case ArtLiterature => SpecificIsNotGeneral(ArtLiteratureDetail);
    case Sports => SpecificIsNotGeneral(SportsDetail);
  }

  /** A text opening with the specific lead is never the general one. */
  lemma SpecificIsNotGeneral(detail: string)
    ensures SpecificLead + detail != GeneralContext
  {
    assert (SpecificLead + detail)[0] == 'P';
    assert GeneralContext[0] == 'C';
  }

  // ---------------------------------------------------------------------
  // Thrown values and their messages
  // ---------------------------------------------------------------------

  /** What a `catch` can receive: a SyntaxError, another Error, or a non-Error value. */
  datatype Thrown = SyntaxError(message: string) | Error(message: string) | NonError

  const UnknownErrorText := "Un error desconocido" + " ocurrió"

  /**
   * The text a `catch` inspects: an Error's own message, or a fixed text
   * for any other thrown value. That fixed text holds no digit 4 and no
   * capital R, so it can carry no status code.
   */
  function ErrorText(e: Thrown): (m: string)
    ensures !e.NonError? ==> m == e.message
    ensures e.NonError? ==> m == UnknownErrorText && '4' !in m && 'R' !in m
  {
    if e.NonError? then UnknownErrorText else e.message
  }

  const TryAgain := " Por favor, inténtalo de nuevo."
  const InvalidJsonMessage := "La respuesta de la IA no era un JSON" + " válido." + TryAgain
  const InvalidKeyMessage := "La clave de API no es válida" + " o ha caducado." + " Por favor, verifica tu clave."
  const ContentQuotaMessage := "Se ha excedido la cuota de la API" + " para generar preguntas."
                               + " Por favor, inténtalo de nuevo" + " más tarde."
  const QuizFailurePrefix := "No se pudo generar el cuestionario: "
  const InternalShapeMessage := "Error interno al procesar" + " los datos del cuestionario."
  const QuotaExceededCode := "QUOTA_EXCEEDED"
  const NoImageMessage := "La IA no generó ninguna imagen."
  const ImageFailurePrefix := "No se pudo generar la imagen: "

  const InsufficientLead := "La IA generó solo"

  /**
   * The text of the error thrown when the generator returns only `n`
   * questions: the count, in decimal, stands right after the lead words
   * and is followed by a space, and the text names the required ten.
   */
  function InsufficientMessage(n: nat): (r: string)
    ensures StartsWith(r, InsufficientLead + " ")
    ensures |r| > |InsufficientLead| + 1 + |NatToString(n)|
    ensures r[|InsufficientLead| + 1..|InsufficientLead| + 1 + |NatToString(n)|] == NatToString(n)
    ensures r[|InsufficientLead| + 1 + |NatToString(n)|] == ' '
    ensures Contains(r, "se necesitan 10")
  {
    TailNamesRequired(InsufficientLead + " " + NatToString(n) + " ");
    InsufficientLead + " " + NatToString(n) + " " + InsufficientTail
  }

  /** The count error names the count: different counts give different texts. */
  lemma InsufficientMessageNamesCount(m: nat, n: nat)
    ensures InsufficientMessage(m) == InsufficientMessage(n) <==> m == n
  {
    if InsufficientMessage(m) == InsufficientMessage(n) {
      var r := InsufficientMessage(m);
      var i := |InsufficientLead| + 1;
      assert |r| == i + |NatToString(m)| + 1 + |InsufficientTail|;
      assert |r| == i + |NatToString(n)| + 1 + |InsufficientTail|;
      assert NatToString(m) == r[i..i + |NatToString(m)|] == NatToString(n);
      NatToStringInjective(m, n);
    }
  }

  /** The words naming the required count, "se necesitan 10". */
  const RequiredCount := "se necesitan " + NatToString(TotalQuestionsPerTopic)
  const InsufficientTail := "preguntas, pero " + RequiredCount + "." + TryAgain

  lemma RequiredCountIsTen()
    ensures RequiredCount == "se necesitan 10"
  {
    assert NatToString(TotalQuestionsPerTopic) == "10" by {
      assert NatToString(1) == "1";
      assert NatToString(10) == NatToString(1) + [DigitChar(0)];
    }
  }

  /** Whatever precedes it, the tail of the count message names the required count. */
  lemma TailNamesRequired(head: string)
    ensures Contains(head + InsufficientTail, "se necesitan 10")
  {
    RequiredCountIsTen();
    assert head + InsufficientTail == (head + "preguntas, pero ") + RequiredCount + ("." + TryAgain);
    ContainsMiddle(head + "preguntas, pero ", RequiredCount, "." + TryAgain);
  }

  predicate IsQuotaText(m: string) {
    Contains(m, "429") || Contains(m, "RESOURCE_EXHAUSTED")
  }

  /**
   * The `catch` of the content fetch: the message of the error it
   * rethrows. The checks run in a fixed order (syntax error, '400',
   * quota, anything else), and the resulting text tells which one fired.
   */
  function ContentErrorMessage(e: Thrown): (msg: string)
    ensures msg == InvalidJsonMessage <==> e.SyntaxError?
    ensures msg == InvalidKeyMessage <==> !e.SyntaxError? && Contains(ErrorText(e), "400")
    ensures msg == ContentQuotaMessage <==>
              !e.SyntaxError? && !Contains(ErrorText(e), "400") && IsQuotaText(ErrorText(e))
    ensures StartsWith(msg, QuizFailurePrefix) <==>
              !e.SyntaxError? && !Contains(ErrorText(e), "400") && !IsQuotaText(ErrorText(e))
    ensures StartsWith(msg, QuizFailurePrefix) ==> msg == QuizFailurePrefix + ErrorText(e)
  {
    ContentMessagesDistinct();
    if e.SyntaxError? then
      InvalidJsonMessage
    else
      var m := ErrorText(e);
      if Contains(m, "400") then InvalidKeyMessage
      else if IsQuotaText(m) then ContentQuotaMessage
      else QuizFailurePrefix + m
  }

  /** The four kinds of content message cannot be mistaken for one another. */
  lemma ContentMessagesDistinct()
    ensures InvalidJsonMessage != InvalidKeyMessage && InvalidJsonMessage != ContentQuotaMessage
    ensures InvalidKeyMessage != ContentQuotaMessage
    ensures !StartsWith(InvalidJsonMessage, QuizFailurePrefix)
    ensures !StartsWith(InvalidKeyMessage, QuizFailurePrefix)
    ensures !StartsWith(ContentQuotaMessage, QuizFailurePrefix)
    ensures forall m :: QuizFailurePrefix + m != InvalidJsonMessage
    ensures forall m :: QuizFailurePrefix + m != InvalidKeyMessage
    ensures forall m :: QuizFailurePrefix + m != ContentQuotaMessage
  {
    assert 'c' !in InvalidJsonMessage && 'c' in InvalidKeyMessage;
    FirstCharDiffers(InvalidJsonMessage, QuizFailurePrefix);
    FirstCharDiffers(InvalidKeyMessage, QuizFailurePrefix);
    FirstCharDiffers(ContentQuotaMessage, QuizFailurePrefix);
  }

  /** A text carrying both an invalid-request and a quota code classifies as an invalid key. */
  lemma BadRequestTakesPrecedence(m: string)
    requires Contains(m, "400") && Contains(m, "429")
    ensures ContentErrorMessage(Error(m)) == InvalidKeyMessage
    ensures ImageErrorMessage(Error(m)) == QuotaExceededCode
  {
  }

  /** A message made of words around a short middle word misses a word-free text. */
  lemma NotInSpacedText(a: string, d: string, b: string, t: string, c: char)
    requires ' ' !in t && c in t && c !in a && c !in b && |d| < |t|
    ensures !Contains(a + " " + d + " " + b, t)
  {
    assert a + " " + d + " " + b == a + [' '] + (d + [' '] + b);
    if Contains(a + [' '] + (d + [' '] + b), t) {
      ContainsSplit(a, ' ', d + [' '] + b, t);
      if Contains(a, t) {
        ContainsChars(a, t, c);
      } else {
        ContainsSplit(d, ' ', b, t);
        if Contains(d, t) {
          ContainsAt(d, t);
        } else {
          ContainsChars(b, t, c);
        }
      }
    }
  }

  /**
   * The count error raised inside the `try` reaches its own `catch`, which
   * finds no code in it and rethrows it behind the generic prefix.
   */
  lemma InsufficientErrorIsRewrapped(n: nat)
    requires n < TotalQuestionsPerTopic
    ensures ContentErrorMessage(Error(InsufficientMessage(n))) == QuizFailurePrefix + InsufficientMessage(n)
  {
    var lead := InsufficientLead;
    InsufficientTailHasNoCode();
    NotInSpacedText(lead, NatToString(n), InsufficientTail, "400", '4');
    NotInSpacedText(lead, NatToString(n), InsufficientTail, "429", '4');
    NotInSpacedText(lead, NatToString(n), InsufficientTail, "RESOURCE_EXHAUSTED", 'R');
  }

  lemma InsufficientTailHasNoCode()
    ensures '4' !in InsufficientTail && 'R' !in InsufficientTail
  {
    CharNotInTail('4');
    CharNotInTail('R');
  }

  /** A character missing from each of the tail's pieces is missing from the tail. */
  lemma CharNotInTail(c: char)
    requires c !in "preguntas, pero " && c !in "se necesitan " && c !in "10"
    requires c != '.' && c !in TryAgain
    ensures c !in InsufficientTail
  {
    RequiredCountIsTen();
  }


  // ---------------------------------------------------------------------
  // Validation and reshaping of the question list
  // ---------------------------------------------------------------------

  /**
   * Consecutive slices of `size` questions, the last one possibly
   * shorter: what `slice(i, i + size)` for `i = 0, size, 2 * size, ...` gives.
   */
  function Chunks(s: seq<Question>, size: nat): (r: seq<QuizSet>)
    requires size > 0
    ensures r == [] <==> s == []
    ensures forall k :: 0 <= k < |r| ==> 0 < |r[k]| <= size
    ensures forall k :: 0 <= k < |r| - 1 ==> |r[k]| == size
    decreases |s|
  {
    if |s| == 0 then []
    else if |s| <= size then [s]
    else [s[..size]] + Chunks(s[size..], size)
  }

  /** Concatenating the chunks gives back the list. */
  lemma {:induction false} FlattenChunks(s: seq<Question>, size: nat)
    requires size > 0
    ensures Flatten(Chunks(s, size)) == s
  {
    if |s| == 0 {
    } else if |s| <= size {
      assert Flatten([s]) == s + Flatten([]);
    } else {
      FlattenChunks(s[size..], size);
      FlattenConcat([s[..size]], Chunks(s[size..], size));
      assert Flatten([s[..size]]) == s[..size] + Flatten([]);
      assert s[..size] + s[size..] == s;
    }
  }

  /** A list of `k` times `size` questions gives `k` full chunks. */
  lemma {:induction false} ChunksOfMultiple(s: seq<Question>, size: nat, k: nat)
    requires size > 0 && |s| == k * size
    ensures |Chunks(s, size)| == k
    ensures forall j :: 0 <= j < k ==> |Chunks(s, size)[j]| == size
  {
    if k == 0 {
    } else if k == 1 {
    } else {
      assert |s[size..]| == (k - 1) * size;
      ChunksOfMultiple(s[size..], size, k - 1);
      assert |s| > size;
    }
  }

  /** The shape the quiz screen expects: two sets of five. */
  predicate WellShaped(data: seq<QuizSet>) {
    |data| == SetsPerTopic && forall k :: 0 <= k < |data| ==> |data[k]| == QuestionsPerSet
  }

  /**
   * Ten questions always chunk into two sets of five, so for a reply that
   * is an array of questions the final shape check cannot fail.
   */
  lemma TenQuestionsAreWellShaped(s: seq<Question>)
    requires |s| == TotalQuestionsPerTopic
    ensures WellShaped(Chunks(s, QuestionsPerSet))
  {
    ChunksOfMultiple(s, QuestionsPerSet, SetsPerTopic);
  }

  /** The chunking loop: steps `i` by five and appends the slice starting at `i`. */
  method ChunkQuestions(validated: seq<Question>) returns (quizData: seq<QuizSet>)
    ensures quizData == Chunks(validated, QuestionsPerSet)
  {
    quizData := [];
    var i := 0;
    while i < |validated|
      invariant 0 <= i
      invariant i <= |validated| ==>
                  quizData + Chunks(validated[i..], QuestionsPerSet) == Chunks(validated, QuestionsPerSet)
      invariant i > |validated| ==> quizData == Chunks(validated, QuestionsPerSet)
      decreases |validated| - i
    {
      var rest := validated[i..];
      var end := if i + QuestionsPerSet < |validated| then i + QuestionsPerSet else |validated|;
      if |rest| > QuestionsPerSet {
        assert rest[..QuestionsPerSet] == validated[i..end];
        assert rest[QuestionsPerSet..] == validated[i + QuestionsPerSet..];
      } else {
        assert rest == validated[i..end];
      }
      quizData := quizData + [validated[i..end]];
      i := i + QuestionsPerSet;
    }
  }

  /** A reply of the content call: the parsed list, or the value thrown by the call or by the parse. */
  datatype ContentReply = Parsed(questions: seq<Question>) | Threw(error: Thrown)

  /** How the `try` block ends: it returns the sets, or something is thrown. */
  datatype TryOutcome = Returned(data: seq<QuizSet>) | Raised(error: Thrown)

  /** The `try` block of the content fetch, from the reply onwards. */
  method QuizFromReply(reply: ContentReply) returns (out: TryOutcome)
    ensures reply.Threw? ==> out == Raised(reply.error)
    ensures reply.Parsed? && |reply.questions| < TotalQuestionsPerTopic ==>
              out == Raised(Error(InsufficientMessage(|reply.questions|)))
    ensures reply.Parsed? && |reply.questions| >= TotalQuestionsPerTopic ==>
              out == Returned(Chunks(reply.questions[..TotalQuestionsPerTopic], QuestionsPerSet))
  {
    match reply {
      case Threw(e) =>
        out := Raised(e);
      case Parsed(allQuestions) =>
        var validated := allQuestions;
        if |validated| < TotalQuestionsPerTopic {
          out := Raised(Error(InsufficientMessage(|validated|)));
          return;
        }
        if |validated| > TotalQuestionsPerTopic {
          validated := validated[..TotalQuestionsPerTopic];
        }
        assert validated == allQuestions[..TotalQuestionsPerTopic];
        var quizData := ChunkQuestions(validated);
        TenQuestionsAreWellShaped(validated);
        if |quizData| != SetsPerTopic || exists k :: 0 <= k < |quizData| && |quizData[k]| != QuestionsPerSet {
          out := Raised(Error(InternalShapeMessage));
          return;
        }
        out := Returned(quizData);
    }
  }

  /** The reply holds enough questions for a quiz. */
  predicate Sufficient(reply: ContentReply) {
    reply.Parsed? && |reply.questions| >= TotalQuestionsPerTopic
  }

  /** The message a reply without enough questions is rejected with. */
  function RejectionMessage(reply: ContentReply): (m: string)
    requires !Sufficient(reply)
    ensures reply.Parsed? ==> StartsWith(m, QuizFailurePrefix) && Contains(m, "se necesitan 10")
  {
    match reply
    case Threw(e) => ContentErrorMessage(e)
    case Parsed(qs) =>
      ContainsInConcat(InsufficientMessage(|qs|), QuizFailurePrefix, "se necesitan 10");
      QuizFailurePrefix + InsufficientMessage(|qs|)
  }

  /**
   * `generateQuiz`: succeeds exactly when the reply holds at least ten
   * questions, and then yields the first ten, in order, as two sets of
   * five; every failure is a message from the classification.
   */
  method GenerateQuiz(reply: ContentReply) returns (r: Result<seq<QuizSet>, string>)
    ensures r.Success? <==> Sufficient(reply)
    ensures r.Success? ==> WellShaped(r.value) && Flatten(r.value) == reply.questions[..TotalQuestionsPerTopic]
    ensures r.Failure? ==> r.error == RejectionMessage(reply)
  {
    var out := QuizFromReply(reply);
    match out {
      case Returned(data) =>
        r := Success(data);
        TenQuestionsAreWellShaped(reply.questions[..TotalQuestionsPerTopic]);
        FlattenChunks(reply.questions[..TotalQuestionsPerTopic], QuestionsPerSet);
      case Raised(e) =>
        r := Failure(ContentErrorMessage(e));
        if reply.Parsed? {
          InsufficientErrorIsRewrapped(|reply.questions|);
        }
    }
  }

  // ---------------------------------------------------------------------
  // Illustrations
  // ---------------------------------------------------------------------

  /** A reply of the image call: the list of generated image payloads (possibly missing), or a thrown value. */
  datatype ImageReply = Images(generated: Option<seq<string>>) | ImageThrew(error: Thrown)

  /**
   * The `catch` of the image fetch: quota codes are checked first and
   * give exactly the quota code; then '400' gives the invalid-key text;
   * anything else is wrapped behind the image prefix.
   */
  function ImageErrorMessage(e: Thrown): (msg: string)
    ensures msg == QuotaExceededCode <==> IsQuotaText(ErrorText(e))
    ensures msg == InvalidKeyMessage <==> !IsQuotaText(ErrorText(e)) && Contains(ErrorText(e), "400")
    ensures StartsWith(msg, ImageFailurePrefix) <==>
              !IsQuotaText(ErrorText(e)) && !Contains(ErrorText(e), "400")
    ensures StartsWith(msg, ImageFailurePrefix) ==> msg == ImageFailurePrefix + ErrorText(e)
  {
    ImageMessagesDistinct();
    var m := ErrorText(e);
    if IsQuotaText(m) then QuotaExceededCode
    else if Contains(m, "400") then InvalidKeyMessage
    else ImageFailurePrefix + m
  }

  /** The three kinds of image message cannot be mistaken for one another. */
  lemma ImageMessagesDistinct()
    ensures QuotaExceededCode != InvalidKeyMessage
    ensures !StartsWith(QuotaExceededCode, ImageFailurePrefix)
    ensures !StartsWith(InvalidKeyMessage, ImageFailurePrefix)
    ensures forall m :: ImageFailurePrefix + m != QuotaExceededCode
    ensures forall m :: ImageFailurePrefix + m != InvalidKeyMessage
  {
    FirstCharDiffers(QuotaExceededCode, ImageFailurePrefix);
    FirstCharDiffers(InvalidKeyMessage, ImageFailurePrefix);
  }

  /** `generateImage`: the first payload, or the classified message of what was thrown. */
  function GenerateImage(reply: ImageReply): (r: Result<string, string>)
    ensures r.Success? <==> reply.Images? && reply.generated.Some? && |reply.generated.value| > 0
    ensures r.Success? ==> r.value == reply.generated.value[0]
    ensures reply.ImageThrew? ==> r == Failure(ImageErrorMessage(reply.error))
  {
    match reply
    case ImageThrew(e) => Failure(ImageErrorMessage(e))
    case Images(generated) =>
      if generated.None? || |generated.value| == 0 then
        Failure(ImageErrorMessage(Error(NoImageMessage)))
      else
        Success(generated.value[0])
  }

  /** A reply without images fails, and the `catch` wraps that error too. */
  lemma EmptyImageReplyIsRewrapped(generated: Option<seq<string>>)
    requires generated.None? || |generated.value| == 0
    ensures GenerateImage(Images(generated)) == Failure(ImageFailurePrefix + NoImageMessage)
  {
    PlainImageErrorIsWrapped(NoImageMessage);
  }

  /** A thrown value that is not an Error is wrapped behind the prefix on both paths. */
  lemma UnknownErrorIsWrapped()
    ensures ContentErrorMessage(NonError) == QuizFailurePrefix + UnknownErrorText
    ensures ImageErrorMessage(NonError) == ImageFailurePrefix + UnknownErrorText
  {
    var m := ErrorText(NonError);
    MissingCharNotContained(m, "429", '4');
    MissingCharNotContained(m, "400", '4');
    MissingCharNotContained(m, "RESOURCE_EXHAUSTED", 'R');
  }

  /** An error text with no digit 4 and no capital R carries no code, and is wrapped. */
  lemma PlainImageErrorIsWrapped(m: string)
    requires '4' !in m && 'R' !in m
    ensures ImageErrorMessage(Error(m)) == ImageFailurePrefix + m
  {
    MissingCharNotContained(m, "429", '4');
    MissingCharNotContained(m, "400", '4');
    MissingCharNotContained(m, "RESOURCE_EXHAUSTED", 'R');
  }
}
