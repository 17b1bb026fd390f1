/**
 * The top-level screen flow: key setup, topic selection, the quiz and the
 * results, with the key kept in browser storage under 'gemini_api_key'
 * (modelled as a map from storage keys to stored texts).
 */
module App {
  import opened Types
  import opened Constants
  import opened Results

  datatype GameState = ApiKeySetupState | SelectingTopic | InQuiz | ResultsState

  /** What `renderContent` puts on screen; `Blank` is the in-quiz case whose guard fails. */
  datatype Screen =
    | KeySetupScreen
    | TopicScreen
    | QuizScreen(topic: Topic, apiKey: string)
    | ResultsScreen(score: nat, totalQuestions: nat, quizData: Option<seq<QuizSet>>)
    | Blank

  /** JavaScript truthiness of an optional string: present and not empty. */
  predicate Truthy(s: Option<string>) {
    s.Some? && s.value != ""
  }

  /** The storage key the credential is kept under. */
  const StorageKey := "gemini_api_key"

  class App {
    var gameState: GameState
    var selectedTopic: Option<Topic>
    var finalScore: nat
    var apiKey: Option<string>
    var completedQuizData: Option<seq<QuizSet>>
    /** The browser's local storage. */
    var storage: map<string, string>

    /** `localStorage.getItem(StorageKey)`. */
    function StoredKey(): (k: Option<string>)
      reads this
      ensures k.Some? <==> StorageKey in storage
      ensures k.Some? ==> k.value == storage[StorageKey]
    {
      if StorageKey in storage then Some(storage[StorageKey]) else None
    }

    /** A key held in memory is the stored one, and the quiz screen always has a topic. */
    predicate Valid()
      reads this
    {
      && (apiKey.Some? ==> StoredKey() == apiKey)
      && (gameState == InQuiz ==> selectedTopic.Some?)
    }

    /** Every screen past the key setup has a usable key. */
    predicate HasUsableKey()
      reads this
    {
      gameState != ApiKeySetupState ==> Truthy(apiKey)
    }

    /**
     * Start-up: a non-empty stored key is loaded and the topic selection
     * shown; otherwise the key setup.
     */
    constructor(initialStorage: map<string, string>)
      ensures Valid() && HasUsableKey()
      ensures storage == initialStorage && selectedTopic == None && finalScore == 0 && completedQuizData == None
      ensures Truthy(StoredKey()) ==> apiKey == StoredKey() && gameState == SelectingTopic
      ensures !Truthy(StoredKey()) ==> apiKey == None && gameState == ApiKeySetupState
    {
      storage := initialStorage;
      selectedTopic := None;
      finalScore := 0;
      completedQuizData := None;
      var stored := if StorageKey in initialStorage then Some(initialStorage[StorageKey]) else None;
      if Truthy(stored) {
        apiKey := stored;
        gameState := SelectingTopic;
      } else {
        apiKey := None;
        gameState := ApiKeySetupState;
      }
    }

    /** A key is submitted: stored, held, and the topic selection shown. */
    method HandleKeySubmit(key: string)
      requires Valid()
      modifies this`storage, this`apiKey, this`gameState
      ensures Valid()
      ensures storage == old(storage)[StorageKey := key]
      ensures apiKey == Some(key) && gameState == SelectingTopic
      ensures key != "" ==> HasUsableKey()
    {
      storage := storage[StorageKey := key];
      apiKey := Some(key);
      gameState := SelectingTopic;
    }

    /** A topic is chosen: recorded, and the quiz shown. */
    method HandleTopicSelect(topic: Topic)
      requires Valid()
      modifies this`selectedTopic, this`gameState
      ensures Valid()
      ensures selectedTopic == Some(topic) && gameState == InQuiz
      ensures old(HasUsableKey()) && old(gameState) != ApiKeySetupState ==> HasUsableKey()
    {
      selectedTopic := Some(topic);
      gameState := InQuiz;
    }

    /** The quiz ends: score and quiz data recorded, and the results shown. */
    method HandleQuizFinish(score: nat, quizData: Option<seq<QuizSet>>)
      requires Valid()
      modifies this`finalScore, this`completedQuizData, this`gameState
      ensures Valid()
      ensures finalScore == score && completedQuizData == quizData && gameState == ResultsState
      ensures old(HasUsableKey()) && old(gameState) != ApiKeySetupState ==> HasUsableKey()
    {
      finalScore := score;
      completedQuizData := quizData;
      gameState := ResultsState;
    }

    /**
     * The quiz's finish callback as it is wired: the quiz passes only the
     * score, so the quiz data arrives undefined and the results screen
     * offers no download.
     */
    method FinishQuizAsWired(score: nat)
      requires Valid()
      modifies this`finalScore, this`completedQuizData, this`gameState
      ensures Valid()
      ensures finalScore == score && completedQuizData == None && gameState == ResultsState
      ensures Render() == ResultsScreen(score, TotalQuestionsPerTopic, None)
      ensures !DownloadOffered(completedQuizData) && Summary(completedQuizData) == None
    {
      HandleQuizFinish(score, None);
    }

    /**
     * The finish callback passing the quiz's own sets alongside the score:
     * the results screen then offers the summary of those sets.
     */
    method FinishQuizWithData(score: nat, quizSets: seq<QuizSet>)
      requires Valid()
      modifies this`finalScore, this`completedQuizData, this`gameState
      ensures Valid()
      ensures finalScore == score && completedQuizData == Some(quizSets) && gameState == ResultsState
      ensures Render() == ResultsScreen(score, TotalQuestionsPerTopic, Some(quizSets))
      ensures DownloadOffered(completedQuizData)
      ensures Summary(completedQuizData) == Some(SummaryHeader + Join(Blocks(Flatten(quizSets), 1)))
    {
      HandleQuizFinish(score, Some(quizSets));
    }

    /** Play again: topic, score and data cleared, back to the topic selection; the key is kept. */
    method HandleRestart()
      requires Valid()
      modifies this`selectedTopic, this`finalScore, this`completedQuizData, this`gameState
      ensures Valid()
      ensures selectedTopic == None && finalScore == 0 && completedQuizData == None
      ensures gameState == SelectingTopic
      ensures old(HasUsableKey()) && old(gameState) != ApiKeySetupState ==> HasUsableKey()
    {
      selectedTopic := None;
      finalScore := 0;
      completedQuizData := None;
      gameState := SelectingTopic;
    }

    /** The key was rejected: removed from storage and memory, back to the key setup. */
    method HandleApiKeyInvalid()
      requires Valid()
      modifies this`storage, this`apiKey, this`gameState
      ensures Valid() && HasUsableKey()
      ensures storage == old(storage) - {StorageKey} && StoredKey() == None
      ensures apiKey == None && gameState == ApiKeySetupState
    {
      storage := storage - {StorageKey};
      apiKey := None;
      gameState := ApiKeySetupState;
    }

    /**
     * `renderContent`: the quiz only with a topic and a non-empty key, the
     * results always out of ten questions.
     */
    function Render(): (s: Screen)
      reads this
      ensures s.QuizScreen? <==> gameState == InQuiz && selectedTopic.Some? && Truthy(apiKey)
      ensures s.QuizScreen? ==> s.topic == selectedTopic.value && Some(s.apiKey) == apiKey
      ensures s == Blank <==> gameState == InQuiz && !(selectedTopic.Some? && Truthy(apiKey))
      ensures s.ResultsScreen? <==> gameState == ResultsState
      ensures s.ResultsScreen? ==>
                s == ResultsScreen(finalScore, TotalQuestionsPerTopic, completedQuizData)
      ensures s == TopicScreen <==> gameState == SelectingTopic
      ensures s == KeySetupScreen <==> gameState == ApiKeySetupState
    {
      match gameState
      case InQuiz =>
        if selectedTopic.Some? && Truthy(apiKey) then QuizScreen(selectedTopic.value, apiKey.value) else Blank
      case ResultsState => ResultsScreen(finalScore, TotalQuestionsPerTopic, completedQuizData)
      case SelectingTopic => TopicScreen
      case ApiKeySetupState => KeySetupScreen
    }
  }

  /** Along the screens' own flow the in-quiz guard never fails: the quiz always renders. */
  lemma QuizAlwaysRenders(app: App)
    requires app.Valid() && app.HasUsableKey() && app.gameState == InQuiz
    ensures app.Render().QuizScreen?
    ensures app.Render().topic == app.selectedTopic.value
  {
  }
}
