/**
 * The application's data: a question as the generator returns it, a set
 * of questions, the closed list of topics, and the usual Option/Result
 * wrappers for absent values and failures.
 */
module Types {

  datatype Option<T> = None | Some(value: T)

  datatype Result<T, E> = Success(value: T) | Failure(error: E)

  /** One generated question; `correctAnswer` is meant to be one of `options`. */
  datatype Question = Question(
    question: string,
    options: seq<string>,
    correctAnswer: string,
    explanation: string,
    imagePrompt: string)

  /** A batch of questions shown one after the other. */
  type QuizSet = seq<Question>

  /** Every topic the type declares; only some of them are offered. */
  datatype Topic =
    | Biodiversity | Zoology | History | Religion | Mythology | Bible | Geography
    | ScienceTech | ArtLiterature | Sports | MusicCinema | Gastronomy | VideoGames
    | Automotive

  /**
   * `quizData.flat()`: the questions of all sets, set after set. Every
   * question of every set is in the result, and nothing else is.
   */
  function Flatten(sets: seq<QuizSet>): (r: seq<Question>)
    ensures forall k, q :: 0 <= k < |sets| && q in sets[k] ==> q in r
    ensures forall q :: q in r ==> exists k :: 0 <= k < |sets| && q in sets[k]
  {
    if sets == [] then [] else sets[0] + Flatten(sets[1..])
  }

  /** Flattening distributes over concatenation of the list of sets. */
  lemma {:induction false} FlattenConcat(a: seq<QuizSet>, b: seq<QuizSet>)
    ensures Flatten(a + b) == Flatten(a) + Flatten(b)
  {
    if a == [] {
      assert a + b == b;
    } else {
      assert (a + b)[1..] == a[1..] + b;
      FlattenConcat(a[1..], b);
    }
  }
}
