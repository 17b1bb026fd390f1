/**
 * The results screen: the rounded percentage of correct answers, the
 * feedback tier it falls in, the confetti threshold, the score that counts
 * up from zero, and the plain-text summary offered for download.
 */
module Results {
  import opened Types
  import opened Strings
  import opened Constants

  // ---------------------------------------------------------------------
  // Percentage and feedback
  // ---------------------------------------------------------------------

  /**
   * `Math.round(score / total * 100)`, and 0 for no questions: the integer
   * nearest to `100 * score / total`, halves rounded up. Over an exact
   * quotient that is `(200 * score + total) / (2 * total)`.
   */
  function Percentage(score: nat, total: nat): (p: nat)
    ensures total == 0 ==> p == 0
    ensures total > 0 ==> 2 * total * p <= 200 * score + total < 2 * total * (p + 1)
    ensures score <= total ==> p <= 100
  {
    if total > 0 then
      RoundedShareBounds(score, total);
      (200 * score + total) / (2 * total)
    else
      0
  }

  lemma RoundedShareBounds(score: nat, total: nat)
    requires total > 0
    ensures var p := (200 * score + total) / (2 * total);
            2 * total * p <= 200 * score + total < 2 * total * (p + 1) && (score <= total ==> p <= 100)
  {
    var p := (200 * score + total) / (2 * total);
    DivBounds(200 * score + total, 2 * total);
    if score <= total {
      assert 2 * total * p < 2 * total * 101;
      ProductCancel(p, 101, 2 * total);
    }
  }

  /** A positive factor can be cancelled from a strict comparison. */
  lemma ProductCancel(a: int, b: int, c: int)
    requires c > 0 && c * a < c * b
    ensures a < b
  {
  }

  /** Euclidean division brackets its dividend. */
  lemma DivBounds(x: nat, y: nat)
    requires y > 0
    ensures y * (x / y) <= x < y * (x / y + 1)
  {
  }

  /** More correct answers never give a lower percentage. */
  lemma PercentageMonotone(s1: nat, s2: nat, total: nat)
    requires s1 <= s2
    ensures Percentage(s1, total) <= Percentage(s2, total)
  {
    if total > 0 {
      var p1 := Percentage(s1, total);
      var p2 := Percentage(s2, total);
      assert 2 * total * p1 < 2 * total * (p2 + 1);
      ProductCancel(p1, p2 + 1, 2 * total);
    }
  }

  /** With the quiz's ten questions each correct answer is worth exactly ten points. */
  lemma QuizPercentage(score: nat)
    requires score <= TotalQuestionsPerTopic
    ensures Percentage(score, TotalQuestionsPerTopic) == 10 * score
  {
    var p := Percentage(score, TotalQuestionsPerTopic);
    assert 20 * p <= 200 * score + 10 < 20 * (p + 1);
  }

  datatype Tier = Master | Excellent | GoodTry | KeepStudying

  function Rank(t: Tier): nat {
    match t
    case KeepStudying => 0
    case GoodTry => 1
    case Excellent => 2
    case Master => 3
  }

  /** `getFeedback`: the first threshold (90, 70, 50) the percentage reaches picks the tier. */
  function TierOf(p: int): (t: Tier)
    ensures t == Master <==> p >= 90
    ensures t == Excellent <==> 70 <= p < 90
    ensures t == GoodTry <==> 50 <= p < 70
    ensures t == KeepStudying <==> p < 50
  {
    if p >= 90 then Master
    else if p >= 70 then Excellent
    else if p >= 50 then GoodTry
    else KeepStudying
  }

  /** A higher percentage never earns a lower tier. */
  lemma TierMonotone(p: int, q: int)
    requires p <= q
    ensures Rank(TierOf(p)) <= Rank(TierOf(q))
  {
  }

  datatype Feedback = Feedback(title: string, message: string, color: string)

  /** The texts shown for each tier. */
  function FeedbackOf(t: Tier): Feedback {
    match t
    case Master =>
      Feedback("¡Maestro Universal!", "Tu conocimiento es verdaderamente impresionante.", "text-emerald-300")
    case Excellent =>
      Feedback("¡Excelente Trabajo!", "Has demostrado un gran dominio del tema.", "text-indigo-300")
    case GoodTry =>
      Feedback("¡Buen Intento!", "Sigue aprendiendo y alcanzarás la cima.", "text-yellow-300")
    case KeepStudying =>
      Feedback("Sigue Estudiando", "Cada error es una oportunidad para aprender algo nuevo.", "text-red-300")
  }

  /** Each tier has a title of its own. */
  lemma FeedbackDistinct(t: Tier, u: Tier)
    requires t != u
    ensures FeedbackOf(t).title != FeedbackOf(u).title
  {
  }

  /** Confetti is launched from 70% up (when the confetti script is present). */
  predicate ConfettiFires(p: int) {
    p >= 70
  }

  /**
   * Confetti goes with exactly the two top tiers; over ten questions that
   * means seven correct answers or more.
   */
  lemma ConfettiForTopTiers(p: int, score: nat)
    requires score <= TotalQuestionsPerTopic
    ensures ConfettiFires(p) <==> TierOf(p) == Master || TierOf(p) == Excellent
    ensures ConfettiFires(Percentage(score, TotalQuestionsPerTopic)) <==> score >= 7
  {
    QuizPercentage(score);
  }

  // ---------------------------------------------------------------------
  // The count-up display
  // ---------------------------------------------------------------------

  const CountUpDuration: nat := 1000

  /** `Math.max(1, Math.floor(1000 / score))`: milliseconds between steps. */
  function StepTime(score: nat): (r: nat)
    requires score > 0
    ensures r >= 1
    ensures score <= CountUpDuration ==> r * score <= CountUpDuration < (r + 1) * score
    ensures score > CountUpDuration ==> r == 1
  {
    var q := CountUpDuration / score;
    DivBounds(CountUpDuration, score);
    if q > 1 then q else 1
  }

  /**
   * The values handed to the display, in order: a score of zero is shown
   * at once; otherwise the interval shows 1, 2, ... and stops on the score.
   */
  method CountUp(score: nat) returns (shown: seq<nat>)
    ensures score == 0 ==> shown == [0]
    ensures score > 0 ==> |shown| == score && forall i :: 0 <= i < score ==> shown[i] == i + 1
    ensures |shown| > 0 && shown[|shown| - 1] == score
    ensures forall i :: 0 <= i < |shown| ==> shown[i] <= score
  {
    if score == 0 {
      return [0];
    }
    var currentScore := 0;
    var done := false;
    shown := [];
    while !done
      invariant currentScore <= score
      invariant |shown| == currentScore
      invariant forall i :: 0 <= i < currentScore ==> shown[i] == i + 1
      invariant done <==> currentScore == score
      decreases score - currentScore
    {
      currentScore := currentScore + 1;
      if currentScore >= score {
        shown := shown + [score];
        done := true;
      } else {
        shown := shown + [currentScore];
      }
    }
  }

  // ---------------------------------------------------------------------
  // The downloadable summary
  // ---------------------------------------------------------------------

  const SummaryHeader := "Resumen del Cuestionario" + " - Saber Universal" + "\n\n"

  /** The line naming question number `number`. */
  function QuestionLine(number: nat, q: Question): string {
    "Pregunta " + NatToString(number) + ": " + q.question + "\n"
  }

  /** The line with its explanation, followed by a blank line. */
  function ExplanationLine(q: Question): string {
    "Explicación: " + q.explanation + "\n\n"
  }

  /** The two lines (and blank line) written for question number `number`. */
  function Block(number: nat, q: Question): string {
    QuestionLine(number, q) + ExplanationLine(q)
  }

  /**
   * A block opens with "Pregunta ", carries the question's text on a line of
   * its own, and the explanation on the next line, followed by a blank line.
   */
  lemma BlockShowsQuestion(number: nat, q: Question)
    ensures StartsWith(QuestionLine(number, q), "Pregunta ")
    ensures QuestionLine(number, q)[|QuestionLine(number, q)| - 1] == '\n'
    ensures Contains(QuestionLine(number, q), q.question)
    ensures StartsWith(ExplanationLine(q), "Explicación: ")
    ensures ExplanationLine(q)[|ExplanationLine(q)| - 2..] == "\n\n"
    ensures Contains(ExplanationLine(q), q.explanation)
    ensures StartsWith(Block(number, q), "Pregunta ")
    ensures Contains(Block(number, q), q.question) && Contains(Block(number, q), q.explanation)
  {
    var line := QuestionLine(number, q);
    var explanation := ExplanationLine(q);
    ContainsMiddle("Pregunta " + NatToString(number) + ": ", q.question, "\n");
    ContainsMiddle("Explicación: ", q.explanation, "\n\n");
    ContainsInConcat(line, explanation, q.question);
    ContainsInConcat(explanation, line, q.explanation);
    assert (line + explanation)[..|"Pregunta "|] == line[..|"Pregunta "|];
  }

  /** The texts one after the other. */
  function Join(parts: seq<string>): string
    decreases |parts|
  {
    if parts == [] then "" else parts[0] + Join(parts[1..])
  }

  /** Every part can be found in the join. */
  lemma JoinContainsPart(parts: seq<string>, k: nat)
    requires k < |parts|
    ensures Contains(Join(parts), parts[k])
  {
    JoinAt(parts, k);
    ContainsMiddle(Join(parts[..k]), parts[k], Join(parts[k + 1..]));
  }

  /** The blocks for `qs`, numbered from `first`. */
  function Blocks(qs: seq<Question>, first: nat): (r: seq<string>)
    ensures |r| == |qs| && forall k :: 0 <= k < |qs| ==> r[k] == Block(first + k, qs[k])
  {
    seq(|qs|, k requires 0 <= k < |qs| => Block(first + k, qs[k]))
  }

  /**
   * The text offered for download: none without quiz data; otherwise a
   * text that opens with the header, and is the header alone when there
   * are no questions.
   */
  function Summary(quizData: Option<seq<QuizSet>>): (r: Option<string>)
    ensures r.Some? <==> quizData.Some?
    ensures r.Some? ==> StartsWith(r.value, SummaryHeader)
    ensures quizData == Some([]) ==> r == Some(SummaryHeader)
  {
    match quizData
    case None => None
    case Some(data) =>
      assert data == [] ==> Blocks(Flatten(data), 1) == [];
      assert SummaryHeader + Join([]) == SummaryHeader;
      Some(SummaryHeader + Join(Blocks(Flatten(data), 1)))
  }

  /** Whether the download button is shown: exactly when there is a summary to download. */
  predicate DownloadOffered(quizData: Option<seq<QuizSet>>)
    ensures DownloadOffered(quizData) <==> Summary(quizData).Some?
  {
    quizData.Some?
  }

  /** Joining distributes over concatenation of the parts. */
  lemma {:induction false} JoinConcat(a: seq<string>, b: seq<string>)
    ensures Join(a + b) == Join(a) + Join(b)
    decreases |a|
  {
    if a == [] {
      assert a + b == b;
    } else {
      assert (a + b)[1..] == a[1..] + b;
      JoinConcat(a[1..], b);
    }
  }

  /** The blocks of a concatenation: the numbering carries on across the parts. */
  lemma BlocksConcat(a: seq<Question>, b: seq<Question>, first: nat)
    ensures Blocks(a + b, first) == Blocks(a, first) + Blocks(b, first + |a|)
  {
    var l := Blocks(a + b, first);
    var r := Blocks(a, first) + Blocks(b, first + |a|);
    forall k | 0 <= k < |l|
      ensures l[k] == r[k]
    {
      if k >= |a| {
        assert (a + b)[k] == b[k - |a|];
      }
    }
  }

  /**
   * The summary of a list of question lists is the summaries of the lists
   * one after the other, numbered on from where the previous one stopped.
   */
  lemma {:induction false} SummaryOfSets(data: seq<QuizSet>, first: nat)
    ensures Join(Blocks(Flatten(data), first)) ==
              if data == [] then "" else
                Join(Blocks(data[0], first)) + Join(Blocks(Flatten(data[1..]), first + |data[0]|))
  {
    if data != [] {
      var rest := Flatten(data[1..]);
      assert Flatten(data) == data[0] + rest;
      BlocksConcat(data[0], rest, first);
      JoinConcat(Blocks(data[0], first), Blocks(rest, first + |data[0]|));
    }
  }

  /** A join splits around any one of its parts. */
  lemma JoinAt(parts: seq<string>, k: nat)
    requires k < |parts|
    ensures Join(parts) == Join(parts[..k]) + parts[k] + Join(parts[k + 1..])
  {
    assert parts == parts[..k] + parts[k..];
    JoinConcat(parts[..k], parts[k..]);
    assert parts[k..][1..] == parts[k + 1..];
  }

  /**
   * The summary names every question of the quiz, with its explanation,
   * in the block numbered by its position.
   */
  lemma SummaryNamesEveryQuestion(data: seq<QuizSet>, k: nat)
    requires k < |Flatten(data)|
    ensures Summary(Some(data)).Some?
    ensures Contains(Summary(Some(data)).value, Block(k + 1, Flatten(data)[k]))
    ensures Contains(Summary(Some(data)).value, Flatten(data)[k].question)
    ensures Contains(Summary(Some(data)).value, Flatten(data)[k].explanation)
  {
    var qs := Flatten(data);
    var block := Block(k + 1, qs[k]);
    var before := Join(Blocks(qs[..k], 1));
    var after := Join(Blocks(qs[k + 1..], 1 + k + 1));
    BlockAt(qs, 1, k);
    ContainsMiddle(before, block, after);
    ContainsInConcat(Join(Blocks(qs, 1)), SummaryHeader, block);
    BlockShowsQuestion(k + 1, qs[k]);
    ContainsTransitive(Summary(Some(data)).value, block, qs[k].question);
    ContainsTransitive(Summary(Some(data)).value, block, qs[k].explanation);
  }

  /** Question `k` of the list is written as block number `first + k`, in place. */
  lemma BlockAt(qs: seq<Question>, first: nat, k: nat)
    requires k < |qs|
    ensures Join(Blocks(qs, first)) ==
              Join(Blocks(qs[..k], first)) + Block(first + k, qs[k]) + Join(Blocks(qs[k + 1..], first + k + 1))
  {
    var parts := Blocks(qs, first);
    JoinAt(parts, k);
    BlocksPrefix(qs, first, k);
    BlocksSuffix(qs, first, k + 1);
  }

  /** The first `k` blocks are the blocks of the first `k` questions. */
  lemma BlocksPrefix(qs: seq<Question>, first: nat, k: nat)
    requires k <= |qs|
    ensures Blocks(qs, first)[..k] == Blocks(qs[..k], first)
  {
  }

  /** The blocks from `k` on are the blocks of the questions from `k` on, numbered on from there. */
  lemma BlocksSuffix(qs: seq<Question>, first: nat, k: nat)
    requires k <= |qs|
    ensures Blocks(qs, first)[k..] == Blocks(qs[k..], first + k)
  {
    var l := Blocks(qs, first)[k..];
    var r := Blocks(qs[k..], first + k);
    forall m | 0 <= m < |qs| - k
      ensures l[m] == r[m]
    {
      assert qs[k..][m] == qs[k + m];
    }
  }

  /** Appending two texts after a join is joining one more part. */
  lemma JoinSnoc(h: string, done: seq<string>, x: string, y: string)
    ensures h + Join(done) + x + y == h + Join(done + [x + y])
  {
    JoinConcat(done, [x + y]);
    assert Join([x + y]) == x + y by {
      assert [x + y][1..] == [];
    }
  }

  /** One turn of the download loop appends the next block. */
  lemma SummaryStep(all: seq<Question>, index: nat, before: string)
    requires index < |all| && before == SummaryHeader + Join(Blocks(all[..index], 1))
    ensures before + QuestionLine(index + 1, all[index]) + ExplanationLine(all[index])
            == SummaryHeader + Join(Blocks(all[..index + 1], 1))
  {
    var q := all[index];
    assert Blocks(all[..index + 1], 1) == Blocks(all[..index], 1) + [Block(index + 1, q)] by {
      assert all[..index + 1] == all[..index] + [q];
      BlocksConcat(all[..index], [q], 1);
    }
    JoinSnoc(SummaryHeader, Blocks(all[..index], 1), QuestionLine(index + 1, q), ExplanationLine(q));
  }

  /**
   * `handleDownload`: nothing without quiz data; otherwise the header
   * followed by one block per question of the flattened sets, numbered
   * from 1.
   */
  method BuildSummary(quizData: Option<seq<QuizSet>>) returns (content: Option<string>)
    ensures content == Summary(quizData)
    ensures content.Some? <==> DownloadOffered(quizData)
  {
    if quizData.None? {
      return None;
    }
    var allQuestions := Flatten(quizData.value);
    var text := SummaryHeader;
    var index := 0;
    while index < |allQuestions|
      invariant index <= |allQuestions|
      invariant text == SummaryHeader + Join(Blocks(allQuestions[..index], 1))
    {
      SummaryStep(allQuestions, index, text);
      text := text + QuestionLine(index + 1, allQuestions[index]);
      text := text + ExplanationLine(allQuestions[index]);
      index := index + 1;
    }
    assert allQuestions[..index] == allQuestions;
    content := Some(text);
  }
}
