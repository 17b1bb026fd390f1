/**
 * The fixed sizes of a quiz, the timer length, the topics offered on the
 * selection screen and their presentation details.
 */
module Constants {
  import opened Types

  const QuestionsPerSet: nat := 5
  const SetsPerTopic: nat := 2
  const TotalQuestionsPerTopic: nat := QuestionsPerSet * SetsPerTopic
  /** Seconds per question. */
  const TimerDuration: nat := 15

  /** The topics offered, in display order. */
  const Topics: seq<Topic> := [
    Biodiversity, Zoology, History, Religion, Geography, ScienceTech, ArtLiterature, Sports
  ]

  datatype TopicDetail = TopicDetail(icon: string, borderColor: string, textColor: string)

  /** Presentation details, one entry per offered topic. */
  const TopicDetails: map<Topic, TopicDetail> := map[
    Biodiversity := TopicDetail("🌿", "border-emerald-400/80", "text-emerald-300"),
    Zoology := TopicDetail("🦁", "border-orange-400/80", "text-orange-300"),
    History := TopicDetail("🏛️", "border-amber-400/80", "text-amber-300"),
    Religion := TopicDetail("📜", "border-violet-400/80", "text-violet-300"),
    Geography := TopicDetail("🌍", "border-sky-400/80", "text-sky-300"),
    ScienceTech := TopicDetail("🔬", "border-cyan-400/80", "text-cyan-300"),
    ArtLiterature := TopicDetail("🎨", "border-rose-400/80", "text-rose-300"),
    Sports := TopicDetail("⚽", "border-lime-400/80", "text-lime-300")
  ]

  /** A quiz is two sets of five, ten questions, fifteen seconds each. */
  lemma SizesAgree()
    ensures TotalQuestionsPerTopic == QuestionsPerSet * SetsPerTopic == 10
    ensures TimerDuration == 15
  {
  }

  /** Eight offered topics, none listed twice. */
  lemma TopicsDistinct()
    ensures |Topics| == 8
    ensures forall i, j :: 0 <= i < j < |Topics| ==> Topics[i] != Topics[j]
  {
  }

  /**
   * `TOPIC_DETAILS[topic]`: the lookup succeeds exactly for the offered
   * topics, so the two lookups made with an offered topic never fail.
   */
  function TopicDetailsOf(t: Topic): (d: Option<TopicDetail>)
    ensures d.Some? <==> t in Topics
    ensures d.Some? ==> t in TopicDetails && d.value == TopicDetails[t]
  {
    if t in TopicDetails then Some(TopicDetails[t]) else None
  }

  /** The keys of the detail table are exactly the offered topics. */
  lemma TopicDetailsKeys()
    ensures TopicDetails.Keys == set t | t in Topics
  {
  }
}
