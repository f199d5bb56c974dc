/** The fixed catalogs of the mental-health tracker page: the moods a user can
    pick, the questionnaire prompts, the negative-sentiment vocabulary the
    scorer looks for, and the three feedback messages. None of them changes
    while a session runs. */
module Catalog {

  /** The mood buttons, in display order (emoji followed by a label). */
  const Moods: seq<string> := [
    "\U{1F60A} Happy",
    "\U{1F622} Sad",
    "\U{1F621} Angry",
    "\U{1F60C} Calm",
    "\U{1F610} Neutral"
  ]

  /** The questionnaire prompts, in display order. A prompt's text is also
      the key under which its answer is stored. */
  const Questions: seq<string> := [
    "How often do you feel overwhelmed?",
    "Do you sleep well most nights?",
    "Have you lost interest in things you used to enjoy?",
    "Do you feel connected to people around you?",
    "How is your energy level during the day?"
  ]

  /** The answers that count towards the severity score (after lower-casing). */
  const NegativeWords: seq<string> := ["no", "not really", "bad", "low"]

  /** Feedback for a score of 3 or more. */
  const HighConcernMessage: string :=
    "You might be going through a tough time. Consider talking to a friend, journaling, or reaching out for support \U{1F499}"

  /** Feedback for a score of exactly 2. */
  const ModerateConcernMessage: string :=
    "Things seem a bit off, but you\U{2019}re managing. Keep an eye on your mental health and try relaxing activities \U{1F33F}"

  /** Feedback for every other score. */
  const LowConcernMessage: string :=
    "You seem to be doing okay. Keep up your good routines and stay connected! \U{1F60A}"

  /** Score thresholds of the three-tier feedback policy. */
  const HighConcernThreshold: nat := 3
  const ModerateConcernScore: nat := 2

  /** No two entries of a sequence are equal. */
  predicate Distinct<T(==)>(s: seq<T>) {
    forall i, j :: 0 <= i < j < |s| ==> s[i] != s[j]
  }

  /** Five mood buttons, no two alike. */
  lemma MoodsDistinct()
    ensures |Moods| == 5 && Distinct(Moods)
  {
  }
}
