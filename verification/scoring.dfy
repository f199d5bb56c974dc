/** The scoring engine of the submit handler: a keyword count over the
    answers, then a three-tier feedback message chosen by that count. */
module Scoring {
  import opened Catalog
  import opened Text

  /** Answers keyed by question prompt, as the page stores them. */
  type Answers = map<string, string>

  /** An answer counts when its lower-cased text is exactly one of the
      negative words. Surrounding blanks are not trimmed. */
  predicate IsNegative(a: string)
    ensures IsNegative(a) ==> |a| == 2 || |a| == 3 || |a| == 10
  {
    ToLower(a) in NegativeWords
  }

  /** The keys whose answers count. */
  function NegativeKeys(answers: Answers): (ks: set<string>)
    ensures ks <= answers.Keys
  {
    set k | k in answers && IsNegative(answers[k])
  }

  /** The severity score: how many stored answers count. Every stored value
      is visited once, whatever key it sits under. */
  function Score(answers: Answers): (n: nat)
    ensures n <= |answers|
  {
    var ks := NegativeKeys(answers);
    assert answers.Keys == ks + (answers.Keys - ks);
    |ks|
  }

  /** The submit handler's loop: visit every stored answer once and add one
      for each that counts. */
  method CountNegative(answers: Answers) returns (score: nat)
    ensures score == Score(answers)
  {
    score := 0;
    var pending := answers.Keys;
    while pending != {}
      invariant pending <= answers.Keys
      invariant score == |set k | k in answers && k !in pending && IsNegative(answers[k])|
      decreases pending
    {
      var k :| k in pending;
      ghost var before := set j | j in answers && j !in pending && IsNegative(answers[j]);
      ghost var after := set j | j in answers && j !in pending - {k} && IsNegative(answers[j]);
      if IsNegative(answers[k]) {
        assert after == before + {k};
        score := score + 1;
      } else {
        assert after == before;
      }
      pending := pending - {k};
    }
    assert (set k | k in answers && k !in pending && IsNegative(answers[k])) == NegativeKeys(answers);
  }

  /** The text shown in a question's input box: the stored answer, or the
      empty string for a question not yet answered. */
  function AnswerTo(answers: Answers, q: string): (a: string)
    ensures IsNegative(a) ==> q in answers && answers[q] == a
  {
    if q in answers then answers[q] else ""
  }

  /** The score computed by walking a list of prompts, an unanswered prompt
      reading as the empty answer. */
  function CatalogScore(qs: seq<string>, answers: Answers): (n: nat)
    ensures n <= |qs|
  {
    if qs == [] then 0
    else (if IsNegative(AnswerTo(answers, qs[0])) then 1 else 0) + CatalogScore(qs[1..], answers)
  }

  /** Every stored answer sits under a catalog prompt. */
  predicate KeysInCatalog(answers: Answers) {
    forall k :: k in answers ==> k in Questions
  }

  /** The feedback tier a score falls in. */
  datatype Concern = Low | Moderate | High

  /** The message shown for a score: 3 or more is high concern, exactly 2 is
      moderate, anything else is low. */
  function Feedback(score: nat): (m: string)
    ensures IsFeedbackMessage(m)
  {
    if score >= HighConcernThreshold then HighConcernMessage
    else if score == ModerateConcernScore then ModerateConcernMessage
    else LowConcernMessage
  }

  /** The tier a feedback message belongs to. */
  function ConcernOf(m: string): Concern {
    if m == HighConcernMessage then High
    else if m == ModerateConcernMessage then Moderate
    else Low
  }

  /** Ordering of the tiers by severity. */
  function Rank(c: Concern): nat {
    match c
    case Low => 0
    case Moderate => 1
    case High => 2
  }

  /** The three messages of the feedback policy. */
  predicate IsFeedbackMessage(m: string) {
    m == HighConcernMessage || m == ModerateConcernMessage || m == LowConcernMessage
  }

  /** The three messages are pairwise different, so a message names its tier. */
  lemma MessagesDistinct()
    ensures HighConcernMessage != ModerateConcernMessage
    ensures HighConcernMessage != LowConcernMessage
    ensures ModerateConcernMessage != LowConcernMessage
  {
    assert |HighConcernMessage| == 112;
    assert |ModerateConcernMessage| == 107;
    assert |LowConcernMessage| == 75;
  }

  // ---------------------------------------------------------------------
  // Matching one answer
  // ---------------------------------------------------------------------

  /** An answer counts exactly when it equals one of the negative words up to
      the case of its letters. */
  lemma NegativeIffWordUpToCase(a: string)
    ensures IsNegative(a) <==> exists w :: w in NegativeWords && SameUpToCase(a, w)
  {
    if IsNegative(a) {
      NegativeHasWord(a);
    }
    if exists w :: w in NegativeWords && SameUpToCase(a, w) {
      var w :| w in NegativeWords && SameUpToCase(a, w);
      WordMakesNegative(a, w);
    }
  }

  /** A counting answer is some negative word up to case: its lower-case form. */
  lemma NegativeHasWord(a: string)
    requires IsNegative(a)
    ensures ToLower(a) in NegativeWords && SameUpToCase(a, ToLower(a))
  {
    ToLowerIdempotent(a);
    ToLowerDecidesCase(a, ToLower(a));
  }

  /** An answer equal to a negative word up to case counts. */
  lemma WordMakesNegative(a: string, w: string)
    requires w in NegativeWords && SameUpToCase(a, w)
    ensures IsNegative(a)
  {
    ToLowerDecidesCase(a, w);
    NegativeWordsAreLower(w);
    ToLowerKeepsLower(w);
  }

  /** The negative words contain no capitals. */
  lemma NegativeWordsAreLower(w: string)
    requires w in NegativeWords
    ensures forall i :: 0 <= i < |w| ==> !IsUpper(w[i])
  {
  }

  /** The empty answer, which an unanswered question shows, never counts. */
  lemma EmptyNeverCounts()
    ensures !IsNegative("")
  {
  }

  /** A blank before or after the text stops an answer from counting: the
      handler compares without trimming. */
  lemma PaddedAnswerNeverCounts(a: string)
    ensures !IsNegative(" " + a)
    ensures !IsNegative(a + " ")
  {
    assert ToLower(" " + a)[0] == ' ';
    var t := ToLower(a + " ");
    assert t[|t| - 1] == ' ';
  }

  /** Sample answers: the case of the letters does not matter. */
  lemma CapitalsStillCount()
    ensures IsNegative("NO") && IsNegative("Not Really")
  {
    assert IsNegative("NO") by { WordMakesNegative("NO", "no"); }
    assert IsNegative("Not Really") by { WordMakesNegative("Not Really", "not really"); }
  }

  /** Sample answers: blanks, the empty text and other words never count. */
  lemma OtherAnswersDoNotCount()
    ensures !IsNegative(" no ") && !IsNegative("") && !IsNegative("yes") && !IsNegative("nope")
  {
    PaddedAnswerNeverCounts("no ");
    assert ToLower("yes") == "yes";
    assert ToLower("nope") == "nope";
  }

  // ---------------------------------------------------------------------
  // The score of an answer set
  // ---------------------------------------------------------------------

  /** Removing a key removes it, and only it, from the counted keys. */
  lemma NegativeKeysWithout(answers: Answers, q: string)
    ensures NegativeKeys(answers - {q}) == NegativeKeys(answers) - {q}
  {
  }

  /** Each stored answer contributes exactly 0 or 1 to the score. */
  lemma ScoreSplit(answers: Answers, q: string)
    ensures Score(answers) == Score(answers - {q}) + (if q in answers && IsNegative(answers[q]) then 1 else 0)
  {
    var all := NegativeKeys(answers);
    NegativeKeysWithout(answers, q);
    if q in all {
      assert all == (all - {q}) + {q};
    }
  }

  /** Storing an answer under q replaces q's contribution by that of the new
      text and leaves the other contributions alone. */
  lemma ScoreOfUpdate(answers: Answers, q: string, v: string)
    ensures Score(answers[q := v]) == Score(answers - {q}) + (if IsNegative(v) then 1 else 0)
  {
    var updated := answers[q := v];
    ScoreSplit(updated, q);
    NegativeKeysWithout(updated, q);
    NegativeKeysWithout(answers, q);
    assert NegativeKeys(updated) - {q} == NegativeKeys(answers) - {q};
  }

  /** Answering a question not answered before adds that answer's
      contribution to the score. */
  lemma ScoreAddNew(answers: Answers, q: string, v: string)
    requires q !in answers
    ensures Score(answers[q := v]) == Score(answers) + (if IsNegative(v) then 1 else 0)
  {
    ScoreOfUpdate(answers, q, v);
    assert answers - {q} == answers;
  }

  /** The keys among qs whose stored answers count. */
  function CountedAmong(qs: seq<string>, answers: Answers): set<string> {
    set k | k in answers && IsNegative(answers[k]) && k in qs
  }

  /** Dropping the head of a list without repeats leaves a list without
      repeats that does not contain the head. */
  lemma DistinctTail<T>(qs: seq<T>)
    requires Distinct(qs) && qs != []
    ensures Distinct(qs[1..]) && qs[0] !in qs[1..]
  {
    var tail := qs[1..];
    forall i, j | 0 <= i < j < |tail| ensures tail[i] != tail[j] {
      assert tail[i] == qs[i + 1] && tail[j] == qs[j + 1];
    }
    forall j | 0 <= j < |tail| ensures tail[j] != qs[0] {
      assert tail[j] == qs[j + 1];
    }
  }

  /** The counted keys among a list are those among its tail, plus its head
      when the head's answer counts. */
  lemma CountedAmongCons(qs: seq<string>, answers: Answers)
    requires qs != []
    ensures CountedAmong(qs, answers)
         == CountedAmong(qs[1..], answers) + (if IsNegative(AnswerTo(answers, qs[0])) then {qs[0]} else {})
  {
    assert forall k :: k in qs <==> k == qs[0] || k in qs[1..] by {
      assert qs == [qs[0]] + qs[1..];
    }
    EmptyNeverCounts();
  }

  /** Walking a list of distinct prompts counts the stored answers under
      those prompts that count. */
  lemma {:induction false} CatalogScoreCounts(qs: seq<string>, answers: Answers)
    requires Distinct(qs)
    ensures CatalogScore(qs, answers) == |CountedAmong(qs, answers)|
  {
    if qs == [] {
      assert CountedAmong(qs, answers) == {};
    } else {
      DistinctTail(qs);
      CatalogScoreCounts(qs[1..], answers);
      CountedAmongCons(qs, answers);
    }
  }

  /** The catalog prompts are pairwise different. */
  lemma QuestionsDistinct()
    ensures |Questions| == 5 && Distinct(Questions)
  {
  }

  /** When every key is a catalog prompt, counting the stored answers and
      walking the catalog with unanswered prompts read as "" agree. */
  lemma ScoreWalksCatalog(answers: Answers)
    requires KeysInCatalog(answers)
    ensures Score(answers) == CatalogScore(Questions, answers)
  {
    QuestionsDistinct();
    CatalogScoreCounts(Questions, answers);
    assert CountedAmong(Questions, answers) == NegativeKeys(answers);
  }

  /** With only catalog keys, the score is between 0 and the catalog size. */
  lemma ScoreAtMostCatalogSize(answers: Answers)
    requires KeysInCatalog(answers)
    ensures Score(answers) <= |Questions| == 5
  {
    ScoreWalksCatalog(answers);
  }

  // ---------------------------------------------------------------------
  // Feedback
  // ---------------------------------------------------------------------

  /** The three tiers and their boundaries, in both directions. */
  lemma FeedbackThresholds(score: nat)
    ensures Feedback(score) == HighConcernMessage <==> score >= 3
    ensures Feedback(score) == ModerateConcernMessage <==> score == 2
    ensures Feedback(score) == LowConcernMessage <==> score <= 1
  {
    MessagesDistinct();
  }

  /** The tier never drops as the score grows. */
  lemma FeedbackMonotone(s1: nat, s2: nat)
    requires s1 <= s2
    ensures Rank(ConcernOf(Feedback(s1))) <= Rank(ConcernOf(Feedback(s2)))
  {
    MessagesDistinct();
  }

  /** The boundary scores 1, 2, 3 and 10. */
  lemma FeedbackBoundaries()
    ensures Feedback(1) == LowConcernMessage
    ensures Feedback(2) == ModerateConcernMessage
    ensures Feedback(3) == HighConcernMessage
    ensures Feedback(10) == HighConcernMessage
  {
  }

  /** No answers at all is not an error: score 0 and the low-concern message. */
  lemma EmptyAnswersLowConcern()
    ensures Score(map[]) == 0
    ensures Feedback(Score(map[])) == LowConcernMessage
  {
  }
}
