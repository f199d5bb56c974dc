/** The page's session state and the transitions the user's events cause:
    picking a mood, typing an answer or a journal entry, switching the
    theme and submitting the questionnaire. */
module Session {
  import opened Catalog
  import opened Scoring
  import History

  /** The colour scheme of the page. */
  datatype Theme = Light | Dark

  /** Everything the page component keeps between events. */
  datatype State = State(
    selectedMood: string,
    answers: Answers,
    journalEntry: string,
    showResult: bool,
    suggestion: string,
    moodHistory: seq<string>,
    theme: Theme)

  /** The record a submit hands to the remote journal store. The store's
      timestamp column is filled from the clock and is not modelled. */
  datatype Submission = Submission(mood: string, answers: Answers, journal: string)

  /** The state invariant: answers only under catalog prompts, moods only
      from the catalog (or none picked yet), at most five history entries,
      and a result panel that is shown exactly once something has been
      submitted, carrying one of the three feedback messages. */
  predicate Valid(s: State) {
    && KeysInCatalog(s.answers)
    && (s.selectedMood == "" || s.selectedMood in Moods)
    && |s.moodHistory| <= History.Capacity
    && (forall m :: m in s.moodHistory ==> m == "" || m in Moods)
    && (s.showResult <==> |s.moodHistory| > 0)
    && (if s.showResult then IsFeedbackMessage(s.suggestion) else s.suggestion == "")
  }

  /** The state when the page loads: nothing picked, typed or submitted, and
      the light theme. */
  function Initial(): (s: State)
    ensures Valid(s)
    ensures s.selectedMood == "" && s.answers == map[] && s.journalEntry == ""
    ensures !s.showResult && s.suggestion == "" && s.moodHistory == [] && s.theme == Light
  {
    State("", map[], "", false, "", [], Light)
  }

  /** Switching the colour scheme. */
  function ToggleTheme(t: Theme): (u: Theme)
    ensures u != t
  {
    if t == Light then Dark else Light
  }

  /** Switching twice is no change. */
  lemma ToggleThemeTwice(t: Theme)
    ensures ToggleTheme(ToggleTheme(t)) == t
  {
  }

  /** Pressing the theme button: only the theme changes. */
  function PressToggle(s: State): (r: State)
    ensures r.theme != s.theme
    ensures r.(theme := s.theme) == s
  {
    s.(theme := ToggleTheme(s.theme))
  }

  /** Clicking a mood button. Only catalog moods have buttons. */
  function SelectMood(s: State, mood: string): (r: State)
    requires mood in Moods
    ensures r.selectedMood == mood
    ensures r.(selectedMood := s.selectedMood) == s
  {
    s.(selectedMood := mood)
  }

  /** Typing into a question's box: that question's answer becomes the new
      text, every other answer and every other field stays as it was. */
  function EditAnswer(s: State, q: string, text: string): (r: State)
    requires q in Questions
    ensures q in r.answers && r.answers[q] == text
    ensures r.answers.Keys == s.answers.Keys + {q}
    ensures forall k :: k in s.answers && k != q ==> r.answers[k] == s.answers[k]
    ensures r.(answers := s.answers) == s
  {
    s.(answers := s.answers[q := text])
  }

  /** Typing into the journal box. */
  function EditJournal(s: State, text: string): (r: State)
    ensures r.journalEntry == text
    ensures r.(journalEntry := s.journalEntry) == s
  {
    s.(journalEntry := text)
  }

  /** Pressing "Analyze": score the answers, show the matching message,
      append the selected mood (even an empty one) to the history, and hand
      a snapshot of mood, answers and journal to the store. Nothing is
      validated and nothing can fail. */
  function Submit(s: State): (out: (State, Submission))
    ensures out.0.showResult
    ensures out.0.suggestion == Feedback(Score(s.answers))
    ensures out.0.moodHistory == History.Append(s.moodHistory, s.selectedMood)
    ensures out.0.selectedMood == s.selectedMood && out.0.answers == s.answers
    ensures out.0.journalEntry == s.journalEntry && out.0.theme == s.theme
    ensures out.1 == Submission(s.selectedMood, s.answers, s.journalEntry)
  {
    var score := Score(s.answers);
    var next := s.(suggestion := Feedback(score), showResult := true,
                   moodHistory := History.Append(s.moodHistory, s.selectedMood));
    (next, Submission(s.selectedMood, s.answers, s.journalEntry))
  }

  /** The user's events on the page. */
  datatype Event =
    | ChooseMood(mood: string)
    | TypeAnswer(question: string, text: string)
    | TypeJournal(text: string)
    | PressTheme
    | PressSubmit

  /** Events the page can actually raise: mood buttons and answer boxes
      exist only for catalog entries. */
  predicate WellFormed(e: Event) {
    match e
    case ChooseMood(m) => m in Moods
    case TypeAnswer(q, _) => q in Questions
    case _ => true
  }

  /** One event: the next state and the records sent to the store. */
  function Step(s: State, e: Event): (out: (State, seq<Submission>))
    requires WellFormed(e)
    ensures |out.1| == (if e.PressSubmit? then 1 else 0)
  {
    match e
    case ChooseMood(m) => (SelectMood(s, m), [])
    case TypeAnswer(q, t) => (EditAnswer(s, q, t), [])
    case TypeJournal(t) => (EditJournal(s, t), [])
    case PressTheme => (PressToggle(s), [])
    case PressSubmit => var (r, sub) := Submit(s); (r, [sub])
  }

  /** How many submits a run of events contains. */
  function SubmitCount(evs: seq<Event>): nat {
    if evs == [] then 0 else (if evs[0].PressSubmit? then 1 else 0) + SubmitCount(evs[1..])
  }

  /** A run of events: the final state and every record sent, in order. */
  function Run(s: State, evs: seq<Event>): (out: (State, seq<Submission>))
    requires forall i :: 0 <= i < |evs| ==> WellFormed(evs[i])
    ensures |out.1| == SubmitCount(evs)
    decreases |evs|
  {
    if evs == [] then (s, [])
    else
      var (s1, sent1) := Step(s, evs[0]);
      var (s2, sent2) := Run(s1, evs[1..]);
      (s2, sent1 + sent2)
  }

  // ---------------------------------------------------------------------
  // Properties of the transitions
  // ---------------------------------------------------------------------

  /** Submitting keeps the state invariant: the history stays within
      capacity and only ever receives the selected mood. */
  lemma SubmitKeepsValid(s: State)
    requires Valid(s)
    ensures Valid(Submit(s).0)
  {
    History.AppendDrawsFrom(s.moodHistory, s.selectedMood);
  }

  /** Every event keeps the state invariant. */
  lemma StepKeepsValid(s: State, e: Event)
    requires Valid(s) && WellFormed(e)
    ensures Valid(Step(s, e).0)
  {
    match e
    case ChooseMood(m) =>
    case TypeAnswer(q, t) =>
    case TypeJournal(t) =>
    case PressTheme =>
    case PressSubmit => SubmitKeepsValid(s);
  }

  /** Every run from a valid state ends in a valid state. */
  lemma {:induction false} RunKeepsValid(s: State, evs: seq<Event>)
    requires Valid(s)
    requires forall i :: 0 <= i < |evs| ==> WellFormed(evs[i])
    ensures Valid(Run(s, evs).0)
    decreases |evs|
  {
    if evs != [] {
      StepKeepsValid(s, evs[0]);
      RunKeepsValid(Step(s, evs[0]).0, evs[1..]);
    }
  }

  /** A valid state's score is at most the catalog size. */
  lemma ValidScoreAtMostFive(s: State)
    requires Valid(s)
    ensures Score(s.answers) <= 5
  {
    ScoreAtMostCatalogSize(s.answers);
  }

  /** However many events follow a valid state (the freshly loaded page
      among them), the score stays at most five. */
  lemma RunScoreAtMostFive(s: State, evs: seq<Event>)
    requires Valid(s)
    requires forall i :: 0 <= i < |evs| ==> WellFormed(evs[i])
    ensures Score(Run(s, evs).0.answers) <= 5
  {
    var last := Run(s, evs).0;
    RunKeepsValid(s, evs);
    ValidScoreAtMostFive(last);
  }

  /** The message depends on the answers only: not on the mood, the journal,
      the history or whether a result was shown before. */
  lemma SubmitDependsOnAnswersOnly(s1: State, s2: State)
    requires s1.answers == s2.answers
    ensures Submit(s1).0.suggestion == Submit(s2).0.suggestion
  {
  }

  /** Typing an answer changes the score by that question's contribution
      only. */
  lemma EditAnswerScore(s: State, q: string, text: string)
    requires q in Questions
    ensures Score(EditAnswer(s, q, text).answers)
         == Score(s.answers - {q}) + (if IsNegative(text) then 1 else 0)
  {
    ScoreOfUpdate(s.answers, q, text);
  }

  /** Two submits in a row send two records with the same content, append
      the mood twice and show the same message both times. */
  lemma TwoRapidSubmits(s: State)
    ensures Submit(s).1 == Submit(Submit(s).0).1
    ensures Submit(Submit(s).0).0.suggestion == Submit(s).0.suggestion
    ensures var h := Submit(Submit(s).0).0.moodHistory;
      |h| >= 2 && h[|h| - 2] == h[|h| - 1] == s.selectedMood
  {
    var h1 := Submit(s).0.moodHistory;
    var h2 := Submit(Submit(s).0).0.moodHistory;
    assert h2[..|h2| - 1] == History.LastN(h1, 4);
    assert h2[|h2| - 2] == h1[|h1| - 1];
  }

  /** Submitting straight after the page loads: score 0, the low-concern
      message, and one history entry holding the empty mood. */
  lemma SubmitOnFreshPage()
    ensures var (r, sent) := Submit(Initial());
      && r.showResult
      && r.suggestion == LowConcernMessage
      && r.moodHistory == [""]
      && sent == Submission("", map[], "")
  {
    EmptyAnswersLowConcern();
  }

  /** Three of five answers "no", the others "yes" and "high": score 3 and
      the high-concern message. */
  lemma ThreeNegativeAnswersHighConcern(s: State)
    requires s.answers == map[Questions[0] := "no", Questions[1] := "no", Questions[2] := "no",
                              Questions[3] := "yes", Questions[4] := "high"]
    ensures Score(s.answers) == 3
    ensures Submit(s).0.suggestion == HighConcernMessage
  {
    QuestionsDistinct();
    ThreeOfFiveScore(Questions[0], Questions[1], Questions[2], Questions[3], Questions[4]);
  }

  /** Answers "no", "no", "no", "yes", "high" under five different prompts
      score 3. */
  lemma ThreeOfFiveScore(q0: string, q1: string, q2: string, q3: string, q4: string)
    requires Distinct([q0, q1, q2, q3, q4])
    ensures Score(map[q0 := "no", q1 := "no", q2 := "no", q3 := "yes", q4 := "high"]) == 3
  {
    assert IsNegative("no") by { WordMakesNegative("no", "no"); }
    assert !IsNegative("yes") by { OtherAnswersDoNotCount(); }
    assert !IsNegative("high") by { assert Text.ToLower("high") == "high"; }
    var qs := [q0, q1, q2, q3, q4];
    assert qs[0] == q0 && qs[1] == q1 && qs[2] == q2 && qs[3] == q3 && qs[4] == q4;
    var a0: Answers := map[];
    var a1 := a0[q0 := "no"];
    var a2 := a1[q1 := "no"];
    var a3 := a2[q2 := "no"];
    var a4 := a3[q3 := "yes"];
    ScoreAddNew(a0, q0, "no");
    ScoreAddNew(a1, q1, "no");
    ScoreAddNew(a2, q2, "no");
    ScoreAddNew(a3, q3, "yes");
    ScoreAddNew(a4, q4, "high");
  }
}
