/**
 * The root component: which screen is up (`state`), the current quiz
 * session and the error banner, and the three transitions between them.
 * The asynchronous `startQuiz` is two steps here: BeginStartQuiz runs up
 * to the `await`, CompleteStartQuiz runs after it with the outcome of the
 * generation call. `Date.now()` is the parameter `now`.
 */
module App {
  import opened Types
  import Strings
  import GeminiService

  const GenerationErrorMessage: string := "Failed to generate quiz. Please check your content and try again."

  /** What the setup screen lets its user submit: one of these counts, with
      medium difficulty and ten questions preselected. */
  const QuestionCounts: set<nat> := {5, 10, 15, 20}
  const DefaultDifficulty: DifficultyLevel := Medium
  const DefaultQuestionCount: nat := 10

  /** The preselected count is one of the offered counts, so the setup
      screen's defaults meet BeginStartQuiz's precondition on the count;
      the preselected level is the medium one. */
  lemma DefaultsOffered()
    ensures DefaultQuestionCount in QuestionCounts
    ensures DifficultyLabel(DefaultDifficulty) == "Medium Developer"
  {
  }

  /** The session a successful generation starts: every answer unset (-1),
      every time zero, started now, not yet ended. */
  function NewSession(questions: seq<Question>, difficulty: DifficultyLevel, now: int): (s: QuizSession)
    ensures s.questions == questions && ParallelArraysMatch(s)
    ensures forall i :: 0 <= i < |questions| ==> s.userAnswers[i] == -1 && s.questionTimes[i] == 0
    ensures s.startTime == now && s.difficulty == difficulty && s.endTime == None
  {
    QuizSession(questions, seq(|questions|, _ => -1), seq(|questions|, _ => 0), now, difficulty, None)
  }

  /** The session once the quiz screen hands over its arrays: only the
      answers, the times and the end time change. */
  function FinishedSession(s: QuizSession, answers: seq<int>, times: seq<int>, now: int): (f: QuizSession)
    ensures f.userAnswers == answers && f.questionTimes == times && f.endTime == Some(now)
    ensures f.questions == s.questions && f.startTime == s.startTime && f.difficulty == s.difficulty
  {
    s.(userAnswers := answers, questionTimes := times, endTime := Some(now))
  }

  /** The screen the component renders below the error banner. */
  datatype Screen =
    | SetupScreen
    | LoadingScreen
    | QuizScreen(questions: seq<Question>)
    | ResultsScreen(session: QuizSession)
    | NoScreen

  class AppComponent {
    var state: AppState
    var session: Option<QuizSession>
    var error: Option<string>

    /** The quiz and results screens always have a session to show, and its
        parallel arrays have one entry per question. */
    ghost predicate Valid()
      reads this
    {
      (state == Quiz || state == Results) ==> session.Some? && ParallelArraysMatch(session.value)
    }

    constructor ()
      ensures Valid()
      ensures state == Setup && session == None && error == None
    {
      state, session, error := Setup, None, None;
    }

    /** The render guards: a screen appears only when its state is current
        and, for the quiz and results screens, a session is present. */
    function Rendered(): (r: Screen)
      reads this
      ensures r == SetupScreen <==> state == Setup
      ensures r == LoadingScreen <==> state == Loading
      ensures r.QuizScreen? <==> state == Quiz && session.Some?
      ensures r.ResultsScreen? <==> state == Results && session.Some?
      ensures r.QuizScreen? ==> r.questions == session.value.questions
      ensures r.ResultsScreen? ==> r.session == session.value
      ensures Valid() ==> r != NoScreen
    {
      match state
      case Setup => SetupScreen
      case Loading => LoadingScreen
      case Quiz => if session.Some? then QuizScreen(session.value.questions) else NoScreen
      case Results => if session.Some? then ResultsScreen(session.value) else NoScreen
    }

    /** `startQuiz` up to its `await`. Only the setup screen calls it, with
        non-blank material and one of the offered question counts. */
    method BeginStartQuiz(markdown: string, difficulty: DifficultyLevel, count: nat)
      requires Valid() && state == Setup
      requires !Strings.IsBlank(markdown)
      requires count in QuestionCounts
      modifies this
      ensures Valid()
      ensures state == Loading && error == None && session == old(session)
    {
      state := Loading;
      error := None;
    }

    /** `startQuiz` after its `await`, given what `generateQuiz` produced and
        the difficulty the call was made with. Nothing checks that the
        component is still loading: a late completion still applies. */
    method CompleteStartQuiz(outcome: Result<seq<Question>>, difficulty: DifficultyLevel, now: int)
      requires Valid()
      modifies this
      ensures Valid()
      ensures outcome.Success? ==>
        && state == Quiz
        && session == Some(NewSession(outcome.value, difficulty, now))
        && error == old(error)
      ensures outcome.Failure? ==>
        && state == Setup
        && session == old(session)
        && error == Some(GenerationErrorMessage)
    {
      match outcome
      case Success(questions) =>
        session := Some(NewSession(questions, difficulty, now));
        state := Quiz;
      case Failure(_) =>
        error := Some(GenerationErrorMessage);
        state := Setup;
    }

    /** `handleFinish`, called by the quiz screen (rendered only in the quiz
        state, with a session) with one answer and one time per question. */
    method Finish(answers: seq<int>, times: seq<int>, now: int)
      requires Valid() && state == Quiz
      requires |answers| == |session.value.questions| && |times| == |session.value.questions|
      modifies this
      ensures Valid()
      ensures state == Results && error == old(error)
      ensures session == Some(FinishedSession(old(session).value, answers, times, now))
    {
      session := Some(FinishedSession(session.value, answers, times, now));
      state := Results;
    }

    /** `handleRestart`: drops the session and goes back to setup. The error
        banner is left as it is. */
    method Restart()
      requires Valid()
      modifies this
      ensures Valid()
      ensures state == Setup && session == None && error == old(error)
    {
      session := None;
      state := Setup;
    }
  }

  /** An empty response body: generation fails, the component is back at
      setup with the error banner, and no session exists. */
  method EmptyResponseScenario(markdown: string, difficulty: DifficultyLevel, count: nat, now: int,
                               parse: string -> Option<seq<GeminiService.RawQuestion>>)
    returns (state: AppState, session: Option<QuizSession>, error: Option<string>)
    requires !Strings.IsBlank(markdown) && count in QuestionCounts
    ensures state == Setup && session == None && error == Some(GenerationErrorMessage)
  {
    var app := new AppComponent();
    app.BeginStartQuiz(markdown, difficulty, count);
    var outcome := GeminiService.GenerateQuiz(Some(""), parse);
    app.CompleteStartQuiz(outcome, difficulty, now);
    state, session, error := app.state, app.session, app.error;
  }
}
