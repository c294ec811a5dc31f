/**
 * The session data model shared by every screen: questions, the quiz
 * session, tutor follow-ups and the two enumerations.
 */
module Types {

  datatype Option<T> = None | Some(value: T)

  /** A completed asynchronous call: its value, or the fact that it threw. */
  datatype Result<T> = Success(value: T) | Failure(message: string)

  /** One call into the model provider: the response's `text` property
      (which the SDK may leave undefined), or a thrown error. */
  datatype ModelCall = Replied(text: Option<string>) | Threw

  datatype DifficultyLevel = Junior | Medium | Senior

  /** The string value of each enum member. */
  function DifficultyLabel(d: DifficultyLevel): string
  {
    match d
    case Junior => "Junior Developer"
    case Medium => "Medium Developer"
    case Senior => "Senior Developer"
  }

  datatype Question = Question(
    id: string,
    question: string,
    options: seq<string>,
    correctAnswerIndex: int,
    explanation: string,
    codeExample: Option<string>)

  /** `userAnswers` holds an option index or -1 (unanswered);
      `questionTimes` holds seconds spent on each question. */
  datatype QuizSession = QuizSession(
    questions: seq<Question>,
    userAnswers: seq<int>,
    questionTimes: seq<int>,
    startTime: int,
    difficulty: DifficultyLevel,
    endTime: Option<int>)

  datatype FollowUpResponse = FollowUpResponse(
    questionId: string,
    userQuery: string,
    aiResponse: string)

  datatype AppState = Setup | Loading | Quiz | Results

  /** The parallel arrays of a session have one entry per question. */
  predicate ParallelArraysMatch(s: QuizSession)
  {
    |s.userAnswers| == |s.questions| && |s.questionTimes| == |s.questions|
  }

  /** Every question has been given an answer that indexes one of its options. */
  predicate AllAnswered(questions: seq<Question>, answers: seq<int>)
  {
    |answers| == |questions| &&
    forall j :: 0 <= j < |answers| ==> 0 <= answers[j] < |questions[j].options|
  }
}
