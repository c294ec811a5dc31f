/**
 * The generation client, reduced to what it does around the provider
 * calls: the difficulty guidance table, the checks and id assignment after
 * a quiz response, the text fallbacks of the clarification and summary
 * calls, and the context string the summary prompt embeds. The provider's
 * response is an input; so is JSON.parse, as a function that may fail.
 */
module GeminiService {
  import opened Types
  import opened Strings

  const NoResponseMessage: string := "No response from AI"
  /** Stands for the SyntaxError/TypeError that JSON.parse or `.map` throws
      when the text is not a JSON array. */
  const MalformedResponseMessage: string := "Response is not a JSON array"
  const ClarificationFallback: string := "I'm sorry, I couldn't generate a clarification at this time."
  const SummaryFallback: string := "Could not generate summary."

  /** One element of the parsed response: the schema's fields, and
      whatever `id` the model may have put there. */
  datatype RawQuestion = RawQuestion(
    id: Option<string>,
    question: string,
    options: seq<string>,
    correctAnswerIndex: int,
    explanation: string,
    codeExample: Option<string>)

  /** What the guidance for each level asks the quiz to focus on. */
  function GuidanceFocus(d: DifficultyLevel): string
  {
    match d
    case Junior => "foundational concepts, standard syntax, and basic problem-solving expected of a Junior Developer."
    case Medium => "design patterns, intermediate concepts, performance considerations, and industry practices."
    case Senior => "high-level architecture, scalability, complex edge cases, and advanced optimization."
  }

  /** The prompt guidance for each level; the table covers every level. */
  function DifficultyGuidance(d: DifficultyLevel): (r: string)
    ensures |r| > 0
  {
    "Focus on " + GuidanceFocus(d)
  }

  /** The identifier `q-<index>` given to the question at `index`. */
  function QuestionId(index: nat): (r: string)
    ensures |r| >= 3 && r[..2] == "q-" && AllDigits(r[2..])
    ensures Canonical(r[2..])
  {
    var r := "q-" + NatToString(index);
    assert r[2..] == NatToString(index);
    r
  }

  /** The index can be read back from the identifier. */
  lemma QuestionIdReadsBack(index: nat)
    ensures |QuestionId(index)| >= 3 && QuestionId(index)[..2] == "q-"
    ensures AllDigits(QuestionId(index)[2..]) && ParseNat(QuestionId(index)[2..]) == index
  {
    assert QuestionId(index)[2..] == NatToString(index);
    ParseNatToString(index);
  }

  /** The digits after `q-` are exactly the decimal rendering of the index. */
  lemma QuestionIdExact(index: nat)
    ensures QuestionId(index)[2..] == NatToString(index)
  {
    QuestionIdReadsBack(index);
    CanonicalReadsBack(QuestionId(index)[2..]);
  }

  /** Different indices give different identifiers. */
  lemma QuestionIdInjective(i: nat, j: nat)
    requires QuestionId(i) == QuestionId(j)
    ensures i == j
  {
    QuestionIdReadsBack(i);
    QuestionIdReadsBack(j);
  }

  /** `{...q, id: `q-${index}`}`: the element with its id set, or overridden. */
  function WithId(q: RawQuestion, index: nat): (r: Question)
    ensures r.id == QuestionId(index)
    ensures r.question == q.question && r.options == q.options
    ensures r.correctAnswerIndex == q.correctAnswerIndex
    ensures r.explanation == q.explanation && r.codeExample == q.codeExample
  {
    Question(QuestionId(index), q.question, q.options, q.correctAnswerIndex, q.explanation, q.codeExample)
  }

  /** `rawQuestions.map((q, index) => ({...q, id: `q-${index}`}))`. */
  function AssignIds(raw: seq<RawQuestion>): (qs: seq<Question>)
    ensures |qs| == |raw|
    ensures forall i :: 0 <= i < |raw| ==> qs[i].id == QuestionId(i)
    ensures forall i :: 0 <= i < |raw| ==>
      && qs[i].question == raw[i].question
      && qs[i].options == raw[i].options
      && qs[i].correctAnswerIndex == raw[i].correctAnswerIndex
      && qs[i].explanation == raw[i].explanation
      && qs[i].codeExample == raw[i].codeExample
  {
    seq(|raw|, i requires 0 <= i < |raw| => WithId(raw[i], i))
  }

  /** The identifiers of the questions of a generated quiz are pairwise distinct. */
  lemma AssignedIdsDistinct(raw: seq<RawQuestion>, i: nat, j: nat)
    requires i < |raw| && j < |raw| && i != j
    ensures AssignIds(raw)[i].id != AssignIds(raw)[j].id
  {
    if QuestionId(i) == QuestionId(j) {
      QuestionIdInjective(i, j);
    }
  }

  /** What `generateQuiz` does with the provider's response: an absent or
      empty text fails, a text that does not parse fails, and otherwise
      every parsed element gets its sequential identifier. */
  function GenerateQuiz(text: Option<string>, parse: string -> Option<seq<RawQuestion>>): (r: Result<seq<Question>>)
    ensures (text.None? || text.value == "") ==> r == Failure(NoResponseMessage)
    ensures text.Some? && text.value != "" && parse(text.value).None? ==> r.Failure?
    ensures r.Success? <==> text.Some? && text.value != "" && parse(text.value).Some?
    ensures r.Success? ==>
      && |r.value| == |parse(text.value).value|
      && forall i :: 0 <= i < |r.value| ==> r.value[i] == WithId(parse(text.value).value[i], i)
  {
    if text.None? || text.value == "" then Failure(NoResponseMessage)
    else match parse(text.value)
      case None => Failure(MalformedResponseMessage)
      case Some(raw) => Success(AssignIds(raw))
  }

  /** `response.text || fallback`: the empty string and an undefined text
      both select the fallback. */
  function TextOr(text: Option<string>, fallback: string): (r: string)
    ensures text.Some? && text.value != "" ==> r == text.value
    ensures text.None? || text.value == "" ==> r == fallback
  {
    if text.Some? && text.value != "" then text.value else fallback
  }

  /** The text `getClarification` returns for a provider reply; never empty. */
  function Clarification(text: Option<string>): (r: string)
    ensures r != ""
    ensures text.Some? && text.value != "" ==> r == text.value
    ensures text.None? || text.value == "" ==> r == ClarificationFallback
  {
    TextOr(text, ClarificationFallback)
  }

  /** The text `generateSummary` returns for a provider reply; never empty. */
  function Summary(text: Option<string>): (r: string)
    ensures r != ""
    ensures text.Some? && text.value != "" ==> r == text.value
    ensures text.None? || text.value == "" ==> r == SummaryFallback
  {
    TextOr(text, SummaryFallback)
  }

  /** The block the summary context holds for one question. */
  function ConceptBlock(q: Question): string
  {
    "Concept: " + q.question + "\nKey Detail: " + q.explanation
  }

  function ConceptBlocks(qs: seq<Question>): (bs: seq<string>)
    ensures |bs| == |qs| && forall i :: 0 <= i < |qs| ==> bs[i] == ConceptBlock(qs[i])
  {
    seq(|qs|, i requires 0 <= i < |qs| => ConceptBlock(qs[i]))
  }

  /** `questions.map(q => …).join('\n\n')`: empty without questions;
      otherwise it opens with the first question's block and closes with
      the last one's. */
  function SummaryContext(qs: seq<Question>): (r: string)
    ensures qs == [] ==> r == ""
    ensures qs != [] ==> |ConceptBlock(qs[0])| <= |r| && r[..|ConceptBlock(qs[0])|] == ConceptBlock(qs[0])
    ensures qs != [] ==>
      var last := ConceptBlock(qs[|qs| - 1]);
      |last| <= |r| && r[|r| - |last|..] == last
  {
    var blocks := ConceptBlocks(qs);
    if qs == [] then Join(blocks, "\n\n")
    else
      JoinEndsWithLast(blocks, "\n\n");
      Join(blocks, "\n\n")
  }

  /** The context holds one block per question, in order, separated by a
      blank line: adding a question appends its block after "\n\n". */
  lemma SummaryContextSnoc(qs: seq<Question>, q: Question)
    ensures SummaryContext(qs + [q]) ==
      if qs == [] then ConceptBlock(q) else SummaryContext(qs) + "\n\n" + ConceptBlock(q)
  {
    assert ConceptBlocks(qs + [q]) == ConceptBlocks(qs) + [ConceptBlock(q)];
    JoinSnoc(ConceptBlocks(qs), ConceptBlock(q), "\n\n");
  }
}
