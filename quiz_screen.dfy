/**
 * The quiz screen: the index of the question shown, one answer slot and
 * one elapsed-seconds slot per question, and the handlers that update
 * them. The one-second interval is the Tick event; `onFinish` is the
 * Finished outcome of Next.
 */
module QuizScreen {
  import opened Types
  import opened Strings

  /** What the Next button does: move on, or hand the arrays to `onFinish`. */
  datatype NextOutcome = Advanced | Finished(answers: seq<int>, times: seq<int>)

  class QuizScreenState {
    const questions: seq<Question>
    var currentIndex: nat
    var answers: array<int>
    var questionTimes: array<int>

    /** Both arrays have one slot per question; the index stays in range;
        an answer is unset (-1) or an index of its question's options; every
        question before the current one has been answered; times are never
        negative. */
    ghost predicate Valid()
      reads this, answers, questionTimes
    {
      && answers != questionTimes
      && answers.Length == |questions| && questionTimes.Length == |questions|
      && (currentIndex < |questions| || (|questions| == 0 && currentIndex == 0))
      && (forall j :: 0 <= j < answers.Length ==>
            answers[j] == -1 || 0 <= answers[j] < |questions[j].options|)
      && (forall j :: 0 <= j < currentIndex ==> answers[j] != -1)
      && (forall j :: 0 <= j < questionTimes.Length ==> questionTimes[j] >= 0)
    }

    /** The initial state: first question, no answers, no time spent. */
    constructor (questions: seq<Question>)
      ensures Valid()
      ensures this.questions == questions && currentIndex == 0
      ensures fresh(answers) && fresh(questionTimes)
      ensures answers[..] == seq(|questions|, _ => -1)
      ensures questionTimes[..] == seq(|questions|, _ => 0)
    {
      this.questions := questions;
      currentIndex := 0;
      answers := new int[|questions|](_ => -1);
      questionTimes := new int[|questions|](_ => 0);
    }

    /** `handleSelectOption`: records the option for the current question
        only. The buttons offer the indices of that question's options; with
        no questions the screen cannot render, so it has at least one. */
    method SelectOption(optionIndex: int)
      requires Valid() && |questions| > 0
      requires 0 <= optionIndex < |questions[currentIndex].options|
      modifies answers
      ensures Valid()
      ensures answers[..] == old(answers[..])[currentIndex := optionIndex]
      ensures questionTimes[..] == old(questionTimes[..])
    {
      answers[currentIndex] := optionIndex;
    }

    /** One second of the interval: the current question's time grows by
        one and no other time changes, so no time ever decreases. */
    method Tick()
      requires Valid() && |questions| > 0
      modifies questionTimes
      ensures Valid()
      ensures questionTimes[..] == old(questionTimes[..])[currentIndex := old(questionTimes[currentIndex]) + 1]
      ensures forall j :: 0 <= j < questionTimes.Length ==> old(questionTimes[j]) <= questionTimes[j]
      ensures answers[..] == old(answers[..])
    {
      questionTimes[currentIndex] := questionTimes[currentIndex] + 1;
    }

    /** `handleNext`, which the button allows only once the current question
        is answered: the next question, or, on the last one, the finished
        arrays, in which every question has a valid answer. */
    method Next() returns (outcome: NextOutcome)
      requires Valid() && |questions| > 0
      requires answers[currentIndex] != -1
      modifies this
      ensures Valid()
      ensures answers[..] == old(answers[..]) && questionTimes[..] == old(questionTimes[..])
      ensures old(currentIndex) < |questions| - 1 ==>
        currentIndex == old(currentIndex) + 1 && outcome == Advanced
      ensures old(currentIndex) == |questions| - 1 ==>
        currentIndex == old(currentIndex) && outcome == Finished(answers[..], questionTimes[..])
      ensures outcome.Finished? ==>
        AllAnswered(questions, outcome.answers) && |outcome.times| == |questions|
    {
      if currentIndex < |questions| - 1 {
        currentIndex := currentIndex + 1;
        outcome := Advanced;
      } else {
        outcome := Finished(answers[..], questionTimes[..]);
      }
    }

    /** `handlePrev`: the previous question, unless this is the first. */
    method Prev()
      requires Valid()
      modifies this
      ensures Valid()
      ensures currentIndex == if old(currentIndex) > 0 then old(currentIndex) - 1 else old(currentIndex)
      ensures answers[..] == old(answers[..]) && questionTimes[..] == old(questionTimes[..])
    {
      if currentIndex > 0 {
        currentIndex := currentIndex - 1;
      }
    }
  }

  /** `formatTime` of the quiz screen: minutes, a colon, and the seconds in
      two digits. Reading the fields back gives the minutes and the seconds
      below sixty that make up `seconds`. */
  function FormatClock(seconds: nat): (r: string)
    ensures |r| >= 4 && r[|r| - 3] == ':'
    ensures Canonical(r[..|r| - 3]) && AllDigits(r[|r| - 2..])
    ensures ParseNat(r[..|r| - 3]) == seconds / 60
    ensures ParseNat(r[|r| - 2..]) == seconds % 60
  {
    var m := seconds / 60;
    var s := seconds % 60;
    var mm := NatToString(m);
    var ss := (if s < 10 then "0" else "") + NatToString(s);
    var r := mm + ":" + ss;
    assert r[..|r| - 3] == mm && r[|r| - 2..] == ss;
    ParseNatToString(m);
    TwoDigitSeconds(s);
    r
  }

  /** The seconds field, padded to two digits, reads back as the seconds. */
  lemma TwoDigitSeconds(s: nat)
    requires s < 60
    ensures var ss := (if s < 10 then "0" else "") + NatToString(s);
      |ss| == 2 && AllDigits(ss) && ParseNat(ss) == s
  {
    ParseNatToString(s);
    var ss := (if s < 10 then "0" else "") + NatToString(s);
    if s < 10 {
      assert ss[..|ss| - 1] == "0";
      assert ParseNat("0") == 0 by { assert "0"[..0] == ""; }
    }
  }

  /** Two two-digit fields that read back as the same number are the same. */
  lemma TwoDigitsDetermined(a: string, b: string)
    requires |a| == 2 && |b| == 2 && AllDigits(a) && AllDigits(b)
    requires ParseNat(a) == ParseNat(b)
    ensures a == b
  {
  }

  /** The clock text is the only one with canonical minutes, a colon and
      two digits that read back as the minutes and seconds of `seconds`. */
  lemma FormatClockUnique(seconds: nat, r: string)
    requires |r| >= 4 && r[|r| - 3] == ':'
    requires Canonical(r[..|r| - 3]) && AllDigits(r[|r| - 2..])
    requires ParseNat(r[..|r| - 3]) == seconds / 60
    requires ParseNat(r[|r| - 2..]) == seconds % 60
    ensures r == FormatClock(seconds)
  {
    var f := FormatClock(seconds);
    CanonicalReadsBack(r[..|r| - 3]);
    CanonicalReadsBack(f[..|f| - 3]);
    TwoDigitsDetermined(r[|r| - 2..], f[|f| - 2..]);
    assert r == r[..|r| - 3] + ":" + r[|r| - 2..];
    assert f == f[..|f| - 3] + ":" + f[|f| - 2..];
  }
}
