/**
 * The results screen: the score and the per-question review marks, the
 * elapsed-time figures and their formatting, the code-snippet language,
 * the cheatsheet download, and the tutor follow-up bookkeeping.
 */
module ResultsScreen {
  import opened Types
  import opened Strings
  import GeminiService

  // ---------------------------------------------------------------------
  // Score
  // ---------------------------------------------------------------------

  /** Question `i` was answered with its correct option. An answer slot
      missing from a short answers array never matches. */
  function AnsweredCorrectly(s: QuizSession, i: nat): (b: bool)
    ensures b ==> i < |s.questions| && i < |s.userAnswers|
    ensures (i < |s.questions| && i < |s.userAnswers| && s.userAnswers[i] == -1 &&
             s.questions[i].correctAnswerIndex >= 0) ==> !b
  {
    i < |s.questions| && i < |s.userAnswers| && s.userAnswers[i] == s.questions[i].correctAnswerIndex
  }

  /** The questions below `k` answered correctly. */
  function CorrectBelow(s: QuizSession, k: nat): set<nat>
  {
    set i: nat | i < k && AnsweredCorrectly(s, i)
  }

  /** The questions answered correctly. */
  function CorrectIndices(s: QuizSession): set<nat>
  {
    CorrectBelow(s, |s.questions|)
  }

  lemma CorrectBelowStep(s: QuizSession, k: nat)
    ensures CorrectBelow(s, k + 1) ==
      if AnsweredCorrectly(s, k) then CorrectBelow(s, k) + {k} else CorrectBelow(s, k)
    ensures k !in CorrectBelow(s, k)
  {
  }

  /** `calculateScore`: the number of questions whose recorded answer is
      the correct option, at most the number of questions. */
  method CalculateScore(s: QuizSession) returns (score: nat)
    ensures score == |CorrectIndices(s)|
    ensures score <= |s.questions|
  {
    score := 0;
    var i := 0;
    while i < |s.questions|
      invariant 0 <= i <= |s.questions|
      invariant score == |CorrectBelow(s, i)|
      invariant score <= i
    {
      CorrectBelowStep(s, i);
      if i < |s.userAnswers| && s.userAnswers[i] == s.questions[i].correctAnswerIndex {
        score := score + 1;
      }
      i := i + 1;
    }
  }

  /** The `isCorrect` mark of each row of the detailed review. */
  function ReviewMarks(s: QuizSession): (marks: seq<bool>)
    ensures |marks| == |s.questions|
    ensures forall i :: 0 <= i < |marks| ==> (marks[i] <==> AnsweredCorrectly(s, i))
  {
    seq(|s.questions|, i requires 0 <= i < |s.questions| => i < |s.userAnswers| && s.userAnswers[i] == s.questions[i].correctAnswerIndex)
  }

  function CountTrue(bs: seq<bool>): nat
    decreases |bs|
  {
    if bs == [] then 0 else CountTrue(bs[..|bs| - 1]) + (if bs[|bs| - 1] then 1 else 0)
  }

  lemma {:induction false} ReviewMarksPrefixCount(s: QuizSession, k: nat)
    requires k <= |s.questions|
    ensures CountTrue(ReviewMarks(s)[..k]) == |CorrectBelow(s, k)|
    decreases k
  {
    if k > 0 {
      var marks := ReviewMarks(s);
      assert marks[..k][..k - 1] == marks[..k - 1];
      ReviewMarksPrefixCount(s, k - 1);
      CorrectBelowStep(s, k - 1);
    }
  }

  /** The score equals the number of review rows marked correct. */
  lemma ScoreMatchesReview(s: QuizSession)
    ensures CountTrue(ReviewMarks(s)) == |CorrectIndices(s)|
  {
    assert ReviewMarks(s)[..|s.questions|] == ReviewMarks(s);
    ReviewMarksPrefixCount(s, |s.questions|);
  }

  // ---------------------------------------------------------------------
  // Time
  // ---------------------------------------------------------------------

  /** `(session.endTime || Date.now()) - session.startTime`, in milliseconds;
      an end time of 0 is falsy and counts as absent. */
  function ElapsedMs(s: QuizSession, now: int): (ms: int)
    ensures s.endTime.Some? && s.endTime.value != 0 ==> ms + s.startTime == s.endTime.value
    ensures s.endTime.None? || s.endTime.value == 0 ==> ms + s.startTime == now
  {
    (if s.endTime.Some? && s.endTime.value != 0 then s.endTime.value else now) - s.startTime
  }

  /** `Math.round(elapsed / 1000)`: the nearest whole second, halves
      rounded up. */
  function TotalTimeSeconds(s: QuizSession, now: int): (r: int)
    ensures 1000 * r - 500 <= ElapsedMs(s, now) < 1000 * r + 500
  {
    (ElapsedMs(s, now) + 500) / 1000
  }

  /** The first position of `c` in `s`, if any. */
  function IndexOf(s: string, c: char): (r: Option<nat>)
    ensures r.Some? ==> r.value < |s| && s[r.value] == c && forall j :: 0 <= j < r.value ==> s[j] != c
    ensures r.None? ==> forall j :: 0 <= j < |s| ==> s[j] != c
    decreases |s|
  {
    if s == [] then None
    else if s[0] == c then Some(0)
    else match IndexOf(s[1..], c)
      case None => None
      case Some(p) => Some(p + 1)
  }

  /** Reads a duration written as `<s>s` or `<m>m <s>s`, each number a
      canonical numeral, back into its minutes and seconds. */
  function ReadDuration(r: string): Option<(nat, nat)>
  {
    if r == [] || r[|r| - 1] != 's' then None
    else
      var body := r[..|r| - 1];
      match IndexOf(body, 'm')
      case None =>
        if Canonical(body) then Some((0, ParseNat(body))) else None
      case Some(p) =>
        if p + 2 <= |body| && body[p + 1] == ' ' && Canonical(body[..p]) && Canonical(body[p + 2..])
        then Some((ParseNat(body[..p]), ParseNat(body[p + 2..])))
        else None
  }

  /** A number of seconds alone reads back as no minutes and that many seconds. */
  lemma ReadSecondsOnly(ss: string)
    requires Canonical(ss)
    ensures ReadDuration(ss + "s") == Some((0, ParseNat(ss)))
  {
    var r := ss + "s";
    assert r[..|r| - 1] == ss;
    assert IndexOf(ss, 'm').None?;
  }

  /** Minutes and seconds read back as those two numbers. */
  lemma ReadMinutesAndSeconds(mm: string, ss: string)
    requires Canonical(mm) && Canonical(ss)
    ensures ReadDuration(mm + "m " + ss + "s") == Some((ParseNat(mm), ParseNat(ss)))
  {
    var r := mm + "m " + ss + "s";
    var body := r[..|r| - 1];
    assert body == mm + "m " + ss;
    assert body[..|mm|] == mm && body[|mm| + 2..] == ss;
    assert body[|mm|] == 'm' && body[|mm| + 1] == ' ';
    assert forall j :: 0 <= j < |mm| ==> body[j] == mm[j];
    assert IndexOf(body, 'm') == Some(|mm|);
  }

  /** A text that reads back as a duration is exactly its rendering: the
      seconds alone when it has no `m`, minutes and seconds otherwise. */
  lemma ReadDurationExact(r: string, m: nat, s: nat)
    requires ReadDuration(r) == Some((m, s))
    ensures 'm' !in r ==> m == 0 && r == NatToString(s) + "s"
    ensures 'm' in r ==> r == NatToString(m) + "m " + NatToString(s) + "s"
  {
    var body := r[..|r| - 1];
    assert r == body + "s";
    match IndexOf(body, 'm')
    case None =>
      SecondsOnlyExact(r, body);
    case Some(p) =>
      MinutesAndSecondsExact(r, body, p);
  }

  /** The no-minutes case of `ReadDurationExact`. */
  lemma SecondsOnlyExact(r: string, body: string)
    requires r == body + "s" && Canonical(body)
    requires forall j :: 0 <= j < |body| ==> body[j] != 'm'
    ensures 'm' !in r && r == NatToString(ParseNat(body)) + "s"
  {
    CanonicalReadsBack(body);
    assert forall j :: 0 <= j < |r| ==> r[j] != 'm' by {
      assert forall j :: 0 <= j < |body| ==> r[j] == body[j];
    }
  }

  /** The minutes-and-seconds case of `ReadDurationExact`. */
  lemma MinutesAndSecondsExact(r: string, body: string, p: nat)
    requires r == body + "s" && p + 2 <= |body| && body[p] == 'm' && body[p + 1] == ' '
    requires Canonical(body[..p]) && Canonical(body[p + 2..])
    ensures 'm' in r
    ensures r == NatToString(ParseNat(body[..p])) + "m " + NatToString(ParseNat(body[p + 2..])) + "s"
  {
    CanonicalReadsBack(body[..p]);
    CanonicalReadsBack(body[p + 2..]);
    assert body == body[..p] + "m " + body[p + 2..];
    assert r[p] == 'm';
  }

  /** `formatTime` of the results screen: seconds alone below a minute,
      otherwise minutes and seconds. Reading the text back gives the whole
      minutes and the remaining seconds. */
  function FormatDuration(seconds: nat): (r: string)
    ensures ReadDuration(r) == Some((seconds / 60, seconds % 60))
    ensures 'm' in r <==> seconds >= 60
  {
    if seconds < 60 then
      ParseNatToString(seconds);
      ReadSecondsOnly(NatToString(seconds));
      NatToString(seconds) + "s"
    else
      ParseNatToString(seconds / 60);
      ParseNatToString(seconds % 60);
      ReadMinutesAndSeconds(NatToString(seconds / 60), NatToString(seconds % 60));
      var r := NatToString(seconds / 60) + "m " + NatToString(seconds % 60) + "s";
      assert r[|NatToString(seconds / 60)|] == 'm';
      r
  }

  /** The total time on the score card, `<minutes>m <seconds>s` even below
      a minute. Reading it back gives the whole minutes and the remaining
      seconds; from one minute on it is the text `formatTime` gives. */
  function ScoreCardTime(total: nat): (r: string)
    ensures ReadDuration(r) == Some((total / 60, total % 60))
    ensures 'm' in r
    ensures total >= 60 ==> r == FormatDuration(total)
  {
    ParseNatToString(total / 60);
    ParseNatToString(total % 60);
    ReadMinutesAndSeconds(NatToString(total / 60), NatToString(total % 60));
    var r := NatToString(total / 60) + "m " + NatToString(total % 60) + "s";
    assert r[|NatToString(total / 60)|] == 'm';
    r
  }

  /** `formatTime` is the only text that reads back as the given minutes and
      seconds and writes minutes exactly from one minute on. */
  lemma FormatDurationUnique(seconds: nat, r: string)
    requires ReadDuration(r) == Some((seconds / 60, seconds % 60))
    requires 'm' in r <==> seconds >= 60
    ensures r == FormatDuration(seconds)
  {
    ReadDurationExact(r, seconds / 60, seconds % 60);
    var f := FormatDuration(seconds);
    ReadDurationExact(f, seconds / 60, seconds % 60);
  }

  /** The score card's time is the only text that reads back as the given
      minutes and seconds and writes the minutes. */
  lemma ScoreCardTimeUnique(total: nat, r: string)
    requires ReadDuration(r) == Some((total / 60, total % 60))
    requires 'm' in r
    ensures r == ScoreCardTime(total)
  {
    ReadDurationExact(r, total / 60, total % 60);
    var f := ScoreCardTime(total);
    ReadDurationExact(f, total / 60, total % 60);
  }

  // ---------------------------------------------------------------------
  // Code snippets
  // ---------------------------------------------------------------------

  /** `\w` of a regular expression without the unicode flag. */
  predicate IsWordChar(c: char)
  {
    ('a' <= c <= 'z') || ('A' <= c <= 'Z') || ('0' <= c <= '9') || c == '_'
  }

  /** /```(\w+)/ matches at position `i`. */
  predicate FenceAt(s: string, i: nat)
  {
    i + 4 <= |s| && s[i] == '`' && s[i + 1] == '`' && s[i + 2] == '`' && IsWordChar(s[i + 3])
  }

  /** The leftmost match at or after `from`. */
  function FirstFence(s: string, from: nat): (r: Option<nat>)
    ensures r.Some? ==>
      from <= r.value && FenceAt(s, r.value) && (forall j :: from <= j < r.value ==> !FenceAt(s, j))
    ensures r.None? ==> forall j :: from <= j < |s| ==> !FenceAt(s, j)
    decreases |s| - from
  {
    if from + 4 > |s| then None
    else if FenceAt(s, from) then Some(from)
    else FirstFence(s, from + 1)
  }

  /** The longest run of word characters starting at `i` (the greedy `\w+`). */
  function WordRun(s: string, i: nat): (r: string)
    requires i <= |s|
    ensures i + |r| <= |s| && r == s[i..i + |r|]
    ensures forall k :: 0 <= k < |r| ==> IsWordChar(r[k])
    ensures i + |r| == |s| || !IsWordChar(s[i + |r|])
    decreases |s| - i
  {
    if i < |s| && IsWordChar(s[i]) then [s[i]] + WordRun(s, i + 1) else []
  }

  /** The `language` of `parseCodeSnippet`: the word after the first
      fence that has one, or "javascript" when there is none. */
  function SnippetLanguage(snippet: string): (r: string)
    ensures r != []
    ensures FirstFence(snippet, 0).None? ==> r == "javascript"
    ensures FirstFence(snippet, 0).Some? ==>
      var start := FirstFence(snippet, 0).value + 3;
      && start + |r| <= |snippet| && r == snippet[start..start + |r|]
      && (forall k :: 0 <= k < |r| ==> IsWordChar(r[k]))
      && (start + |r| == |snippet| || !IsWordChar(snippet[start + |r|]))
  {
    match FirstFence(snippet, 0)
    case None => "javascript"
    case Some(i) => WordRun(snippet, i + 3)
  }

  // ---------------------------------------------------------------------
  // Cheatsheet download
  // ---------------------------------------------------------------------

  /** `RizziBizzi_Cheatsheet_<difficulty with \s+ as _>_<date>.md`, for the
      date part of the current ISO timestamp. */
  function CheatsheetFilename(d: DifficultyLevel, date: string): (r: string)
    ensures |r| >= 26 + |date| && r[..22] == "RizziBizzi_Cheatsheet_" && r[|r| - 3..] == ".md"
    ensures r[|r| - 3 - |date|..|r| - 3] == date
  {
    "RizziBizzi_Cheatsheet_" + ReplaceWhitespaceRuns(DifficultyLabel(d)) + "_" + date + ".md"
  }

  /** The first word of a level's label. */
  function LevelWord(d: DifficultyLevel): (w: string)
    ensures NoWhitespace(w)
  {
    match d
    case Junior => "Junior"
    case Medium => "Medium"
    case Senior => "Senior"
  }

  /** The word every difficulty label ends with. Naming it keeps the label
      literals apart in the lemmas below, which keeps their proofs short. */
  const DeveloperWord := "Developer"

  lemma LabelWords(d: DifficultyLevel)
    ensures DifficultyLabel(d) == LevelWord(d) + " " + DeveloperWord
  {
  }

  lemma DeveloperSlug(w: string)
    requires NoWhitespace(w)
    ensures ReplaceWhitespaceRuns(w + " " + DeveloperWord) == w + "_" + DeveloperWord
  {
    assert NoWhitespace(DeveloperWord);
    ReplaceWhitespaceRunsOneSpace(w, DeveloperWord);
  }

  /** Each level's label with its space turned into an underscore. */
  lemma DifficultySlug(d: DifficultyLevel)
    ensures ReplaceWhitespaceRuns(DifficultyLabel(d)) == LevelWord(d) + "_" + DeveloperWord
  {
    LabelWords(d);
    DeveloperSlug(LevelWord(d));
  }

  /** The file name each level gives. */
  lemma CheatsheetFilenameByLevel(d: DifficultyLevel, date: string)
    ensures CheatsheetFilename(d, date) ==
      "RizziBizzi_Cheatsheet_" + LevelWord(d) + "_" + DeveloperWord + "_" + date + ".md"
  {
    DifficultySlug(d);
  }

  /** The file the browser saves: its name and its text. */
  datatype Download = Download(filename: string, contents: string)

  // ---------------------------------------------------------------------
  // Screen state: summary, tutor follow-ups, download dialog
  // ---------------------------------------------------------------------

  function QuestionIds(qs: seq<Question>): set<string>
  {
    set q | q in qs :: q.id
  }

  lemma IdInQuestionIds(qs: seq<Question>, q: Question)
    requires q in qs
    ensures q.id in QuestionIds(qs)
  {
  }

  /** Every stored follow-up sits under its own question's id, that id is
      one of `ids`, and the query it answers is not blank. */
  predicate ResponsesWellFormed(m: map<string, FollowUpResponse>, ids: set<string>)
  {
    forall id :: id in m ==>
      && m[id].questionId == id
      && id in ids
      && !IsBlank(m[id].userQuery)
  }

  /** Storing a well-formed response under its own id keeps the map well formed. */
  lemma StorePreservesWellFormed(m: map<string, FollowUpResponse>, ids: set<string>, r: FollowUpResponse)
    requires ResponsesWellFormed(m, ids)
    requires r.questionId in ids && !IsBlank(r.userQuery)
    ensures ResponsesWellFormed(m[r.questionId := r], ids)
  {
  }

  class ResultsScreenState {
    const session: QuizSession
    var activeTutorId: Option<string>
    var tutorResponses: map<string, FollowUpResponse>
    var userQuery: string
    var isAsking: bool
    var summary: Option<string>
    var isGeneratingSummary: bool
    var showDownloadConfirm: bool

    /** The stored follow-ups are well formed for the session's questions;
        a summary, once there, is never empty. */
    ghost predicate Valid()
      reads this
    {
      && ResponsesWellFormed(tutorResponses, QuestionIds(session.questions))
      && (summary.Some? ==> summary.value != "")
    }

    constructor (session: QuizSession)
      ensures Valid()
      ensures this.session == session
      ensures activeTutorId == None && tutorResponses == map[] && userQuery == ""
      ensures !isAsking && summary == None && isGeneratingSummary && !showDownloadConfirm
    {
      this.session := session;
      activeTutorId := None;
      tutorResponses := map[];
      userQuery := "";
      isAsking := false;
      summary := None;
      isGeneratingSummary := true;
      showDownloadConfirm := false;
    }

    /** The follow-up form for `q` is open: `q` is the question the tutor
        was toggled for and has no stored response. Whether its row is
        expanded, which the form also needs to be visible, is not part of
        this state. */
    function TutorFormOpen(q: Question): (isOpen: bool)
      reads this
      ensures isOpen ==> activeTutorId.Some? && activeTutorId.value == q.id
      ensures isOpen ==> q.id !in tutorResponses
    {
      activeTutorId == Some(q.id) && q.id !in tutorResponses
    }

    /** At most one question's follow-up form is open at a time. */
    lemma OneFormAtATime(q1: Question, q2: Question)
      requires TutorFormOpen(q1) && TutorFormOpen(q2)
      ensures q1.id == q2.id
    {
    }

    /** `fetchSummary` once `generateSummary` has settled: a reply is stored
        (with its fallback), a thrown error leaves no summary; loading ends
        either way. */
    method CompleteSummary(call: ModelCall)
      requires Valid()
      modifies this
      ensures Valid()
      ensures call.Replied? ==> summary == Some(GeminiService.Summary(call.text))
      ensures call.Threw? ==> summary == old(summary)
      ensures !isGeneratingSummary
      ensures activeTutorId == old(activeTutorId) && tutorResponses == old(tutorResponses)
      ensures userQuery == old(userQuery) && isAsking == old(isAsking)
      ensures showDownloadConfirm == old(showDownloadConfirm)
    {
      if call.Replied? {
        summary := Some(GeminiService.Summary(call.text));
      }
      isGeneratingSummary := false;
    }

    /** `handleTutorToggle`: the open question closes; any other opens with
        an empty query. */
    method ToggleTutor(questionId: string)
      requires Valid()
      modifies this
      ensures Valid()
      ensures old(activeTutorId) == Some(questionId) ==>
        activeTutorId == None && userQuery == old(userQuery)
      ensures old(activeTutorId) != Some(questionId) ==>
        activeTutorId == Some(questionId) && userQuery == ""
      ensures tutorResponses == old(tutorResponses) && isAsking == old(isAsking)
      ensures summary == old(summary) && isGeneratingSummary == old(isGeneratingSummary)
      ensures showDownloadConfirm == old(showDownloadConfirm)
    {
      if activeTutorId == Some(questionId) {
        activeTutorId := None;
      } else {
        activeTutorId := Some(questionId);
        userQuery := "";
      }
    }

    /** The follow-up text area, editable while no request is in flight. */
    method EditQuery(text: string)
      requires Valid() && !isAsking
      modifies this
      ensures Valid()
      ensures userQuery == text
      ensures activeTutorId == old(activeTutorId) && tutorResponses == old(tutorResponses)
      ensures isAsking == old(isAsking) && summary == old(summary)
      ensures isGeneratingSummary == old(isGeneratingSummary)
      ensures showDownloadConfirm == old(showDownloadConfirm)
    {
      userQuery := text;
    }

    /** The form's Cancel button closes the form. */
    method CancelTutor()
      requires Valid() && !isAsking
      modifies this
      ensures Valid()
      ensures activeTutorId == None
      ensures userQuery == old(userQuery) && tutorResponses == old(tutorResponses)
      ensures isAsking == old(isAsking) && summary == old(summary)
      ensures isGeneratingSummary == old(isGeneratingSummary)
      ensures showDownloadConfirm == old(showDownloadConfirm)
    {
      activeTutorId := None;
    }

    /** The settled reply of `submitToTutor`: the follow-up is stored under
        the question's id, replacing any earlier one, and the form closes. */
    method StoreClarification(question: Question, reply: string)
      requires Valid() && question in session.questions && !IsBlank(userQuery)
      modifies this
      ensures Valid()
      ensures tutorResponses == old(tutorResponses)[question.id := FollowUpResponse(question.id, userQuery, reply)]
      ensures activeTutorId == None
      ensures userQuery == old(userQuery) && isAsking == old(isAsking) && summary == old(summary)
      ensures isGeneratingSummary == old(isGeneratingSummary)
      ensures showDownloadConfirm == old(showDownloadConfirm)
    {
      var response := FollowUpResponse(question.id, userQuery, reply);
      IdInQuestionIds(session.questions, question);
      StorePreservesWellFormed(tutorResponses, QuestionIds(session.questions), response);
      tutorResponses := tutorResponses[question.id := response];
      activeTutorId := None;
    }

    /** `submitToTutor`, from the open form of `question`, with the outcome
        of `getClarification`. A blank query does nothing. A reply stores
        exactly one response, under the question's id, and closes the form;
        a thrown error stores nothing and leaves the form open. The request
        is no longer in flight afterwards. */
    method SubmitToTutor(question: Question, call: ModelCall)
      requires Valid() && !isAsking
      requires question in session.questions && TutorFormOpen(question)
      modifies this
      ensures Valid()
      ensures TrimsToEmpty(old(userQuery)) ==>
        tutorResponses == old(tutorResponses) && activeTutorId == old(activeTutorId)
      ensures !TrimsToEmpty(old(userQuery)) && call.Replied? ==>
        && tutorResponses == old(tutorResponses)[question.id :=
             FollowUpResponse(question.id, old(userQuery), GeminiService.Clarification(call.text))]
        && activeTutorId == None
        && !TutorFormOpen(question)
      ensures !TrimsToEmpty(old(userQuery)) && call.Threw? ==>
        tutorResponses == old(tutorResponses) && activeTutorId == old(activeTutorId)
      ensures !isAsking
      ensures userQuery == old(userQuery) && summary == old(summary)
      ensures isGeneratingSummary == old(isGeneratingSummary)
      ensures showDownloadConfirm == old(showDownloadConfirm)
    {
      if !TrimsToEmpty(userQuery) {
        isAsking := true;
        if call.Replied? {
          StoreClarification(question, GeminiService.Clarification(call.text));
        }
        isAsking := false;
      }
    }

    /** The Download button (shown only with a summary) opens the dialog. */
    method RequestDownload()
      requires Valid()
      modifies this
      ensures Valid()
      ensures showDownloadConfirm
      ensures activeTutorId == old(activeTutorId) && tutorResponses == old(tutorResponses)
      ensures userQuery == old(userQuery) && isAsking == old(isAsking) && summary == old(summary)
      ensures isGeneratingSummary == old(isGeneratingSummary)
    {
      showDownloadConfirm := true;
    }

    /** The dialog's Cancel button. */
    method CancelDownload()
      requires Valid()
      modifies this
      ensures Valid()
      ensures !showDownloadConfirm
      ensures activeTutorId == old(activeTutorId) && tutorResponses == old(tutorResponses)
      ensures userQuery == old(userQuery) && isAsking == old(isAsking) && summary == old(summary)
      ensures isGeneratingSummary == old(isGeneratingSummary)
    {
      showDownloadConfirm := false;
    }

    /** `confirmDownload` on `date` (the date part of the ISO timestamp):
        without a summary nothing happens; otherwise the summary's text is
        saved under the cheatsheet name and the dialog closes. */
    method ConfirmDownload(date: string) returns (download: Option<Download>)
      requires Valid()
      modifies this
      ensures Valid()
      ensures (summary.None? || summary.value == "") ==>
        download == None && showDownloadConfirm == old(showDownloadConfirm)
      ensures summary.Some? && summary.value != "" ==>
        && download == Some(Download(CheatsheetFilename(session.difficulty, date), summary.value))
        && !showDownloadConfirm
      ensures activeTutorId == old(activeTutorId) && tutorResponses == old(tutorResponses)
      ensures userQuery == old(userQuery) && isAsking == old(isAsking) && summary == old(summary)
      ensures isGeneratingSummary == old(isGeneratingSummary)
    {
      if summary.None? || summary.value == "" {
        return None;
      }
      download := Some(Download(CheatsheetFilename(session.difficulty, date), summary.value));
      showDownloadConfirm := false;
    }
  }
}
