/** The interview session coordinator (InterviewProvider in src/context/InterviewContext.jsx).

    Every request to the question service or the proctoring service is split into the moment it is
    issued and the moment its reply arrives; a reply is an abstract `Reply`. The interval poll and the
    3000 ms banner timer are explicit events applied one after another. `Session` is the coordinator's
    state as a value, one function per event says what that event does to it, and the class
    `Coordinator` performs the same events on mutable fields, each method proved to agree with its
    function. */
module InterviewContext {
  import opened Strings

  /** One answered question, as appended to the history. */
  datatype Turn = Turn(question: string, answer: string)

  /** The reply to a request: a 2xx reply with its payload, a non-2xx reply, or a thrown error
      (network failure or unreadable body) with its message. */
  datatype Reply<+T> = Ok(payload: T) | BadStatus | NetworkError(message: string)

  /** The request the coordinator is waiting on. */
  datatype Request =
    | Idle
    | StartQuestion(title: string)                                       // POST /api/start
    | StartProctor                                                       // POST /start_proctor
    | Evaluate(jobTitle: string, history: seq<Turn>)                     // POST /api/evaluate
    | NextQuestion(jobTitle: string, history: seq<Turn>, qnum: int)      // POST /api/question

  /** What one status poll returns. */
  datatype ProctorStatus = ProctorStatus(warnings: int, reason: string, stopped: bool)

  /** A pending one-shot timer and the time (in ms) at which it fires. */
  datatype Timer = Unset | Due(at: int)

  const QuestionCount := 5
  const AlertDwellMs := 3000
  const StartFailed := "Failed to start interview"
  const EvaluateFailed := "Failed to evaluate"
  const NextQuestionFailed := "Failed to get next question"

  /** The provider's state. `proctorSession == ""` stands for an absent session id;
      `prevWarnings` is prevWarningsRef and `alertTimer` is visualTimeoutRef. */
  datatype Session = Session(
    jobTitle: string,
    history: seq<Turn>,
    currentQuestion: string,
    questionNumber: int,
    assessment: Option<string>,
    isLoading: bool,
    error: Option<string>,
    complete: bool,
    outstanding: Request,
    warnings: int,
    lastReason: string,
    testStopped: bool,
    proctorSession: string,
    visualAlert: string,
    prevWarnings: int,
    alertTimer: Timer)

  /** The proctoring and banner part of two states agree. */
  predicate SameProctoring(a: Session, b: Session) {
    a.warnings == b.warnings && a.lastReason == b.lastReason && a.testStopped == b.testStopped
    && a.proctorSession == b.proctorSession && a.visualAlert == b.visualAlert
    && a.prevWarnings == b.prevWarnings && a.alertTimer == b.alertTimer
  }

  /** The question-and-answer part of two states agree. */
  predicate SameInterview(a: Session, b: Session) {
    a.jobTitle == b.jobTitle && a.history == b.history && a.currentQuestion == b.currentQuestion
    && a.questionNumber == b.questionNumber && a.assessment == b.assessment
    && a.isLoading == b.isLoading && a.error == b.error && a.complete == b.complete
    && a.outstanding == b.outstanding
  }

  function Initial(): (s: Session)
    ensures s.jobTitle == "" && s.history == [] && s.currentQuestion == "" && s.questionNumber == 0
    ensures s.assessment == None && !s.isLoading && s.error == None && !s.complete
    ensures s.outstanding == Idle && s.warnings == 0 && s.lastReason == "" && !s.testStopped
    ensures s.proctorSession == "" && s.visualAlert == "" && s.prevWarnings == 0 && s.alertTimer == Unset
  {
    Session("", [], "", 0, None, false, None, false, Idle, 0, "", false, "", "", 0, Unset)
  }

  /** startInterview(title): resets the interview before issuing POST /api/start. It does not
      look at isLoading and does not reset the current question or anything about proctoring. */
  function Start(s: Session, title: string): (r: Session)
    ensures r.jobTitle == title && r.history == [] && r.assessment == None && !r.complete
      && r.questionNumber == 1 && r.error == None && r.isLoading && r.outstanding == StartQuestion(title)
      && r.currentQuestion == s.currentQuestion && SameProctoring(r, s)
  {
    s.(isLoading := true, error := None, jobTitle := title, history := [], assessment := None,
       complete := false, questionNumber := 1, outstanding := StartQuestion(title))
  }

  /** The reply to POST /api/start. A question moves on to starting proctoring (still loading);
      a failure records the error, ends loading and leaves the reset fields as they are. */
  function ReceiveStart(s: Session, reply: Reply<string>): (r: Session)
    requires s.outstanding.StartQuestion?
    ensures reply.Ok? ==> r.currentQuestion == reply.payload && r.outstanding == StartProctor
    ensures reply.Ok? ==> r.isLoading == s.isLoading
    ensures reply.BadStatus? ==> r.error == Some(StartFailed)
    ensures reply.NetworkError? ==> r.error == Some(reply.message)
    ensures !reply.Ok? ==> !r.isLoading && r.outstanding == Idle && r.currentQuestion == s.currentQuestion
    ensures r.jobTitle == s.jobTitle && r.history == s.history && r.questionNumber == s.questionNumber
    ensures r.assessment == s.assessment && r.complete == s.complete && SameProctoring(r, s)
    ensures reply.Ok? ==> r.error == s.error
  {
    match reply
    case Ok(q) => s.(currentQuestion := q, outstanding := StartProctor)
    case BadStatus => s.(error := Some(StartFailed), isLoading := false, outstanding := Idle)
    case NetworkError(m) => s.(error := Some(m), isLoading := false, outstanding := Idle)
  }

  /** The reply to POST /start_proctor. Its status is not checked: a non-2xx reply is read as a body
      without a session id. Only a thrown error is recorded. Loading ends either way. */
  function ReceiveProctorStart(s: Session, reply: Reply<string>): (r: Session)
    requires s.outstanding == StartProctor
    ensures !r.isLoading && r.outstanding == Idle
    ensures reply.Ok? ==> r.proctorSession == reply.payload && r.error == s.error
    ensures reply.BadStatus? ==> r.proctorSession == "" && r.error == s.error
    ensures reply.NetworkError? ==> r.proctorSession == s.proctorSession && r.error == Some(reply.message)
    ensures r.jobTitle == s.jobTitle && r.history == s.history && r.currentQuestion == s.currentQuestion
    ensures r.questionNumber == s.questionNumber && r.assessment == s.assessment && r.complete == s.complete
    ensures r.warnings == s.warnings && r.visualAlert == s.visualAlert && r.alertTimer == s.alertTimer
    ensures r.lastReason == s.lastReason && r.testStopped == s.testStopped && r.prevWarnings == s.prevWarnings
  {
    match reply
    case Ok(id) => s.(proctorSession := id, isLoading := false, outstanding := Idle)
    case BadStatus => s.(proctorSession := "", isLoading := false, outstanding := Idle)
    case NetworkError(m) => s.(error := Some(m), isLoading := false, outstanding := Idle)
  }

  /** submitAnswer(answer): ignored while loading; otherwise appends the turn first, then asks
      for the evaluation (fifth question or later) or for question number + 1. */
  function Submit(s: Session, answer: string): (r: Session)
    ensures s.isLoading ==> r == s
    ensures !s.isLoading ==> r.history == s.history + [Turn(s.currentQuestion, answer)]
    ensures !s.isLoading ==> r.isLoading && r.error == None
    ensures !s.isLoading && s.questionNumber >= QuestionCount ==> r.outstanding == Evaluate(s.jobTitle, r.history)
    ensures !s.isLoading && s.questionNumber < QuestionCount ==>
      r.outstanding == NextQuestion(s.jobTitle, r.history, s.questionNumber + 1)
    ensures r.jobTitle == s.jobTitle && r.currentQuestion == s.currentQuestion
    ensures r.questionNumber == s.questionNumber && r.assessment == s.assessment && r.complete == s.complete
    ensures SameProctoring(r, s)
  {
    if s.isLoading then s
    else
      var h := s.history + [Turn(s.currentQuestion, answer)];
      s.(isLoading := true, error := None, history := h,
         outstanding := if s.questionNumber >= QuestionCount then Evaluate(s.jobTitle, h)
                        else NextQuestion(s.jobTitle, h, s.questionNumber + 1))
  }

  /** The reply to POST /api/evaluate. */
  function ReceiveEvaluation(s: Session, reply: Reply<string>): (r: Session)
    requires s.outstanding.Evaluate?
    ensures !r.isLoading && r.outstanding == Idle
    ensures reply.Ok? ==> r.assessment == Some(reply.payload) && r.complete && r.error == s.error
    ensures !reply.Ok? ==> r.assessment == s.assessment && r.complete == s.complete
    ensures reply.BadStatus? ==> r.error == Some(EvaluateFailed)
    ensures reply.NetworkError? ==> r.error == Some(reply.message)
    ensures r.questionNumber == s.questionNumber && r.history == s.history
    ensures r.jobTitle == s.jobTitle && r.currentQuestion == s.currentQuestion && SameProctoring(r, s)
  {
    match reply
    case Ok(a) => s.(assessment := Some(a), complete := true, isLoading := false, outstanding := Idle)
    case BadStatus => s.(error := Some(EvaluateFailed), isLoading := false, outstanding := Idle)
    case NetworkError(m) => s.(error := Some(m), isLoading := false, outstanding := Idle)
  }

  /** The reply to POST /api/question. */
  function ReceiveNextQuestion(s: Session, reply: Reply<string>): (r: Session)
    requires s.outstanding.NextQuestion?
    ensures !r.isLoading && r.outstanding == Idle
    ensures reply.Ok? ==> r.currentQuestion == reply.payload && r.questionNumber == s.questionNumber + 1
    ensures reply.Ok? ==> r.error == s.error
    ensures !reply.Ok? ==> r.currentQuestion == s.currentQuestion && r.questionNumber == s.questionNumber
    ensures reply.BadStatus? ==> r.error == Some(NextQuestionFailed)
    ensures reply.NetworkError? ==> r.error == Some(reply.message)
    ensures r.history == s.history && r.jobTitle == s.jobTitle
    ensures r.assessment == s.assessment && r.complete == s.complete && SameProctoring(r, s)
  {
    match reply
    case Ok(q) =>
      s.(currentQuestion := q, questionNumber := s.questionNumber + 1, isLoading := false, outstanding := Idle)
    case BadStatus => s.(error := Some(NextQuestionFailed), isLoading := false, outstanding := Idle)
    case NetworkError(m) => s.(error := Some(m), isLoading := false, outstanding := Idle)
  }

  /** One run of the warning effect (it re-runs when warnings or lastReason changed): the cleanup of
      the previous run cancels the pending clear; a strict increase over the previously observed count
      raises the banner with lastReason and schedules a fresh clear; the observed count is updated
      either way. */
  function WarningEffect(s: Session, now: int): (r: Session)
    ensures r.prevWarnings == s.warnings
    ensures s.warnings > s.prevWarnings ==> r.visualAlert == s.lastReason && r.alertTimer == Due(now + AlertDwellMs)
    ensures s.warnings <= s.prevWarnings ==> r.visualAlert == s.visualAlert && r.alertTimer == Unset
    ensures r.warnings == s.warnings && r.lastReason == s.lastReason && r.testStopped == s.testStopped
    ensures r.proctorSession == s.proctorSession && SameInterview(r, s)
  {
    if s.warnings > s.prevWarnings then
      s.(visualAlert := s.lastReason, alertTimer := Due(now + AlertDwellMs), prevWarnings := s.warnings)
    else
      s.(alertTimer := Unset, prevWarnings := s.warnings)
  }

  /** The warning effect runs only when a dependency changed. */
  predicate EffectRuns(s: Session, status: ProctorStatus) {
    status.warnings != s.warnings || status.reason != s.lastReason
  }

  /** A status poll arriving at time `now`: the three fields are overwritten verbatim (no
      monotonicity guard, not even on `stopped`), then the warning effect runs if they changed. */
  function ApplyPoll(s: Session, status: ProctorStatus, now: int): (r: Session)
    requires s.proctorSession != ""
    ensures r.warnings == status.warnings && r.lastReason == status.reason && r.testStopped == status.stopped
    ensures EffectRuns(s, status) && status.warnings > s.prevWarnings ==>
      r.visualAlert == status.reason && r.alertTimer == Due(now + AlertDwellMs)
    ensures EffectRuns(s, status) && status.warnings <= s.prevWarnings ==>
      r.visualAlert == s.visualAlert && r.alertTimer == Unset
    ensures EffectRuns(s, status) ==> r.prevWarnings == status.warnings
    ensures !EffectRuns(s, status) ==> r.visualAlert == s.visualAlert && r.alertTimer == s.alertTimer
    ensures !EffectRuns(s, status) ==> r.prevWarnings == s.prevWarnings
    ensures r.proctorSession == s.proctorSession && SameInterview(r, s)
  {
    var t := s.(warnings := status.warnings, lastReason := status.reason, testStopped := status.stopped);
    if EffectRuns(s, status) then WarningEffect(t, now) else t
  }

  /** The pending banner clear fires. */
  function FireAlertTimer(s: Session): (r: Session)
    requires s.alertTimer.Due?
    ensures r.visualAlert == "" && r.alertTimer == Unset
    ensures r.warnings == s.warnings && r.lastReason == s.lastReason && r.testStopped == s.testStopped
    ensures r.prevWarnings == s.prevWarnings && r.proctorSession == s.proctorSession && SameInterview(r, s)
  {
    s.(visualAlert := "", alertTimer := Unset)
  }

  // ---------------------------------------------------------------------------------------------
  // Event traces

  datatype Event =
    | StartEvent(title: string)
    | StartReply(reply: Reply<string>)
    | ProctorStartReply(reply: Reply<string>)
    | SubmitEvent(answer: string)
    | EvaluationReply(reply: Reply<string>)
    | NextQuestionReply(reply: Reply<string>)
    | PollReply(status: ProctorStatus, now: int)
    | AlertTimerFired

  /** The state after one event, or None when the event cannot happen in `s` (a reply to a request
      that is not outstanding, a poll with no session, a timer that is not pending). */
  function Step(s: Session, e: Event): Option<Session> {
    match e
    case StartEvent(title) => Some(Start(s, title))
    case StartReply(reply) => if s.outstanding.StartQuestion? then Some(ReceiveStart(s, reply)) else None
    case ProctorStartReply(reply) => if s.outstanding == StartProctor then Some(ReceiveProctorStart(s, reply)) else None
    case SubmitEvent(answer) => Some(Submit(s, answer))
    case EvaluationReply(reply) => if s.outstanding.Evaluate? then Some(ReceiveEvaluation(s, reply)) else None
    case NextQuestionReply(reply) => if s.outstanding.NextQuestion? then Some(ReceiveNextQuestion(s, reply)) else None
    case PollReply(status, now) => if s.proctorSession != "" then Some(ApplyPoll(s, status, now)) else None
    case AlertTimerFired => if s.alertTimer.Due? then Some(FireAlertTimer(s)) else None
  }

  function Run(s: Session, events: seq<Event>): Option<Session>
    decreases |events|
  {
    if events == [] then Some(s)
    else match Step(s, events[0])
      case None => None
      case Some(t) => Run(t, events[1..])
  }

  lemma {:induction false} RunAppend(s: Session, a: seq<Event>, b: seq<Event>)
    ensures Run(s, a + b) == match Run(s, a) case None => None case Some(t) => Run(t, b)
    decreases |a|
  {
    if a == [] {
      assert a + b == b;
    } else {
      assert (a + b)[0] == a[0];
      assert (a + b)[1..] == a[1..] + b;
      match Step(s, a[0])
      case None =>
      case Some(t) => RunAppend(t, a[1..], b);
    }
  }

  /** The invariants every reachable state keeps: an assessment is present exactly when the
      interview is complete, isLoading is true exactly while a request is outstanding, and the
      observed warning count is the current one. */
  predicate Consistent(s: Session) {
    (s.complete <==> s.assessment.Some?)
    && (s.isLoading <==> s.outstanding != Idle)
    && s.prevWarnings == s.warnings
  }

  lemma InitialConsistent()
    ensures Consistent(Initial())
  {
  }

  lemma StepKeepsConsistent(s: Session, e: Event)
    requires Consistent(s) && Step(s, e).Some?
    ensures Consistent(Step(s, e).value)
  {
  }

  lemma {:induction false} RunKeepsConsistent(s: Session, events: seq<Event>)
    requires Consistent(s) && Run(s, events).Some?
    ensures Consistent(Run(s, events).value)
    decreases |events|
  {
    if events != [] {
      StepKeepsConsistent(s, events[0]);
      RunKeepsConsistent(Step(s, events[0]).value, events[1..]);
    }
  }

  /** A second submit while the first one's request is outstanding neither appends nor issues a
      request. */
  lemma SecondSubmitIgnored(s: Session, first: string, second: string)
    ensures Submit(Submit(s, first), second) == Submit(s, first)
  {
  }

  // ---------------------------------------------------------------------------------------------
  // The five-question cycle along successful replies

  /** Between questions of an interview in progress: nothing outstanding and one history entry
      per question before the current one. */
  predicate Ready(s: Session) {
    !s.isLoading && s.outstanding == Idle && !s.complete && s.assessment == None
    && 1 <= s.questionNumber <= QuestionCount && |s.history| == s.questionNumber - 1
  }

  /** Each answer followed by a successful reply carrying the next question. */
  function Rounds(answers: seq<string>, questions: seq<string>): (es: seq<Event>)
    requires |answers| == |questions|
    ensures |es| == 2 * |answers|
  {
    if answers == [] then []
    else [SubmitEvent(answers[0]), NextQuestionReply(Ok(questions[0]))] + Rounds(answers[1..], questions[1..])
  }

  /** The turns those rounds append, starting from the question `first` shown before them. */
  function Answered(first: string, questions: seq<string>, answers: seq<string>): (h: seq<Turn>)
    requires |answers| == |questions|
    ensures |h| == |answers|
    decreases |answers|
  {
    if answers == [] then []
    else [Turn(first, answers[0])] + Answered(questions[0], questions[1..], answers[1..])
  }

  function LastQuestion(first: string, questions: seq<string>): string {
    if questions == [] then first else questions[|questions| - 1]
  }

  /** One answer and a successful reply with the next question: the turn is recorded and the
      next question shown. */
  lemma OneRound(s: Session, answer: string, question: string)
    requires Ready(s) && s.questionNumber < QuestionCount
    ensures var r := ReceiveNextQuestion(Submit(s, answer), Ok(question));
      Ready(r) && r.questionNumber == s.questionNumber + 1
      && r.history == s.history + [Turn(s.currentQuestion, answer)]
      && r.currentQuestion == question && r.jobTitle == s.jobTitle && SameProctoring(r, s)
      && r.error == None
  {
  }

  /** Two accepted events and then the rest. */
  lemma RunTwo(s: Session, e1: Event, e2: Event, t1: Session, t2: Session, rest: seq<Event>)
    requires Step(s, e1) == Some(t1) && Step(t1, e2) == Some(t2)
    ensures Run(s, [e1, e2] + rest) == Run(t2, rest)
  {
    var es := [e1, e2] + rest;
    assert es[0] == e1 && es[1..][0] == e2 && es[1..][1..] == rest;
  }

  lemma {:induction false} RoundsAdvance(s: Session, answers: seq<string>, questions: seq<string>)
    requires Ready(s) && |answers| == |questions| && s.questionNumber + |answers| <= QuestionCount
    ensures Run(s, Rounds(answers, questions)).Some?
    ensures var r := Run(s, Rounds(answers, questions)).value;
      Ready(r) && r.questionNumber == s.questionNumber + |answers|
      && r.history == s.history + Answered(s.currentQuestion, questions, answers)
      && r.currentQuestion == LastQuestion(s.currentQuestion, questions)
      && r.jobTitle == s.jobTitle && SameProctoring(r, s)
      && (answers != [] ==> r.error == None)
    decreases |answers|
  {
    if answers != [] {
      var t := ReceiveNextQuestion(Submit(s, answers[0]), Ok(questions[0]));
      var t1 := Submit(s, answers[0]);
      OneRound(s, answers[0], questions[0]);
      RunTwo(s, SubmitEvent(answers[0]), NextQuestionReply(Ok(questions[0])), t1, t, Rounds(answers[1..], questions[1..]));
      RoundsAdvance(t, answers[1..], questions[1..]);
      assert s.history + [Turn(s.currentQuestion, answers[0])] + Answered(questions[0], questions[1..], answers[1..])
        == s.history + Answered(s.currentQuestion, questions, answers);
      if |questions| > 1 {
        assert LastQuestion(questions[0], questions[1..]) == LastQuestion(s.currentQuestion, questions);
      }
    }
  }

  /** A whole successful interview: start, the first question, the proctoring session, four
      rounds, the fifth answer and the evaluation. */
  function InterviewEvents(title: string, questions: seq<string>, answers: seq<string>, sessionId: string, verdict: string): seq<Event>
    requires |questions| == QuestionCount && |answers| == QuestionCount
  {
    [StartEvent(title), StartReply(Ok(questions[0])), ProctorStartReply(Ok(sessionId))]
    + Rounds(answers[..4], questions[1..])
    + [SubmitEvent(answers[4]), EvaluationReply(Ok(verdict))]
  }

  /** From any state, a fully successful interview evaluates a five-entry history pairing each
      question with its answer, exposes the assessment verbatim and completes. */
  lemma FullInterview(s: Session, title: string, questions: seq<string>, answers: seq<string>, sessionId: string, verdict: string)
    requires |questions| == QuestionCount && |answers| == QuestionCount
    ensures Run(s, InterviewEvents(title, questions, answers, sessionId, verdict)).Some?
    ensures var r := Run(s, InterviewEvents(title, questions, answers, sessionId, verdict)).value;
      r.complete && r.assessment == Some(verdict) && !r.isLoading && r.error == None
      && r.jobTitle == title && r.questionNumber == QuestionCount && |r.history| == QuestionCount
      && (forall i :: 0 <= i < QuestionCount ==> r.history[i] == Turn(questions[i], answers[i]))
  {
    var head := [StartEvent(title), StartReply(Ok(questions[0])), ProctorStartReply(Ok(sessionId))];
    var mid := Rounds(answers[..4], questions[1..]);
    var tail := [SubmitEvent(answers[4]), EvaluationReply(Ok(verdict))];
    var s3 := ReceiveProctorStart(ReceiveStart(Start(s, title), Ok(questions[0])), Ok(sessionId));
    var s1 := Start(s, title);
    var s2 := ReceiveStart(s1, Ok(questions[0]));
    assert Run(s, head) == Some(s3) by {
      assert head[1..] == [StartReply(Ok(questions[0])), ProctorStartReply(Ok(sessionId))];
      assert head[1..][1..] == [ProctorStartReply(Ok(sessionId))];
      assert Run(s2, head[1..][1..]) == Run(s3, []);
      assert Run(s1, head[1..]) == Run(s2, head[1..][1..]);
      assert Run(s, head) == Run(s1, head[1..]);
    }
    RunAppend(s, head, mid);
    RoundsAdvance(s3, answers[..4], questions[1..]);
    var s11 := Run(s3, mid).value;
    RunAppend(s, head + mid, tail);
    var s13 := ReceiveEvaluation(Submit(s11, answers[4]), Ok(verdict));
    var s12 := Submit(s11, answers[4]);
    assert Run(s11, tail) == Some(s13) by {
      assert tail[1..] == [EvaluationReply(Ok(verdict))];
      assert Run(s12, tail[1..]) == Run(s13, []);
      assert Run(s11, tail) == Run(s12, tail[1..]);
    }
    assert InterviewEvents(title, questions, answers, sessionId, verdict) == head + mid + tail;
    var h := Answered(questions[0], questions[1..], answers[..4]);
    assert s13.history == h + [Turn(LastQuestion(questions[0], questions[1..]), answers[4])];
    forall i | 0 <= i < 4 ensures h[i] == Turn(questions[i], answers[i]) {
      AnsweredAt(questions[0], questions[1..], answers[..4], i);
    }
  }

  /** The i-th appended turn pairs the question shown then with the i-th answer. */
  lemma {:induction false} AnsweredAt(first: string, questions: seq<string>, answers: seq<string>, i: nat)
    requires |answers| == |questions| && i < |answers|
    ensures Answered(first, questions, answers)[i] == Turn(if i == 0 then first else questions[i - 1], answers[i])
    decreases |answers|
  {
    if i > 0 {
      AnsweredAt(questions[0], questions[1..], answers[1..], i - 1);
    }
  }

  /** The scenario of a mocked backend: five answers, questions numbered 2 to 5 in between, and an
      evaluation returned verbatim. */
  lemma MockedScenario(s: Session, qs: seq<string>)
    requires |qs| == QuestionCount && qs[0] == "Tell me about yourself"
    ensures var answers := seq(5, _ => "I am a developer");
      var r := Run(s, InterviewEvents("Frontend Developer Basic Fresher", qs, answers, "sid",
                                      "Score: 82/100 ... Decision: PASS"));
      r.Some? && r.value.complete && r.value.assessment == Some("Score: 82/100 ... Decision: PASS")
      && |r.value.history| == 5 && r.value.history[0] == Turn("Tell me about yourself", "I am a developer")
  {
    var answers := seq(5, _ => "I am a developer");
    FullInterview(s, "Frontend Developer Basic Fresher", qs, answers, "sid", "Score: 82/100 ... Decision: PASS");
  }

  // ---------------------------------------------------------------------------------------------
  // Proctoring and the banner

  /** A later poll can clear `stopped` again: the flag is overwritten, not latched. */
  lemma StoppedIsOverwritten(s: Session, w1: int, w2: int, reason: string, t1: int, t2: int)
    requires s.proctorSession != ""
    ensures var a := ApplyPoll(s, ProctorStatus(w1, reason, true), t1);
      a.testStopped && !ApplyPoll(a, ProctorStatus(w2, reason, false), t2).testStopped
  {
  }

  /** Two increases in a row: the banner shows the latest reason and the only pending clear is
      3000 ms after the latest increase. */
  lemma {:induction false} DwellRestarts(s: Session, first: ProctorStatus, t1: int, second: ProctorStatus, t2: int)
    requires Consistent(s) && s.proctorSession != ""
    requires first.warnings > s.warnings && second.warnings > first.warnings
    ensures var r := ApplyPoll(ApplyPoll(s, first, t1), second, t2);
      r.visualAlert == second.reason && r.alertTimer == Due(t2 + AlertDwellMs) && r.prevWarnings == second.warnings
  {
    var a := ApplyPoll(s, first, t1);
    assert EffectRuns(s, first) && a.prevWarnings == first.warnings;
    assert EffectRuns(a, second);
  }

  /** A poll that changes only the reason re-runs the effect, whose cleanup cancels the pending
      clear without scheduling another: a raised banner then stays up until the next increase. */
  lemma BannerOutlivesReasonChange(s: Session, status: ProctorStatus, now: int)
    requires Consistent(s) && s.proctorSession != ""
    requires s.alertTimer.Due? && s.visualAlert != ""
    requires status.warnings == s.warnings && status.reason != s.lastReason
    ensures var r := ApplyPoll(s, status, now);
      r.visualAlert == s.visualAlert && r.alertTimer == Unset
  {
  }

  /** Without an increase the banner text never changes. */
  lemma {:induction false} NoIncreaseNoBanner(s: Session, status: ProctorStatus, now: int)
    requires Consistent(s) && s.proctorSession != "" && status.warnings <= s.warnings
    ensures ApplyPoll(s, status, now).visualAlert == s.visualAlert
  {
  }

  // ---------------------------------------------------------------------------------------------
  // The provider as an object whose fields the events update in place

  class Coordinator {
    var jobTitle: string
    var history: seq<Turn>
    var currentQuestion: string
    var questionNumber: int
    var assessment: Option<string>
    var isLoading: bool
    var error: Option<string>
    var complete: bool
    var outstanding: Request
    var warnings: int
    var lastReason: string
    var testStopped: bool
    var proctorSession: string
    var visualAlert: string
    var prevWarnings: int
    var alertTimer: Timer

    function State(): Session
      reads this
    {
      Session(jobTitle, history, currentQuestion, questionNumber, assessment, isLoading, error, complete,
              outstanding, warnings, lastReason, testStopped, proctorSession, visualAlert, prevWarnings, alertTimer)
    }

    constructor ()
      ensures State() == Initial()
    {
      jobTitle, history, currentQuestion, questionNumber := "", [], "", 0;
      assessment, isLoading, error, complete, outstanding := None, false, None, false, Idle;
      warnings, lastReason, testStopped, proctorSession := 0, "", false, "";
      visualAlert, prevWarnings, alertTimer := "", 0, Unset;
    }

    /** The resets `startInterview` makes before its request. */
    method ResetForStart(title: string)
      modifies this`jobTitle, this`history, this`assessment, this`complete, this`questionNumber
      ensures jobTitle == title && history == [] && assessment == None && !complete && questionNumber == 1
    {
      jobTitle := title;
      history := [];
      assessment := None;
      complete := false;
      questionNumber := 1;
    }

    /** What both `startInterview` and `submitAnswer` do first. */
    method BeginLoading()
      modifies this`isLoading, this`error
      ensures isLoading && error == None
    {
      isLoading := true;
      error := None;
    }

    method StartInterview(title: string)
      modifies this
      ensures State() == Start(old(State()), title)
    {
      BeginLoading();
      ResetForStart(title);
      outstanding := StartQuestion(title);
    }

    method OnStartReply(reply: Reply<string>)
      requires outstanding.StartQuestion?
      modifies this
      ensures State() == ReceiveStart(old(State()), reply)
    {
      match reply {
        case Ok(q) =>
          currentQuestion := q;
          outstanding := StartProctor;
        case BadStatus =>
          error := Some(StartFailed);
          isLoading := false;
          outstanding := Idle;
        case NetworkError(m) =>
          error := Some(m);
          isLoading := false;
          outstanding := Idle;
      }
    }

    method OnProctorStartReply(reply: Reply<string>)
      requires outstanding == StartProctor
      modifies this
      ensures State() == ReceiveProctorStart(old(State()), reply)
    {
      match reply {
        case Ok(id) =>
          proctorSession := id;
        case BadStatus =>
          proctorSession := "";
        case NetworkError(m) =>
          error := Some(m);
      }
      isLoading := false;
      outstanding := Idle;
    }

    /** Returns whether a request was issued. */
    method SubmitAnswer(answer: string) returns (issued: bool)
      modifies this
      ensures issued == !old(isLoading)
      ensures State() == Submit(old(State()), answer)
    {
      if isLoading {
        return false;
      }
      BeginLoading();
      var updated := history + [Turn(currentQuestion, answer)];
      history := updated;
      if questionNumber >= QuestionCount {
        outstanding := Evaluate(jobTitle, updated);
      } else {
        outstanding := NextQuestion(jobTitle, updated, questionNumber + 1);
      }
      issued := true;
    }

    method OnEvaluationReply(reply: Reply<string>)
      requires outstanding.Evaluate?
      modifies this
      ensures State() == ReceiveEvaluation(old(State()), reply)
    {
      match reply {
        case Ok(a) =>
          assessment := Some(a);
          complete := true;
        case BadStatus =>
          error := Some(EvaluateFailed);
        case NetworkError(m) =>
          error := Some(m);
      }
      isLoading := false;
      outstanding := Idle;
    }

    method OnNextQuestionReply(reply: Reply<string>)
      requires outstanding.NextQuestion?
      modifies this
      ensures State() == ReceiveNextQuestion(old(State()), reply)
    {
      match reply {
        case Ok(q) =>
          currentQuestion := q;
          questionNumber := questionNumber + 1;
        case BadStatus =>
          error := Some(NextQuestionFailed);
        case NetworkError(m) =>
          error := Some(m);
      }
      isLoading := false;
      outstanding := Idle;
    }

    /** One run of the warning effect; `cue` says whether the beep and the spoken warning are
        emitted. */
    method RunWarningEffect(now: int) returns (cue: bool)
      modifies this`visualAlert, this`alertTimer, this`prevWarnings
      ensures cue == (old(warnings) > old(prevWarnings))
      ensures State() == WarningEffect(old(State()), now)
    {
      alertTimer := Unset;
      cue := warnings > prevWarnings;
      if cue {
        visualAlert := lastReason;
        alertTimer := Due(now + AlertDwellMs);
      }
      prevWarnings := warnings;
    }

    /** A poll reply arriving at `now`; `cue` says whether the beep and the spoken warning are
        emitted. */
    method OnPoll(status: ProctorStatus, now: int) returns (cue: bool)
      requires proctorSession != ""
      modifies this
      ensures cue == (EffectRuns(old(State()), status) && status.warnings > old(prevWarnings))
      ensures State() == ApplyPoll(old(State()), status, now)
    {
      var changed := status.warnings != warnings || status.reason != lastReason;
      warnings := status.warnings;
      lastReason := status.reason;
      testStopped := status.stopped;
      cue := false;
      if changed {
        cue := RunWarningEffect(now);
      }
    }

    method OnAlertTimer()
      requires alertTimer.Due?
      modifies this
      ensures State() == FireAlertTimer(old(State()))
    {
      visualAlert := "";
      alertTimer := Unset;
    }
  }
}
