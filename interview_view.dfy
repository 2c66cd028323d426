/** The interview screen (the active component in src/components/Interview.jsx): the warning toast
    and its hide timer, the 60-second recording countdown, the clock text, the merge of speech
    recognition results into the draft answer, the submit guard, the choice of screen and the
    redirects. Timers are explicit events; speech, audio and the microphone are left out, except
    that the methods report when the beep or a recognition stop would be issued. */
module InterviewView {
  import opened Strings
  import opened InterviewContext

  // ---------------------------------------------------------------------------------------------
  // formatTime

  /** The clock text: the whole minutes, a colon, and the remaining seconds padded with a leading
      zero to two digits. */
  function FormatTime(secs: nat): (r: string)
    ensures |r| == |Decimal(secs / 60)| + 3 && r[|r| - 3] == ':'
    ensures AllDigits(r[..|r| - 3]) && DigitsValue(r[..|r| - 3]) == secs / 60
    ensures AllDigits(r[|r| - 2..]) && DigitsValue(r[|r| - 2..]) == secs % 60
  {
    var m := Decimal(secs / 60);
    var sec := secs % 60;
    var tail := (if sec < 10 then "0" else "") + Decimal(sec);
    var r := m + ":" + tail;
    assert r[..|r| - 3] == m;
    assert r[|r| - 2..] == tail;
    assert sec < 10 ==> DigitsValue(tail) == sec by {
      if sec < 10 {
        assert tail[..1] == "0";
      }
    }
    r
  }

  /** Reads "m:ss" back: a decimal minute count, a colon and exactly two digits below 60. */
  function ParseClock(t: string): (r: Option<nat>)
    ensures r.Some? ==> |t| >= 4 && t[|t| - 3] == ':' && AllDigits(t[..|t| - 3]) && AllDigits(t[|t| - 2..])
    ensures r.Some? ==> r.value / 60 == DigitsValue(t[..|t| - 3]) && r.value % 60 == DigitsValue(t[|t| - 2..])
    ensures |t| < 4 || t[|t| - 3] != ':' ==> r.None?
  {
    if |t| >= 4 && t[|t| - 3] == ':' && AllDigits(t[..|t| - 3]) && AllDigits(t[|t| - 2..])
       && DigitsValue(t[|t| - 2..]) < 60
    then Some(60 * DigitsValue(t[..|t| - 3]) + DigitsValue(t[|t| - 2..]))
    else None
  }

  lemma ClockRoundTrip(secs: nat)
    ensures ParseClock(FormatTime(secs)) == Some(secs)
  {
  }

  lemma ClockExamples()
    ensures FormatTime(60) == "1:00" && FormatTime(9) == "0:09" && FormatTime(59) == "0:59"
  {
  }

  // ---------------------------------------------------------------------------------------------
  // Speech results

  /** One result of the recognizer: its top alternative's transcript and whether it is final. */
  datatype Segment = Segment(transcript: string, isFinal: bool)

  /** The transcripts of the final segments, concatenated in order. */
  function FinalText(segments: seq<Segment>): string {
    if segments == [] then ""
    else
      var last := segments[|segments| - 1];
      FinalText(segments[..|segments| - 1]) + (if last.isFinal then last.transcript else "")
  }

  /** The transcripts of the interim segments, concatenated in order. */
  function InterimText(segments: seq<Segment>): string {
    if segments == [] then ""
    else
      var last := segments[|segments| - 1];
      InterimText(segments[..|segments| - 1]) + (if last.isFinal then "" else last.transcript)
  }

  lemma {:induction false} FinalTextAppend(a: seq<Segment>, b: seq<Segment>)
    ensures FinalText(a + b) == FinalText(a) + FinalText(b)
    decreases |b|
  {
    if b == [] {
      assert a + b == a;
    } else {
      var b' := b[..|b| - 1];
      assert (a + b)[..|a + b| - 1] == a + b';
      FinalTextAppend(a, b');
    }
  }

  lemma {:induction false} InterimTextAppend(a: seq<Segment>, b: seq<Segment>)
    ensures InterimText(a + b) == InterimText(a) + InterimText(b)
    decreases |b|
  {
    if b == [] {
      assert a + b == a;
    } else {
      var b' := b[..|b| - 1];
      assert (a + b)[..|a + b| - 1] == a + b';
      InterimTextAppend(a, b');
    }
  }

  /** Both concatenations distribute over joined runs of segments. */
  lemma TextsAppend(a: seq<Segment>, b: seq<Segment>)
    ensures FinalText(a + b) == FinalText(a) + FinalText(b)
    ensures InterimText(a + b) == InterimText(a) + InterimText(b)
  {
    FinalTextAppend(a, b);
    InterimTextAppend(a, b);
  }

  /** The segments the handler looks at: from resultIndex to the end. */
  function Fresh(results: seq<Segment>, resultIndex: nat): seq<Segment> {
    if resultIndex <= |results| then results[resultIndex..] else []
  }

  /** The loop of the `onresult` handler: final texts and interim texts are collected separately
      and the final text wins unless it is empty. */
  method MergeTranscript(results: seq<Segment>, resultIndex: nat) returns (merged: string)
    ensures merged == if FinalText(Fresh(results, resultIndex)) != "" then FinalText(Fresh(results, resultIndex))
                      else InterimText(Fresh(results, resultIndex))
  {
    var interim, final := "", "";
    var i := resultIndex;
    while i < |results|
      invariant resultIndex <= i
      invariant resultIndex <= |results| ==> i <= |results|
      invariant resultIndex <= |results| ==> final == FinalText(results[resultIndex..i])
      invariant resultIndex <= |results| ==> interim == InterimText(results[resultIndex..i])
      invariant resultIndex > |results| ==> final == "" && interim == ""
    {
      var t := results[i].transcript;
      if results[i].isFinal {
        final := final + t;
      } else {
        interim := interim + t;
      }
      assert results[resultIndex..i + 1][..i - resultIndex] == results[resultIndex..i];
      i := i + 1;
    }
    if resultIndex <= |results| {
      assert results[resultIndex..i] == results[resultIndex..];
    }
    merged := if final != "" then final else interim;
  }

  /** With only final segments the draft is their transcripts in order; with none the interim
      ones are used. */
  lemma {:induction false} AllFinalOrNone(segments: seq<Segment>)
    ensures (forall k :: 0 <= k < |segments| ==> segments[k].isFinal) ==> InterimText(segments) == ""
    ensures (forall k :: 0 <= k < |segments| ==> !segments[k].isFinal) ==> FinalText(segments) == ""
    decreases |segments|
  {
    if segments != [] {
      AllFinalOrNone(segments[..|segments| - 1]);
    }
  }

  // ---------------------------------------------------------------------------------------------
  // Screens and routes

  datatype Screen = StoppedOverlay | Preparing | AnswerForm

  /** The stop overlay comes first, then the loading screen, then the form. */
  function ChooseScreen(testStopped: bool, isLoading: bool, currentQuestion: string): (sc: Screen)
    ensures sc == StoppedOverlay <==> testStopped
    ensures sc == Preparing <==> !testStopped && (isLoading || currentQuestion == "")
    ensures sc == AnswerForm <==> !testStopped && !isLoading && currentQuestion != ""
  {
    if testStopped then StoppedOverlay
    else if isLoading || currentQuestion == "" then Preparing
    else AnswerForm
  }

  function ScreenOf(s: Session): Screen {
    ChooseScreen(s.testStopped, s.isLoading, s.currentQuestion)
  }

  /** The submit button: disabled while loading or while the trimmed draft is empty. */
  predicate SubmitEnabled(isLoading: bool, answer: string) {
    !isLoading && Trim(answer) != []
  }

  /** A submit the form offers always appends exactly one turn and issues a request. */
  lemma EnabledSubmitIssues(s: Session, answer: string)
    requires ScreenOf(s) == AnswerForm && SubmitEnabled(s.isLoading, answer)
    ensures var r := Submit(s, answer);
      r.history == s.history + [Turn(s.currentQuestion, answer)] && r.isLoading && r.outstanding != Idle
  {
  }

  /** Once a poll has reported `stopped`, the form is not shown, so no answer can be submitted
      from it. */
  lemma StoppedHidesForm(s: Session, status: ProctorStatus, now: int)
    requires s.proctorSession != "" && status.stopped
    ensures ScreenOf(ApplyPoll(s, status, now)) == StoppedOverlay
  {
  }

  datatype Route = Home | ResultsPage

  /** The navigations the redirect effect issues, in order: '/' for an empty job title, then
      '/results' for a completed interview. */
  function Navigations(jobTitle: string, complete: bool): (r: seq<Route>)
    ensures Home in r <==> jobTitle == ""
    ensures ResultsPage in r <==> complete
    ensures |r| <= 2 && (|r| == 2 ==> r == [Home, ResultsPage])
  {
    (if jobTitle == "" then [Home] else []) + (if complete then [ResultsPage] else [])
  }

  // ---------------------------------------------------------------------------------------------
  // Recording countdown

  const RecordingSeconds := 60

  /** isRecording, timeLeft and whether the one-second tick is scheduled. */
  datatype Recorder = Recorder(recording: bool, timeLeft: int, tickPending: bool)

  /** The countdown effect after isRecording or timeLeft changed: the cleanup drops the pending
      tick; while recording with time left a new tick is scheduled; at 0 recording stops. */
  function Settle(r: Recorder): (t: Recorder)
    ensures t.timeLeft == r.timeLeft
    ensures t.tickPending <==> r.recording && r.timeLeft > 0
    ensures t.recording <==> r.recording && r.timeLeft != 0
  {
    if r.recording && r.timeLeft > 0 then r.(tickPending := true)
    else if r.recording && r.timeLeft == 0 then r.(recording := false, tickPending := false)
    else r.(tickPending := false)
  }

  /** Between events: 0 <= timeLeft <= 60, a tick is pending exactly while recording, and
      recording implies time left. */
  predicate RecorderValid(r: Recorder) {
    0 <= r.timeLeft <= RecordingSeconds && (r.tickPending <==> r.recording) && (r.recording ==> r.timeLeft > 0)
  }

  function StartRecording(r: Recorder): (t: Recorder)
    ensures t == Recorder(true, RecordingSeconds, true)
  {
    Settle(r.(recording := true, timeLeft := RecordingSeconds))
  }

  function StopRecording(r: Recorder): (t: Recorder)
    ensures !t.recording && !t.tickPending && t.timeLeft == r.timeLeft
  {
    Settle(r.(recording := false))
  }

  /** The scheduled tick: one second less, then the effect again. */
  function Tick(r: Recorder): (t: Recorder)
    requires r.tickPending
    ensures t.timeLeft == r.timeLeft - 1
    ensures RecorderValid(r) ==> RecorderValid(t) && (t.recording <==> t.timeLeft > 0)
  {
    Settle(r.(timeLeft := r.timeLeft - 1))
  }

  /** Up to `n` ticks, each while one is pending. */
  function Ticks(r: Recorder, n: nat): Recorder
    decreases n
  {
    if n == 0 || !r.tickPending then r else Ticks(Tick(r), n - 1)
  }

  /** After k ticks from a start, k seconds are gone and recording goes on exactly while k < 60;
      the 60th tick stops it. */
  lemma {:induction false} CountdownFrom(r: Recorder, k: nat)
    requires k <= RecordingSeconds
    ensures var t := Ticks(StartRecording(r), k);
      t.timeLeft == RecordingSeconds - k && (t.recording <==> k < RecordingSeconds) && RecorderValid(t)
  {
    CountdownSteps(StartRecording(r), k);
  }

  lemma {:induction false} CountdownSteps(r: Recorder, k: nat)
    requires RecorderValid(r) && r.recording && k <= r.timeLeft
    ensures var t := Ticks(r, k);
      t.timeLeft == r.timeLeft - k && (t.recording <==> k < r.timeLeft) && RecorderValid(t)
    decreases k
  {
    if k > 0 {
      var t := Tick(r);
      if k > 1 {
        CountdownSteps(t, k - 1);
      }
    }
  }

  // ---------------------------------------------------------------------------------------------
  // Warning toast

  /** toast, prevWarnRef and toastTimeoutRef. */
  datatype Toast = Toast(text: string, prevWarn: int, hideTimer: Timer)

  /** A run of the toast effect (on mount and whenever warnings or lastReason changed). Unlike the
      provider's banner effect it has no cleanup, so a run without an increase leaves the pending
      hide alone. */
  function ToastEffect(t: Toast, warnings: int, lastReason: string, now: int): (r: Toast)
    ensures r.prevWarn == warnings
    ensures warnings > t.prevWarn ==> r.text == "Warning: " + lastReason && r.hideTimer == Due(now + AlertDwellMs)
    ensures warnings <= t.prevWarn ==> r.text == t.text && r.hideTimer == t.hideTimer
  {
    if warnings > t.prevWarn then Toast("Warning: " + lastReason, warnings, Due(now + AlertDwellMs))
    else t.(prevWarn := warnings)
  }

  function HideToast(t: Toast): (r: Toast)
    requires t.hideTimer.Due?
    ensures r.text == "" && r.hideTimer == Unset && r.prevWarn == t.prevWarn
  {
    t.(text := "", hideTimer := Unset)
  }

  /** The toast's observations, in order: (warnings, lastReason, time). */
  function ToastRun(t: Toast, observations: seq<(int, string, int)>): Toast
    decreases |observations|
  {
    if observations == [] then t
    else ToastRun(ToastEffect(t, observations[0].0, observations[0].1, observations[0].2), observations[1..])
  }

  /** Each observed count is at most the one before it, starting from `prev`. */
  predicate NeverRises(prev: int, observations: seq<(int, string, int)>)
    decreases |observations|
  {
    observations == [] || (observations[0].0 <= prev && NeverRises(observations[0].0, observations[1..]))
  }

  /** Counts that never rise above the previous one never change the toast or its timer, and
      leave the last count observed. */
  lemma {:induction false} NoRiseNoToast(t: Toast, observations: seq<(int, string, int)>)
    requires NeverRises(t.prevWarn, observations)
    ensures var r := ToastRun(t, observations);
      r.text == t.text && r.hideTimer == t.hideTimer
      && r.prevWarn == (if observations == [] then t.prevWarn else observations[|observations| - 1].0)
    decreases |observations|
  {
    if observations != [] {
      var t' := ToastEffect(t, observations[0].0, observations[0].1, observations[0].2);
      var rest := observations[1..];
      NoRiseNoToast(t', rest);
      if rest != [] {
        assert rest[|rest| - 1] == observations[|observations| - 1];
      }
    }
  }

  /** Two rises in a row: the toast shows the latest reason and hides 3000 ms after the latest. */
  lemma ToastDwellRestarts(t: Toast, w1: int, r1: string, t1: int, w2: int, r2: string, t2: int)
    requires w1 > t.prevWarn && w2 > w1
    ensures var r := ToastEffect(ToastEffect(t, w1, r1, t1), w2, r2, t2);
      r.text == "Warning: " + r2 && r.hideTimer == Due(t2 + AlertDwellMs)
  {
  }

  /** Fed the same change that leaves the provider's banner up with no clear pending, the toast
      keeps its hide timer. */
  lemma ToastKeepsTimerWhereBannerLosesIt(s: Session, t: Toast, status: ProctorStatus, now: int)
    requires Consistent(s) && s.proctorSession != "" && s.alertTimer.Due? && t.hideTimer.Due?
    requires t.prevWarn == s.warnings && status.warnings == s.warnings && status.reason != s.lastReason
    ensures ApplyPoll(s, status, now).alertTimer == Unset
    ensures ToastEffect(t, status.warnings, status.reason, now).hideTimer == t.hideTimer
  {
  }

  // ---------------------------------------------------------------------------------------------
  // The component's local state

  class InterviewScreen {
    var answer: string
    var isRecording: bool
    var timeLeft: int
    var tickPending: bool
    var toast: string
    var prevWarn: int
    var hideTimer: Timer

    function Recording(): Recorder
      reads this
    {
      Recorder(isRecording, timeLeft, tickPending)
    }

    function ToastState(): Toast
      reads this
    {
      Toast(toast, prevWarn, hideTimer)
    }

    constructor ()
      ensures answer == "" && Recording() == Recorder(false, RecordingSeconds, false)
      ensures ToastState() == Toast("", 0, Unset)
    {
      answer := "";
      isRecording, timeLeft, tickPending := false, RecordingSeconds, false;
      toast, prevWarn, hideTimer := "", 0, Unset;
    }

    /** Typing into the textarea. */
    method EditAnswer(text: string)
      modifies this`answer
      ensures answer == text
    {
      answer := text;
    }

    /** A speech recognition result event replaces the draft. */
    method OnSpeechResult(results: seq<Segment>, resultIndex: nat)
      modifies this`answer
      ensures answer == if FinalText(Fresh(results, resultIndex)) != "" then FinalText(Fresh(results, resultIndex))
                        else InterimText(Fresh(results, resultIndex))
    {
      answer := MergeTranscript(results, resultIndex);
    }

    /** handleSubmit: nothing for a blank draft; otherwise one submitAnswer with the untrimmed
        draft, then the draft is cleared (even when the provider ignores the submit because it is
        loading). */
    method HandleSubmit(c: Coordinator) returns (submitted: bool)
      modifies this`answer, c
      ensures submitted == (Trim(old(answer)) != [])
      ensures !submitted ==> answer == old(answer) && c.State() == old(c.State())
      ensures submitted ==> answer == "" && c.State() == Submit(old(c.State()), old(answer))
    {
      if Trim(answer) == [] {
        return false;
      }
      var _ := c.SubmitAnswer(answer);
      answer := "";
      submitted := true;
    }

    /** The countdown effect; returns whether it stops the recognizer (time ran out). */
    method SettleRecording() returns (stopRecognizer: bool)
      modifies this`isRecording, this`tickPending
      ensures Recording() == Settle(old(Recording()))
      ensures stopRecognizer <==> old(isRecording) && old(timeLeft) == 0
    {
      stopRecognizer := false;
      tickPending := false;
      if isRecording && timeLeft > 0 {
        tickPending := true;
      } else if isRecording && timeLeft == 0 {
        isRecording := false;
        stopRecognizer := true;
      }
    }

    method StartRecordingEvent()
      modifies this`isRecording, this`timeLeft, this`tickPending
      ensures Recording() == StartRecording(old(Recording()))
    {
      isRecording := true;
      timeLeft := RecordingSeconds;
      var _ := SettleRecording();
    }

    /** The Stop button: recording ends and the recognizer is always told to stop. */
    method StopRecordingEvent() returns (stopRecognizer: bool)
      modifies this`isRecording, this`timeLeft, this`tickPending
      ensures Recording() == StopRecording(old(Recording()))
      ensures stopRecognizer
    {
      isRecording := false;
      var _ := SettleRecording();
      stopRecognizer := true;
    }

    method TickEvent() returns (stopRecognizer: bool)
      requires tickPending
      modifies this`isRecording, this`timeLeft, this`tickPending
      ensures Recording() == Tick(old(Recording()))
      ensures stopRecognizer <==> old(timeLeft) == 1 && old(isRecording)
    {
      timeLeft := timeLeft - 1;
      stopRecognizer := SettleRecording();
    }

    /** The toast effect; returns whether the beep is played. */
    method OnWarnings(warnings: int, lastReason: string, now: int) returns (beep: bool)
      modifies this`toast, this`prevWarn, this`hideTimer
      ensures beep <==> warnings > old(prevWarn)
      ensures ToastState() == ToastEffect(old(ToastState()), warnings, lastReason, now)
    {
      beep := warnings > prevWarn;
      if beep {
        toast := "Warning: " + lastReason;
        hideTimer := Due(now + AlertDwellMs);
      }
      prevWarn := warnings;
    }

    method OnHideTimer()
      requires hideTimer.Due?
      modifies this`toast, this`hideTimer
      ensures ToastState() == HideToast(old(ToastState()))
    {
      toast := "";
      hideTimer := Unset;
    }
  }
}
