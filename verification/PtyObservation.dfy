/** Summarising a sampled spinner without under-reporting a stall: scripts/pty-observation.ts. */
module PtyObservation {
  import opened Ordering

  /** One capture: it started, ended, and saw some spinner text or none. */
  datatype Observation = Observation(started: real, captured: real, spinner: Option<string>)

  datatype Summary = Summary(
    captureCount: nat,
    durationMs: real,
    maximumCaptureMs: real,
    maximumObservationGapMs: real,
    maximumSpinnerAbsenceMs: real,
    maximumSpinnerFrameMs: real,
    spinnerChanges: nat)

  datatype Fault = EmptyObservation | InvalidTimestamps

  /** The source's truth test: an empty text counts as absence. */
  predicate Shown(spinner: Option<string>) {
    spinner.Some? && spinner.value != ""
  }

  /** A spinner is shown exactly where some text was seen. */
  lemma ShownMeansText(spinner: Option<string>)
    ensures Shown(spinner) <==> exists text: string :: text != "" && spinner == Some(text)
  {
    if Shown(spinner) { assert spinner == Some(spinner.value); }
  }

  function Max(a: real, b: real): real {
    if a >= b then a else b
  }

  ghost predicate ValidAt(obs: seq<Observation>, i: nat)
    requires i < |obs|
  {
    obs[i].captured >= obs[i].started && (i > 0 ==> obs[i].started >= obs[i - 1].captured)
  }

  ghost predicate ValidTimes(obs: seq<Observation>) {
    forall i | 0 <= i < |obs| :: ValidAt(obs, i)
  }

  // ---------- maximal runs of equal observations ----------

  /** The captures from `a` to `b` all saw the same, and the captures next to them, if any, saw something else. */
  ghost predicate MaximalRun(obs: seq<Observation>, a: nat, b: nat) {
    && a <= b < |obs|
    && (forall i | a <= i <= b :: obs[i].spinner == obs[a].spinner)
    && (a > 0 ==> obs[a - 1].spinner != obs[a].spinner)
    && (b + 1 < |obs| ==> obs[b + 1].spinner != obs[a].spinner)
  }

  /** The change into the run happened no earlier than the start of the capture before it. */
  ghost function RunStart(obs: seq<Observation>, a: nat): real
    requires a < |obs|
  {
    if a == 0 then obs[0].started else obs[a - 1].started
  }

  /** The change out of the run happened no later than the end of the capture after it. */
  ghost function RunEnd(obs: seq<Observation>, b: nat): real
    requires b < |obs|
  {
    if b + 1 < |obs| then obs[b + 1].captured else obs[b].captured
  }

  ghost function RunSpan(obs: seq<Observation>, a: nat, b: nat): real
    requires a <= b < |obs|
  {
    RunEnd(obs, b) - RunStart(obs, a)
  }

  /** `m` is the longest span of the maximal runs that are shown (or absent), and zero when there is none. */
  ghost predicate LongestSpan(obs: seq<Observation>, shown: bool, m: real) {
    && m >= 0.0
    && (forall a: nat, b: nat | MaximalRun(obs, a, b) && Shown(obs[a].spinner) == shown :: RunSpan(obs, a, b) <= m)
    && (m == 0.0 || exists a: nat, b: nat ::
          MaximalRun(obs, a, b) && Shown(obs[a].spinner) == shown && RunSpan(obs, a, b) == m)
  }

  // ---------- the one-pass summary ----------

  /** `a` starts the run that the first `n` captures end in. */
  ghost predicate OpenRun(obs: seq<Observation>, n: nat, a: nat) {
    && a < n <= |obs|
    && (forall i | a <= i < n :: obs[i].spinner == obs[a].spinner)
    && (a > 0 ==> obs[a - 1].spinner != obs[a].spinner)
  }

  /** A maximal run of the given kind that one of the first `n` captures has ended. */
  ghost predicate ClosedRun(obs: seq<Observation>, n: nat, shown: bool, a: nat, b: nat) {
    MaximalRun(obs, a, b) && b + 1 < n && Shown(obs[a].spinner) == shown
  }

  /** `m` covers the closed runs of the given kind, and is zero or attained by one of them. */
  ghost predicate CoversClosed(obs: seq<Observation>, n: nat, shown: bool, m: real) {
    && m >= 0.0
    && (forall a: nat, b: nat | ClosedRun(obs, n, shown, a, b) :: RunSpan(obs, a, b) <= m)
    && (m == 0.0 || exists a: nat, b: nat :: ClosedRun(obs, n, shown, a, b) && RunSpan(obs, a, b) == m)
  }

  /** Closing the last run turns the cover into the longest span. */
  lemma LastRunCompletes(obs: seq<Observation>, a: nat, shown: bool, m: real)
    requires obs != [] && OpenRun(obs, |obs|, a) && CoversClosed(obs, |obs|, shown, m)
    ensures LongestSpan(obs, shown, if Shown(obs[a].spinner) == shown then Max(m, RunSpan(obs, a, |obs| - 1)) else m)
  {
    var n := |obs|;
    var grown := if Shown(obs[a].spinner) == shown then Max(m, RunSpan(obs, a, n - 1)) else m;
    forall c: nat, b: nat | MaximalRun(obs, c, b) && Shown(obs[c].spinner) == shown
      ensures RunSpan(obs, c, b) <= grown
    {
      if b == n - 1 {
        assert OpenRun(obs, n, c);
      } else {
        assert ClosedRun(obs, n, shown, c, b);
      }
    }
    if grown == m {
      if m != 0.0 {
        var c: nat, b: nat :| ClosedRun(obs, n, shown, c, b) && RunSpan(obs, c, b) == m;
        assert MaximalRun(obs, c, b) && Shown(obs[c].spinner) == shown && RunSpan(obs, c, b) == m;
      }
    } else {
      assert MaximalRun(obs, a, n - 1) && Shown(obs[a].spinner) == shown && RunSpan(obs, a, n - 1) == grown;
    }
  }

  /** The longest capture among the first `n`. */
  ghost predicate LongestCapture(obs: seq<Observation>, n: nat, m: real)
    requires n <= |obs|
  {
    && m >= 0.0
    && (forall i | 0 <= i < n :: obs[i].captured - obs[i].started <= m)
    && (m == 0.0 || exists i :: 0 <= i < n && obs[i].captured - obs[i].started == m)
  }

  /** The longest time between the ends of two neighbouring captures among the first `n`. */
  ghost predicate LongestGap(obs: seq<Observation>, n: nat, m: real)
    requires n <= |obs|
  {
    && m >= 0.0
    && (forall i | 0 < i < n :: obs[i].captured - obs[i - 1].captured <= m)
    && (m == 0.0 || exists i :: 0 < i < n && obs[i].captured - obs[i - 1].captured == m)
  }

  ghost predicate FrameChange(obs: seq<Observation>, i: nat)
    requires 0 < i < |obs|
  {
    obs[i].spinner != obs[i - 1].spinner && Shown(obs[i].spinner) && Shown(obs[i - 1].spinner)
  }

  ghost function FrameChanges(obs: seq<Observation>, n: nat): nat
    requires n <= |obs|
  {
    if n <= 1 then 0 else FrameChanges(obs, n - 1) + (if FrameChange(obs, n - 1) then 1 else 0)
  }

  ghost predicate TrueSummary(obs: seq<Observation>, s: Summary)
    requires obs != []
  {
    && s.captureCount == |obs|
    && s.durationMs == obs[|obs| - 1].captured - obs[0].started
    && LongestCapture(obs, |obs|, s.maximumCaptureMs)
    && LongestGap(obs, |obs|, s.maximumObservationGapMs)
    && LongestSpan(obs, false, s.maximumSpinnerAbsenceMs)
    && LongestSpan(obs, true, s.maximumSpinnerFrameMs)
    && s.spinnerChanges == FrameChanges(obs, |obs|)
  }

  /** Closing a run raises the maximum of its kind. */
  function CloseRun(s: Summary, spinner: Option<string>, duration: real): Summary {
    if Shown(spinner) then s.(maximumSpinnerFrameMs := Max(s.maximumSpinnerFrameMs, duration))
    else s.(maximumSpinnerAbsenceMs := Max(s.maximumSpinnerAbsenceMs, duration))
  }

  /** The summary after the first `n` captures, with the open run still open, and the time that run started. */
  ghost function Pass(obs: seq<Observation>, n: nat): (Summary, real)
    requires 0 < |obs| && n <= |obs|
  {
    if n == 0 then (Summary(|obs|, 0.0, 0.0, 0.0, 0.0, 0.0, 0), obs[0].started)
    else
      var (s, runStarted) := Pass(obs, n - 1);
      Observe(obs, n - 1, s, runStarted)
  }

  ghost function Observe(obs: seq<Observation>, i: nat, s: Summary, runStarted: real): (Summary, real)
    requires i < |obs|
  {
    var t := s.(maximumCaptureMs := Max(s.maximumCaptureMs, obs[i].captured - obs[i].started));
    if i == 0 then (t, runStarted)
    else
      var u := t.(maximumObservationGapMs := Max(t.maximumObservationGapMs, obs[i].captured - obs[i - 1].captured));
      if obs[i].spinner == obs[i - 1].spinner then (u, runStarted)
      else
        var v := CloseRun(u, obs[i - 1].spinner, obs[i].captured - runStarted);
        (v.(spinnerChanges := v.spinnerChanges + (if FrameChange(obs, i) then 1 else 0)), obs[i - 1].started)
  }

  ghost function Conclude(obs: seq<Observation>): Summary
    requires obs != []
  {
    var last := obs[|obs| - 1];
    var (s, runStarted) := Pass(obs, |obs|);
    CloseRun(s, last.spinner, last.captured - runStarted).(durationMs := last.captured - obs[0].started)
  }

  lemma InvalidCapture(obs: seq<Observation>, i: nat)
    requires i < |obs| && !ValidAt(obs, i)
    ensures !ValidTimes(obs)
  {
  }

  method SummarizePtyObservations(obs: seq<Observation>) returns (r: Result<Summary, Fault>)
    ensures r.Ok? <==> obs != [] && ValidTimes(obs)
    ensures r.Err? ==> r.error == if obs == [] then EmptyObservation else InvalidTimestamps
    ensures r.Ok? ==> TrueSummary(obs, r.value)
  {
    if |obs| == 0 {
      return Err(EmptyObservation);
    }
    r := ObserveAll(obs);
    ConclusionIsTrue(obs);
  }

  /** The loop over the captures. */
  method ObserveAll(obs: seq<Observation>) returns (r: Result<Summary, Fault>)
    requires obs != []
    ensures r.Ok? <==> ValidTimes(obs)
    ensures r.Err? ==> r.error == InvalidTimestamps
    ensures r.Ok? ==> r.value == Conclude(obs)
  {
    var summary := Summary(|obs|, 0.0, 0.0, 0.0, 0.0, 0.0, 0);
    var runStarted := obs[0].started;
    for i := 0 to |obs|
      invariant forall j | 0 <= j < i :: ValidAt(obs, j)
      invariant Pass(obs, i) == (summary, runStarted)
    {
      var observation := obs[i];
      if observation.captured < observation.started || (i > 0 && observation.started < obs[i - 1].captured) {
        InvalidCapture(obs, i);
        return Err(InvalidTimestamps);
      }
      summary := summary.(maximumCaptureMs :=
                            Max(summary.maximumCaptureMs, observation.captured - observation.started));
      if i > 0 {
        var previous := obs[i - 1];
        summary := summary.(maximumObservationGapMs :=
                              Max(summary.maximumObservationGapMs, observation.captured - previous.captured));
        if observation.spinner != previous.spinner {
          summary := CloseRun(summary, previous.spinner, observation.captured - runStarted);
          if Shown(observation.spinner) && Shown(previous.spinner) {
            summary := summary.(spinnerChanges := summary.spinnerChanges + 1);
          }
          runStarted := previous.started;
        }
      }
    }
    var last := obs[|obs| - 1];
    summary := CloseRun(summary, last.spinner, last.captured - runStarted);
    r := Ok(summary.(durationMs := last.captured - obs[0].started));
  }

  // ---------- the summary is true ----------

  /** What one more capture does to the cover of the closed runs. */
  lemma RunStep(obs: seq<Observation>, n: nat, a: nat, shown: bool, m: real)
    requires 0 < n < |obs| && OpenRun(obs, n, a) && CoversClosed(obs, n, shown, m)
    ensures obs[n].spinner == obs[n - 1].spinner ==> OpenRun(obs, n + 1, a) && CoversClosed(obs, n + 1, shown, m)
    ensures obs[n].spinner != obs[n - 1].spinner ==>
              && OpenRun(obs, n + 1, n)
              && CoversClosed(obs, n + 1, shown,
                   if Shown(obs[a].spinner) == shown then Max(m, RunSpan(obs, a, n - 1)) else m)
  {
  }

  /** Where the run that the first `n` captures end in starts. */
  ghost function OpenStart(obs: seq<Observation>, n: nat): nat
    requires n <= |obs|
  {
    if n <= 1 then 0
    else if obs[n - 1].spinner != obs[n - 2].spinner then n - 1
    else OpenStart(obs, n - 1)
  }

  ghost function MaximumOf(s: Summary, shown: bool): real {
    if shown then s.maximumSpinnerFrameMs else s.maximumSpinnerAbsenceMs
  }

  lemma {:induction false} PassMeasuresCaptures(obs: seq<Observation>, n: nat)
    requires 0 < |obs| && n <= |obs|
    ensures Pass(obs, n).0.captureCount == |obs| && LongestCapture(obs, n, Pass(obs, n).0.maximumCaptureMs)
  {
    if n > 0 { PassMeasuresCaptures(obs, n - 1); }
  }

  ghost function GapUpTo(obs: seq<Observation>, n: nat): real
    requires n <= |obs|
  {
    if n <= 1 then 0.0 else Max(GapUpTo(obs, n - 1), obs[n - 1].captured - obs[n - 2].captured)
  }

  lemma {:induction false} GapUpToIsLongest(obs: seq<Observation>, n: nat)
    requires n <= |obs|
    ensures LongestGap(obs, n, GapUpTo(obs, n))
  {
    if n > 1 { GapUpToIsLongest(obs, n - 1); }
  }

  lemma {:induction false} PassMeasuresGaps(obs: seq<Observation>, n: nat)
    requires 0 < |obs| && n <= |obs|
    ensures Pass(obs, n).0.maximumObservationGapMs == GapUpTo(obs, n)
  {
    if n > 0 { PassMeasuresGaps(obs, n - 1); }
  }

  lemma {:induction false} PassCountsChanges(obs: seq<Observation>, n: nat)
    requires 0 < |obs| && n <= |obs|
    ensures Pass(obs, n).0.spinnerChanges == FrameChanges(obs, n)
  {
    if n > 0 { PassCountsChanges(obs, n - 1); }
  }

  lemma {:induction false} OpenStartOpens(obs: seq<Observation>, n: nat)
    requires 0 < n <= |obs|
    ensures OpenRun(obs, n, OpenStart(obs, n)) && Pass(obs, n).1 == RunStart(obs, OpenStart(obs, n))
  {
    if n > 1 { OpenStartOpens(obs, n - 1); }
  }

  /** A capture closes the open run into the maximum of its kind exactly when it sees something else. */
  lemma ObserveCloses(obs: seq<Observation>, i: nat, s: Summary, runStarted: real, shown: bool)
    requires 0 < i < |obs|
    ensures
      MaximumOf(Observe(obs, i, s, runStarted).0, shown) ==
        if obs[i].spinner != obs[i - 1].spinner && Shown(obs[i - 1].spinner) == shown
        then Max(MaximumOf(s, shown), obs[i].captured - runStarted) else MaximumOf(s, shown)
  {
  }

  lemma {:induction false} PassCoversRuns(obs: seq<Observation>, n: nat, shown: bool)
    requires 0 < |obs| && n <= |obs|
    ensures CoversClosed(obs, n, shown, MaximumOf(Pass(obs, n).0, shown))
  {
    if n > 1 {
      var i := n - 1;
      PassCoversRuns(obs, i, shown);
      OpenStartOpens(obs, i);
      ObserveCloses(obs, i, Pass(obs, i).0, Pass(obs, i).1, shown);
      RunStep(obs, i, OpenStart(obs, i), shown, MaximumOf(Pass(obs, i).0, shown));
    }
  }

  lemma ConclusionCoversRuns(obs: seq<Observation>, shown: bool)
    requires obs != []
    ensures LongestSpan(obs, shown, MaximumOf(Conclude(obs), shown))
  {
    PassCoversRuns(obs, |obs|, shown);
    OpenStartOpens(obs, |obs|);
    LastRunCompletes(obs, OpenStart(obs, |obs|), shown, MaximumOf(Pass(obs, |obs|).0, shown));
  }

  /** One pass over the captures finds the longest spans of all maximal runs. */
  lemma ConclusionIsTrue(obs: seq<Observation>)
    requires obs != []
    ensures TrueSummary(obs, Conclude(obs))
  {
    PassMeasuresCaptures(obs, |obs|);
    PassMeasuresGaps(obs, |obs|);
    GapUpToIsLongest(obs, |obs|);
    PassCountsChanges(obs, |obs|);
    ConclusionCoversRuns(obs, false);
    ConclusionCoversRuns(obs, true);
  }

  // ---------- what the samples say about the screen ----------

  /** `signal` is what the screen showed; capture `i` sampled it at the instant `sample[i]` inside its window. */
  ghost predicate Sampled(obs: seq<Observation>, signal: real -> Option<string>, sample: seq<real>) {
    && |sample| == |obs|
    && forall i | 0 <= i < |obs| ::
         obs[i].started <= sample[i] <= obs[i].captured && signal(sample[i]) == obs[i].spinner
  }

  /** The screen showed `value` all the time from `low` to `high`. */
  ghost predicate Constant(signal: real -> Option<string>, low: real, high: real, value: Option<string>) {
    forall t: real :: low <= t <= high ==> signal(t) == value
  }

  lemma {:induction false} CapturesInOrder(obs: seq<Observation>, i: nat, j: nat)
    requires ValidTimes(obs) && i < j < |obs|
    ensures obs[i].captured <= obs[j].started
    decreases j
  {
    if i < j - 1 { CapturesInOrder(obs, i, j - 1); }
    assert ValidAt(obs, j) && ValidAt(obs, j - 1);
  }

  lemma {:induction false} FirstOfRun(obs: seq<Observation>, k: nat) returns (a: nat)
    requires k < |obs|
    ensures a <= k && forall i | a <= i <= k :: obs[i].spinner == obs[k].spinner
    ensures a > 0 ==> obs[a - 1].spinner != obs[k].spinner
  {
    if k == 0 || obs[k - 1].spinner != obs[k].spinner { a := k; } else { a := FirstOfRun(obs, k - 1); }
  }

  lemma {:induction false} LastOfRun(obs: seq<Observation>, k: nat) returns (b: nat)
    requires k < |obs|
    ensures k <= b < |obs| && forall i | k <= i <= b :: obs[i].spinner == obs[k].spinner
    ensures b + 1 < |obs| ==> obs[b + 1].spinner != obs[k].spinner
    decreases |obs| - k
  {
    if k + 1 == |obs| || obs[k + 1].spinner != obs[k].spinner { b := k; } else { b := LastOfRun(obs, k + 1); }
  }

  /** A stall some capture saw is never longer than the reported maximum, whatever happened between captures. */
  lemma StallIsNeverUnderReported(obs: seq<Observation>, s: Summary, signal: real -> Option<string>,
                                  sample: seq<real>, k: nat, low: real, high: real)
    requires obs != [] && ValidTimes(obs) && TrueSummary(obs, s)
    requires Sampled(obs, signal, sample)
    requires k < |obs| && obs[0].started <= low <= sample[k] <= high <= obs[|obs| - 1].captured
    requires Constant(signal, low, high, obs[k].spinner)
    ensures high - low <= if Shown(obs[k].spinner) then s.maximumSpinnerFrameMs else s.maximumSpinnerAbsenceMs
  {
    var a := FirstOfRun(obs, k);
    var b := LastOfRun(obs, k);
    assert MaximalRun(obs, a, b);
    if a > 0 {
      CapturesInOrder(obs, a - 1, k);
      assert signal(sample[a - 1]) != obs[k].spinner;
    }
    if b + 1 < |obs| {
      CapturesInOrder(obs, k, b + 1);
      assert signal(sample[b + 1]) != obs[k].spinner;
    }
    assert RunSpan(obs, a, b) >= high - low;
  }

  // ---------- and never over-reported ----------

  ghost predicate SameInstant(obs: seq<Observation>, i: nat, j: nat)
    requires i < |obs| && j < |obs|
  {
    obs[i].started == obs[i].captured == obs[j].started == obs[j].captured
  }

  /** No two captures at one single instant saw different values. */
  ghost predicate Consistent(obs: seq<Observation>) {
    forall i, j | 0 <= i < j < |obs| && SameInstant(obs, i, j) :: obs[i].spinner == obs[j].spinner
  }

  /** A quarter of the window, or of `slack` where that is less. */
  ghost function Nudge(o: Observation, slack: real): real {
    (if o.captured - o.started < slack then o.captured - o.started else slack) / 4.0
  }

  /** Captures outside the stretch sample near the far edge of their window, captures inside it in the middle. */
  ghost function EdgeSample(obs: seq<Observation>, a: nat, b: nat, slack: real, i: nat): real
    requires i < |obs|
  {
    if i < a then obs[i].started + Nudge(obs[i], slack)
    else if i <= b then (obs[i].started + obs[i].captured) / 2.0
    else obs[i].captured - Nudge(obs[i], slack)
  }

  ghost function EdgeSamples(obs: seq<Observation>, a: nat, b: nat, slack: real): (sample: seq<real>)
    ensures |sample| == |obs| && forall i | 0 <= i < |obs| :: sample[i] == EdgeSample(obs, a, b, slack, i)
  {
    seq(|obs|, i requires 0 <= i < |obs| => EdgeSample(obs, a, b, slack, i))
  }

  /** Every sample lies in its window, and samples do not decrease; those of different values increase. */
  ghost predicate Separates(obs: seq<Observation>, sample: seq<real>) {
    && |sample| == |obs|
    && (forall i | 0 <= i < |obs| :: obs[i].started <= sample[i] <= obs[i].captured)
    && (forall i, j | 0 <= i < j < |obs| :: sample[i] <= sample[j])
    && (forall i, j | 0 <= i < j < |obs| && obs[i].spinner != obs[j].spinner :: sample[i] < sample[j])
  }

  /** A sample meets an edge of its window only where the window is a single instant. */
  lemma SampleInWindow(obs: seq<Observation>, a: nat, b: nat, slack: real, i: nat)
    requires ValidTimes(obs) && i < |obs| && slack > 0.0
    ensures
      var t := EdgeSample(obs, a, b, slack, i);
      if obs[i].started == obs[i].captured then t == obs[i].started else obs[i].started < t < obs[i].captured
  {
    assert ValidAt(obs, i);
  }

  lemma EdgeSamplesSeparate(obs: seq<Observation>, a: nat, b: nat, slack: real)
    requires ValidTimes(obs) && Consistent(obs) && slack > 0.0
    ensures Separates(obs, EdgeSamples(obs, a, b, slack))
  {
    forall i | 0 <= i < |obs|
      ensures obs[i].started <= EdgeSample(obs, a, b, slack, i) <= obs[i].captured
    {
      SampleInWindow(obs, a, b, slack, i);
    }
    forall i, j | 0 <= i < j < |obs|
      ensures EdgeSample(obs, a, b, slack, i) <= EdgeSample(obs, a, b, slack, j)
      ensures EdgeSample(obs, a, b, slack, i) == EdgeSample(obs, a, b, slack, j) ==> SameInstant(obs, i, j)
    {
      CapturesInOrder(obs, i, j);
      SampleInWindow(obs, a, b, slack, i);
      SampleInWindow(obs, a, b, slack, j);
    }
  }

  /** The value sampled at `t` by one of the first `n` captures, or `other`. */
  ghost function EdgeSignal(obs: seq<Observation>, sample: seq<real>, other: Option<string>, n: nat, t: real)
    : Option<string>
    requires n <= |obs| == |sample|
  {
    if n == 0 then other
    else if t == sample[n - 1] then obs[n - 1].spinner
    else EdgeSignal(obs, sample, other, n - 1, t)
  }

  lemma {:induction false} EdgeSignalAt(obs: seq<Observation>, sample: seq<real>, other: Option<string>, n: nat, i: nat)
    requires Separates(obs, sample) && i < n <= |obs|
    ensures EdgeSignal(obs, sample, other, n, sample[i]) == obs[i].spinner
  {
    if i < n - 1 { EdgeSignalAt(obs, sample, other, n - 1, i); }
  }

  /** One of the captures from `a` to `b` saw `value`. */
  ghost predicate SeenWithin(obs: seq<Observation>, a: nat, b: nat, value: Option<string>)
    requires a <= b < |obs|
  {
    exists i :: a <= i <= b && obs[i].spinner == value
  }

  lemma {:induction false} EdgeSignalInside(obs: seq<Observation>, sample: seq<real>, a: nat, b: nat, n: nat, t: real)
    requires Separates(obs, sample) && a <= b < |obs| && n <= |obs|
    requires a > 0 ==> sample[a - 1] < t
    requires b + 1 < |obs| ==> t < sample[b + 1]
    ensures SeenWithin(obs, a, b, EdgeSignal(obs, sample, obs[a].spinner, n, t))
  {
    if n > 0 {
      var i := n - 1;
      assert i < a ==> sample[i] <= sample[a - 1];
      assert i > b ==> sample[b + 1] <= sample[i];
      EdgeSignalInside(obs, sample, a, b, n - 1, t);
    }
  }

  /** The captures next to the stretch from `a` to `b`, if any, saw something else than the stretch beside them. */
  ghost predicate Bounded(obs: seq<Observation>, a: nat, b: nat) {
    && a <= b < |obs|
    && (a > 0 ==> obs[a - 1].spinner != obs[a].spinner)
    && (b + 1 < |obs| ==> obs[b + 1].spinner != obs[b].spinner)
  }

  /** Just after the stretch can begin, and no later than its first sample. */
  ghost function Low(obs: seq<Observation>, a: nat, first: real, slack: real): real
    requires a < |obs|
  {
    if RunStart(obs, a) + slack / 2.0 < first then RunStart(obs, a) + slack / 2.0 else first
  }

  ghost function High(obs: seq<Observation>, b: nat, first: real, slack: real): real
    requires b < |obs|
  {
    if RunEnd(obs, b) - slack / 2.0 > first then RunEnd(obs, b) - slack / 2.0 else first
  }

  lemma LowIsInside(obs: seq<Observation>, a: nat, b: nat, slack: real)
    requires ValidTimes(obs) && Bounded(obs, a, b) && slack > 0.0
    requires Separates(obs, EdgeSamples(obs, a, b, slack))
    ensures
      var sample := EdgeSamples(obs, a, b, slack);
      var low := Low(obs, a, sample[a], slack);
      obs[0].started <= low <= sample[a] && (a > 0 ==> sample[a - 1] < low)
  {
    assert ValidAt(obs, 0);
    if a > 1 { CapturesInOrder(obs, 0, a - 1); }
  }

  lemma HighIsInside(obs: seq<Observation>, a: nat, b: nat, slack: real)
    requires ValidTimes(obs) && Bounded(obs, a, b) && slack > 0.0
    requires Separates(obs, EdgeSamples(obs, a, b, slack))
    ensures
      var sample := EdgeSamples(obs, a, b, slack);
      var high := High(obs, b, sample[a], slack);
      sample[a] <= high <= obs[|obs| - 1].captured && (b + 1 < |obs| ==> high < sample[b + 1])
  {
    var n := |obs|;
    assert ValidAt(obs, n - 1);
    if b + 2 < n { CapturesInOrder(obs, b + 1, n - 1); }
    if a < n - 1 { CapturesInOrder(obs, a, n - 1); }
  }

  /** Where any signal can fit the captures, some signal does and shows only what a stretch of them saw, for as long as
      the span of that stretch but for any slack. */
  lemma StretchIsTight(obs: seq<Observation>, a: nat, b: nat, slack: real)
    returns (signal: real -> Option<string>, sample: seq<real>, low: real, high: real)
    requires ValidTimes(obs) && Consistent(obs) && Bounded(obs, a, b) && slack > 0.0
    ensures Sampled(obs, signal, sample)
    ensures obs[0].started <= low <= sample[a] <= high <= obs[|obs| - 1].captured
    ensures forall t: real | low <= t <= high :: SeenWithin(obs, a, b, signal(t))
    ensures high - low >= RunSpan(obs, a, b) - slack
  {
    var n := |obs|;
    sample := EdgeSamples(obs, a, b, slack);
    EdgeSamplesSeparate(obs, a, b, slack);
    LowIsInside(obs, a, b, slack);
    HighIsInside(obs, a, b, slack);
    low, high := Low(obs, a, sample[a], slack), High(obs, b, sample[a], slack);
    signal := EdgeSignalOf(obs, sample, obs[a].spinner);
    SignalFits(obs, sample, obs[a].spinner);
    forall t: real | low <= t <= high ensures SeenWithin(obs, a, b, signal(t)) {
      EdgeSignalInside(obs, sample, a, b, n, t);
    }
  }

  ghost function EdgeSignalOf(obs: seq<Observation>, sample: seq<real>, other: Option<string>): real -> Option<string>
    requires |sample| == |obs|
  {
    t => EdgeSignal(obs, sample, other, |obs|, t)
  }

  lemma SignalFits(obs: seq<Observation>, sample: seq<real>, other: Option<string>)
    requires Separates(obs, sample)
    ensures Sampled(obs, EdgeSignalOf(obs, sample, other), sample)
  {
    forall i | 0 <= i < |obs| ensures EdgeSignalOf(obs, sample, other)(sample[i]) == obs[i].spinner {
      EdgeSignalAt(obs, sample, other, |obs|, i);
    }
  }

  /** Some signal fits the captures exactly when no two of them saw different values at one instant. */
  lemma SignalExistsIffConsistent(obs: seq<Observation>)
    requires ValidTimes(obs)
    ensures (exists signal, sample :: Sampled(obs, signal, sample)) <==> Consistent(obs)
  {
    if Consistent(obs) {
      EdgeSamplesSeparate(obs, 0, 0, 1.0);
      SignalFits(obs, EdgeSamples(obs, 0, 0, 1.0), None);
    }
  }

  /** The reported maximum is tight: every run could hide a stall as close to its reported span as one likes. */
  lemma SpanIsTight(obs: seq<Observation>, a: nat, b: nat, slack: real)
    returns (signal: real -> Option<string>, sample: seq<real>, low: real, high: real)
    requires ValidTimes(obs) && Consistent(obs) && MaximalRun(obs, a, b) && slack > 0.0
    ensures Sampled(obs, signal, sample)
    ensures obs[0].started <= low <= sample[a] <= high <= obs[|obs| - 1].captured
    ensures Constant(signal, low, high, obs[a].spinner)
    ensures high - low >= RunSpan(obs, a, b) - slack
  {
    signal, sample, low, high := StretchIsTight(obs, a, b, slack);
    forall t: real | low <= t <= high ensures signal(t) == obs[a].spinner { assert SeenWithin(obs, a, b, signal(t)); }
  }

  // ---------- absence, whatever the capture called it ----------

  /** The screen showed nothing all the time from `low` to `high`. */
  ghost predicate Blank(signal: real -> Option<string>, low: real, high: real) {
    forall t: real :: low <= t <= high ==> !Shown(signal(t))
  }

  /** The captures from `a` to `b` all saw nothing, empty or missing, and those next to them, if any, saw something. */
  ghost predicate BlankRun(obs: seq<Observation>, a: nat, b: nat) {
    && a <= b < |obs|
    && (forall i | a <= i <= b :: !Shown(obs[i].spinner))
    && (a > 0 ==> Shown(obs[a - 1].spinner))
    && (b + 1 < |obs| ==> Shown(obs[b + 1].spinner))
  }

  /** Some run of equal captures without a spinner spans at least `span`. */
  ghost predicate CoveredSpan(obs: seq<Observation>, span: real) {
    exists c: nat, d: nat :: MaximalRun(obs, c, d) && !Shown(obs[c].spinner) && span <= RunSpan(obs, c, d)
  }

  /** No absence is cut short by a change between an empty text and a missing one. */
  ghost predicate AbsenceIsCovered(obs: seq<Observation>) {
    forall a: nat, b: nat | BlankRun(obs, a, b) :: CoveredSpan(obs, RunSpan(obs, a, b))
  }

  /** A signal that fits the captures shows nothing from `low` to `high`, and capture `k` sampled it then. */
  ghost predicate SeenBlank(obs: seq<Observation>, signal: real -> Option<string>, sample: seq<real>, k: nat,
                            low: real, high: real)
  {
    && Sampled(obs, signal, sample)
    && k < |obs| && obs[0].started <= low <= sample[k] <= high <= obs[|obs| - 1].captured
    && Blank(signal, low, high)
  }

  /** No absence that a capture saw, in any signal that fits the captures, is longer than `reported`. */
  ghost predicate NoAbsenceExceeds(obs: seq<Observation>, reported: real) {
    forall signal: real -> Option<string>, sample: seq<real>, k: nat, low: real, high: real
      | SeenBlank(obs, signal, sample, k, low, high) :: high - low <= reported
  }

  lemma {:induction false} FirstBlank(obs: seq<Observation>, k: nat) returns (a: nat)
    requires k < |obs| && !Shown(obs[k].spinner)
    ensures a <= k && forall i | a <= i <= k :: !Shown(obs[i].spinner)
    ensures a > 0 ==> Shown(obs[a - 1].spinner)
  {
    if k == 0 || Shown(obs[k - 1].spinner) { a := k; } else { a := FirstBlank(obs, k - 1); }
  }

  lemma {:induction false} LastBlank(obs: seq<Observation>, k: nat) returns (b: nat)
    requires k < |obs| && !Shown(obs[k].spinner)
    ensures k <= b < |obs| && forall i | k <= i <= b :: !Shown(obs[i].spinner)
    ensures b + 1 < |obs| ==> Shown(obs[b + 1].spinner)
    decreases |obs| - k
  {
    if k + 1 == |obs| || Shown(obs[k + 1].spinner) { b := k; } else { b := LastBlank(obs, k + 1); }
  }

  /** An absence that a capture saw is no longer than the stretch of blank captures around it. */
  lemma AbsenceWithinBlankRun(obs: seq<Observation>, signal: real -> Option<string>, sample: seq<real>, k: nat,
                              low: real, high: real)
    returns (a: nat, b: nat)
    requires ValidTimes(obs) && SeenBlank(obs, signal, sample, k, low, high)
    ensures BlankRun(obs, a, b) && high - low <= RunSpan(obs, a, b)
  {
    assert !Shown(signal(sample[k]));
    a := FirstBlank(obs, k);
    b := LastBlank(obs, k);
    if a > 0 {
      CapturesInOrder(obs, a - 1, k);
      assert Shown(signal(sample[a - 1]));
    }
    if b + 1 < |obs| {
      CapturesInOrder(obs, k, b + 1);
      assert Shown(signal(sample[b + 1]));
    }
  }

  /** Covered absences are never under-reported, whatever happened between captures. */
  lemma CoveredAbsenceIsReported(obs: seq<Observation>, s: Summary)
    requires obs != [] && ValidTimes(obs) && TrueSummary(obs, s) && AbsenceIsCovered(obs)
    ensures NoAbsenceExceeds(obs, s.maximumSpinnerAbsenceMs)
  {
    forall signal: real -> Option<string>, sample: seq<real>, k: nat, low: real, high: real
      | SeenBlank(obs, signal, sample, k, low, high)
      ensures high - low <= s.maximumSpinnerAbsenceMs
    {
      var a, b := AbsenceWithinBlankRun(obs, signal, sample, k, low, high);
      assert CoveredSpan(obs, RunSpan(obs, a, b));
    }
  }

  lemma BlankRunIsReported(obs: seq<Observation>, reported: real, a: nat, b: nat)
    requires ValidTimes(obs) && Consistent(obs) && BlankRun(obs, a, b) && NoAbsenceExceeds(obs, reported)
    ensures RunSpan(obs, a, b) <= reported
  {
    if RunSpan(obs, a, b) > reported {
      var signal, sample, low, high := StretchIsTight(obs, a, b, (RunSpan(obs, a, b) - reported) / 2.0);
      forall t: real | low <= t <= high ensures !Shown(signal(t)) { assert SeenWithin(obs, a, b, signal(t)); }
      assert SeenBlank(obs, signal, sample, a, low, high);
    }
  }

  /** A stretch of blank captures no longer than the reported maximum is matched by an equal run. */
  lemma ReportedIsCovered(obs: seq<Observation>, s: Summary, a: nat, b: nat)
    requires ValidTimes(obs) && obs != [] && TrueSummary(obs, s) && BlankRun(obs, a, b)
    requires RunSpan(obs, a, b) <= s.maximumSpinnerAbsenceMs
    ensures CoveredSpan(obs, RunSpan(obs, a, b))
  {
    if s.maximumSpinnerAbsenceMs == 0.0 {
      var c := FirstOfRun(obs, a);
      var d := LastOfRun(obs, a);
      assert MaximalRun(obs, c, d);
      RunSpanIsNotNegative(obs, c, d);
    }
  }

  lemma RunSpanIsNotNegative(obs: seq<Observation>, a: nat, b: nat)
    requires ValidTimes(obs) && a <= b < |obs|
    ensures RunSpan(obs, a, b) >= 0.0
  {
    assert ValidAt(obs, a) && ValidAt(obs, b);
    if a > 0 { assert ValidAt(obs, a - 1); }
    if b + 1 < |obs| { assert ValidAt(obs, b + 1); }
    if a < b { CapturesInOrder(obs, a, b); }
  }

  /** The report covers every absence exactly when none is cut short, or no signal fits the captures at all. */
  lemma AbsenceIsReportedIffCovered(obs: seq<Observation>, s: Summary)
    requires obs != [] && ValidTimes(obs) && TrueSummary(obs, s)
    ensures NoAbsenceExceeds(obs, s.maximumSpinnerAbsenceMs) <==> !Consistent(obs) || AbsenceIsCovered(obs)
  {
    if AbsenceIsCovered(obs) { CoveredAbsenceIsReported(obs, s); }
    SignalExistsIffConsistent(obs);
    if NoAbsenceExceeds(obs, s.maximumSpinnerAbsenceMs) && Consistent(obs) {
      forall a: nat, b: nat | BlankRun(obs, a, b) ensures CoveredSpan(obs, RunSpan(obs, a, b)) {
        BlankRunIsReported(obs, s.maximumSpinnerAbsenceMs, a, b);
        ReportedIsCovered(obs, s, a, b);
      }
    }
  }

  /** No capture recorded an empty text in place of a missing one, so nothing cuts an absence short. */
  ghost predicate AbsenceIsUniform(obs: seq<Observation>) {
    forall i | 0 <= i < |obs| :: obs[i].spinner.Some? ==> Shown(obs[i].spinner)
  }

  lemma UniformAbsenceIsCovered(obs: seq<Observation>)
    requires AbsenceIsUniform(obs)
    ensures AbsenceIsCovered(obs)
  {
    forall a: nat, b: nat | BlankRun(obs, a, b) ensures CoveredSpan(obs, RunSpan(obs, a, b)) {
      assert MaximalRun(obs, a, b);
    }
  }

  lemma LongerAbsenceExceeds(obs: seq<Observation>, signal: real -> Option<string>, sample: seq<real>, k: nat,
                             low: real, high: real, reported: real)
    requires SeenBlank(obs, signal, sample, k, low, high) && high - low > reported
    ensures !NoAbsenceExceeds(obs, reported)
  {
  }

  const MIXED := [Observation(0.0, 1.0, None), Observation(2.0, 3.0, Some("")),
                  Observation(4.0, 5.0, None), Observation(6.0, 7.0, Some(""))]

  ghost function MixedSignal(t: real): Option<string> {
    if t == 2.0 || t == 6.0 then Some("") else None
  }

  lemma MixedIsBlank()
    ensures ValidTimes(MIXED) && SeenBlank(MIXED, MixedSignal, [0.0, 2.0, 4.0, 6.0], 0, 0.0, 7.0)
  {
  }

  lemma MixedMaximum(s: Summary)
    requires TrueSummary(MIXED, s)
    ensures s.maximumSpinnerAbsenceMs == 5.0
  {
    assert MaximalRun(MIXED, 1, 1) && RunSpan(MIXED, 1, 1) == 5.0;
    forall a: nat, b: nat | MaximalRun(MIXED, a, b) ensures RunSpan(MIXED, a, b) <= 5.0 {
    }
  }

  /** Captures that alternate between the two cut one absence into shorter runs: a blank of 7 is reported as 5. */
  lemma MixedAbsenceUnderReports(s: Summary)
    requires TrueSummary(MIXED, s)
    ensures ValidTimes(MIXED) && SeenBlank(MIXED, MixedSignal, [0.0, 2.0, 4.0, 6.0], 0, 0.0, 7.0)
    ensures s.maximumSpinnerAbsenceMs == 5.0 && !NoAbsenceExceeds(MIXED, s.maximumSpinnerAbsenceMs)
  {
    MixedIsBlank();
    MixedMaximum(s);
    LongerAbsenceExceeds(MIXED, MixedSignal, [0.0, 2.0, 4.0, 6.0], 0, 0.0, 7.0, 5.0);
  }
}
