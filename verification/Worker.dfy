/** The worker loop: five periodic tasks and the job queue, where any call may raise and end its iteration. */
module Worker {

  /** The four configured intervals, in seconds; zero or less disables the task. */
  datatype Settings = Settings(aiHealthcheck: int, cameraPoll: int, mediaCleanup: int, systemMetrics: int)

  // The tasks in the order the loop checks them.
  const AI := 0
  const CAMERA := 1
  const CLEANUP := 2
  const AUDIT := 3
  const RETENTION := 4
  const TASKS := 5

  predicate Enabled(s: Settings, task: nat) {
    match task
    case 0 => s.aiHealthcheck > 0
    case 1 => s.cameraPoll > 0
    case 2 => s.mediaCleanup > 0
    case 3 => s.systemMetrics > 0
    case _ => true
  }

  /** How far the task's timer is moved after a successful run. */
  function Interval(s: Settings, task: nat): int {
    match task
    case 0 => s.aiHealthcheck
    case 1 => s.cameraPoll
    case 2 => s.mediaCleanup
    case 3 => if s.systemMetrics > 60 then s.systemMetrics else 60
    case _ => 86400
  }

  /** The clock reading of an iteration, and which of the six calls raise if they are made (the last is the job queue). */
  datatype Tick = Tick(now: real, raises: seq<bool>)

  /** A call that returned normally. */
  datatype Run = Run(task: nat, at: real)

  /** The five timers, with the successful runs so far and the number of times the job queue was processed. */
  datatype State = State(next: seq<real>, runs: seq<Run>, jobs: nat)

  predicate WellFormed(st: State) {
    |st.next| == TASKS
  }

  predicate WellFormedTick(t: Tick) {
    |t.raises| == TASKS + 1
  }

  predicate AllWellFormed(ticks: seq<Tick>) {
    forall i :: 0 <= i < |ticks| ==> WellFormedTick(ticks[i])
  }

  predicate Due(s: Settings, st: State, task: nat, now: real)
    requires WellFormed(st) && task < TASKS
  {
    Enabled(s, task) && now >= st.next[task]
  }

  function Ran(s: Settings, st: State, task: nat, now: real): State
    requires WellFormed(st) && task < TASKS
  {
    State(st.next[task := now + Interval(s, task) as real], st.runs + [Run(task, now)], st.jobs)
  }

  datatype Ended = Ended(state: State, raised: bool)

  /** The body of one iteration from the given task on. */
  function From(s: Settings, st: State, t: Tick, task: nat): (e: Ended)
    requires WellFormed(st) && WellFormedTick(t) && task <= TASKS
    ensures WellFormed(e.state)
    decreases TASKS - task
  {
    if task == TASKS then
      if t.raises[TASKS] then Ended(st, true) else Ended(st.(jobs := st.jobs + 1), false)
    else if !Due(s, st, task, t.now) then From(s, st, t, task + 1)
    else if t.raises[task] then Ended(st, true)
    else From(s, Ran(s, st, task, t.now), t, task + 1)
  }

  function Iteration(s: Settings, st: State, t: Tick): Ended
    requires WellFormed(st) && WellFormedTick(t)
  {
    From(s, st, t, 0)
  }

  function RunAll(s: Settings, st: State, ticks: seq<Tick>): (r: State)
    requires WellFormed(st) && AllWellFormed(ticks)
    ensures WellFormed(r)
  {
    if ticks == [] then st else Iteration(s, RunAll(s, st, ticks[..|ticks| - 1]), ticks[|ticks| - 1]).state
  }

  /** Four timers start at zero, the retention timer ten minutes after the start. */
  function Start(started: real): State {
    State([0.0, 0.0, 0.0, 0.0, started + 600.0], [], 0)
  }

  class Loop {
    const settings: Settings
    var nextAiHealthcheckAt: real
    var nextCameraPollAt: real
    var nextMediaCleanupAt: real
    var nextSystemHealthAuditAt: real
    var nextRetentionAt: real
    ghost var runs: seq<Run>
    ghost var jobs: nat

    ghost function View(): State
      reads this
    {
      State([nextAiHealthcheckAt, nextCameraPollAt, nextMediaCleanupAt, nextSystemHealthAuditAt, nextRetentionAt], runs, jobs)
    }

    constructor (settings: Settings, started: real)
      ensures this.settings == settings && View() == Start(started)
    {
      this.settings := settings;
      nextAiHealthcheckAt, nextCameraPollAt, nextMediaCleanupAt, nextSystemHealthAuditAt := 0.0, 0.0, 0.0, 0.0;
      nextRetentionAt := started + 600.0;
      runs, jobs := [], 0;
    }

    /** What checking one task does to the state. */
    ghost predicate Checked(before: State, after: State, t: Tick, task: nat, raised: bool)
      requires WellFormed(before) && WellFormedTick(t) && task < TASKS
    {
      && raised == (Due(settings, before, task, t.now) && t.raises[task])
      && after == if Due(settings, before, task, t.now) && !raised then Ran(settings, before, task, t.now) else before
    }

    /** The block of one task: skip it if it is disabled or not due, and move its timer only after it has succeeded. */
    method CheckAiHealthcheck(t: Tick) returns (raised: bool)
      requires WellFormedTick(t)
      modifies this
      ensures Checked(old(View()), View(), t, AI, raised)
    {
      raised := false;
      if settings.aiHealthcheck > 0 && t.now >= nextAiHealthcheckAt {
        if t.raises[AI] {
          return true;
        }
        nextAiHealthcheckAt, runs := t.now + settings.aiHealthcheck as real, runs + [Run(AI, t.now)];
        assert View() == Ran(settings, old(View()), AI, t.now);
      }
    }

    method CheckCameraPoll(t: Tick) returns (raised: bool)
      requires WellFormedTick(t)
      modifies this
      ensures Checked(old(View()), View(), t, CAMERA, raised)
    {
      raised := false;
      if settings.cameraPoll > 0 && t.now >= nextCameraPollAt {
        if t.raises[CAMERA] {
          return true;
        }
        nextCameraPollAt, runs := t.now + settings.cameraPoll as real, runs + [Run(CAMERA, t.now)];
        assert View() == Ran(settings, old(View()), CAMERA, t.now);
      }
    }

    method CheckMediaCleanup(t: Tick) returns (raised: bool)
      requires WellFormedTick(t)
      modifies this
      ensures Checked(old(View()), View(), t, CLEANUP, raised)
    {
      raised := false;
      if settings.mediaCleanup > 0 && t.now >= nextMediaCleanupAt {
        if t.raises[CLEANUP] {
          return true;
        }
        nextMediaCleanupAt, runs := t.now + settings.mediaCleanup as real, runs + [Run(CLEANUP, t.now)];
        assert View() == Ran(settings, old(View()), CLEANUP, t.now);
      }
    }

    method CheckSystemHealthAudit(t: Tick) returns (raised: bool)
      requires WellFormedTick(t)
      modifies this
      ensures Checked(old(View()), View(), t, AUDIT, raised)
    {
      raised := false;
      if settings.systemMetrics > 0 && t.now >= nextSystemHealthAuditAt {
        if t.raises[AUDIT] {
          return true;
        }
        var wait := if settings.systemMetrics > 60 then settings.systemMetrics else 60;
        nextSystemHealthAuditAt, runs := t.now + wait as real, runs + [Run(AUDIT, t.now)];
        assert View() == Ran(settings, old(View()), AUDIT, t.now);
      }
    }

    method CheckRetention(t: Tick) returns (raised: bool)
      requires WellFormedTick(t)
      modifies this
      ensures Checked(old(View()), View(), t, RETENTION, raised)
    {
      raised := false;
      if t.now >= nextRetentionAt {
        if t.raises[RETENTION] {
          return true;
        }
        nextRetentionAt, runs := t.now + 86400.0, runs + [Run(RETENTION, t.now)];
        assert View() == Ran(settings, old(View()), RETENTION, t.now);
      }
    }

    /** One iteration; true stands for the exception that is logged before the loop goes on. */
    method Iterate(t: Tick) returns (raised: bool)
      requires WellFormedTick(t)
      modifies this
      ensures Ended(View(), raised) == Iteration(settings, old(View()), t)
    {
      hide Due, Ran;
      ghost var a := View();
      raised := CheckAiHealthcheck(t);
      if raised {
        return;
      }
      ghost var b := View();
      assert From(settings, a, t, AI) == From(settings, b, t, CAMERA);
      raised := CheckCameraPoll(t);
      if raised {
        return;
      }
      ghost var c := View();
      assert From(settings, b, t, CAMERA) == From(settings, c, t, CLEANUP);
      raised := CheckMediaCleanup(t);
      if raised {
        return;
      }
      ghost var d := View();
      assert From(settings, c, t, CLEANUP) == From(settings, d, t, AUDIT);
      raised := CheckSystemHealthAudit(t);
      if raised {
        return;
      }
      ghost var e := View();
      assert From(settings, d, t, AUDIT) == From(settings, e, t, RETENTION);
      raised := CheckRetention(t);
      if raised {
        return;
      }
      assert From(settings, e, t, RETENTION) == From(settings, View(), t, TASKS);
      raised := t.raises[TASKS];
      if !raised {
        jobs := jobs + 1;
      }
    }

    method Serve(ticks: seq<Tick>)
      requires AllWellFormed(ticks)
      modifies this
      ensures View() == RunAll(settings, old(View()), ticks)
    {
      hide Iteration;
      for n := 0 to |ticks|
        invariant View() == RunAll(settings, old(View()), ticks[..n])
      {
        assert ticks[..n + 1][..n] == ticks[..n];
        var raised := Iterate(ticks[n]);
      }
      assert ticks[..|ticks|] == ticks;
    }
  }

  // ----- the invariant ------------------------------------------------------------

  /** Two successful runs of one task are at least its interval apart. */
  ghost predicate Spaced(s: Settings, runs: seq<Run>) {
    forall i, j :: 0 <= i < j < |runs| && runs[i].task == runs[j].task ==>
      runs[j].at - runs[i].at >= Interval(s, runs[i].task) as real
  }

  /** Only enabled tasks have run, each timer is at least one interval after its task's runs, and the runs are spaced. */
  ghost predicate Inv(s: Settings, st: State, started: real) {
    && WellFormed(st)
    && (forall i :: 0 <= i < |st.runs| ==> st.runs[i].task < TASKS && Enabled(s, st.runs[i].task))
    && (forall i :: 0 <= i < |st.runs| ==> st.next[st.runs[i].task] >= st.runs[i].at + Interval(s, st.runs[i].task) as real)
    && (forall i :: 0 <= i < |st.runs| && st.runs[i].task == RETENTION ==> st.runs[i].at >= started + 600.0)
    && st.next[RETENTION] >= started + 600.0
    && Spaced(s, st.runs)
  }

  lemma StartInv(s: Settings, started: real)
    ensures Inv(s, Start(started), started)
  {
  }

  lemma RanInv(s: Settings, st: State, started: real, task: nat, now: real)
    requires Inv(s, st, started) && task < TASKS && Due(s, st, task, now)
    ensures Inv(s, Ran(s, st, task, now), started)
  {
  }

  lemma {:induction false} FromInv(s: Settings, st: State, started: real, t: Tick, task: nat)
    requires Inv(s, st, started) && WellFormedTick(t) && task <= TASKS
    ensures Inv(s, From(s, st, t, task).state, started)
    decreases TASKS - task
  {
    if task < TASKS {
      if !Due(s, st, task, t.now) {
        FromInv(s, st, started, t, task + 1);
      } else if !t.raises[task] {
        RanInv(s, st, started, task, t.now);
        FromInv(s, Ran(s, st, task, t.now), started, t, task + 1);
      }
    }
  }

  /** The invariant holds over every run of the loop, whatever raises along the way. */
  lemma {:induction false} RunInv(s: Settings, started: real, ticks: seq<Tick>)
    requires AllWellFormed(ticks)
    ensures Inv(s, RunAll(s, Start(started), ticks), started)
  {
    hide Inv;
    if ticks == [] {
      StartInv(s, started);
    } else {
      var front := ticks[..|ticks| - 1];
      RunInv(s, started, front);
      assert WellFormedTick(ticks[|ticks| - 1]);
      FromInv(s, RunAll(s, Start(started), front), started, ticks[|ticks| - 1], 0);
    }
  }

  // ----- main results ------------------------------------------------------------------

  /** Spacing, disabled tasks and the first retention pass, over every run. */
  lemma {:induction false} RunSafety(s: Settings, started: real, ticks: seq<Tick>, i: nat, j: nat)
    requires AllWellFormed(ticks)
    requires i <= j < |RunAll(s, Start(started), ticks).runs|
    ensures var runs := RunAll(s, Start(started), ticks).runs;
            && Enabled(s, runs[i].task)
            && (i < j && runs[i].task == runs[j].task ==> runs[j].at - runs[i].at >= Interval(s, runs[i].task) as real)
            && (runs[i].task == RETENTION ==> runs[i].at >= started + 600.0)
  {
    RunInv(s, started, ticks);
  }

  /** In seconds: the health audit runs at most once a minute, retention at most once a day, from ten minutes on. */
  lemma {:induction false} SpacingInSeconds(s: Settings, started: real, ticks: seq<Tick>, i: nat, j: nat)
    requires AllWellFormed(ticks)
    requires i <= j < |RunAll(s, Start(started), ticks).runs|
    ensures var runs := RunAll(s, Start(started), ticks).runs;
            var wait := runs[j].at - runs[i].at;
            && runs[i].task < 5
            && (runs[i].task == 0 ==> s.aiHealthcheck > 0)
            && (runs[i].task == 1 ==> s.cameraPoll > 0)
            && (runs[i].task == 2 ==> s.mediaCleanup > 0)
            && (runs[i].task == 3 ==> s.systemMetrics > 0)
            && (runs[i].task == 4 ==> runs[i].at >= started + 600.0)
            && (i < j && runs[i].task == runs[j].task ==>
                  && (runs[i].task == 0 ==> wait >= s.aiHealthcheck as real)
                  && (runs[i].task == 1 ==> wait >= s.cameraPoll as real)
                  && (runs[i].task == 2 ==> wait >= s.mediaCleanup as real)
                  && (runs[i].task == 3 ==> wait >= s.systemMetrics as real && wait >= 60.0)
                  && (runs[i].task == 4 ==> wait >= 86_400.0))
  {
    RunInv(s, started, ticks);
    hide RunAll;
  }

  /** The times at which a task ran within a window. */
  function TimesWithin(runs: seq<Run>, task: nat, lo: real, hi: real): seq<real> {
    if runs == [] then []
    else
      var last := runs[|runs| - 1];
      var rest := TimesWithin(runs[..|runs| - 1], task, lo, hi);
      if last.task == task && lo <= last.at <= hi then rest + [last.at] else rest
  }

  ghost predicate Apart(times: seq<real>, d: real) {
    forall i, j :: 0 <= i < j < |times| ==> times[j] - times[i] >= d
  }

  lemma {:induction false} TimesApart(s: Settings, runs: seq<Run>, task: nat, lo: real, hi: real)
    requires Spaced(s, runs)
    ensures Apart(TimesWithin(runs, task, lo, hi), Interval(s, task) as real)
    ensures forall x :: x in TimesWithin(runs, task, lo, hi) ==>
      lo <= x <= hi && exists i :: 0 <= i < |runs| && runs[i].task == task && runs[i].at == x
  {
    if runs != [] {
      var front := runs[..|runs| - 1];
      TimesApart(s, front, task, lo, hi);
      assert forall i :: 0 <= i < |front| ==> front[i] == runs[i];
      var rest := TimesWithin(front, task, lo, hi);
      assert forall k :: 0 <= k < |rest| ==> rest[k] in rest;
    }
  }

  lemma {:induction false} ApartSpan(times: seq<real>, d: real, n: real)
    requires times != [] && Apart(times, d) && n == |times| as real
    ensures (n - 1.0) * d <= times[|times| - 1] - times[0]
  {
    if |times| > 1 {
      var front := times[..|times| - 1];
      ApartSpan(front, d, n - 1.0);
      assert times[|times| - 1] - times[|times| - 2] >= d;
      assert (n - 1.0) * d == (n - 2.0) * d + d;
    } else {
      assert (n - 1.0) * d == 0.0;
    }
  }

  /** Within any window of length T a task succeeds at most floor(T / interval) + 1 times. */
  lemma RunsPerWindow(s: Settings, started: real, ticks: seq<Tick>, task: nat, lo: real, length: real)
    requires AllWellFormed(ticks)
    requires task < TASKS && Enabled(s, task) && length >= 0.0
    ensures |TimesWithin(RunAll(s, Start(started), ticks).runs, task, lo, lo + length)|
         <= (length / Interval(s, task) as real).Floor + 1
  {
    var runs := RunAll(s, Start(started), ticks).runs;
    var times := TimesWithin(runs, task, lo, lo + length);
    hide RunAll, TimesWithin, Inv;
    assert Spaced(s, runs) by {
      RunSpaced(s, started, ticks);
    }
    TimesApart(s, runs, task, lo, lo + length);
    CountWithin(times, lo, length, Interval(s, task) as real);
  }

  lemma {:induction false} RunSpaced(s: Settings, started: real, ticks: seq<Tick>)
    requires AllWellFormed(ticks)
    ensures Spaced(s, RunAll(s, Start(started), ticks).runs)
  {
    RunInv(s, started, ticks);
  }

  lemma CountWithin(times: seq<real>, lo: real, length: real, d: real)
    requires d > 0.0 && length >= 0.0 && Apart(times, d) && forall x :: x in times ==> lo <= x <= lo + length
    ensures |times| <= (length / d).Floor + 1
  {
    if times == [] {
      FloorBound(0, length, d);
    } else {
      ApartSpan(times, d, |times| as real);
      assert times[0] in times && times[|times| - 1] in times;
      FloorBound(|times| - 1, length, d);
    }
  }

  lemma FloorBound(n: nat, length: real, d: real)
    requires d > 0.0 && n as real * d <= length
    ensures n <= (length / d).Floor
  {
    var q := length / d;
    assert q * d == length;
    if q < n as real {
      Smaller(q, n as real, d);
    }
  }

  lemma Smaller(x: real, y: real, d: real)
    requires x < y && d > 0.0
    ensures x * d < y * d
  {
  }

  // ----- what one iteration gets done -------------------------------------------------

  /** A due task from `from` on and before `upto` raises. */
  ghost predicate Cut(s: Settings, st: State, t: Tick, from: nat, upto: nat)
    requires WellFormed(st) && WellFormedTick(t) && upto <= TASKS
  {
    exists k :: from <= k < upto && Due(s, st, k, t.now) && t.raises[k]
  }

  /** The task is due and does not raise, and no due task before it does. */
  ghost predicate Succeeds(s: Settings, st: State, t: Tick, from: nat, task: nat)
    requires WellFormed(st) && WellFormedTick(t) && task < TASKS
  {
    Due(s, st, task, t.now) && !t.raises[task] && !Cut(s, st, t, from, task)
  }

  /** Among the runs added from `before` to `after` there is one of the task. */
  ghost predicate RanBetween(before: State, after: State, task: nat) {
    exists i :: |before.runs| <= i < |after.runs| && after.runs[i].task == task
  }

  /** What an iteration from the task `from` on does to each timer, to the runs and to the queue. */
  ghost predicate DoesExactly(s: Settings, st: State, t: Tick, from: nat, e: Ended)
    requires WellFormed(st) && WellFormedTick(t) && from <= TASKS && WellFormed(e.state)
  {
    && (e.raised <==> Cut(s, st, t, from, TASKS) || t.raises[TASKS])
    && e.state.jobs == (if e.raised then st.jobs else st.jobs + 1)
    && st.runs <= e.state.runs
    && (forall k :: 0 <= k < from ==> e.state.next[k] == st.next[k] && !RanBetween(st, e.state, k))
    && (forall k :: from <= k < TASKS ==>
          && (RanBetween(st, e.state, k) <==> Succeeds(s, st, t, from, k))
          && e.state.next[k] ==
               if Succeeds(s, st, t, from, k) then t.now + Interval(s, k) as real else st.next[k])
  }

  lemma {:induction false} FromExactly(s: Settings, st: State, t: Tick, from: nat)
    requires WellFormed(st) && WellFormedTick(t) && from <= TASKS
    ensures DoesExactly(s, st, t, from, From(s, st, t, from))
    decreases TASKS - from
  {
    if from < TASKS {
      if !Due(s, st, from, t.now) {
        FromExactly(s, st, t, from + 1);
        OneTaskMore(s, st, st, t, from, From(s, st, t, from));
      } else if !t.raises[from] {
        FromExactly(s, Ran(s, st, from, t.now), t, from + 1);
        OneTaskMore(s, st, Ran(s, st, from, t.now), t, from, From(s, st, t, from));
      }
    }
  }

  lemma OneTaskMore(s: Settings, st: State, next: State, t: Tick, from: nat, e: Ended)
    requires WellFormed(st) && WellFormed(next) && WellFormedTick(t) && from < TASKS && WellFormed(e.state)
    requires !(Due(s, st, from, t.now) && t.raises[from])
    requires next == if Due(s, st, from, t.now) then Ran(s, st, from, t.now) else st
    requires DoesExactly(s, next, t, from + 1, e)
    ensures DoesExactly(s, st, t, from, e)
  {
    assert forall k :: from < k < TASKS ==> (Due(s, next, k, t.now) <==> Due(s, st, k, t.now));
    assert forall upto :: from < upto <= TASKS ==> (Cut(s, next, t, from + 1, upto) <==> Cut(s, st, t, from, upto));
    if Due(s, st, from, t.now) {
      assert e.state.runs[|st.runs|] == Run(from, t.now);
    }
    forall k | 0 <= k < TASKS
      ensures RanBetween(st, e.state, k) <==> RanBetween(next, e.state, k) || (k == from && Due(s, st, from, t.now))
    {
    }
  }

  /**
   * The queue is processed exactly when it does not raise and neither does any due task; a task succeeds, and its timer
   * moves, exactly when it is due and neither it nor any due task before it raises.
   */
  lemma IterationExactly(s: Settings, st: State, t: Tick, task: nat)
    requires WellFormed(st) && WellFormedTick(t) && task < TASKS
    ensures var r := Iteration(s, st, t).state;
            && r.jobs == (if t.raises[TASKS] || Cut(s, st, t, 0, TASKS) then st.jobs else st.jobs + 1)
            && (RanBetween(st, r, task) <==> Succeeds(s, st, t, 0, task))
            && r.next[task] ==
                 if Succeeds(s, st, t, 0, task) then t.now + Interval(s, task) as real else st.next[task]
  {
    FromExactly(s, st, t, 0);
  }

  /** The runs added from `before` to `after` are of ascending tasks, from `from` on, all at the same time. */
  ghost predicate Records(before: State, after: State, now: real, from: nat) {
    && before.runs <= after.runs
    && (forall i :: |before.runs| <= i < |after.runs| ==> after.runs[i].at == now && after.runs[i].task >= from)
    && (forall i, j :: |before.runs| <= i < j < |after.runs| ==> after.runs[i].task < after.runs[j].task)
  }

  lemma {:induction false} FromRecords(s: Settings, st: State, t: Tick, from: nat)
    requires WellFormed(st) && WellFormedTick(t) && from <= TASKS
    ensures Records(st, From(s, st, t, from).state, t.now, from)
    decreases TASKS - from
  {
    if from < TASKS {
      if !Due(s, st, from, t.now) {
        FromRecords(s, st, t, from + 1);
      } else if !t.raises[from] {
        FromRecords(s, Ran(s, st, from, t.now), t, from + 1);
      }
    }
  }

  /** Which of the five tasks an iteration would run, were nothing to raise. */
  ghost function DueTasks(s: Settings, st: State, now: real): seq<bool>
    requires WellFormed(st)
  {
    [ s.aiHealthcheck > 0 && now >= st.next[0],
      s.cameraPoll > 0 && now >= st.next[1],
      s.mediaCleanup > 0 && now >= st.next[2],
      s.systemMetrics > 0 && now >= st.next[3],
      now >= st.next[4] ]
  }

  /** When a task that has just succeeded is next due: the health audit waits a minute at least, retention a day. */
  ghost function NextTimes(s: Settings, now: real): seq<real> {
    [ now + s.aiHealthcheck as real,
      now + s.cameraPoll as real,
      now + s.mediaCleanup as real,
      if s.systemMetrics > 60 then now + s.systemMetrics as real else now + 60.0,
      now + 86_400.0 ]
  }

  /**
   * An iteration in full: the due tasks run in order up to the first that raises, each that returns is recorded with
   * the time and gets its new timer, every other timer stays, and the queue counts if nothing has raised.
   */
  lemma IterationInFull(s: Settings, st: State, t: Tick, task: nat)
    requires WellFormed(st) && WellFormedTick(t) && task < 5
    ensures var due := DueTasks(s, st, t.now);
            var e := Iteration(s, st, t);
            var before := exists k :: 0 <= k < task && due[k] && t.raises[k];
            var success := due[task] && !t.raises[task] && !before;
            && (e.raised <==> t.raises[5] || exists k :: 0 <= k < 5 && due[k] && t.raises[k])
            && e.state.jobs == (if e.raised then st.jobs else st.jobs + 1)
            && e.state.next[task] == (if success then NextTimes(s, t.now)[task] else st.next[task])
            && (success <==> RanBetween(st, e.state, task))
            && Records(st, e.state, t.now, 0)
  {
    FromExactly(s, st, t, 0);
    FromRecords(s, st, t, 0);
    var due := DueTasks(s, st, t.now);
    forall k | 0 <= k < 5
      ensures due[k] <==> Due(s, st, k, t.now)
    {
      DueAsWritten(s, st, t.now, k);
    }
    assert Cut(s, st, t, 0, TASKS) <==> exists k :: 0 <= k < 5 && due[k] && t.raises[k];
    assert Cut(s, st, t, 0, task) <==> exists k :: 0 <= k < task && due[k] && t.raises[k];
    IntervalAsWritten(s, t.now, task);
  }

  lemma DueAsWritten(s: Settings, st: State, now: real, task: nat)
    requires WellFormed(st) && task < 5
    ensures Due(s, st, task, now) <==> DueTasks(s, st, now)[task]
  {
  }

  lemma IntervalAsWritten(s: Settings, now: real, task: nat)
    requires task < 5
    ensures now + Interval(s, task) as real == NextTimes(s, now)[task]
  {
  }

  /** An iteration ends with every enabled timer in the future exactly when no due task raises. */
  lemma QuietExactly(s: Settings, st: State, t: Tick)
    requires WellFormed(st) && WellFormedTick(t)
    ensures (forall task :: 0 <= task < TASKS && Enabled(s, task) ==> Iteration(s, st, t).state.next[task] > t.now)
            <==> !Cut(s, st, t, 0, TASKS)
  {
    FromExactly(s, st, t, 0);
    var r := Iteration(s, st, t).state;
    if Cut(s, st, t, 0, TASKS) {
      var k :| 0 <= k < TASKS && Due(s, st, k, t.now) && t.raises[k];
      assert r.next[k] <= t.now;
    } else {
      forall task | 0 <= task < TASKS && Enabled(s, task)
        ensures r.next[task] > t.now
      {
        assert Due(s, st, task, t.now) ==> Succeeds(s, st, t, 0, task);
      }
    }
  }

  // ----- what a run gets done ---------------------------------------------------------

  /** The queue is not reached, or raises, in the iteration that follows the first `n`. */
  ghost predicate Starved(s: Settings, st: State, ticks: seq<Tick>, n: nat)
    requires WellFormed(st) && n < |ticks| && AllWellFormed(ticks)
  {
    ticks[n].raises[TASKS] || Cut(s, RunAll(s, st, ticks[..n]), ticks[n], 0, TASKS)
  }

  /** The task succeeds in the iteration that follows the first `n`. */
  ghost predicate SucceedsAt(s: Settings, st: State, ticks: seq<Tick>, n: nat, task: nat)
    requires WellFormed(st) && n < |ticks| && AllWellFormed(ticks) && task < TASKS
  {
    Succeeds(s, RunAll(s, st, ticks[..n]), ticks[n], 0, task)
  }

  /** Over a whole run from any state: the queue is never processed exactly when every iteration starves it. */
  lemma {:induction false} QueueStarvesExactly(s: Settings, st: State, ticks: seq<Tick>)
    requires WellFormed(st) && AllWellFormed(ticks)
    ensures RunAll(s, st, ticks).jobs >= st.jobs
    ensures RunAll(s, st, ticks).jobs == st.jobs <==> forall n :: 0 <= n < |ticks| ==> Starved(s, st, ticks, n)
  {
    if ticks != [] {
      var last := |ticks| - 1;
      var front := ticks[..last];
      var before, after := RunAll(s, st, front), RunAll(s, st, ticks);
      QueueStarvesExactly(s, st, front);
      IterationExactly(s, before, ticks[last], 0);
      assert after == Iteration(s, before, ticks[last]).state;
      assert after.jobs == if Starved(s, st, ticks, last) then before.jobs else before.jobs + 1;
      hide Iteration, Cut, RunAll;
      forall n | 0 <= n < last
        ensures Starved(s, st, front, n) <==> Starved(s, st, ticks, n)
      {
        assert front[..n] == ticks[..n];
      }
    }
  }

  lemma RanBetweenJoins(a: State, b: State, c: State, task: nat)
    requires a.runs <= b.runs <= c.runs
    ensures RanBetween(a, c, task) <==> RanBetween(a, b, task) || RanBetween(b, c, task)
  {
    assert forall i :: 0 <= i < |b.runs| ==> c.runs[i] == b.runs[i];
  }

  lemma {:induction false} LastIteration(s: Settings, st: State, ticks: seq<Tick>, task: nat)
    requires WellFormed(st) && AllWellFormed(ticks) && task < TASKS && ticks != []
    ensures var before, after := RunAll(s, st, ticks[..|ticks| - 1]), RunAll(s, st, ticks);
            && before.runs <= after.runs
            && (RanBetween(before, after, task) <==> SucceedsAt(s, st, ticks, |ticks| - 1, task))
  {
    FromExactly(s, RunAll(s, st, ticks[..|ticks| - 1]), ticks[|ticks| - 1], 0);
  }

  lemma SucceedsInFront(s: Settings, st: State, ticks: seq<Tick>, last: nat, n: nat, task: nat)
    requires WellFormed(st) && AllWellFormed(ticks) && task < TASKS && n < last <= |ticks|
    ensures SucceedsAt(s, st, ticks[..last], n, task) <==> SucceedsAt(s, st, ticks, n, task)
  {
    hide RunAll, Succeeds;
    assert ticks[..last][..n] == ticks[..n];
  }

  /** Over a whole run from any state: a task never succeeds exactly when no iteration lets it. */
  lemma {:induction false} TaskStarvesExactly(s: Settings, st: State, ticks: seq<Tick>, task: nat)
    requires WellFormed(st) && AllWellFormed(ticks) && task < TASKS
    ensures st.runs <= RunAll(s, st, ticks).runs
    ensures !RanBetween(st, RunAll(s, st, ticks), task)
            <==> forall n :: 0 <= n < |ticks| ==> !SucceedsAt(s, st, ticks, n, task)
  {
    if ticks != [] {
      TaskStarvesExactly(s, st, ticks[..|ticks| - 1], task);
      hide SucceedsAt, Iteration, RanBetween;
      OneMoreIteration(s, st, ticks, task);
    }
  }

  lemma OneMoreIteration(s: Settings, st: State, ticks: seq<Tick>, task: nat)
    requires WellFormed(st) && AllWellFormed(ticks) && task < TASKS && ticks != []
    requires var front := ticks[..|ticks| - 1];
             && st.runs <= RunAll(s, st, front).runs
             && (!RanBetween(st, RunAll(s, st, front), task)
                 <==> forall n :: 0 <= n < |front| ==> !SucceedsAt(s, st, front, n, task))
    ensures st.runs <= RunAll(s, st, ticks).runs
    ensures !RanBetween(st, RunAll(s, st, ticks), task)
            <==> forall n :: 0 <= n < |ticks| ==> !SucceedsAt(s, st, ticks, n, task)
  {
    hide RunAll, Iteration, SucceedsAt, RanBetween, Due;
    var last := |ticks| - 1;
    LastIteration(s, st, ticks, task);
    RanBetweenJoins(st, RunAll(s, st, ticks[..last]), RunAll(s, st, ticks), task);
    forall n | 0 <= n < last
      ensures SucceedsAt(s, st, ticks[..last], n, task) <==> SucceedsAt(s, st, ticks, n, task)
    {
      SucceedsInFront(s, st, ticks, last, n, task);
    }
  }

  /**
   * Until a task has succeeded its timer stands as it did at the start: it is due whenever it is enabled and the clock
   * is not negative, and retention whenever ten minutes have passed.
   */
  lemma {:induction false} FirstDueExactly(s: Settings, started: real, ticks: seq<Tick>, task: nat, now: real)
    requires AllWellFormed(ticks) && task < 5
    requires !RanBetween(Start(started), RunAll(s, Start(started), ticks), task)
    ensures var r := RunAll(s, Start(started), ticks);
            && r.next[task] == (if task == 4 then started + 600.0 else 0.0)
            && (Due(s, r, task, now) <==>
                  if task == 4 then now - started >= 600.0
                  else now >= 0.0 && [s.aiHealthcheck, s.cameraPoll, s.mediaCleanup, s.systemMetrics][task] > 0)
  {
    if ticks != [] {
      var last := |ticks| - 1;
      var before := RunAll(s, Start(started), ticks[..last]);
      TaskStarvesExactly(s, Start(started), ticks, task);
      TaskStarvesExactly(s, Start(started), ticks[..last], task);
      forall n | 0 <= n < last
        ensures !SucceedsAt(s, Start(started), ticks[..last], n, task)
      {
        SucceedsInFront(s, Start(started), ticks, last, n, task);
      }
      assert !SucceedsAt(s, Start(started), ticks, last, task);
      FirstDueExactly(s, started, ticks[..last], task, now);
      IterationExactly(s, before, ticks[last], task);
    }
  }

  // ----- one task that keeps raising ------------------------------------------------------

  /** A task that raises every time never succeeds, so its timer never moves. */
  lemma {:induction false} RaisingTaskStays(s: Settings, st: State, ticks: seq<Tick>, task: nat)
    requires WellFormed(st) && AllWellFormed(ticks) && task < TASKS
    requires forall i :: 0 <= i < |ticks| ==> ticks[i].raises[task]
    ensures RunAll(s, st, ticks).next[task] == st.next[task]
  {
    if ticks != [] {
      var last := |ticks| - 1;
      RaisingTaskStays(s, st, ticks[..last], task);
      assert ticks[last].raises[task];
      IterationExactly(s, RunAll(s, st, ticks[..last]), ticks[last], task);
    }
  }

  /**
   * The loop survives a task that raises every time, but from any state on, while that task is due no later task
   * succeeds and the job queue is not processed.
   */
  lemma {:induction false} RaisingTaskBlocksTheRest(s: Settings, st: State, ticks: seq<Tick>, task: nat, later: nat)
    requires WellFormed(st) && AllWellFormed(ticks) && task < TASKS
    requires forall i :: 0 <= i < |ticks| ==> ticks[i].raises[task] && Due(s, st, task, ticks[i].now)
    ensures RunAll(s, st, ticks).jobs == st.jobs
    ensures task <= later < TASKS ==> !RanBetween(st, RunAll(s, st, ticks), later)
  {
    forall n | 0 <= n < |ticks|
      ensures Starved(s, st, ticks, n)
      ensures task <= later < TASKS ==> !SucceedsAt(s, st, ticks, n, later)
    {
      RaisingTaskStays(s, st, ticks[..n], task);
      assert Due(s, RunAll(s, st, ticks[..n]), task, ticks[n].now);
    }
    QueueStarvesExactly(s, st, ticks);
    if task <= later < TASKS {
      TaskStarvesExactly(s, st, ticks, later);
    }
  }

  /** When that task is the only call that raises, the queue starves exactly when the task is due in every iteration. */
  lemma {:induction false} OneRaisingTaskStarvesExactly(s: Settings, st: State, ticks: seq<Tick>, task: nat)
    requires WellFormed(st) && AllWellFormed(ticks) && task < TASKS
    requires forall i, k :: 0 <= i < |ticks| && 0 <= k <= TASKS ==> (ticks[i].raises[k] <==> k == task)
    ensures RunAll(s, st, ticks).jobs == st.jobs <==> forall i :: 0 <= i < |ticks| ==> Due(s, st, task, ticks[i].now)
  {
    forall n | 0 <= n < |ticks|
      ensures Starved(s, st, ticks, n) <==> Due(s, st, task, ticks[n].now)
    {
      RaisingTaskStays(s, st, ticks[..n], task);
      assert ticks[n].raises[task];
    }
    QueueStarvesExactly(s, st, ticks);
  }

  /** `n` iterations, one a second, in each of which the health check is the one call that would raise. */
  function FailingHealthchecks(started: real, n: nat): (ticks: seq<Tick>)
    ensures AllWellFormed(ticks)
  {
    seq(n, i => Tick(started + i as real, [true, false, false, false, false, false]))
  }

  /** However long that goes on, no task has succeeded since the start and the queue has never been processed. */
  lemma {:induction false} FailingHealthcheckStopsAll(s: Settings, started: real, n: nat)
    requires s.aiHealthcheck > 0 && started >= 0.0
    ensures var r := RunAll(s, Start(started), FailingHealthchecks(started, n));
            r.jobs == 0 && forall task :: 0 <= task < TASKS ==> !RanBetween(Start(started), r, task)
  {
    var ticks := FailingHealthchecks(started, n);
    forall task | 0 <= task < TASKS
      ensures !RanBetween(Start(started), RunAll(s, Start(started), ticks), task)
    {
      RaisingTaskBlocksTheRest(s, Start(started), ticks, AI, task);
    }
    RaisingTaskBlocksTheRest(s, Start(started), ticks, AI, AI);
  }
}
