/** The collector's main loop: sample, buffer, flush, put back what a failed flush did not acknowledge. */
module Collector {
  import opened Prelude
  import opened Rollup
  import opened MetricsStore

  datatype Settings = Settings(sampleInterval: int, flushInterval: int, policy: Policy, config: Config)

  predicate ValidSettings(s: Settings) {
    1 <= s.sampleInterval <= s.flushInterval
  }

  /** How a flush can end: acknowledged, failed before the commit, or committed with the answer lost (a timeout). */
  datatype Outcome = Acknowledged | Rejected | CommittedUnacknowledged

  /** What the environment answers during one iteration; `query` is None when sampling raised. */
  datatype Tick = Tick(query: Option<seq<Sample>>, checkedAt: real, outcome: Outcome, dbNow: int, flushedAt: real)

  /** One committed transaction: it carried the samples taken from position `lo` up to `hi`. */
  datatype Commit = Commit(lo: nat, hi: nat, acknowledged: bool)

  /** The loop's variables and the tables, with the history of samples taken and transactions committed. */
  datatype State = State(
    buffer: seq<Sample>,
    nextFlush: real,
    tables: Tables,
    clock: int,
    taken: seq<Sample>,
    log: seq<Commit>)

  // ----- the loop body -------------------------------------------------------

  function BufferLimit(s: Settings): int
    requires ValidSettings(s)
  {
    var perFlush := s.flushInterval / s.sampleInterval;
    (if perFlush > 1 then perFlush else 1) * 4
  }

  predicate FlushDue(s: Settings, buffer: seq<Sample>, nextFlush: real, checkedAt: real)
    requires ValidSettings(s)
  {
    buffer != [] && (checkedAt >= nextFlush || |buffer| >= BufferLimit(s))
  }

  function Sampled(st: State, t: Tick): State {
    var rows := t.query.GetOr([]);
    st.(buffer := st.buffer + rows, taken := st.taken + rows)
  }

  predicate WellFormed(st: State) {
    |st.buffer| <= |st.taken| && WellKeyed(st.tables.rollups)
  }

  /** The flush itself: the whole buffer is sent, and stays in the buffer unless it was acknowledged. */
  function FlushedState(s: Settings, st: State, outcome: Outcome, dbNow: int): State
    requires WellFormed(st)
  {
    if outcome.Rejected? then st
    else
      st.(
        buffer := if outcome.Acknowledged? then [] else st.buffer,
        tables := Flushed(s.config, s.policy, st.tables, st.buffer, dbNow),
        clock := dbNow,
        log := st.log + [Commit(|st.taken| - |st.buffer|, |st.taken|, outcome.Acknowledged?)])
  }

  function Next(s: Settings, st: State, t: Tick): (r: State)
    requires ValidSettings(s) && WellFormed(st)
    ensures WellFormed(r)
  {
    var sampled := Sampled(st, t);
    if FlushDue(s, sampled.buffer, st.nextFlush, t.checkedAt) then
      FlushedState(s, sampled, t.outcome, t.dbNow).(nextFlush := t.flushedAt + s.flushInterval as real)
    else sampled
  }

  function RunAll(s: Settings, st: State, ticks: seq<Tick>): (r: State)
    requires ValidSettings(s) && WellFormed(st)
    ensures WellFormed(r)
  {
    if ticks == [] then st else Next(s, RunAll(s, st, ticks[..|ticks| - 1]), ticks[|ticks| - 1])
  }

  /**
   * After the loop the rest of the buffer is flushed once; a failure there ends the process with an exception. The buffer
   * variable is not cleared.
   */
  function Stopped(s: Settings, st: State, outcome: Outcome, dbNow: int): State
    requires WellFormed(st)
  {
    if st.buffer == [] then st else FlushedState(s, st, outcome, dbNow).(buffer := st.buffer)
  }

  function Start(nextFlush: real, clock: int): State {
    State([], nextFlush, Tables([], map[]), clock, [], [])
  }

  class Collector {
    const settings: Settings
    const database: Database
    var buffer: seq<Sample>
    var nextFlush: real
    ghost var clock: int
    ghost var taken: seq<Sample>
    ghost var log: seq<Commit>

    ghost predicate Valid()
      reads this, database
    {
      ValidSettings(settings) && database.Valid() && WellFormed(View())
    }

    ghost function View(): State
      reads this, database
    {
      State(buffer, nextFlush, database.View(), clock, taken, log)
    }

    constructor (settings: Settings, started: real, ghost clock: int)
      requires ValidSettings(settings)
      ensures Valid() && fresh(database) && this.settings == settings
      ensures View() == Start(started + settings.flushInterval as real, clock)
    {
      this.settings := settings;
      database := new Database();
      buffer, nextFlush := [], started + settings.flushInterval as real;
      this.clock, taken, log := clock, [], [];
    }

    /** Sends `samples` to the database; false stands for the exception `_flush_samples` raises. */
    method Send(samples: seq<Sample>, outcome: Outcome, dbNow: int) returns (acknowledged: bool)
      requires Valid() && samples != [] && |samples| <= |taken|
      modifies database, this`clock, this`log
      ensures acknowledged == outcome.Acknowledged?
      ensures database.Valid()
      ensures outcome.Rejected? ==> View() == old(View())
      ensures !outcome.Rejected? ==>
        && database.View() == Flushed(settings.config, settings.policy, old(database.View()), samples, dbNow)
        && clock == dbNow
        && log == old(log) + [Commit(|taken| - |samples|, |taken|, acknowledged)]
    {
      acknowledged := outcome.Acknowledged?;
      if !outcome.Rejected? {
        database.Flush(settings.config, settings.policy, samples, dbNow);
        clock, log := dbNow, log + [Commit(|taken| - |samples|, |taken|, acknowledged)];
      }
    }

    /** One iteration of the loop. */
    method Iterate(t: Tick)
      requires Valid()
      modifies this, database
      ensures Valid() && View() == Next(settings, old(View()), t)
    {
      hide Flushed;
      if t.query.Some? {
        buffer := buffer + t.query.value;
        taken := taken + t.query.value;
      } else {
        assert buffer == buffer + [] && taken == taken + [];
      }
      if FlushDue(settings, buffer, nextFlush, t.checkedAt) {
        var toFlush := buffer;
        buffer := [];
        var acknowledged := Send(toFlush, t.outcome, t.dbNow);
        if !acknowledged {
          buffer := toFlush + buffer;
          assert buffer == toFlush;
        }
        nextFlush := t.flushedAt + settings.flushInterval as real;
      }
    }

    /** The whole run: iterate until asked to stop, then flush what is left; false stands for a failed last flush. */
    method Run(ticks: seq<Tick>, lastOutcome: Outcome, lastNow: int) returns (clean: bool)
      requires Valid()
      modifies this, database
      ensures var looped := RunAll(settings, old(View()), ticks);
              && (clean <==> looped.buffer == [] || lastOutcome.Acknowledged?)
              && View() == Stopped(settings, looped, lastOutcome, lastNow)
    {
      hide Next, Flushed;
      for n := 0 to |ticks|
        invariant Valid() && View() == RunAll(settings, old(View()), ticks[..n])
      {
        Iterate(ticks[n]);
        assert ticks[..n + 1][..n] == ticks[..n];
      }
      assert ticks[..|ticks|] == ticks;
      clean := true;
      if buffer != [] {
        clean := Send(buffer, lastOutcome, lastNow);
      }
    }
  }

  // ----- when an iteration flushes -----------------------------------------------------

  /** The two triggers: there is something to send, and its time has come or four intervals' worth has piled up. */
  ghost predicate Triggered(s: Settings, buffer: seq<Sample>, nextFlush: real, checkedAt: real)
    requires ValidSettings(s)
  {
    var perInterval := s.flushInterval / s.sampleInterval;
    |buffer| > 0 && (nextFlush <= checkedAt || 4 * (if perInterval < 1 then 1 else perInterval) <= |buffer|)
  }

  /**
   * What one iteration does to every part of the state. It flushes exactly when triggered; then everything buffered is
   * sent, and the next flush is due one interval later whatever became of this one. Otherwise it only buffers.
   */
  lemma IterationExactly(s: Settings, st: State, t: Tick)
    requires ValidSettings(s) && WellFormed(st)
    ensures var all := st.buffer + if t.query.Some? then t.query.value else [];
            var r := Next(s, st, t);
            && r.taken == st.taken + (if t.query.Some? then t.query.value else [])
            && (Triggered(s, all, st.nextFlush, t.checkedAt) ==>
                  && r.nextFlush == t.flushedAt + s.flushInterval as real
                  && r.buffer == (if t.outcome.Acknowledged? then [] else all)
                  && (t.outcome.Rejected? ==> r.log == st.log && r.tables == st.tables && r.clock == st.clock)
                  && (!t.outcome.Rejected? ==>
                        && r.log == st.log + [Commit(|r.taken| - |all|, |r.taken|, t.outcome.Acknowledged?)]
                        && r.tables == Flushed(s.config, s.policy, st.tables, all, t.dbNow)
                        && r.clock == t.dbNow))
            && (!Triggered(s, all, st.nextFlush, t.checkedAt) ==>
                  && r.buffer == all && r.nextFlush == st.nextFlush
                  && r.log == st.log && r.tables == st.tables && r.clock == st.clock)
  {
    hide Flushed;
    assert st.buffer + [] == st.buffer && st.taken + [] == st.taken;
  }

  // ----- what the log says about the samples taken ----------------------------------

  /** How many of the samples taken are covered by acknowledged commits. */
  function Acked(log: seq<Commit>): nat {
    if log == [] then 0
    else if log[|log| - 1].acknowledged then log[|log| - 1].hi
    else Acked(log[..|log| - 1])
  }

  /** Every commit starts where the acknowledged ones before it end, and carries at least one sample. */
  ghost predicate Tiles(log: seq<Commit>, limit: nat) {
    log == [] ||
    var last := log[|log| - 1];
    var front := log[..|log| - 1];
    last.lo == Acked(front) && last.lo < last.hi <= limit && Tiles(front, limit)
  }

  /** Everything the database committed, in commit order. */
  function Replay(taken: seq<Sample>, log: seq<Commit>): seq<Sample>
    requires Tiles(log, |taken|)
  {
    if log == [] then []
    else Replay(taken, log[..|log| - 1]) + taken[log[|log| - 1].lo..log[|log| - 1].hi]
  }

  /** The part of it that came from commits whose answer was lost, and that was therefore sent again. */
  function Repeated(taken: seq<Sample>, log: seq<Commit>): seq<Sample>
    requires Tiles(log, |taken|)
  {
    if log == [] then []
    else
      var last := log[|log| - 1];
      var rest := Repeated(taken, log[..|log| - 1]);
      if last.acknowledged then rest else rest + taken[last.lo..last.hi]
  }

  lemma {:induction false} AckedInRange(log: seq<Commit>, limit: nat)
    requires Tiles(log, limit)
    ensures Acked(log) <= limit
  {
  }

  lemma {:induction false} ReplayLast(taken: seq<Sample>, log: seq<Commit>)
    requires Tiles(log, |taken|) && log != []
    ensures var last := log[|log| - 1];
            Replay(taken, log) == Replay(taken, log[..|log| - 1]) + taken[last.lo..last.hi]
  {
  }

  /** The acknowledged samples are committed once each, besides the repeated ones. */
  lemma {:induction false} ReplayCovers(taken: seq<Sample>, log: seq<Commit>)
    requires Tiles(log, |taken|)
    ensures Acked(log) <= |taken|
    ensures multiset(Replay(taken, log)) == multiset(taken[..Acked(log)]) + multiset(Repeated(taken, log))
  {
    if log != [] {
      var last := log[|log| - 1];
      ReplayCovers(taken, log[..|log| - 1]);
      hide Replay;
      assert taken[..last.hi] == taken[..last.lo] + taken[last.lo..last.hi];
      assert Replay(taken, log) == Replay(taken, log[..|log| - 1]) + taken[last.lo..last.hi] by {
        ReplayLast(taken, log);
      }
    }
  }

  predicate AllAcknowledged(log: seq<Commit>) {
    forall i :: 0 <= i < |log| ==> log[i].acknowledged
  }

  /** With no answer lost, the committed samples are exactly the acknowledged ones, in order. */
  lemma {:induction false} ReplayExact(taken: seq<Sample>, log: seq<Commit>)
    requires Tiles(log, |taken|) && AllAcknowledged(log)
    ensures Acked(log) <= |taken| && Replay(taken, log) == taken[..Acked(log)]
  {
    if log != [] {
      var last := log[|log| - 1];
      ReplayExact(taken, log[..|log| - 1]);
      assert taken[..last.hi] == taken[..last.lo] + taken[last.lo..last.hi];
    }
  }

  /** Samples taken later do not change what was committed. */
  lemma {:induction false} ReplayOfLonger(taken: seq<Sample>, more: seq<Sample>, log: seq<Commit>)
    requires Tiles(log, |taken|)
    ensures Tiles(log, |taken + more|) && Replay(taken + more, log) == Replay(taken, log)
  {
    if log != [] {
      var last := log[|log| - 1];
      ReplayOfLonger(taken, more, log[..|log| - 1]);
      assert (taken + more)[last.lo..last.hi] == taken[last.lo..last.hi];
    }
  }

  // ----- the invariant of the loop ------------------------------------------------------

  /** The tables aggregate what was committed. */
  ghost predicate Sound(s: Settings, st: State) {
    && Tiles(st.log, |st.taken|)
    && Tracks(s.config, s.policy, st.tables, Replay(st.taken, st.log), st.clock)
  }

  /** And, while the loop is running, the buffer is what is taken and not acknowledged. */
  ghost predicate Inv(s: Settings, st: State) {
    && WellFormed(st)
    && Sound(s, st)
    && Acked(st.log) == |st.taken| - |st.buffer|
    && st.buffer == st.taken[Acked(st.log)..]
  }

  lemma StartInv(s: Settings, nextFlush: real, clock: int)
    ensures Inv(s, Start(nextFlush, clock))
  {
  }

  lemma SampledInv(s: Settings, st: State, t: Tick)
    requires Inv(s, st)
    ensures Inv(s, Sampled(st, t))
  {
    hide Tracks, WellKeyed;
    var rows := t.query.GetOr([]);
    AckedInRange(st.log, |st.taken|);
    ReplayOfLonger(st.taken, rows, st.log);
    assert (st.taken + rows)[Acked(st.log)..] == st.taken[Acked(st.log)..] + rows;
  }

  lemma FlushInv(s: Settings, st: State, outcome: Outcome, dbNow: int)
    requires Rounds(s.config) && Inv(s, st) && st.buffer != [] && st.clock <= dbNow
    ensures Inv(s, FlushedState(s, st, outcome, dbNow))
  {
    hide Tracks, Flushed, WellKeyed;
    if !outcome.Rejected? {
      var r := FlushedState(s, st, outcome, dbNow);
      assert r.log[..|r.log| - 1] == st.log;
      assert st.taken[Acked(st.log)..|st.taken|] == st.buffer;
      FlushTracks(s.config, s.policy, st.tables, Replay(st.taken, st.log), st.clock, st.buffer, dbNow);
    }
  }

  /** The database clock never goes back over the run. */
  ghost predicate ClockForward(ticks: seq<Tick>, since: int) {
    && (forall i :: 0 <= i < |ticks| ==> since <= ticks[i].dbNow)
    && (forall i, j :: 0 <= i < j < |ticks| ==> ticks[i].dbNow <= ticks[j].dbNow)
  }

  /** The invariant holds after every iteration of every run, whatever fails along the way. */
  lemma {:induction false} RunInv(s: Settings, st: State, ticks: seq<Tick>)
    requires ValidSettings(s) && Rounds(s.config) && Inv(s, st) && ClockForward(ticks, st.clock)
    ensures Inv(s, RunAll(s, st, ticks))
    ensures RunAll(s, st, ticks).clock == st.clock
         || exists i :: 0 <= i < |ticks| && RunAll(s, st, ticks).clock == ticks[i].dbNow
  {
    assert WellFormed(st);
    hide Inv, FlushedState, Sampled;
    if ticks != [] {
      var front := ticks[..|ticks| - 1];
      var t := ticks[|ticks| - 1];
      RunInv(s, st, front);
      StepInv(s, RunAll(s, st, front), t);
      assert RunAll(s, st, ticks) == Next(s, RunAll(s, st, front), t);
      assert forall i :: 0 <= i < |front| ==> front[i] == ticks[i];
    }
  }

  lemma StepInv(s: Settings, st: State, t: Tick)
    requires ValidSettings(s) && Rounds(s.config) && Inv(s, st) && st.clock <= t.dbNow
    ensures Inv(s, Next(s, st, t))
    ensures Next(s, st, t).clock in {st.clock, t.dbNow}
  {
    SampledInv(s, st, t);
    var sampled := Sampled(st, t);
    if FlushDue(s, sampled.buffer, st.nextFlush, t.checkedAt) {
      FlushInv(s, sampled, t.outcome, t.dbNow);
    }
  }

  // ----- main results ---------------------------------------------------------------------

  /** If a failed flush means not committed, then committed samples followed by the buffer are all samples taken, in order. */
  lemma NothingLostOrRepeated(s: Settings, st: State)
    requires Inv(s, st) && AllAcknowledged(st.log)
    ensures Replay(st.taken, st.log) + st.buffer == st.taken
  {
    ReplayExact(st.taken, st.log);
  }

  /** If an answer may be lost after the commit, no sample is lost, and just the unanswered commits are repeated. */
  lemma NothingLost(s: Settings, st: State)
    requires Inv(s, st)
    ensures multiset(Replay(st.taken, st.log)) + multiset(st.buffer)
         == multiset(st.taken) + multiset(Repeated(st.taken, st.log))
  {
    ReplayCovers(st.taken, st.log);
    assert st.taken == st.taken[..Acked(st.log)] + st.buffer;
  }

  lemma {:induction false} NothingRepeatedExactly(taken: seq<Sample>, log: seq<Commit>)
    requires Tiles(log, |taken|)
    ensures Repeated(taken, log) == [] <==> AllAcknowledged(log)
  {
    if log != [] {
      NothingRepeatedExactly(taken, log[..|log| - 1]);
      SplitLast(log);
    }
  }

  /** Committed and buffered together, every sample is there exactly once if and only if every commit was acknowledged. */
  lemma ExactlyOnceExactly(s: Settings, st: State)
    requires Inv(s, st)
    ensures multiset(Replay(st.taken, st.log)) + multiset(st.buffer) == multiset(st.taken) <==> AllAcknowledged(st.log)
    ensures Replay(st.taken, st.log) + st.buffer == st.taken <==> AllAcknowledged(st.log)
  {
    var committed, repeated := Replay(st.taken, st.log), Repeated(st.taken, st.log);
    NothingLost(s, st);
    NothingRepeatedExactly(st.taken, st.log);
    if AllAcknowledged(st.log) {
      NothingLostOrRepeated(s, st);
    } else {
      assert |multiset(repeated)| == |repeated| > 0;
      assert multiset(committed + st.buffer) == multiset(committed) + multiset(st.buffer);
    }
  }

  /**
   * End to end, from empty tables to a clean stop: the hourly rows inside the rollup horizon aggregate what was committed
   * in their hour, and inside the raw horizon as well they recount the stored raw rows; and what was committed is every
   * sample taken, once and in order, if and only if no answer was lost on the way.
   */
  lemma {:induction false} CleanRun(
    s: Settings, nextFlush: real, clock: int, ticks: seq<Tick>, outcome: Outcome, lastNow: int)
    requires ValidSettings(s) && Rounds(s.config) && ClockForward(ticks, clock)
    requires clock <= lastNow && forall i :: 0 <= i < |ticks| ==> ticks[i].dbNow <= lastNow
    ensures var looped := RunAll(s, Start(nextFlush, clock), ticks);
            var end := Stopped(s, looped, outcome, lastNow);
            looped.buffer == [] || outcome.Acknowledged? ==>
              && Sound(s, end)
              && Consistent(s.config, s.policy, end.tables, end.clock)
              && (Replay(end.taken, end.log) == end.taken <==> AllAcknowledged(end.log))
              && multiset(Replay(end.taken, end.log)) == multiset(end.taken) + multiset(Repeated(end.taken, end.log))
  {
    hide Inv, Sound, Next, Flushed, Tracks, Consistent, AllAcknowledged, Stopped;
    var start := Start(nextFlush, clock);
    StartInv(s, nextFlush, clock);
    RunInv(s, start, ticks);
    var looped := RunAll(s, start, ticks);
    StoppedInv(s, looped, outcome, lastNow);
    if looped.buffer == [] || outcome.Acknowledged? {
      CleanEnd(s, Stopped(s, looped, outcome, lastNow));
    }
  }

  /** The last flush keeps the tables sound, and every sample taken is acknowledged afterwards exactly if it is clean. */
  lemma StoppedInv(s: Settings, st: State, outcome: Outcome, lastNow: int)
    requires Rounds(s.config) && Inv(s, st) && st.clock <= lastNow
    ensures var end := Stopped(s, st, outcome, lastNow);
            && Sound(s, end) && end.taken == st.taken && end.buffer == st.buffer
            && (st.buffer == [] || outcome.Acknowledged? <==> Acked(end.log) == |end.taken|)
  {
    if st.buffer != [] {
      FlushInv(s, st, outcome, lastNow);
    }
  }

  lemma CleanEnd(s: Settings, end: State)
    requires Sound(s, end) && Acked(end.log) == |end.taken|
    ensures Consistent(s.config, s.policy, end.tables, end.clock)
    ensures Replay(end.taken, end.log) == end.taken <==> AllAcknowledged(end.log)
    ensures multiset(Replay(end.taken, end.log)) == multiset(end.taken) + multiset(Repeated(end.taken, end.log))
  {
    hide Tracks, Consistent;
    var committed := Replay(end.taken, end.log);
    assert end.taken[..|end.taken|] == end.taken;
    TracksIsConsistent(s.config, s.policy, end.tables, committed, end.clock);
    ReplayCovers(end.taken, end.log);
    NothingRepeatedExactly(end.taken, end.log);
    if AllAcknowledged(end.log) {
      ReplayExact(end.taken, end.log);
    } else {
      assert |multiset(Repeated(end.taken, end.log))| > 0;
    }
  }

  // ----- which samples are committed at all ---------------------------------------------

  /** Some commit, acknowledged or not, carried the sample taken at position `i`. */
  ghost predicate Committed(log: seq<Commit>, i: int) {
    exists k :: 0 <= k < |log| && log[k].lo <= i < log[k].hi
  }

  ghost predicate AllCommitted(log: seq<Commit>, n: nat) {
    forall i :: 0 <= i < n ==> Committed(log, i)
  }

  /** Some commit carried everything taken by then up to the last sample. */
  ghost predicate ReachesEnd(log: seq<Commit>, n: nat) {
    exists k :: 0 <= k < |log| && log[k].hi == n
  }

  lemma CommittedInLonger(log: seq<Commit>, n: nat, i: int)
    requires n <= |log| && Committed(log[..n], i)
    ensures Committed(log, i)
  {
    var k :| 0 <= k < n && log[..n][k].lo <= i < log[..n][k].hi;
    assert log[k] == log[..n][k];
  }

  /** Every acknowledged sample is committed. */
  lemma {:induction false} AckedIsCommitted(log: seq<Commit>, limit: nat, i: nat)
    requires Tiles(log, limit) && i < Acked(log)
    ensures Committed(log, i)
  {
    var n := |log| - 1;
    if log[n].acknowledged && log[n].lo <= i {
      assert log[n].lo <= i < log[n].hi;
    } else {
      AckedIsCommitted(log[..n], limit, i);
      CommittedInLonger(log, n, i);
    }
  }

  /** A commit starts where the samples acknowledged before it end, so all samples below its end are committed. */
  lemma {:induction false} BelowIsCommitted(log: seq<Commit>, limit: nat, k: nat, i: nat)
    requires Tiles(log, limit) && k < |log| && i < log[k].hi
    ensures log[k].hi <= limit && Committed(log, i)
  {
    var n := |log| - 1;
    if k < n {
      assert log[..n][k] == log[k];
      BelowIsCommitted(log[..n], limit, k, i);
      CommittedInLonger(log, n, i);
    } else if i < log[n].lo {
      AckedIsCommitted(log[..n], limit, i);
      CommittedInLonger(log, n, i);
    }
  }

  /** Every sample is committed exactly if there is none, or some commit reached the end. */
  lemma {:induction false} AllCommittedExactly(log: seq<Commit>, limit: nat)
    requires Tiles(log, limit)
    ensures AllCommitted(log, limit) <==> limit == 0 || ReachesEnd(log, limit)
  {
    if limit > 0 && AllCommitted(log, limit) {
      assert Committed(log, limit - 1);
      var k :| 0 <= k < |log| && log[k].lo <= limit - 1 < log[k].hi;
      BelowIsCommitted(log, limit, k, limit - 1);
      assert log[k].hi == limit;
    }
    if ReachesEnd(log, limit) {
      var k :| 0 <= k < |log| && log[k].hi == limit;
      forall i | 0 <= i < limit
        ensures Committed(log, i)
      {
        BelowIsCommitted(log, limit, k, i);
      }
    }
  }

  /**
   * At the stop every sample taken is committed exactly if nothing was left to flush, the last flush was not rejected, or
   * an earlier one whose answer was lost had carried the last sample already.
   */
  lemma StoppedCommitsExactly(s: Settings, st: State, outcome: Outcome, lastNow: int)
    requires Rounds(s.config) && Inv(s, st) && st.clock <= lastNow
    ensures AllCommitted(Stopped(s, st, outcome, lastNow).log, |st.taken|)
            <==> st.buffer == [] || !outcome.Rejected? || ReachesEnd(st.log, |st.taken|)
  {
    var end := Stopped(s, st, outcome, lastNow);
    StoppedInv(s, st, outcome, lastNow);
    hide Tracks, Flushed;
    AllCommittedExactly(end.log, |st.taken|);
    if st.buffer == [] {
      forall i | 0 <= i < |st.taken|
        ensures Committed(st.log, i)
      {
        AckedIsCommitted(st.log, |st.taken|, i);
      }
    } else if !outcome.Rejected? {
      assert end.log[|st.log|].hi == |st.taken|;
    }
  }

  // ----- one sample committed twice ---------------------------------------------------------

  /**
   * A run of two iterations: the first flush is committed and its answer lost, the second is acknowledged. The one
   * sample taken is then stored twice, and counted twice in its hourly row.
   */
  lemma {:induction false} OneSampleTwice(s: Settings, x: Sample, nextFlush: real, clock: int)
    requires ValidSettings(s) && Rounds(s.config)
    requires s.policy.rawRetention >= 3_600_000_000 && s.policy.rollupRetention >= 3_600_000_000
    requires clock <= x.sampledAt
    ensures var now := x.sampledAt;
            var lost := Tick(Some([x]), nextFlush, CommittedUnacknowledged, now, nextFlush);
            var later := nextFlush + s.flushInterval as real;
            var sent := Tick(Some([]), later, Acknowledged, now, later);
            var end := RunAll(s, Start(nextFlush, clock), [lost, sent]);
            && end.taken == [x] && end.buffer == []
            && end.log == [Commit(0, 1, false), Commit(0, 1, true)]
            && end.tables.raw == [x, x]
            && KeyOf(x) in end.tables.rollups && end.tables.rollups[KeyOf(x)].count == 2
  {
    var lost := Tick(Some([x]), nextFlush, CommittedUnacknowledged, x.sampledAt, nextFlush);
    var later := nextFlush + s.flushInterval as real;
    var sent := Tick(Some([]), later, Acknowledged, x.sampledAt, later);
    var start, ticks := Start(nextFlush, clock), [lost, sent];
    StartIsFresh(nextFlush, clock);
    hide Next, Flushed, Tracks, Inv, Sound, Start, WellFormed;
    assert ticks[..1] == [lost] && [lost][..0] == [];
    assert RunAll(s, start, [lost]) == Next(s, start, lost);
    assert RunAll(s, start, ticks) == Next(s, Next(s, start, lost), sent);
    hide RunAll;
    FirstLost(s, x, nextFlush, clock);
    ThenSent(s, Next(s, start, lost), x, later);
    StartInv(s, nextFlush, clock);
    RunInv(s, start, ticks);
    TwoCommits(x);
    StoredTwice(s, RunAll(s, start, ticks), x);
  }

  lemma StartIsFresh(nextFlush: real, clock: int)
    ensures WellFormed(Start(nextFlush, clock)) && Start(nextFlush, clock).clock == clock
  {
  }

  lemma FirstLost(s: Settings, x: Sample, nextFlush: real, clock: int)
    requires ValidSettings(s)
    ensures var st := Next(s, Start(nextFlush, clock),
                           Tick(Some([x]), nextFlush, CommittedUnacknowledged, x.sampledAt, nextFlush));
            && st.taken == [x] && st.buffer == [x] && st.log == [Commit(0, 1, false)]
            && st.nextFlush == nextFlush + s.flushInterval as real
  {
    hide Flushed;
    assert [] + [x] == [x];
  }

  lemma ThenSent(s: Settings, st: State, x: Sample, later: real)
    requires ValidSettings(s) && WellFormed(st) && st.nextFlush == later
    requires st.taken == [x] && st.buffer == [x] && st.log == [Commit(0, 1, false)]
    ensures var r := Next(s, st, Tick(Some([]), later, Acknowledged, x.sampledAt, later));
            && r.taken == [x] && r.buffer == [] && r.log == [Commit(0, 1, false), Commit(0, 1, true)]
            && r.clock == x.sampledAt
  {
    hide Flushed;
    assert [x] + [] == [x];
  }

  lemma StoredTwice(s: Settings, end: State, x: Sample)
    requires Inv(s, end) && end.taken == [x] && end.log == [Commit(0, 1, false), Commit(0, 1, true)]
    requires end.clock == x.sampledAt
    requires s.policy.rawRetention >= 3_600_000_000 && s.policy.rollupRetention >= 3_600_000_000
    ensures end.tables.raw == [x, x]
    ensures KeyOf(x) in end.tables.rollups && end.tables.rollups[KeyOf(x)].count == 2
  {
    TwoCommits(x);
    hide Tracks;
    TwoOfOne(s, end, x);
  }

  lemma TwoCommits(x: Sample)
    ensures Tiles([Commit(0, 1, false), Commit(0, 1, true)], 1)
    ensures Replay([x], [Commit(0, 1, false), Commit(0, 1, true)]) == [x, x]
  {
    var log := [Commit(0, 1, false), Commit(0, 1, true)];
    assert log[..1] == [log[0]] && [log[0]][..0] == [];
    assert [x][0..1] == [x];
    assert Replay([x], [log[0]]) == [x];
  }

  lemma TwoOfOne(s: Settings, end: State, x: Sample)
    requires Tracks(s.config, s.policy, end.tables, [x, x], x.sampledAt)
    requires s.policy.rawRetention >= 3_600_000_000 && s.policy.rollupRetention >= 3_600_000_000
    ensures end.tables.raw == [x, x]
    ensures KeyOf(x) in end.tables.rollups && end.tables.rollups[KeyOf(x)].count == 2
  {
    hide Keys, Bucket, KeepRecent, Summarises, KeyOf;
    BucketOfTwo(x, x.sampledAt - s.policy.rawRetention);
    CountIsLength(s.config, end.tables.rollups[KeyOf(x)], [x, x]);
  }

  lemma {:induction false} BucketOfTwo(x: Sample, cutoff: int)
    requires cutoff <= x.sampledAt
    ensures KeyOf(x) in Keys([x, x]) && Bucket([x, x], KeyOf(x)) == [x, x] && KeepRecent([x, x], cutoff) == [x, x]
    ensures KeyOf(x).bucketStart > x.sampledAt - 3_600_000_000
  {
    var k := KeyOf(x);
    assert [] + [x] == [x] && [x] + [x] == [x, x];
    assert Keys([]) == {} && Bucket([], k) == [] && KeepRecent([], cutoff) == [];
    hide Keys, Bucket, KeepRecent;
    BucketOfOneMore([], x, k);
    BucketOfOneMore([x], x, k);
    KeepRecentOfOneMore([], x, cutoff);
    KeepRecentOfOneMore([x], x, cutoff);
  }

  lemma CountIsLength(cfg: Config, row: Row, items: seq<Sample>)
    requires Summarises(cfg, row, items)
    ensures row.count == |items|
  {
  }
}
