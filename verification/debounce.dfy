/** The poll/debounce state machine run by the monitoring loop
    (`MonitorFile::monitor_loop` in monitorfile.cpp), with the thread, the lock
    and the sleeps stripped away: one loop iteration is the pure function
    `Step`, and a run of the loop is `Run`, the fold of `Step` over the
    sequence of observations the loop makes. */
module Debounce {

  import opened MonitorStatus

  /** What one poll sees of the file: missing, or present with its
      last-modification time in integer clock ticks. */
  datatype Observation = Absent | Present(mtime: int)

  /** `change_detected`: Idle until a timestamp newer than the origin is seen. */
  datatype Phase = Idle | Pending

  /** The loop's debounce state: the phase, the origin timestamp (`org_time`),
      the count of stable polls (`stable_checks`) and the timestamp last
      reported to the callback (`last_reported_time`). */
  datatype DebounceState = DebounceState(phase: Phase, origin: int, stableChecks: nat, lastReported: int)

  /** Stable polls needed before a change is confirmed: polls since the last
      newer timestamp that found the file no newer than the origin. Polls that
      find the file missing neither count nor reset the count. */
  const StabilityThreshold: nat := 3

  /** The outcome of one poll: the next debounce state, the statuses stored
      into the shared status during the poll (in order), and whether a change
      was confirmed (the point where the callback, if any, is invoked). */
  datatype StepResult = StepResult(next: DebounceState, stores: seq<MonitorState>, reported: bool)

  /** The state the loop starts in for a file whose timestamp was `origin`
      when monitoring began: nothing pending, and the starting timestamp
      counted as already reported. */
  function Start(origin: int): (d: DebounceState)
    ensures Inv(d) && d.phase == Idle && d.stableChecks == 0
    ensures d.origin == origin && d.lastReported == origin
  {
    DebounceState(Idle, origin, 0, origin)
  }

  /** The status a caller reads after a poll that stored `stores`. */
  function StatusAfter(status: MonitorState, stores: seq<MonitorState>): (s: MonitorState)
    ensures |stores| == 0 ==> s == status
    ensures |stores| > 0 ==> s in stores
  {
    if |stores| == 0 then status else stores[|stores| - 1]
  }

  /** The invariant the loop keeps: the last reported timestamp never exceeds
      the origin, and lies strictly below it while a change is pending. */
  predicate Inv(d: DebounceState)
  {
    && d.lastReported <= d.origin
    && (d.phase == Pending ==> d.lastReported < d.origin)
  }

  /** How far the debounce is along the way to a report: 0 when idle, and one
      more than the stable count once a change is pending. */
  function Progress(d: DebounceState): (p: nat)
    ensures p == 0 <==> d.phase == Idle
  {
    if d.phase == Idle then 0 else 1 + d.stableChecks
  }

  /** One iteration of the monitoring loop after its wait. */
  function Step(d: DebounceState, obs: Observation): (r: StepResult)
    ensures r.next.origin >= d.origin
    ensures Inv(d) ==> Inv(r.next)
    ensures r.reported <==> r.stores == [FileChanged, Monitoring]
    ensures r.reported ==>
              && obs.Present? && obs.mtime <= d.origin && obs.mtime != d.lastReported
              && r.next.lastReported == obs.mtime
              && Progress(d) >= StabilityThreshold
              && r.next.phase == Idle && r.next.stableChecks == 0
    ensures !r.reported ==> r.next.lastReported == d.lastReported
    ensures !r.reported ==> Progress(r.next) <= Progress(d) + 1
  {
    match obs
    case Absent =>
      StepResult(d, [FileNotFound], false)
    case Present(t) =>
      if d.phase == Idle then
        if t > d.origin then
          StepResult(d.(phase := Pending, origin := t, stableChecks := 0), [], false)
        else
          StepResult(d, [], false)
      else if t > d.origin then
        StepResult(d.(origin := t, stableChecks := 0), [], false)
      else
        var checks := d.stableChecks + 1;
        if checks >= StabilityThreshold && t != d.lastReported then
          StepResult(DebounceState(Idle, d.origin, 0, t), [FileChanged, Monitoring], true)
        else
          StepResult(d.(stableChecks := checks), [], false)
  }

  /** The outcome of a run of polls: the final debounce state, the status a
      caller reads at the end, and the timestamps reported, in order. */
  datatype RunResult = RunResult(final: DebounceState, status: MonitorState, reports: seq<int>)

  /** The monitoring loop over a sequence of observations, starting from
      debounce state `d` with shared status `status`. */
  function Run(d: DebounceState, status: MonitorState, obs: seq<Observation>): (r: RunResult)
    ensures r.final.origin >= d.origin
    ensures Inv(d) ==> Inv(r.final)
    ensures |r.reports| <= |obs|
    ensures |r.reports| == 0 ==> r.final.lastReported == d.lastReported
    ensures |r.reports| > 0 ==> r.final.lastReported == r.reports[|r.reports| - 1]
    decreases |obs|
  {
    if |obs| == 0 then
      RunResult(d, status, [])
    else
      var s := Step(d, obs[0]);
      var rest := Run(s.next, StatusAfter(status, s.stores), obs[1..]);
      if s.reported then
        RunResult(rest.final, rest.status, [obs[0].mtime] + rest.reports)
      else
        rest
  }

  // ---------------------------------------------------------------------
  // One poll, case by case

  /** A poll that finds the file missing stores FILE_NOT_FOUND and touches
      nothing else: origin, counter, phase and last report stay, nothing is
      reported, and the loop goes on. */
  lemma StepAbsent(d: DebounceState)
    ensures Step(d, Absent).next == d
    ensures Step(d, Absent).stores == [FileNotFound]
    ensures !Step(d, Absent).reported
  {
  }

  /** With nothing pending, a newer timestamp starts a pending change with
      that timestamp as origin and a fresh counter; any other timestamp
      changes nothing. Neither case reports or stores a status. */
  lemma StepIdle(d: DebounceState, t: int)
    requires d.phase == Idle
    ensures var r := Step(d, Present(t));
      && !r.reported && r.stores == []
      && (t > d.origin ==> r.next == DebounceState(Pending, t, 0, d.lastReported))
      && (t <= d.origin ==> r.next == d)
  {
  }

  /** With a change pending: a newer timestamp restarts the count at the new
      origin; otherwise (the timestamp is not newer, including an older one)
      the counter goes up by one, and a report happens exactly when the new
      count reaches the threshold and the timestamp differs from the last
      reported one. A report records the timestamp, leaves the status at
      MONITORING (after passing through FILE_CHANGED), clears the counter and
      returns to Idle; otherwise no status is stored. */
  lemma StepPending(d: DebounceState, status: MonitorState, t: int)
    requires d.phase == Pending
    ensures var r := Step(d, Present(t));
      && (t > d.origin ==> !r.reported && r.stores == [] && r.next == d.(origin := t, stableChecks := 0))
      && (t <= d.origin ==>
            && (r.reported <==> d.stableChecks + 1 >= StabilityThreshold && t != d.lastReported)
            && (r.reported ==> r.next == DebounceState(Idle, d.origin, 0, t) && StatusAfter(status, r.stores) == Monitoring)
            && (!r.reported ==> r.stores == [] && r.next == d.(stableChecks := d.stableChecks + 1)))
  {
  }

  // ---------------------------------------------------------------------
  // Runs of polls

  /** `n` identical observations. */
  function Repeat(o: Observation, n: nat): (r: seq<Observation>)
    ensures |r| == n
    ensures forall i :: 0 <= i < n ==> r[i] == o
  {
    if n == 0 then [] else [o] + Repeat(o, n - 1)
  }

  /** The observations of a file seen present with the timestamps `ts`. */
  function Presents(ts: seq<int>): (r: seq<Observation>)
    ensures |r| == |ts|
    ensures forall i :: 0 <= i < |ts| ==> r[i] == Present(ts[i])
  {
    if |ts| == 0 then [] else [Present(ts[0])] + Presents(ts[1..])
  }

  predicate StrictlyIncreasing(ts: seq<int>)
  {
    forall i, j :: 0 <= i < j < |ts| ==> ts[i] < ts[j]
  }

  /** Running over `a` and then over `b` is running over `a + b`: the loop
      carries nothing from one poll to the next but its state and status. */
  lemma {:induction false} RunAppend(d: DebounceState, status: MonitorState, a: seq<Observation>, b: seq<Observation>)
    ensures var ra := Run(d, status, a);
            var rb := Run(ra.final, ra.status, b);
            Run(d, status, a + b) == RunResult(rb.final, rb.status, ra.reports + rb.reports)
    decreases |a|
  {
    if |a| == 0 {
      assert a + b == b;
    } else {
      assert (a + b)[0] == a[0];
      assert (a + b)[1..] == a[1..] + b;
      var s := Step(d, a[0]);
      RunAppend(s.next, StatusAfter(status, s.stores), a[1..], b);
    }
  }

  /** The same timestamp is never reported twice in a row: the first report
      differs from the timestamp last reported before the run, and each
      report differs from the one before it. */
  lemma {:induction false} RunNeverRepeatsReport(d: DebounceState, status: MonitorState, obs: seq<Observation>)
    ensures var r := Run(d, status, obs);
      && (|r.reports| > 0 ==> r.reports[0] != d.lastReported)
      && (forall i :: 0 <= i < |r.reports| - 1 ==> r.reports[i] != r.reports[i + 1])
    decreases |obs|
  {
    if |obs| > 0 {
      var s := Step(d, obs[0]);
      var rest := Run(s.next, StatusAfter(status, s.stores), obs[1..]);
      RunNeverRepeatsReport(s.next, StatusAfter(status, s.stores), obs[1..]);
      if s.reported {
        var reports := [obs[0].mtime] + rest.reports;
        assert Run(d, status, obs).reports == reports;
        forall i | 0 <= i < |reports| - 1
          ensures reports[i] != reports[i + 1]
        {
          if i > 0 {
            assert reports[i] == rest.reports[i - 1];
          }
        }
      }
    }
  }

  /** The first report of a session is never the timestamp the file had when
      monitoring started. */
  lemma StartTimestampNotReportedFirst(origin: int, status: MonitorState, obs: seq<Observation>)
    ensures var r := Run(Start(origin), status, obs);
      |r.reports| > 0 ==> r.reports[0] != origin
  {
    RunNeverRepeatsReport(Start(origin), status, obs);
  }

  /** The threshold is a lower bound: a run too short to take the debounce
      from where it is through the pending change and three stable polls
      reports nothing. From Idle, at least four polls are needed; after a
      change has just become pending (or has just been superseded), three. */
  lemma {:induction false} TooFewPollsNeverReport(d: DebounceState, status: MonitorState, obs: seq<Observation>)
    requires Progress(d) + |obs| < 1 + StabilityThreshold
    ensures Run(d, status, obs).reports == []
    decreases |obs|
  {
    if |obs| > 0 {
      var s := Step(d, obs[0]);
      TooFewPollsNeverReport(s.next, StatusAfter(status, s.stores), obs[1..]);
    }
  }

  /** The threshold is also reached: once a change is pending with a fresh
      counter, three polls that see a timestamp no newer than the origin and
      different from the last report report it exactly once, on the third,
      and leave the debounce idle and the status MONITORING. */
  lemma ThreeStablePollsReport(d: DebounceState, status: MonitorState, t: int)
    requires d.phase == Pending && d.stableChecks == 0
    requires t <= d.origin && t != d.lastReported
    ensures Run(d, status, Repeat(Present(t), 3))
         == RunResult(DebounceState(Idle, d.origin, 0, t), Monitoring, [t])
  {
    var o := Present(t);
    var obs := Repeat(o, 3);
    assert obs == [o, o, o];
    assert obs[1..] == [o, o] && obs[1..][1..] == [o] && [o][1..] == [];
    var d1 := d.(stableChecks := 1);
    var d2 := d.(stableChecks := 2);
    var done := DebounceState(Idle, d.origin, 0, t);
    assert Step(d, o) == StepResult(d1, [], false);
    assert Step(d1, o) == StepResult(d2, [], false);
    assert Step(d2, o) == StepResult(done, [FileChanged, Monitoring], true);
    assert Run(done, Monitoring, []) == RunResult(done, Monitoring, []);
    assert Run(d2, status, [o]) == RunResult(done, Monitoring, [t]);
    assert Run(d1, status, [o, o]) == RunResult(done, Monitoring, [t]);
  }

  /** A single write that is then left alone: a newer timestamp seen four
      times from Idle is reported once, on the fourth poll, and the status
      ends at MONITORING rather than staying at FILE_CHANGED. */
  lemma SingleWriteReportedOnce(d: DebounceState, status: MonitorState, t: int)
    requires Inv(d) && d.phase == Idle && t > d.origin
    ensures Run(d, status, Repeat(Present(t), 4))
         == RunResult(DebounceState(Idle, t, 0, t), Monitoring, [t])
  {
    var obs := Repeat(Present(t), 4);
    assert obs == [Present(t)] + Repeat(Present(t), 3);
    RunAppend(d, status, [Present(t)], Repeat(Present(t), 3));
    var d1 := DebounceState(Pending, t, 0, d.lastReported);
    assert Run(d, status, [Present(t)]) == RunResult(d1, status, []) by {
      assert [Present(t)][1..] == [];
    }
    ThreeStablePollsReport(d1, status, t);
  }

  /** A burst of writes, each seen with a newer timestamp, keeps the change
      pending with the newest timestamp as origin and reports nothing. */
  lemma {:induction false} BurstKeepsPending(d: DebounceState, status: MonitorState, ts: seq<int>)
    requires |ts| > 0 && StrictlyIncreasing(ts) && ts[0] > d.origin
    ensures var r := Run(d, status, Presents(ts));
      r.reports == [] && r.final == DebounceState(Pending, ts[|ts| - 1], 0, d.lastReported)
    decreases |ts|
  {
    var obs := Presents(ts);
    var s := Step(d, obs[0]);
    assert s.next == DebounceState(Pending, ts[0], 0, d.lastReported) && !s.reported && s.stores == [];
    assert obs[1..] == Presents(ts[1..]);
    if |ts| > 1 {
      BurstKeepsPending(s.next, status, ts[1..]);
    }
  }

  /** Debounce coalesces bursts: however many writes arrive, each newer than
      the last, once the file is then left alone for three polls the change
      is reported exactly once, with the final timestamp. */
  lemma BurstReportedOnce(d: DebounceState, status: MonitorState, ts: seq<int>)
    requires Inv(d) && |ts| > 0 && StrictlyIncreasing(ts) && ts[0] > d.origin
    ensures var last := ts[|ts| - 1];
      Run(d, status, Presents(ts) + Repeat(Present(last), 3)).reports == [last]
  {
    var last := ts[|ts| - 1];
    BurstKeepsPending(d, status, ts);
    var mid := Run(d, status, Presents(ts));
    RunAppend(d, status, Presents(ts), Repeat(Present(last), 3));
    assert Inv(mid.final);
    ThreeStablePollsReport(mid.final, mid.status, last);
  }

  /** While nothing is pending, polls that find the file missing or no newer
      than the origin change neither the debounce state nor anything that is
      reported. */
  lemma {:induction false} IdleQuiescent(d: DebounceState, status: MonitorState, obs: seq<Observation>)
    requires d.phase == Idle
    requires forall i :: 0 <= i < |obs| && obs[i].Present? ==> obs[i].mtime <= d.origin
    ensures Run(d, status, obs).final == d
    ensures Run(d, status, obs).reports == []
    decreases |obs|
  {
    if |obs| > 0 {
      var s := Step(d, obs[0]);
      assert s.next == d && !s.reported;
      IdleQuiescent(d, StatusAfter(status, s.stores), obs[1..]);
    }
  }

  /** Once timestamp `t` is reported, further polls that keep seeing `t` (or
      find the file missing) never report again. */
  lemma ReportedTimestampNotRepeated(d: DebounceState, t: int, status: MonitorState, obs: seq<Observation>)
    requires Step(d, Present(t)).reported
    requires forall i :: 0 <= i < |obs| ==> obs[i] == Absent || obs[i] == Present(t)
    ensures Run(Step(d, Present(t)).next, status, obs).reports == []
  {
    IdleQuiescent(Step(d, Present(t)).next, status, obs);
  }

  /** A missing file freezes the debounce: any number of polls that find it
      missing leave the state as it was, report nothing, and leave the status
      at FILE_NOT_FOUND. */
  lemma {:induction false} AbsentRunFreezesDebounce(d: DebounceState, status: MonitorState, n: nat)
    ensures var r := Run(d, status, Repeat(Absent, n));
      && r.final == d && r.reports == []
      && r.status == (if n == 0 then status else FileNotFound)
    decreases n
  {
    if n > 0 {
      assert Repeat(Absent, n)[1..] == Repeat(Absent, n - 1);
      AbsentRunFreezesDebounce(d, FileNotFound, n - 1);
    }
  }

  /** A poll that sees the file present and reports nothing stores no status:
      when the file reappears after FILE_NOT_FOUND, the status stays
      FILE_NOT_FOUND until the next report. */
  lemma PresentWithoutReportKeepsStatus(d: DebounceState, status: MonitorState, t: int)
    requires !Step(d, Present(t)).reported
    ensures StatusAfter(status, Step(d, Present(t)).stores) == status
  {
  }

  /** The polls of `obs` that found the file present, in order. */
  function PresentOnly(obs: seq<Observation>): (r: seq<Observation>)
    ensures |r| <= |obs|
    ensures forall i :: 0 <= i < |r| ==> r[i].Present?
    ensures forall o :: o in r <==> o in obs && o.Present?
    decreases |obs|
  {
    if |obs| == 0 then []
    else if obs[0].Absent? then PresentOnly(obs[1..])
    else [obs[0]] + PresentOnly(obs[1..])
  }

  /** Polls that find the file missing neither count towards the threshold nor
      reset the count: dropping them from a run changes neither the final
      debounce state nor what is reported, whatever the status was. So the
      stable polls before a report need not be consecutive. */
  lemma {:induction false} MissingPollsNeitherCountNorReset(d: DebounceState, status: MonitorState, status': MonitorState, obs: seq<Observation>)
    ensures Run(d, status, obs).final == Run(d, status', PresentOnly(obs)).final
    ensures Run(d, status, obs).reports == Run(d, status', PresentOnly(obs)).reports
    decreases |obs|
  {
    if |obs| > 0 {
      var s := Step(d, obs[0]);
      if obs[0].Absent? {
        MissingPollsNeitherCountNorReset(d, FileNotFound, status', obs[1..]);
      } else {
        var po := PresentOnly(obs);
        assert po[0] == obs[0] && po[1..] == PresentOnly(obs[1..]);
        MissingPollsNeitherCountNorReset(s.next, StatusAfter(status, s.stores), StatusAfter(status', s.stores), obs[1..]);
      }
    }
  }

  /** For instance, with a change pending at a fresh count, seeing the origin
      timestamp, then a missing file, then the origin timestamp twice more
      reports it. */
  lemma MissingPollBetweenStablePolls(d: DebounceState, status: MonitorState)
    requires Inv(d) && d.phase == Pending && d.stableChecks == 0
    ensures var o := Present(d.origin);
      Run(d, status, [o, Absent, o, o]).reports == [d.origin]
  {
    var o := Present(d.origin);
    MissingPollsNeitherCountNorReset(d, status, status, [o, Absent, o, o]);
    var obs := [o, Absent, o, o];
    assert obs[1..] == [Absent, o, o] && obs[1..][1..] == [o, o] && obs[1..][1..][1..] == [o] && [o][1..] == [];
    assert PresentOnly([o]) == [o] + PresentOnly([]);
    assert PresentOnly([o, o]) == [o] + PresentOnly([o]);
    assert PresentOnly([Absent, o, o]) == PresentOnly([o, o]);
    assert PresentOnly(obs) == [o] + PresentOnly([Absent, o, o]);
    assert PresentOnly(obs) == Repeat(o, 3);
    ThreeStablePollsReport(d, status, d.origin);
  }

  /** The file's clock never goes backwards: every timestamp seen is at least
      `origin`, and timestamps seen later are no smaller. */
  predicate NotBackdated(origin: int, obs: seq<Observation>)
  {
    && (forall i :: 0 <= i < |obs| && obs[i].Present? ==> obs[i].mtime >= origin)
    && (forall i, j :: 0 <= i < j < |obs| && obs[i].Present? && obs[j].Present? ==> obs[i].mtime <= obs[j].mtime)
  }

  /** With a clock that never goes backwards, every reported timestamp is
      strictly newer than `start`, provided the origin is at least `start`
      and strictly newer while a change is pending. */
  lemma {:induction false} MonotoneClockReportsNewer(d: DebounceState, status: MonitorState, obs: seq<Observation>, start: int)
    requires d.origin >= start && (d.phase == Pending ==> d.origin > start)
    requires NotBackdated(d.origin, obs)
    ensures forall k :: 0 <= k < |Run(d, status, obs).reports| ==> Run(d, status, obs).reports[k] > start
    decreases |obs|
  {
    if |obs| > 0 {
      var s := Step(d, obs[0]);
      var rest := obs[1..];
      assert NotBackdated(s.next.origin, rest) by {
        if obs[0].Present? {
          assert s.next.origin == obs[0].mtime;
          forall i | 0 <= i < |rest| && rest[i].Present?
            ensures rest[i].mtime >= s.next.origin
          {
            assert rest[i] == obs[i + 1];
          }
          forall i, j | 0 <= i < j < |rest| && rest[i].Present? && rest[j].Present?
            ensures rest[i].mtime <= rest[j].mtime
          {
            assert rest[i] == obs[i + 1] && rest[j] == obs[j + 1];
          }
        } else {
          forall i | 0 <= i < |rest| && rest[i].Present?
            ensures rest[i].mtime >= s.next.origin
          {
            assert rest[i] == obs[i + 1];
          }
          forall i, j | 0 <= i < j < |rest| && rest[i].Present? && rest[j].Present?
            ensures rest[i].mtime <= rest[j].mtime
          {
            assert rest[i] == obs[i + 1] && rest[j] == obs[j + 1];
          }
        }
      }
      MonotoneClockReportsNewer(s.next, StatusAfter(status, s.stores), rest, start);
    }
  }

  /** With a clock that never goes backwards, the timestamp the file had when
      monitoring started is never reported. */
  lemma StartTimestampNeverReported(origin: int, status: MonitorState, obs: seq<Observation>)
    requires NotBackdated(origin, obs)
    ensures origin !in Run(Start(origin), status, obs).reports
  {
    MonotoneClockReportsNewer(Start(origin), status, obs, origin);
  }

  /** Without that assumption the starting timestamp can be reported: start
      at 5, see 10 four times (10 is reported), then 12, then 5 three times.
      Polls that see an older timestamp while a change is pending count as
      stable, and 5 differs from the last report, 10. */
  lemma BackdatedClockReportsStart()
    ensures Run(Start(5), Monitoring, Repeat(Present(10), 4) + [Present(12)] + Repeat(Present(5), 3)).reports == [10, 5]
  {
    var a := Repeat(Present(10), 4);
    var b := [Present(12)];
    var c := Repeat(Present(5), 3);
    SingleWriteReportedOnce(Start(5), Monitoring, 10);
    var ra := Run(Start(5), Monitoring, a);
    RunAppend(Start(5), Monitoring, a, b);
    var rab := Run(Start(5), Monitoring, a + b);
    var d1 := DebounceState(Pending, 12, 0, 10);
    assert Run(ra.final, ra.status, b) == RunResult(d1, Monitoring, []) by {
      assert b[1..] == [];
    }
    RunAppend(Start(5), Monitoring, a + b, c);
    ThreeStablePollsReport(d1, Monitoring, 5);
  }

}
