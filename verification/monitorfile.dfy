/** The watcher object (`MonitorFile` in monitorfile.hpp/.cpp) as an immutable
    record, its control surface as functions from record to record, and the
    monitoring loop as one `Poll` per loop iteration. Calls are sequential:
    the lock, the condition variable, the atomics and the thread itself are
    not modelled, only the effect each call has on the watcher's fields. */
module MonitorFile {

  import opened Optional
  import opened MonitorStatus
  import opened Debounce

  /** Stands for a registered callback (`std::function<void()>`): only its
      identity matters to the model, never what it does. */
  type CallbackId = nat

  /** The monitoring thread's local variables: whether a change is pending
      (`change_detected`) and the timestamp last reported. Present exactly
      while a monitoring thread exists (is joinable). */
  datatype Session = Session(phase: Phase, lastReported: int)

  /** The watcher's fields. `orgTime` and `stableChecks` are members of the
      object and outlive a session; `session` holds the loop's locals. */
  datatype Watcher = Watcher(
    fileName: string,
    orgTime: Option<int>,
    stableChecks: nat,
    session: Option<Session>,
    stopFlag: bool,
    pollingInterval: int,   // milliseconds
    status: MonitorState,
    callback: Option<CallbackId>)

  /** A monitoring thread exists. */
  predicate Running(w: Watcher)
  {
    w.session.Some?
  }

  /** What every reachable watcher satisfies: a running loop has its stop flag
      clear, an origin to compare against, and a debounce state that keeps
      the loop's invariant. */
  predicate Valid(w: Watcher)
  {
    Running(w) ==> !w.stopFlag && w.orgTime.Some? && Inv(LoopState(w))
  }

  /** The debounce state the running loop works on, assembled from the
      object's members and the loop's locals. */
  function LoopState(w: Watcher): (d: DebounceState)
    requires Running(w) && w.orgTime.Some?
    ensures d.origin == w.orgTime.value && d.stableChecks == w.stableChecks
    ensures d.phase == w.session.value.phase && d.lastReported == w.session.value.lastReported
  {
    DebounceState(w.session.value.phase, w.orgTime.value, w.stableChecks, w.session.value.lastReported)
  }

  /** The default polling interval, one second. */
  const DefaultPollingInterval: int := 1000

  /** A freshly constructed watcher: not monitoring, stop flag clear,
      polling every second, no callback and no thread. */
  function New(): (w: Watcher)
    ensures Valid(w) && !Running(w)
    ensures w.status == NotMonitoring
    ensures !w.stopFlag
    ensures w.pollingInterval == 1000
    ensures w.callback == None
  {
    Watcher("", None, 0, None, false, DefaultPollingInterval, NotMonitoring, None)
  }

  /** `stop`: only the call that flips the stop flag from clear to set does
      anything; it sets the status to NOT_MONITORING and joins the thread (if
      any). Every other call returns at once and changes nothing. */
  function Stop(w: Watcher): (r: Watcher)
    ensures r.stopFlag
    ensures Valid(w) ==> Valid(r) && !Running(r)
    ensures w.stopFlag ==> r == w
    ensures !w.stopFlag ==> r.status == NotMonitoring
    ensures r.(stopFlag := w.stopFlag, status := w.status, session := w.session) == w
  {
    if w.stopFlag then w
    else w.(stopFlag := true, status := NotMonitoring, session := None)
  }

  /** `stop` is idempotent: a second call changes nothing. */
  lemma StopIdempotent(w: Watcher)
    ensures Stop(Stop(w)) == Stop(w)
  {
  }

  /** The result of `filemon`: the watcher afterwards and the value returned. */
  datatype StartResult = StartResult(w: Watcher, ret: MonitorState)

  /** `filemon(path, cb)`, given `probe`, what the filesystem reports for
      `path` (missing, or present with its modification time). A running
      loop is stopped first. A missing file yields FILE_NOT_FOUND and starts
      nothing; a present one records its timestamp as the origin, clears the
      counter and the stop flag, installs `cb` if one is given, starts a
      fresh loop and yields MONITORING. */
  function Filemon(w: Watcher, path: string, probe: Observation, cb: Option<CallbackId>): (r: StartResult)
    ensures Valid(w) ==> Valid(r.w)
    ensures r.ret == Monitoring || r.ret == FileNotFound
    ensures r.w.status == r.ret
    ensures r.ret == FileNotFound <==> probe.Absent?
    ensures probe.Absent? && Valid(w) ==> !Running(r.w)
    ensures probe.Absent? ==>
              && r.w.orgTime == w.orgTime && r.w.stableChecks == w.stableChecks
              && r.w.callback == w.callback && r.w.fileName == w.fileName
              && r.w.pollingInterval == w.pollingInterval
              && r.w.stopFlag == (w.stopFlag || Running(w))
    ensures probe.Present? ==>
              && r.w.orgTime == Some(probe.mtime)
              && r.w.stableChecks == 0
              && !r.w.stopFlag
              && r.w.fileName == path
              && r.w.session == Some(Session(Idle, probe.mtime))
              && r.w.callback == (if cb.Some? then cb else w.callback)
              && r.w.pollingInterval == w.pollingInterval
  {
    var w1 := if Running(w) then Stop(w) else w;
    match probe
    case Absent =>
      StartResult(w1.(status := FileNotFound), FileNotFound)
    case Present(t) =>
      var w2 := w1.(
        fileName := path,
        orgTime := Some(t),
        stableChecks := 0,
        status := Monitoring,
        callback := if cb.Some? then cb else w1.callback,
        stopFlag := false,
        session := Some(Session(Idle, t)));
      StartResult(w2, Monitoring)
  }

  /** After a successful start the loop begins from the debounce start state
      for the file's timestamp, whatever ran before: a restart replaces the
      previous session. */
  lemma StartBeginsFreshSession(w: Watcher, path: string, t: int, cb: Option<CallbackId>)
    requires Valid(w)
    ensures var r := Filemon(w, path, Present(t), cb).w;
      Running(r) && r.orgTime.Some? && LoopState(r) == Start(t) && r.status == Monitoring
  {
  }

  /** `set_polling_interval` stores the new interval. */
  function SetPollingInterval(w: Watcher, interval: int): (r: Watcher)
    ensures r.pollingInterval == interval
    ensures r.(pollingInterval := w.pollingInterval) == w
  {
    w.(pollingInterval := interval)
  }

  /** `set_callback` replaces whatever was registered, an empty callback
      included. */
  function SetCallback(w: Watcher, cb: Option<CallbackId>): (r: Watcher)
    ensures r.callback == cb
    ensures r.(callback := w.callback) == w
  {
    w.(callback := cb)
  }

  /** `get_state`: a snapshot of the status last stored by a control call
      or by the loop; reading it changes nothing. */
  function GetState(w: Watcher): (s: MonitorState)
    ensures s == w.status
  {
    w.status
  }

  /** `setPriority`, given `osAccepts`, whether the operating system would
      accept the requested scheduling parameters: it fails whenever no
      monitoring thread exists, and otherwise reports the system's verdict. */
  function SetPriority(w: Watcher, policy: int, priority: int, osAccepts: bool): (ok: bool)
    ensures !Running(w) ==> !ok
    ensures Running(w) ==> (ok <==> osAccepts)
  {
    Running(w) && osAccepts
  }

  /** The effect of one loop iteration: the watcher afterwards and the
      callback invoked, if any. */
  datatype PollResult = PollResult(w: Watcher, invoked: Option<CallbackId>)

  /** One iteration of the monitoring loop, observing `obs`. Without a
      running loop nothing happens. Otherwise the debounce `Step` runs on the
      loop state, and on a confirmed change the callback registered at that
      moment (if any) is invoked. */
  function Poll(w: Watcher, obs: Observation): (r: PollResult)
    requires Valid(w)
    ensures Valid(r.w)
    ensures !Running(w) ==> r == PollResult(w, None)
    ensures Running(w) ==> Running(r.w) && r.w.orgTime.Some?
    ensures Running(w) ==> var s := Step(LoopState(w), obs);
              && LoopState(r.w) == s.next
              && r.w.status == StatusAfter(w.status, s.stores)
              && (r.invoked.Some? <==> s.reported && w.callback.Some?)
    ensures r.invoked.Some? ==> r.invoked == w.callback
    ensures r.w.stopFlag == w.stopFlag && r.w.callback == w.callback
    ensures r.w.pollingInterval == w.pollingInterval && r.w.fileName == w.fileName
  {
    if !Running(w) then
      PollResult(w, None)
    else
      var s := Step(LoopState(w), obs);
      var w' := w.(
        orgTime := Some(s.next.origin),
        stableChecks := s.next.stableChecks,
        session := Some(Session(s.next.phase, s.next.lastReported)),
        status := StatusAfter(w.status, s.stores));
      PollResult(w', if s.reported then w.callback else None)
  }

  /** Once `stop` has run, the loop is gone: a poll changes nothing and
      invokes nothing. */
  lemma NoPollAfterStop(w: Watcher, obs: Observation)
    requires Valid(w)
    ensures Poll(Stop(w), obs) == PollResult(Stop(w), None)
  {
  }

  /** The polling interval only paces the loop: changing it changes nothing
      about what a poll detects or reports. */
  lemma IntervalDoesNotAffectDetection(w: Watcher, interval: int, obs: Observation)
    requires Valid(w)
    ensures var a := Poll(SetPollingInterval(w, interval), obs);
            var b := Poll(w, obs);
            a.invoked == b.invoked && a.w == SetPollingInterval(b.w, interval)
  {
  }

  /** A callback installed with `set_callback` is the one invoked on the next
      confirmed change, whichever was registered before. */
  lemma SetCallbackReplaces(w: Watcher, cb: CallbackId, obs: Observation)
    requires Valid(w) && Running(w) && Step(LoopState(w), obs).reported
    ensures Poll(SetCallback(w, Some(cb)), obs).invoked == Some(cb)
  {
  }

  /** Starting on a missing file returns FILE_NOT_FOUND, `get_state` then
      reads FILE_NOT_FOUND, and no loop is left running to poll. */
  lemma StartOnMissingFile(w: Watcher, path: string, cb: Option<CallbackId>, obs: Observation)
    requires Valid(w)
    ensures var r := Filemon(w, path, Absent, cb);
      && r.ret == FileNotFound && GetState(r.w) == FileNotFound
      && Poll(r.w, obs) == PollResult(r.w, None)
  {
  }

  // ---------------------------------------------------------------------
  // Sequences of calls

  /** One call on the watcher's control surface, or one loop iteration. */
  datatype Call =
    | FilemonCall(path: string, probe: Observation, cb: Option<CallbackId>)
    | StopCall
    | IntervalCall(interval: int)
    | CallbackCall(cb: Option<CallbackId>)
    | PollTick(obs: Observation)

  /** The watcher after a sequence of calls, and the callbacks invoked along
      the way, in order. */
  datatype Trace = Trace(final: Watcher, invoked: seq<CallbackId>)

  function Apply(w: Watcher, call: Call): (r: PollResult)
    requires Valid(w)
    ensures Valid(r.w)
    ensures r.invoked.Some? ==> call.PollTick?
  {
    match call
    case FilemonCall(path, probe, cb) => PollResult(Filemon(w, path, probe, cb).w, None)
    case StopCall => PollResult(Stop(w), None)
    case IntervalCall(interval) => PollResult(SetPollingInterval(w, interval), None)
    case CallbackCall(cb) => PollResult(SetCallback(w, cb), None)
    case PollTick(obs) => Poll(w, obs)
  }

  /** Number of loop iterations in a sequence of calls. */
  function Ticks(calls: seq<Call>): (n: nat)
    ensures n <= |calls|
  {
    if |calls| == 0 then 0 else (if calls[0].PollTick? then 1 else 0) + Ticks(calls[1..])
  }

  /** Any sequence of calls from a valid watcher keeps it valid (at most one
      loop, and that loop has its stop flag clear and a well-formed debounce
      state), and invokes a callback at most once per loop iteration. */
  function ApplyAll(w: Watcher, calls: seq<Call>): (r: Trace)
    requires Valid(w)
    ensures Valid(r.final)
    ensures |r.invoked| <= Ticks(calls)
    decreases |calls|
  {
    if |calls| == 0 then
      Trace(w, [])
    else
      var step := Apply(w, calls[0]);
      var rest := ApplyAll(step.w, calls[1..]);
      if step.invoked.Some? then
        Trace(rest.final, [step.invoked.value] + rest.invoked)
      else
        rest
  }

  /** `n` loop iterations, observing `obs` in order. */
  function Polls(obs: seq<Observation>): (calls: seq<Call>)
    ensures |calls| == |obs|
    ensures forall i :: 0 <= i < |obs| ==> calls[i] == PollTick(obs[i])
  {
    if |obs| == 0 then [] else [PollTick(obs[0])] + Polls(obs[1..])
  }

  /** Watcher-level loop and debounce fold agree: letting a running watcher
      with a callback poll `obs` ends in the debounce state and status that
      `Run` computes, and invokes that callback exactly once per confirmed
      change. */
  lemma {:induction false} PollsFollowRun(w: Watcher, obs: seq<Observation>)
    requires Valid(w) && Running(w) && w.callback.Some?
    ensures var t := ApplyAll(w, Polls(obs));
            var r := Run(LoopState(w), w.status, obs);
      && Running(t.final) && t.final.orgTime.Some?
      && LoopState(t.final) == r.final
      && t.final.status == r.status
      && t.final.callback == w.callback
      && |t.invoked| == |r.reports|
      && (forall i :: 0 <= i < |t.invoked| ==> t.invoked[i] == w.callback.value)
    decreases |obs|
  {
    if |obs| > 0 {
      var calls := Polls(obs);
      assert calls[0] == PollTick(obs[0]);
      assert calls[1..] == Polls(obs[1..]);
      var p := Poll(w, obs[0]);
      PollsFollowRun(p.w, obs[1..]);
    }
  }

  /** Every watcher reachable from construction is valid. */
  lemma ReachableIsValid(calls: seq<Call>)
    ensures Valid(ApplyAll(New(), calls).final)
  {
  }

}
