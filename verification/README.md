# MonitorFile in Dafny

A model of `MonitorFile`, a background file-change watcher. The watcher polls one
file's last-modification time, debounces bursts of writes, and reports one
"changed" event (invoking a user callback) once three polls since the last newer
timestamp have found the file no newer than the origin. Polls that find the file
missing neither count nor reset the count
(`MissingPollsNeitherCountNorReset`), so those three polls need not be
consecutive.

The model has four modules:

- `Optional` (optional.dfy): `Option`, which stands in for `std::optional` and for
  an empty `std::function`.
- `MonitorStatus` (status.dfy): the four-valued `MonitorState` enumeration.
- `Debounce` (debounce.dfy): the core. One iteration of `monitor_loop` with the
  thread, lock and sleeps removed is the pure function `Step`. It takes the
  debounce state and one observation of the file (`Absent` or `Present(mtime)`).
  It returns the next state, the statuses stored during the poll, and whether a
  change was confirmed. `Run` folds `Step` over a sequence of observations and
  collects the reported timestamps. The lemmas about `Run` cover the properties
  of the debounce:
  - the origin never goes down;
  - the last reported timestamp stays at or below the origin;
  - exactly three stable polls are needed, and missing-file polls between them
    do not matter;
  - bursts are coalesced into one report;
  - the same timestamp is never reported twice in a row;
  - a missing file freezes the debounce.
- `MonitorFile` (monitorfile.dfy): the watcher object as an immutable record
  `Watcher`. It models the constructor, `filemon`, `stop`, `set_polling_interval`,
  `set_callback`, `get_state` and `setPriority` as functions from record to record.
  `Poll` is one loop iteration on the record, and `ApplyAll` runs any sequence of
  calls and polls. `Valid` is the invariant every reachable watcher keeps: a
  running loop has its stop flag clear and a well-formed debounce state. `Poll`
  requires it, and `ApplyAll` preserves it.

Timestamps are integer clock ticks. The filesystem is a parameter: `filemon` and
`Poll` receive what `fs::exists` / `fs::last_write_time` would report as an
`Observation`. The operating system's answer to `pthread_setschedparam` is the
boolean parameter `osAccepts` of `SetPriority`. A callback is represented by an
opaque identity (`CallbackId`); the model records which callback is invoked,
never what it does.

Points where the code does something other than what its own comments
suggest, and what the model does:

- While a change is pending, the branch commented "file unchanged since last
  write" (src/monitorfile.cpp:224) is the `else` of the strict `>` at
  src/monitorfile.cpp:216-222. It therefore also covers a timestamp OLDER than
  the origin. The model follows the code: such a poll counts as stable and can
  be reported.
  `BackdatedClockReportsStart` exhibits this: with a clock that goes backwards,
  the starting timestamp can be reported. `StartTimestampNeverReported` proves
  that it cannot be reported when the clock never goes backwards.
- When a missing file reappears, nothing stores MONITORING again. The status
  stays FILE_NOT_FOUND until the next confirmed change
  (`PresentWithoutReportKeepsStatus`), and the origin is not re-baselined.
- `filemon` calls `stop()` when a monitoring thread exists
  (src/monitorfile.cpp:47-50), evidently to end the old loop before starting a
  new one. As written it cannot: it already holds a `unique_lock` on the
  non-recursive `std::shared_mutex` (src/monitorfile.cpp:45), and `stop()` locks
  the same mutex again (src/monitorfile.cpp:120). That is a self-deadlock or
  undefined behaviour. The model treats a restart as a sequential `Stop`
  followed by the start logic.
- `stop` on a watcher that was never started still sets the flag and stores
  NOT_MONITORING. If `filemon` is then called on a missing file, the flag stays
  set, so the next `stop` is a no-op and the status stays FILE_NOT_FOUND. The
  model keeps this behaviour.

## Model

| member | source | states |
|---|---|---|
| MonitorStatus.OrdinalRoundTrip | src/monitorfile.hpp:32-38 | the status is exactly one of four values: the four statuses correspond one-to-one with the enumerators' underlying values 0..3 |
| Debounce.Start | src/monitorfile.cpp:172-178 | the loop starts Idle with a zero counter, its last report equal to the origin, and the invariant holding |
| Debounce.Step | src/monitorfile.cpp:189-243 | one poll never lowers the origin; it keeps the invariant that the last report is at or below the origin (strictly below while pending); a report stores FILE_CHANGED then MONITORING and happens only for a present timestamp that is no newer than the origin and differs from the last report, after at least three stable polls, leaving the state Idle with a cleared counter; a non-report leaves the last report alone and advances progress by at most one poll |
| Debounce.Run | src/monitorfile.cpp:169-245 | over any sequence of polls the origin never decreases, the invariant is kept, there are at most as many reports as polls, and the loop's last reported timestamp is the last one reported in the run (or the one it started with) |
| Debounce.StepAbsent | src/monitorfile.cpp:189-193 | a poll finding the file missing stores FILE_NOT_FOUND, reports nothing and leaves origin, counter, phase and last report unchanged |
| Debounce.StepIdle | src/monitorfile.cpp:202-213 | in Idle a newer timestamp moves to Pending with that origin and a zero counter; any other timestamp changes nothing; neither reports or stores a status |
| Debounce.StepPending | src/monitorfile.cpp:216-242 | in Pending a newer timestamp becomes the origin with a zero counter and no report; otherwise the counter increments and a report happens exactly when the new count is at least 3 and the timestamp differs from the last report; a report records it, ends at MONITORING, clears the counter and returns to Idle |
| Debounce.RunAppend | src/monitorfile.cpp:180-244 | running over a + b is running over a then over b from where a ended, with the reports concatenated |
| Debounce.RunNeverRepeatsReport | src/monitorfile.cpp:225-227 | the same timestamp is never reported twice in a row, and the first report differs from the one last reported before the run |
| Debounce.StartTimestampNotReportedFirst | src/monitorfile.cpp:172-174 | the first report of a session is never the timestamp the file had when monitoring started |
| Debounce.TooFewPollsNeverReport | src/monitorfile.cpp:202-225 | a run shorter than what is needed to enter Pending and complete three stable polls reports nothing (four polls from Idle, three from a fresh pending change) |
| Debounce.ThreeStablePollsReport | src/monitorfile.cpp:222-242 | from a fresh pending change, three polls of a timestamp no newer than the origin and not yet reported produce exactly one report, on the third, ending Idle and MONITORING |
| Debounce.SingleWriteReportedOnce | src/monitorfile.cpp:202-242 | a single write left alone is reported exactly once, after four polls from Idle, and the status returns to MONITORING |
| Debounce.BurstKeepsPending | src/monitorfile.cpp:216-221 | a burst of ever-newer timestamps keeps the change pending with the newest as origin and a zero counter, reporting nothing |
| Debounce.BurstReportedOnce | src/monitorfile.cpp:202-242 | a burst of writes followed by three quiet polls is reported exactly once, with the final timestamp |
| Debounce.IdleQuiescent | src/monitorfile.cpp:202-213 | in Idle, polls that find the file missing or no newer than the origin leave the debounce state unchanged and report nothing |
| Debounce.ReportedTimestampNotRepeated | src/monitorfile.cpp:225-241 | once a timestamp is reported, further polls seeing that same timestamp (or a missing file) never report again |
| Debounce.AbsentRunFreezesDebounce | src/monitorfile.cpp:189-193 | any number of polls of a missing file leave the debounce state unchanged, report nothing and leave the status FILE_NOT_FOUND |
| Debounce.PresentWithoutReportKeepsStatus | src/monitorfile.cpp:200-221 | a poll that sees the file and reports nothing does not change the status, so a reappearing file stays FILE_NOT_FOUND until the next report |
| Debounce.MissingPollsNeitherCountNorReset | src/monitorfile.cpp:189-193 | dropping the polls that find the file missing changes neither the final debounce state nor the reports, whatever the status was |
| Debounce.MissingPollBetweenStablePolls | src/monitorfile.cpp:189-242 | from a fresh pending change, the polls origin, missing, origin, origin report the origin: stable polls need not be consecutive |
| Debounce.MonotoneClockReportsNewer | src/monitorfile.cpp:202-227 | with a clock that never goes backwards, every reported timestamp is newer than a bound the origin respects |
| Debounce.StartTimestampNeverReported | src/monitorfile.cpp:172-174 | with a clock that never goes backwards, the starting timestamp is never reported |
| Debounce.BackdatedClockReportsStart | src/monitorfile.cpp:222-227 | with a clock that goes backwards, the starting timestamp 5 can be reported after 10 was |
| MonitorFile.New | src/monitorfile.cpp:18-23 | a fresh watcher is NOT_MONITORING, has its stop flag clear, polls every 1000 ms, has no callback and no thread |
| MonitorFile.Stop | src/monitorfile.cpp:111-130 | only a call that flips the stop flag has an effect, which is status NOT_MONITORING and no thread left; any other call changes nothing; no field besides flag, status and thread changes |
| MonitorFile.StopIdempotent | src/monitorfile.cpp:113-117 | a second stop changes nothing |
| MonitorFile.Filemon | src/monitorfile.cpp:43-72 | returns only MONITORING or FILE_NOT_FOUND, and the status equals the return; FILE_NOT_FOUND exactly when the file is missing, leaving no loop and origin, counter, callback, path and interval unchanged; otherwise the origin is the file's timestamp, the counter 0, the stop flag clear, a fresh Idle session, the callback replaced only when one is given, the interval unchanged |
| MonitorFile.StartBeginsFreshSession | src/monitorfile.cpp:171-178 | after a successful start the loop begins Idle with origin and last report both the file's timestamp, whatever ran before |
| MonitorFile.SetPollingInterval | src/monitorfile.cpp:137-142 | the interval becomes the given value and nothing else changes |
| MonitorFile.SetCallback | src/monitorfile.cpp:160-164 | the callback becomes the given one, an empty one included, and nothing else changes |
| MonitorFile.SetPriority | src/monitorfile.cpp:92-106 | false whenever no monitoring thread exists; otherwise the operating system's verdict |
| MonitorFile.Poll | src/monitorfile.cpp:180-244 | without a loop nothing happens; otherwise the loop state advances by exactly one debounce Step, the status follows the stores of that step, and the current callback is invoked exactly when a change is confirmed and a callback is registered; flag, callback, interval and path are untouched and validity is kept |
| MonitorFile.NoPollAfterStop | src/monitorfile.cpp:180-187 | after stop a poll changes nothing and invokes nothing |
| MonitorFile.IntervalDoesNotAffectDetection | src/monitorfile.cpp:183-185 | the polling interval only paces the loop: what a poll detects and invokes does not depend on it |
| MonitorFile.SetCallbackReplaces | src/monitorfile.cpp:229-236 | after set_callback the newly installed callback is the one invoked on the next confirmed change |
| MonitorFile.StartOnMissingFile | src/monitorfile.cpp:52-56 | starting on a missing file returns FILE_NOT_FOUND, get_state reads FILE_NOT_FOUND and no loop polls afterwards |
| MonitorFile.GetState | src/monitorfile.cpp:149-153 | get_state returns the status last stored by a control call or by the loop |
| MonitorFile.ApplyAll | src/monitorfile.cpp:43-245 | any sequence of control calls and polls keeps the watcher valid (a running loop has its stop flag clear, an origin, and a well-formed debounce state) and invokes at most one callback per poll; there is at most one loop by construction, since the record holds at most one session |
| MonitorFile.PollsFollowRun | src/monitorfile.cpp:180-244 | a running watcher with a callback that polls a sequence of observations ends in the debounce state and status of the debounce fold over them, and invokes that callback exactly once per confirmed change |
| MonitorFile.ReachableIsValid | src/monitorfile.cpp:18-245 | every watcher reachable from construction through any sequence of calls and polls is valid |

## Left out

- Threads, `std::shared_mutex`, `condition_variable_any`, the atomics and the
  windows in which the loop releases its lock. Calls and polls are interleaved
  sequentially, one at a time.
- Timing: the wait on the polling interval and the 100 ms settle sleep. The
  interval is only a stored value.
- The race between `fs::exists` and `fs::last_write_time` within one poll. Each
  poll sees one observation.
- The transient FILE_CHANGED status while the callback runs with the lock
  released. It appears only as the first entry of a step's stores.
- What a callback does, and callbacks that re-enter the watcher or throw.
- The body of `setPriority` beyond its not-running guard, because
  `pthread_setschedparam` is an operating-system call. Its outcome is a parameter.
- The destructor: it only calls `stop()`, which is modelled.
- `get_state` has no contract beyond returning the stored status.
- The path string is stored, but the model never reads the file through it.
- src/main.cpp, a demo driver that does file I/O and printing.
- Debounce.Step: `stable_checks` is a C++ `int`, modelled as an unbounded `nat`.
  It can grow without bound only while a change is pending and the observed
  timestamp, older than the origin, equals the last report. Overflow there would
  be undefined behaviour, and that is not modelled.
- MonitorFile.Filemon: a restart is a sequential `Stop` followed by the start
  logic, not the self-deadlock the code would hit.
