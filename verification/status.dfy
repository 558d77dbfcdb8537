/** The four-valued monitoring status (`MonitorState` in monitorfile.hpp). */
module MonitorStatus {

  import opened Optional

  /** Exactly one of these holds at any time; the watcher stores it in an atomic. */
  datatype MonitorState =
    | NotMonitoring   // monitoring has been stopped (or never started)
    | Monitoring      // monitoring is active; a change may be pending, but none is being reported
    | FileNotFound    // a poll (or the start) found the file missing, and no change has been reported since
    | FileChanged     // a change has stabilised and is being reported

  /** The underlying value of the scoped enumeration: enumerators are numbered
      from 0 in declaration order. */
  function Ordinal(s: MonitorState): (n: int)
    ensures 0 <= n < 4
  {
    match s
    case NotMonitoring => 0
    case Monitoring => 1
    case FileNotFound => 2
    case FileChanged => 3
  }

  /** Reads a stored underlying value back as a status, if it names one. */
  function FromOrdinal(n: int): (r: Option<MonitorState>)
    ensures r.Some? <==> 0 <= n < 4
  {
    if n == 0 then Some(NotMonitoring)
    else if n == 1 then Some(Monitoring)
    else if n == 2 then Some(FileNotFound)
    else if n == 3 then Some(FileChanged)
    else None
  }

  /** The four statuses and the four values 0..3 are in one-to-one
      correspondence: every status is exactly one of the four enumerators. */
  lemma OrdinalRoundTrip(s: MonitorState, n: int)
    ensures FromOrdinal(Ordinal(s)) == Some(s)
    ensures FromOrdinal(n) == Some(s) <==> Ordinal(s) == n
  {
  }

}
