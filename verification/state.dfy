/** The tracked record `last_seen = {xid, title, pid}` and the ways a step can fail. */
module State {
  import opened Wrappers
  import opened XServer

  /**
   A resolved window name. Text and Latin-1-decoded bytes become a string; when both name
   properties are unset, the cardinal list of `_NET_WM_PID` is returned as the name itself.
   */
  datatype Title = Str(str: string) | Nums(nums: seq<nat>)

  datatype WindowState = WindowState(xid: Option<WinId>, title: Option<Title>, pid: Option<nat>)

  /** The state before anything was observed: every field is `None`. */
  const Initial := WindowState(None, None, None)

  /** The exceptions that end the watcher; none of them is caught. */
  datatype Fault =
    | NoActiveWindowProperty   // the root has no `_NET_ACTIVE_WINDOW`, so `.value` fails on `None`
    | EmptyActiveWindowList    // `value[0]` of an empty id list
    | NoPidProperty            // `_NET_WM_PID` unset after a title change
    | EmptyPidProperty         // `value[0]` of an empty `_NET_WM_PID`
    | PidNotInteger            // `int()` of a character that is not a digit
    | PidUndecodable           // reading `_NET_WM_PID` raised a decode error
    | PidUnset                 // the liveness check was asked about a `None` pid

  /** Title and pid are only ever set together, and only once a window id has been stored. */
  predicate Consistent(st: WindowState)
  {
    && (st.title.Some? <==> st.pid.Some?)
    && (st.title.Some? ==> st.xid.Some?)
  }
}
