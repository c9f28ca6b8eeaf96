/** Classifying events (`handle_xevent`), reporting a change (`handle_change`) and the start-up priming. */
module Dispatch {
  import opened Wrappers
  import opened XServer
  import opened State
  import opened Tracker
  import opened Names

  /** What the change callback receives: whether the checked process is gone, and the current record. */
  datatype Notification = Notification(closed: bool, current: WindowState)

  /**
   `handle_change`: `closed` holds exactly when the process registry (the `pidExists` oracle)
   does not know the pid of `prevState`. A `None` pid makes the registry query raise.
   */
  function HandleChange(newState: WindowState, prevState: WindowState, pidExists: nat -> bool): (r: Result<Notification, Fault>)
    ensures r.Err? <==> prevState.pid.None?
    ensures r.Ok? ==> r.value.current == newState
    ensures r.Ok? ==> (r.value.closed <==> !pidExists(prevState.pid.value))
  {
    match prevState.pid
    case None => Err(PidUnset)
    case Some(p) => Ok(Notification(!pidExists(p), newState))
  }

  /** Events that can carry a focus or title change. */
  predicate Relevant(ev: Event)
  {
    ev.PropertyNotify? && ev.atom in {NetActiveWindow, NetWmName, WmName}
  }

  /** The classification part of one event: updated server and state, and whether a change was seen. */
  datatype Step = Step(server: Server, state: WindowState, changed: bool)

  /**
   An active-window event observes focus and resolves the new window's name only if focus
   moved; a name event resolves the name of the stored window; anything else is ignored.
   The event's own window is never looked at.
   */
  function Classify(srv: Server, st: WindowState, ev: Event): (r: Result<Step, Fault>)
    ensures !Relevant(ev) ==> r == Ok(Step(srv, st, false))
    ensures r.Ok? ==> (r.value.changed <==> r.value.state.title != st.title)
    ensures r.Ok? && r.value.state.pid != st.pid ==> r.value.changed
    ensures r.Ok? && r.value.changed ==> r.value.state.pid.Some?
    ensures ev.PropertyNotify? && ev.atom in {NetWmName, WmName} ==>
      r == match GetWindowName(srv, st, st.xid)
           case Err(e) => Err(e)
           case Ok(n) => Ok(Step(srv, n.state, n.changed))
    ensures ev.PropertyNotify? && ev.atom == NetActiveWindow ==>
      match GetActiveWindow(srv, st)
      case Err(e) => r == Err(e)
      case Ok(f) =>
        && (!f.changed ==> r == Ok(Step(srv, st, false)))
        && (f.changed ==> r == match GetWindowName(f.server, f.state, Some(f.winId))
                               case Err(e) => Err(e)
                               case Ok(n) => Ok(Step(f.server, n.state, n.changed)))
  {
    match ev
    case OtherEvent => Ok(Step(srv, st, false))
    case PropertyNotify(_, atom) =>
      if atom == NetActiveWindow then
        match GetActiveWindow(srv, st)
        case Err(e) => Err(e)
        case Ok(f) =>
          if !f.changed then Ok(Step(f.server, f.state, false))
          else
            match GetWindowName(f.server, f.state, f.state.xid)
            case Err(e) => Err(e)
            case Ok(n) => Ok(Step(f.server, n.state, n.changed))
      else if atom == NetWmName || atom == WmName then
        match GetWindowName(srv, st, st.xid)
        case Err(e) => Err(e)
        case Ok(n) => Ok(Step(srv, n.state, n.changed))
      else Ok(Step(srv, st, false))
  }

  /** The server and state after one event, and the notification it produced, if any. */
  datatype Reaction = Reaction(server: Server, state: WindowState, note: Option<Notification>)

  /**
   `handle_xevent` as written: a detected change calls `handle_change` with the tracked record
   as both the new and the previous state, because `prev_seen` names the very same record.
   */
  function HandleXEvent(srv: Server, st: WindowState, ev: Event, pidExists: nat -> bool): (r: Result<Reaction, Fault>)
    ensures !Relevant(ev) ==> r == Ok(Reaction(srv, st, None))
    ensures r.Ok? ==> (r.value.note.Some? <==> r.value.state.title != st.title)
    ensures r.Ok? && r.value.note.Some? ==>
      && r.value.note.value.current == r.value.state
      && r.value.state.pid.Some?
      && (r.value.note.value.closed <==> !pidExists(r.value.state.pid.value))
    ensures r.Ok? && r.value.state.pid != st.pid ==> r.value.state.title != st.title
    ensures r.Err? <==> Classify(srv, st, ev).Err?
    ensures Classify(srv, st, ev).Err? ==> r == Err(Classify(srv, st, ev).error)
    ensures r.Ok? ==>
      && r.value.server == Classify(srv, st, ev).value.server
      && r.value.state == Classify(srv, st, ev).value.state
  {
    match Classify(srv, st, ev)
    case Err(e) => Err(e)
    case Ok(s) =>
      if !s.changed then Ok(Reaction(s.server, s.state, None))
      else
        match HandleChange(s.state, s.state, pidExists)
        case Err(e) => Err(e)
        case Ok(n) => Ok(Reaction(s.server, s.state, Some(n)))
  }

  /** Every event keeps the tracked record consistent. */
  lemma HandleXEventKeepsConsistent(srv: Server, st: WindowState, ev: Event, pidExists: nat -> bool)
    requires Consistent(st)
    requires HandleXEvent(srv, st, ev, pidExists).Ok?
    ensures Consistent(HandleXEvent(srv, st, ev, pidExists).value.state)
  {
  }

  /** A name event never moves focus and never changes any subscription. */
  lemma NameEventKeepsFocus(srv: Server, st: WindowState, ev: Event, pidExists: nat -> bool)
    requires ev.PropertyNotify? && ev.atom in {NetWmName, WmName}
    requires HandleXEvent(srv, st, ev, pidExists).Ok?
    ensures HandleXEvent(srv, st, ev, pidExists).value.server == srv
    ensures HandleXEvent(srv, st, ev, pidExists).value.state.xid == st.xid
  {
  }

  /** Switching focus to a window whose name equals the stored title produces no notification. */
  lemma SameTitleSwitchIsSilent(srv: Server, st: WindowState, w: WinId, ev: Event, pidExists: nat -> bool)
    requires ev.PropertyNotify? && ev.atom == NetActiveWindow
    requires srv.rootActive.Some? && |srv.rootActive.value| > 0 && srv.rootActive.value[0] == w
    requires st.xid != Some(w)
    requires Resolves(srv, Some(w)) && Some(GetWindowNameInner(WindowObj(srv, Some(w)).value)) == st.title
    ensures var r := HandleXEvent(srv, st, ev, pidExists);
            r.Ok? && r.value.note.None? && r.value.state == st.(xid := Some(w))
  {
  }

  /** Focus moving to a window that is already gone updates the id but reports nothing. */
  lemma VanishedWindowIsSilent(srv: Server, st: WindowState, w: WinId, ev: Event, pidExists: nat -> bool)
    requires ev.PropertyNotify? && ev.atom == NetActiveWindow
    requires srv.rootActive.Some? && |srv.rootActive.value| > 0 && srv.rootActive.value[0] == w
    requires !Resolves(srv, Some(w))
    ensures var r := HandleXEvent(srv, st, ev, pidExists);
            r.Ok? && r.value.note.None? && r.value.state == st.(xid := Some(w))
  {
  }

  /** Delivering the same active-window event again, with nothing changed, is silent and changes nothing. */
  lemma RepeatedActiveEventIsSilent(srv: Server, st: WindowState, ev: Event, pidExists: nat -> bool)
    requires ev.PropertyNotify? && ev.atom == NetActiveWindow
    requires HandleXEvent(srv, st, ev, pidExists).Ok?
    ensures var r := HandleXEvent(srv, st, ev, pidExists).value;
            HandleXEvent(r.server, r.state, ev, pidExists) == Ok(Reaction(r.server, r.state, None))
  {
  }

  /**
   Start-up (the two priming calls): observe focus from the empty record, resolve that window's
   name and report it. Since the empty record has no title, priming succeeds only when the
   active window resolves and its pid can be read.
   */
  function Prime(srv: Server, pidExists: nat -> bool): (r: Result<Reaction, Fault>)
    ensures r.Ok? ==>
      && srv.rootActive.Some? && |srv.rootActive.value| > 0
      && Resolves(srv, Some(srv.rootActive.value[0]))
      && r.value.state.xid == Some(srv.rootActive.value[0])
      && Consistent(r.value.state) && r.value.state.title.Some?
      && r.value.server == GetActiveWindow(srv, Initial).value.server
      && r.value.note == Some(Notification(!pidExists(r.value.state.pid.value), r.value.state))
    ensures r.Ok? ==>
      var h := WindowObj(srv, Some(srv.rootActive.value[0])).value;
      && r.value.state.title == Some(GetWindowNameInner(h))
      && PidOf(GetProperty(h.window, NetWmPid)) == Ok(r.value.state.pid.value)
    ensures srv.rootActive.Some? && |srv.rootActive.value| > 0 && !Resolves(srv, Some(srv.rootActive.value[0])) ==>
      r == Err(PidUnset)
    ensures r.Ok? <==>
      && srv.rootActive.Some? && |srv.rootActive.value| > 0
      && Resolves(srv, Some(srv.rootActive.value[0]))
      && PidOf(GetProperty(WindowObj(srv, Some(srv.rootActive.value[0])).value.window, NetWmPid)).Ok?
    ensures r.Err? ==>
      r.error == if srv.rootActive.None? then NoActiveWindowProperty
                 else if |srv.rootActive.value| == 0 then EmptyActiveWindowList
                 else if !Resolves(srv, Some(srv.rootActive.value[0])) then PidUnset
                 else PidOf(GetProperty(WindowObj(srv, Some(srv.rootActive.value[0])).value.window, NetWmPid)).error
  {
    match GetActiveWindow(srv, Initial)
    case Err(e) => Err(e)
    case Ok(f) =>
      WindowObjReadsOnlyWindows(f.server, srv, Some(f.winId));
      match GetWindowName(f.server, f.state, Some(f.winId))
      case Err(e) => Err(e)
      case Ok(n) =>
        match HandleChange(n.state, n.state, pidExists)
        case Err(e) => Err(e)
        case Ok(note) => Ok(Reaction(f.server, n.state, Some(note)))
  }
}
