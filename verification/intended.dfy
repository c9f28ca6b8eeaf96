/**
 The evidently intended notifier: `prev_seen` is a copy of the tracked record taken before the
 event, so `closed` says whether the process that held focus before has gone away.
 */
module Intended {
  import opened Wrappers
  import opened XServer
  import opened State
  import opened Dispatch
  import Scenarios

  /** `handle_xevent` with the record copied before it is changed. */
  function HandleXEventCopying(srv: Server, st: WindowState, ev: Event, pidExists: nat -> bool): (r: Result<Reaction, Fault>)
    ensures !Relevant(ev) ==> r == Ok(Reaction(srv, st, None))
    ensures r.Ok? ==> (r.value.note.Some? <==> r.value.state.title != st.title)
    ensures r.Ok? && r.value.note.Some? ==>
      && r.value.note.value.current == r.value.state
      && st.pid.Some?
      && (r.value.note.value.closed <==> !pidExists(st.pid.value))
    ensures r.Err? <==> Classify(srv, st, ev).Err? || (Classify(srv, st, ev).value.changed && st.pid.None?)
    ensures Classify(srv, st, ev).Err? ==> r == Err(Classify(srv, st, ev).error)
    ensures Classify(srv, st, ev).Ok? && r.Err? ==> r.error == PidUnset
    ensures r.Ok? ==>
      && r.value.server == Classify(srv, st, ev).value.server
      && r.value.state == Classify(srv, st, ev).value.state
  {
    match Classify(srv, st, ev)
    case Err(e) => Err(e)
    case Ok(s) =>
      if !s.changed then Ok(Reaction(s.server, s.state, None))
      else
        match HandleChange(s.state, st, pidExists)
        case Err(e) => Err(e)
        case Ok(n) => Ok(Reaction(s.server, s.state, Some(n)))
  }

  /**
   Once a pid is known, copying changes nothing but `closed`: the same server, the same record
   and a notification on exactly the same events.
   */
  lemma CopyingChangesOnlyClosed(srv: Server, st: WindowState, ev: Event, pidExists: nat -> bool)
    requires st.pid.Some?
    ensures var a := HandleXEvent(srv, st, ev, pidExists);
            var c := HandleXEventCopying(srv, st, ev, pidExists);
            && (a.Ok? <==> c.Ok?)
            && (a.Ok? ==> a.value.server == c.value.server && a.value.state == c.value.state)
            && (a.Ok? ==> (a.value.note.Some? <==> c.value.note.Some?))
            && (a.Ok? && a.value.note.Some? ==> a.value.note.value.current == c.value.note.value.current)
  {
  }

  /**
   Focus moves from W1 (pid 100, which has exited) to W2 (pid 200, alive). As written the
   watcher asks about pid 200 and reports the process open; the copy asks about pid 100.
   */
  lemma AliasingReportsWrongProcess()
    ensures var alive := (p: nat) => p == 200;
            var a := HandleXEvent(Scenarios.SwitchedToBrowser, Scenarios.EditorFocused, Scenarios.ActiveChanged, alive);
            var c := HandleXEventCopying(Scenarios.SwitchedToBrowser, Scenarios.EditorFocused, Scenarios.ActiveChanged, alive);
            && a.Ok? && a.value.note.Some? && !a.value.note.value.closed
            && c.Ok? && c.value.note.Some? && c.value.note.value.closed
  {
  }
}
