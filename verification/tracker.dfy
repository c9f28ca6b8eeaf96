/** Tracking which window holds focus (`get_active_window`). */
module Tracker {
  import opened Wrappers
  import opened XServer
  import opened State

  /** What one focus observation returns: the updated server and state, the active id, and whether it moved. */
  datatype Focus = Focus(server: Server, state: WindowState, winId: WinId, changed: bool)

  /**
   Reads the first id of the root's `_NET_ACTIVE_WINDOW`. When it differs from the stored id,
   the old window (if it still resolves) stops delivering property events, the stored id is
   replaced, and the new window (if it resolves) starts delivering them.
   */
  function GetActiveWindow(srv: Server, st: WindowState): (r: Result<Focus, Fault>)
    ensures srv.rootActive.None? ==> r == Err(NoActiveWindowProperty)
    ensures srv.rootActive.Some? && |srv.rootActive.value| == 0 ==> r == Err(EmptyActiveWindowList)
    ensures r.Ok? <==> srv.rootActive.Some? && |srv.rootActive.value| > 0
    ensures r.Ok? ==>
      && r.value.winId == srv.rootActive.value[0]
      && (r.value.changed <==> st.xid != Some(r.value.winId))
      && r.value.state == st.(xid := Some(r.value.winId))
      && r.value.server.rootActive == srv.rootActive
      && r.value.server.windows == srv.windows
    ensures r.Ok? && !r.value.changed ==> r.value.server == srv && r.value.state == st
    ensures r.Ok? && r.value.changed ==>
      forall w :: w in r.value.server.subscribed <==>
        if w == r.value.winId then Resolves(srv, Some(w)) || w in srv.subscribed
        else w in srv.subscribed && !(st.xid == Some(w) && Resolves(srv, Some(w)))
  {
    match srv.rootActive
    case None => Err(NoActiveWindowProperty)
    case Some(ids) =>
      if |ids| == 0 then Err(EmptyActiveWindowList)
      else
        var winId := ids[0];
        if Some(winId) == st.xid then Ok(Focus(srv, st, winId, false))
        else
          var srv1 := match WindowObj(srv, st.xid)
                      case Some(oldWin) => SetEventMask(srv, oldWin, false)
                      case None => srv;
          var st1 := st.(xid := Some(winId));
          var srv2 := match WindowObj(srv1, Some(winId))
                      case Some(newWin) => SetEventMask(srv1, newWin, true)
                      case None => srv1;
          Ok(Focus(srv2, st1, winId, true))
  }

  /** Observing focus twice with nothing changed in between reports no change the second time. */
  lemma ActiveWindowIdempotent(srv: Server, st: WindowState)
    requires GetActiveWindow(srv, st).Ok?
    ensures var f := GetActiveWindow(srv, st).value;
            GetActiveWindow(f.server, f.state) == Ok(Focus(f.server, f.state, f.winId, false))
  {
  }

  /** Observing focus keeps the state consistent. */
  lemma ActiveWindowKeepsConsistent(srv: Server, st: WindowState)
    requires Consistent(st) && GetActiveWindow(srv, st).Ok?
    ensures Consistent(GetActiveWindow(srv, st).value.state)
  {
  }
}
