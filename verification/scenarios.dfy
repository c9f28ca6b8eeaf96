/** The start-up and switching scenarios of the watcher, on concrete windows. */
module Scenarios {
  import opened Wrappers
  import opened XServer
  import opened State
  import opened Dispatch
  import Names

  const W1: WinId := 1
  const W2: WinId := 2

  function Named(name: string, pid: nat): Window
  {
    Window(map[NetWmName := Present(Text(name)), NetWmPid := Present(Cardinals([pid]))])
  }

  const Editor := Named("Editor", 100)
  const Browser := Named("Browser", 200)
  const EditorFocused := WindowState(Some(W1), Some(Str("Editor")), Some(100))
  const BrowserFocused := WindowState(Some(W2), Some(Str("Browser")), Some(200))

  /** Focus has moved to W2 while the watcher still tracks W1. */
  const SwitchedToBrowser := Server(Some([W2]), map[W1 := Editor, W2 := Browser], {W1})

  const ActiveChanged := PropertyNotify(0, NetActiveWindow)

  /** Priming on W1 reports W1's record and subscribes W1. */
  lemma PrimeReportsFocusedWindow(pidExists: nat -> bool)
    ensures Prime(Server(Some([W1]), map[W1 := Editor], {}), pidExists)
         == Ok(Reaction(Server(Some([W1]), map[W1 := Editor], {W1}), EditorFocused,
                        Some(Notification(!pidExists(100), EditorFocused))))
  {
    var srv := Server(Some([W1]), map[W1 := Editor], {});
    assert srv.subscribed + {W1} == {W1};
    var h := WindowObj(srv, Some(W1)).value;
    assert Names.GetWindowNameInner(h) == Str("Editor");
  }

  /** A focus switch to W2 reports W2's record and moves the subscription from W1 to W2. */
  lemma SwitchReportsNewWindow(pidExists: nat -> bool)
    ensures HandleXEvent(SwitchedToBrowser, EditorFocused, ActiveChanged, pidExists)
         == Ok(Reaction(SwitchedToBrowser.(subscribed := {W2}), BrowserFocused,
                        Some(Notification(!pidExists(200), BrowserFocused))))
  {
    assert SwitchedToBrowser.subscribed - {W1} + {W2} == {W2};
  }

  /** A title change of the focused window reports the new title with the same id and pid. */
  lemma TitleChangeReportsNewTitle(pidExists: nat -> bool)
    ensures var renamed := Named("Browser - tab2", 200);
            var srv := Server(Some([W2]), map[W2 := renamed], {W2});
            var now := BrowserFocused.(title := Some(Str("Browser - tab2")));
            HandleXEvent(srv, BrowserFocused, PropertyNotify(W2, NetWmName), pidExists)
              == Ok(Reaction(srv, now, Some(Notification(!pidExists(200), now))))
  {
  }
}
