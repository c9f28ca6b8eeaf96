# wmtree `watch.py` — focus and title change detection

This project models the change-detection core of the wmtree X11 watcher (`watch.py`).
The watcher follows the window manager's `_NET_ACTIVE_WINDOW` and the focused window's
title. When either changes, it reports the tracked record `{xid, title, pid}` together with a
`closed` flag taken from the process registry.

The X server is replaced by an abstract value (`XServer.Server`), which holds:

- the root window's `_NET_ACTIVE_WINDOW` id list, or `None` when the root does not carry it;
- a partial map from window id to that window's properties;
- the set of windows whose event mask is `PropertyChangeMask`.

A property read has one outcome among: absent, decode error, or present with text, bytes or
cardinals. Cardinals are unbounded naturals here; X limits them to 32 bits. The tracked record is the immutable `State.WindowState`. Every operation of
the source is a pure function that returns the next server and record. An uncaught Python
exception raised by a modelled read or lookup becomes `Err(Fault)`. Nothing recovers from a fault that the source does not catch.

Modules:

- `Wrappers`: Option and Result.
- `XServer`: the abstract server, the resource guard `window_obj` (`WindowObj`), event-mask changes, and Latin-1 decoding.
- `Decimal`: the decimal rendering of a window id.
- `State`: the tracked record, its titles and the faults.
- `Tracker`: `get_active_window`.
- `Names`: `_get_window_name_inner` and `get_window_name`.
- `Dispatch`: `handle_xevent`, `handle_change`, and the start-up priming.
- `Scenarios`: concrete start-up, switch and rename runs.
- `Intended`: the corrected `prev_seen` copy (see Findings).

The model follows the code as written, including these behaviours:

- A window whose handle does not resolve reports no title change at all (watch.py:99-104). The
  title is not compared against `None`.
- A decode error on `_NET_WM_NAME` does not stop the fallback loop (watch.py:70-84). Only the
  *last* read, that of `_NET_WM_PID`, picks the placeholder.
- A name property that is set but empty is returned as the empty name (watch.py:76-82), so only
  the fallback name is guaranteed non-empty.
- When both name properties are unset, the cardinal list of `_NET_WM_PID` itself becomes the
  title (watch.py:70, watch.py:82). That is why `State.Title` has a `Nums` case.
- `prev_seen` is the same dict as `last_seen` (watch.py:34, watch.py:106). So `handle_change`
  asks the registry about the *current* pid.
- A missing or unreadable `_NET_WM_PID` after a title change raises (watch.py:108). It is
  modelled as an error outcome, not as "pid left unset".

## Model

| member | source | states |
|---|---|---|
| XServer.WindowObj | watch.py:37-46 | a handle exists exactly when the id is neither `None` nor `0` and the server still knows the window; the handle carries that id and window |
| XServer.WindowObjReadsOnlyWindows | watch.py:37-46 | what an id resolves to depends only on the window map, so changing subscriptions never changes which windows resolve |
| XServer.SetEventMask | watch.py:56-63 | changing one window's event mask subscribes or unsubscribes exactly that window and leaves every other window, the root property and the window map alone |
| XServer.Latin1RoundTrip | watch.py:78-81 | Latin-1 decoding of a byte payload is total and loses nothing: re-encoding the decoded text gives back the bytes |
| XServer.Latin1Onto | watch.py:78-81 | every string whose characters fit one byte is the Latin-1 decoding of some byte payload, namely its encoding |
| XServer.Latin1Injective | watch.py:78-81 | two different byte payloads never decode to the same title |
| Decimal.NatToDecimal | watch.py:86 | the id in `(XID: n)` is a non-empty run of digits with no leading zero except for `0` |
| Decimal.DecimalRoundTrip | watch.py:86 | reading the rendered id back gives the id |
| Tracker.GetActiveWindow | watch.py:49-65 | takes the first `_NET_ACTIVE_WINDOW` entry (fails when the property is unset or empty); reports a change iff it differs from the stored id; afterwards the stored id is that entry and title and pid are untouched; on a change the old window loses its subscription only if it resolves and the new one gains it only if it resolves; without a change nothing is modified |
| Tracker.ActiveWindowIdempotent | watch.py:54-65 | a second observation with the property unchanged reports no change and modifies nothing |
| Tracker.ActiveWindowKeepsConsistent | watch.py:60 | observing focus keeps "title and pid are set together, and only with an id" |
| Names.AsTitle | watch.py:76-82 | a present text payload is the name as it is, a byte payload is its Latin-1 decoding, a cardinal payload is kept as numbers |
| Names.NameLoop | watch.py:70-84 | the loop returns a name iff some atom's property is set, and then it is the first set one; otherwise its placeholder is the one left by the last read (decode error or unset) |
| Names.GetWindowNameInner | watch.py:68-86 | `_NET_WM_NAME`, then `WM_NAME`, then `_NET_WM_PID`, first set one wins; if none is set the name is `<placeholder> (XID: <id>)` with `<could not decode characters>` iff the `_NET_WM_PID` read raised a decode error, else `<unnamed window>` (the helpers `PlaceholderFor`, watch.py:73-84, and `FallbackTitle`, watch.py:86, build that string) |
| Names.FallbackNeverEmpty | watch.py:73-86 | a window with none of the three properties still gets a non-empty string name |
| Names.FallbackTitlesDistinguish | watch.py:86 | two fallback names are equal only for the same placeholder and the same window id |
| Names.PidOf | watch.py:108 | `int(value[0])` of `_NET_WM_PID`: the first cardinal or byte, a leading decimal digit of text; unset, undecodable, empty or non-digit payloads raise |
| Names.GetWindowName | watch.py:89-110 | an unresolvable window gives `(stored title, False)` and changes nothing; otherwise a change is reported iff the resolved name differs from the stored title; on a change title becomes that name and pid the `_NET_WM_PID` value (or the call fails, with that read's fault, if that read fails); the id is never touched; without a change nothing is modified |
| Names.GetWindowNameIdempotent | watch.py:99-110 | resolving the same window again against an unchanged server reports no change |
| Names.GetWindowNameKeepsConsistent | watch.py:105-108 | title and pid are set together, so consistency of the record is kept |
| Names.PidNameAgreesWithPid | watch.py:68-108 | when `_NET_WM_PID` is the name, the stored pid is its first entry |
| Dispatch.HandleChange | watch.py:129-131 | `closed` iff the registry does not know the previous record's pid; a `None` pid raises; the callback gets the new record |
| Dispatch.Classify | watch.py:113-123 | non-property events and other atoms change nothing; an active-window event resolves the new window's name only when focus moved; a name event resolves the stored window's name; the change flag is set iff the stored title changed, and the pid changes only with it |
| Dispatch.HandleXEvent | watch.py:113-126 | the resulting server and record are those the classification produced, and it fails exactly when and with the fault the classification fails; irrelevant events change nothing; a notification is produced iff the stored title changed; its record is the current one and its `closed` asks about the current pid, since the previous record is the same object |
| Dispatch.HandleXEventKeepsConsistent | watch.py:113-126 | every event keeps "title and pid are set together, and only with an id" |
| Dispatch.NameEventKeepsFocus | watch.py:122-123 | a name event never changes the stored id or any subscription |
| Dispatch.SameTitleSwitchIsSilent | watch.py:119-121 | a focus switch to a window whose name equals the stored title records the new id but notifies nothing |
| Dispatch.VanishedWindowIsSilent | watch.py:99-121 | a focus switch to a window that no longer resolves records the new id but notifies nothing |
| Dispatch.RepeatedActiveEventIsSilent | watch.py:119-121 | handling the same active-window event again, with nothing changed, is silent and changes nothing |
| Dispatch.Prime | watch.py:140-142 | priming records the first active id, that window's resolved name as title and its `_NET_WM_PID` value as pid, subscribes it as `get_active_window` does, and reports that record; it succeeds iff the active property has an entry, that window resolves and its pid can be read, and a window that does not resolve fails on the `None` pid; each failure names its fault: no property, empty list, `None` pid, or the pid read's own fault |
| Scenarios.PrimeReportsFocusedWindow | watch.py:140-142 | start-up on "Editor" (pid 100) reports `{W1, Editor, 100}` and subscribes W1 |
| Scenarios.SwitchReportsNewWindow | watch.py:119-126 | switching to "Browser" (pid 200) reports `{W2, Browser, 200}` and moves the subscription to W2 |
| Scenarios.TitleChangeReportsNewTitle | watch.py:122-126 | a rename of the focused window reports the new title with the same id and pid |
| Intended.HandleXEventCopying | watch.py:106 | with the record copied before the event, `closed` asks about the pid that was tracked before the change; the server and record are those the classification produced; it fails exactly when the classification fails (with its fault) or a change is seen while no pid was tracked (`None` pid) |
| Intended.CopyingChangesOnlyClosed | watch.py:105-126 | once a pid is known, copying gives the same server, record and notification events as the code as written |
| Intended.AliasingReportsWrongProcess | watch.py:34 | when focus moves away from an exited process to a live one, the code as written reports `closed = false`; the copy reports `true` |

## Left out

- Connecting to the display, interning atoms, and finding the root window (watch.py:22-31) are not modelled. Atoms are an enumeration and the root is part of the server value.
- Subscribing the root window (watch.py:138) and the blocking `next_event()` loop (watch.py:144-145) are not modelled. Events are inputs to `Dispatch.HandleXEvent`, one at a time.
- The internals of the X client library are not modelled: creating a resource, `get_full_property`, `change_attributes`. They are lookups and updates on the server value, and the guard's `XError` is "the id is not in the window map".
- The root's `_NET_ACTIVE_WINDOW` is modelled as a list of window ids, not as an arbitrary property payload.
- `psutil.pid_exists` is the oracle parameter `pidExists`. Its own handling of negative and zero pids is therefore not modelled.
- Cardinal payloads (window ids, pids) are not bounded to 32 bits. The core only compares and copies them, so the bound changes no outcome.
- The `print` calls of `handle_change` (watch.py:132-133) are replaced by the returned `Notification`.
- The UTF-8 decoding inside the client library is not modelled. Only its outcome, text or a decode-error flag, is.
- A window destroyed after its handle was created and before a property read is not modelled. In watch.py the `XError` that read raises (watch.py:72, watch.py:108) is outside the guard's `try` and ends the watcher; here each step reads one server snapshot, so a resolved window stays readable for the whole step.
- Names.PidOf: Python's `int()` of a single character also accepts non-ASCII decimal digits. The model accepts only `0`–`9`.

## Findings

| source | as written | input that shows it | evidently intended | confidence | as-written member | corrected member |
|---|---|---|---|---|---|---|
| watch.py:106 | `prev_seen = last_seen` binds the same dict (as at watch.py:34). `handle_change` therefore checks the pid of the window that just gained focus. | Focus on W1 with pid 100, which has exited. Focus moves to W2, "Browser", pid 200, which is alive. `closed` comes out `False`. | `prev_seen` holds a copy of the record from before the change. `closed` then says whether pid 100 is gone, here `True`. | high (not executed) | `Dispatch.HandleXEvent`, exhibited by `Intended.AliasingReportsWrongProcess` | `Intended.HandleXEventCopying`, proved by `Intended.CopyingChangesOnlyClosed` |
