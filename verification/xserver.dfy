/**
 The X server as the watcher observes it. The protocol connection, atom interning and
 the client library are replaced by plain values: the root window's `_NET_ACTIVE_WINDOW`
 list, a partial map from window id to that window's properties, and the set of windows
 that currently deliver property-change events to the watcher.
 */
module XServer {
  import opened Wrappers

  newtype Byte = x: int | 0 <= x < 256

  /** An X window id; `0` is the "no window" id that `window_obj` treats as falsy. */
  type WinId = nat

  /** The interned atoms the watcher compares events against; every other atom is `OtherAtom`. */
  datatype Atom = NetActiveWindow | NetWmName | WmName | NetWmPid | OtherAtom

  /** The payload of a property that is set: already-decoded text, raw 8-bit data, or 32-bit cardinals. */
  datatype PropValue =
    | Text(text: string)
    | Bytes(bytes: seq<Byte>)
    | Cardinals(cards: seq<nat>)

  /** The observable outcome of reading one property of a window. */
  datatype PropRead = Absent | Present(value: PropValue) | DecodeError

  datatype Window = Window(props: map<Atom, PropRead>)

  datatype Server = Server(rootActive: Option<seq<WinId>>, windows: map<WinId, Window>, subscribed: set<WinId>)

  /** A delivered event; only property notifications carry information the watcher uses. */
  datatype Event = PropertyNotify(window: WinId, atom: Atom) | OtherEvent

  /** A live window resource: its id together with the window it resolved to. */
  datatype Handle = Handle(id: WinId, window: Window)

  /** Reading a property of a window; a property the window does not carry reads as absent. */
  function GetProperty(w: Window, a: Atom): PropRead
  {
    if a in w.props then w.props[a] else Absent
  }

  /**
   The resource guard: a handle exists only for a truthy id (neither `None` nor `0`)
   whose window the server still knows; every other id yields no handle instead of an error.
   */
  function WindowObj(srv: Server, id: Option<WinId>): (h: Option<Handle>)
    ensures h.Some? <==> id.Some? && id.value != 0 && id.value in srv.windows
    ensures h.Some? ==> h.value.id == id.value && h.value.window == srv.windows[id.value]
  {
    match id
    case None => None
    case Some(i) => if i != 0 && i in srv.windows then Some(Handle(i, srv.windows[i])) else None
  }

  predicate Resolves(srv: Server, id: Option<WinId>)
  {
    WindowObj(srv, id).Some?
  }

  /**
   Setting the event mask of a resolved window to `PropertyChangeMask` (`subscribe`) or to
   `NoEventMask`: only that window's subscription changes.
   */
  function SetEventMask(srv: Server, h: Handle, subscribe: bool): (r: Server)
    ensures r.rootActive == srv.rootActive && r.windows == srv.windows
    ensures h.id in r.subscribed <==> subscribe
    ensures forall w :: w != h.id ==> (w in r.subscribed <==> w in srv.subscribed)
  {
    if subscribe then srv.(subscribed := srv.subscribed + {h.id})
    else srv.(subscribed := srv.subscribed - {h.id})
  }

  /** Whether and to what a window resolves depends only on the window map, never on subscriptions. */
  lemma WindowObjReadsOnlyWindows(a: Server, b: Server, id: Option<WinId>)
    requires a.windows == b.windows
    ensures WindowObj(a, id) == WindowObj(b, id)
  {
  }

  /** Latin-1 decoding: every byte is the code point of one character, so it never fails. */
  function Latin1Decode(b: seq<Byte>): (s: string)
    ensures |s| == |b|
    ensures forall i :: 0 <= i < |s| ==> s[i] as int < 256
  {
    seq(|b|, i requires 0 <= i < |b| => (b[i] as int) as char)
  }

  predicate IsLatin1(s: string)
  {
    forall i :: 0 <= i < |s| ==> s[i] as int < 256
  }

  /** The inverse of `Latin1Decode`, defined on strings whose characters all fit one byte. */
  function Latin1Encode(s: string): (b: seq<Byte>)
    requires IsLatin1(s)
    ensures |b| == |s|
  {
    seq(|s|, i requires 0 <= i < |s| => (s[i] as int) as Byte)
  }

  /** Decoding loses nothing: encoding the decoded text gives back the bytes. */
  lemma Latin1RoundTrip(b: seq<Byte>)
    ensures IsLatin1(Latin1Decode(b))
    ensures Latin1Encode(Latin1Decode(b)) == b
  {
  }

  /** Decoding is onto the Latin-1 strings: every such string is the decoding of its encoding. */
  lemma Latin1Onto(s: string)
    requires IsLatin1(s)
    ensures Latin1Decode(Latin1Encode(s)) == s
  {
  }

  /** Hence decoding never identifies two different byte strings. */
  lemma Latin1Injective(a: seq<Byte>, b: seq<Byte>)
    requires Latin1Decode(a) == Latin1Decode(b)
    ensures a == b
  {
    Latin1RoundTrip(a);
    Latin1RoundTrip(b);
  }
}
