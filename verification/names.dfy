/** Resolving a window's name (`_get_window_name_inner`) and tracking title changes (`get_window_name`). */
module Names {
  import opened Wrappers
  import opened XServer
  import opened Decimal
  import opened State

  /** The properties tried, in order, as the window's name. */
  const NameAtoms: seq<Atom> := [NetWmName, WmName, NetWmPid]

  const Undecodable: string := "<could not decode characters>"
  const Unnamed: string := "<unnamed window>"

  /** A present property as a name: byte payloads are decoded as Latin-1, other payloads kept as they are. */
  function AsTitle(v: PropValue): (t: Title)
    ensures v.Text? ==> t == Str(v.text)
    ensures v.Bytes? ==> t.Str? && IsLatin1(t.str) && Latin1Encode(t.str) == v.bytes
    ensures v.Cardinals? ==> t == Nums(v.cards)
  {
    match v
    case Text(s) => Str(s)
    case Bytes(b) => Latin1RoundTrip(b); Str(Latin1Decode(b))
    case Cardinals(ns) => Nums(ns)
  }

  /** The placeholder a read leaves behind when it yields no name. */
  function PlaceholderFor(p: PropRead): string
  {
    if p.DecodeError? then Undecodable else Unnamed
  }

  /** `i` is the first position of `atoms` whose property is set on `w`. */
  ghost predicate FirstPresentAt(w: Window, atoms: seq<Atom>, i: int)
  {
    && 0 <= i < |atoms|
    && GetProperty(w, atoms[i]).Present?
    && forall j :: 0 <= j < i ==> !GetProperty(w, atoms[j]).Present?
  }

  /** How the fallback loop ends: it returned a name, or it ran out of atoms holding a placeholder. */
  datatype LoopExit = Returned(title: Title) | FellThrough(placeholder: string)

  /**
   The fallback loop over `atoms`: the first set property is the name; a read that raised a
   decode error or found nothing only overwrites the placeholder and moves on.
   */
  function NameLoop(w: Window, atoms: seq<Atom>, placeholder: string): (r: LoopExit)
    ensures r.Returned? <==> exists i :: 0 <= i < |atoms| && GetProperty(w, atoms[i]).Present?
    ensures forall i :: FirstPresentAt(w, atoms, i) ==> r == Returned(AsTitle(GetProperty(w, atoms[i]).value))
    ensures r.FellThrough? ==>
      r.placeholder == if |atoms| == 0 then placeholder else PlaceholderFor(GetProperty(w, atoms[|atoms| - 1]))
    decreases |atoms|
  {
    if |atoms| == 0 then FellThrough(placeholder)
    else
      match GetProperty(w, atoms[0])
      case Present(v) => Returned(AsTitle(v))
      case DecodeError =>
        var r := NameLoop(w, atoms[1..], Undecodable);
        ShiftFirstPresent(w, atoms);
        r
      case Absent =>
        var r := NameLoop(w, atoms[1..], Unnamed);
        ShiftFirstPresent(w, atoms);
        r
  }

  /** When the head of `atoms` is unset, the first set property of `atoms` is that of its tail, one position later. */
  lemma ShiftFirstPresent(w: Window, atoms: seq<Atom>)
    requires |atoms| > 0 && !GetProperty(w, atoms[0]).Present?
    ensures forall i :: FirstPresentAt(w, atoms, i) ==> i > 0 && FirstPresentAt(w, atoms[1..], i - 1)
    ensures (exists i :: 0 <= i < |atoms| && GetProperty(w, atoms[i]).Present?) <==>
            (exists i :: 0 <= i < |atoms[1..]| && GetProperty(w, atoms[1..][i]).Present?)
  {
  }

  /** The name shown for a window that has no usable name property. */
  function FallbackTitle(placeholder: string, id: WinId): string
  {
    placeholder + " (XID: " + NatToDecimal(id) + ")"
  }

  /** Which of the three name atoms comes first among the set ones. */
  lemma NameAtomsFirstPresent(w: Window)
    ensures GetProperty(w, NetWmName).Present? ==> FirstPresentAt(w, NameAtoms, 0)
    ensures !GetProperty(w, NetWmName).Present? && GetProperty(w, WmName).Present? ==>
      FirstPresentAt(w, NameAtoms, 1)
    ensures (!GetProperty(w, NetWmName).Present? && !GetProperty(w, WmName).Present? &&
             GetProperty(w, NetWmPid).Present?) ==> FirstPresentAt(w, NameAtoms, 2)
  {
  }

  /**
   `_get_window_name_inner`: `_NET_WM_NAME`, then `WM_NAME`, then `_NET_WM_PID`; the first that is
   set is the name. If none is, the name is the placeholder left by the last read, annotated
   with the window id.
   */
  function GetWindowNameInner(h: Handle): (t: Title)
    ensures var net := GetProperty(h.window, NetWmName);
            net.Present? ==> t == AsTitle(net.value)
    ensures var net := GetProperty(h.window, NetWmName);
            var wm := GetProperty(h.window, WmName);
            !net.Present? && wm.Present? ==> t == AsTitle(wm.value)
    ensures var net := GetProperty(h.window, NetWmName);
            var wm := GetProperty(h.window, WmName);
            var pid := GetProperty(h.window, NetWmPid);
            !net.Present? && !wm.Present? && pid.Present? ==> t == AsTitle(pid.value)
    ensures var net := GetProperty(h.window, NetWmName);
            var wm := GetProperty(h.window, WmName);
            var pid := GetProperty(h.window, NetWmPid);
            !net.Present? && !wm.Present? && !pid.Present? ==> t == Str(FallbackTitle(PlaceholderFor(pid), h.id))
  {
    NameAtomsFirstPresent(h.window);
    match NameLoop(h.window, NameAtoms, Unnamed)
    case Returned(title) => title
    case FellThrough(placeholder) => Str(FallbackTitle(placeholder, h.id))
  }

  /** A window without a usable name is still named: the result is never empty. */
  lemma FallbackNeverEmpty(h: Handle)
    requires forall i :: 0 <= i < |NameAtoms| ==> !GetProperty(h.window, NameAtoms[i]).Present?
    ensures GetWindowNameInner(h).Str? && |GetWindowNameInner(h).str| > 0
  {
  }

  /** Two fallback names are equal only for the same placeholder and the same window id. */
  lemma {:induction false} FallbackTitlesDistinguish(p: string, q: string, m: WinId, n: WinId)
    requires p in {Undecodable, Unnamed} && q in {Undecodable, Unnamed}
    requires FallbackTitle(p, m) == FallbackTitle(q, n)
    ensures p == q && m == n
  {
    var fp := FallbackTitle(p, m);
    var fq := FallbackTitle(q, n);
    assert fp[1] == p[1] && fq[1] == q[1];
    assert p == q;
    var k := |p + " (XID: "|;
    assert fp[k..|fp| - 1] == NatToDecimal(m);
    assert fq[k..|fq| - 1] == NatToDecimal(n);
    DecimalInjective(m, n);
  }

  /** The `int(value[0])` read of `_NET_WM_PID` made after a title change. */
  function PidOf(p: PropRead): (r: Result<nat, Fault>)
    ensures p.Absent? ==> r == Err(NoPidProperty)
    ensures p.DecodeError? ==> r == Err(PidUndecodable)
    ensures p.Present? && p.value.Cardinals? ==>
      r == if |p.value.cards| > 0 then Ok(p.value.cards[0]) else Err(EmptyPidProperty)
    ensures p.Present? && p.value.Bytes? ==>
      r == if |p.value.bytes| > 0 then Ok(p.value.bytes[0] as nat) else Err(EmptyPidProperty)
    ensures p.Present? && p.value.Text? && |p.value.text| > 0 ==>
      (r.Ok? <==> '0' <= p.value.text[0] <= '9')
    ensures r.Ok? && p.Present? && p.value.Text? ==>
      |p.value.text| > 0 && IsDigits([p.value.text[0]]) && DecimalValue([p.value.text[0]]) == r.value
  {
    match p
    case Absent => Err(NoPidProperty)
    case DecodeError => Err(PidUndecodable)
    case Present(Cardinals(ns)) => if |ns| > 0 then Ok(ns[0]) else Err(EmptyPidProperty)
    case Present(Bytes(b)) => if |b| > 0 then Ok(b[0] as nat) else Err(EmptyPidProperty)
    case Present(Text(s)) =>
      if |s| == 0 then Err(EmptyPidProperty)
      else if '0' <= s[0] <= '9' then Ok(s[0] as int - '0' as int)
      else Err(PidNotInteger)
  }

  /** What `get_window_name` returns, with the state it leaves behind. */
  datatype Naming = Naming(state: WindowState, title: Option<Title>, changed: bool)

  /**
   `get_window_name`: a window that does not resolve reports no change and touches nothing.
   Otherwise the resolved name is compared with the stored one; on a difference the stored
   title becomes that name and the stored pid the first `_NET_WM_PID` entry. The stored id is
   never touched.
   */
  function GetWindowName(srv: Server, st: WindowState, id: Option<WinId>): (r: Result<Naming, Fault>)
    ensures !Resolves(srv, id) ==> r == Ok(Naming(st, st.title, false))
    ensures r.Ok? ==> r.value.title == r.value.state.title && r.value.state.xid == st.xid
    ensures r.Ok? ==> (r.value.changed <==> r.value.state.title != st.title)
    ensures r.Ok? ==>
      (r.value.changed <==> Resolves(srv, id) && Some(GetWindowNameInner(WindowObj(srv, id).value)) != st.title)
    ensures r.Ok? && !r.value.changed ==> r.value.state == st
    ensures r.Ok? && r.value.changed ==>
      var h := WindowObj(srv, id).value;
      && r.value.state.title == Some(GetWindowNameInner(h))
      && r.value.state.pid.Some?
      && PidOf(GetProperty(h.window, NetWmPid)) == Ok(r.value.state.pid.value)
    ensures r.Err? <==>
      && Resolves(srv, id)
      && Some(GetWindowNameInner(WindowObj(srv, id).value)) != st.title
      && PidOf(GetProperty(WindowObj(srv, id).value.window, NetWmPid)).Err?
    ensures r.Err? ==> r.error == PidOf(GetProperty(WindowObj(srv, id).value.window, NetWmPid)).error
  {
    match WindowObj(srv, id)
    case None => Ok(Naming(st, st.title, false))
    case Some(h) =>
      var t := GetWindowNameInner(h);
      if Some(t) == st.title then Ok(Naming(st, st.title, false))
      else
        match PidOf(GetProperty(h.window, NetWmPid))
        case Err(e) => Err(e)
        case Ok(p) =>
          var st1 := st.(title := Some(t), pid := Some(p));
          Ok(Naming(st1, st1.title, true))
  }

  /** Resolving the same window twice against an unchanged server reports no change the second time. */
  lemma GetWindowNameIdempotent(srv: Server, st: WindowState, id: Option<WinId>)
    requires GetWindowName(srv, st, id).Ok?
    ensures var n := GetWindowName(srv, st, id).value;
            GetWindowName(srv, n.state, id) == Ok(Naming(n.state, n.title, false))
  {
  }

  /** Resolving a name keeps the state consistent once a window id is stored. */
  lemma GetWindowNameKeepsConsistent(srv: Server, st: WindowState, id: Option<WinId>)
    requires Consistent(st) && st.xid.Some? && GetWindowName(srv, st, id).Ok?
    ensures Consistent(GetWindowName(srv, st, id).value.state)
  {
  }

  /** When `_NET_WM_PID` itself serves as the name, the stored pid is its first entry. */
  lemma PidNameAgreesWithPid(srv: Server, st: WindowState, id: Option<WinId>)
    requires Resolves(srv, id)
    requires var w := WindowObj(srv, id).value.window;
      && !GetProperty(w, NetWmName).Present? && !GetProperty(w, WmName).Present?
      && GetProperty(w, NetWmPid).Present? && GetProperty(w, NetWmPid).value.Cardinals?
    requires GetWindowName(srv, st, id).Ok? && GetWindowName(srv, st, id).value.changed
    ensures var s := GetWindowName(srv, st, id).value.state;
            s.title.value.Nums? && s.title.value.nums[0] == s.pid.value
  {
  }
}
