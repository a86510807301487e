/** The Binary Ninja side of the plugin: one `BinDbgSession` per open binary. It mirrors
    the debugger's breakpoints and instruction pointer as highlights, annotates vtable
    calls with comments, and forwards the user's breakpoint and instruction-pointer
    changes to WinDbg.

    Every method is specified by a pure function over `SessionState`, a value holding the
    session's fields together with the parts of the binary view it writes; the lemmas
    about those functions carry the properties. */
module Analyzer {
  import opened Common
  import opened PyText
  import opened Wire
  import opened Branch

  /** The highlight colours the session uses. */
  datatype Color =
    | NoColor         // no_color: highlight removed
    | IpColor         // ip_color, yellow
    | EnabledBpColor  // enabled_bp_color, red
    | HitBpColor      // hit_bp_color, orange
    | CondJumpColor   // cond_jump_color, green

  /** What the session asks of Binary Ninja about the binary. */
  datatype Image = Image(
    start: int,                       // bv.start, the load base
    isValidOffset: int -> bool,       // bv.is_valid_offset(addr)
    isConditional: int -> bool,       // the instruction lifts to LLIL_IF
    disassembly: int -> string,       // bv.get_disassembly(addr)
    instrLength: int -> int,          // bv.get_instruction_length(addr)
    symbolAt: int -> Option<string>)  // bv.get_symbol_at(addr).full_name, if a symbol is there

  /** A session's fields and the parts of its view it writes, as one value. */
  datatype SessionState = SessionState(
    bps: set<int>,                 // self.bps
    ip: Option<int>,               // self.ip
    connOpen: bool,                // self.conn can still send
    outbox: seq<Message>,          // every message sent, in order
    registered: bool,              // 'bindbg' in bv.session_data
    highlights: map<int, Color>,   // instruction highlights
    comments: map<int, string>,    // instruction comments
    cursor: Option<int>)           // where bv.navigate last went

  /** `addr` carries highlight `c`. */
  predicate HasColor(h: map<int, Color>, addr: int, c: Color) {
    addr in h && h[addr] == c
  }

  /** A state, and whether the operation that produced it raised a Python exception
      part way (the changes made before the exception stay). */
  datatype Step = Step(state: SessionState, raised: bool)

  // ---------------------------------------------------------------- the operations, as values

  /** Every address of `S` highlighted with `no_color`, the others as in `h`. */
  function Unhighlight(h: map<int, Color>, S: set<int>): (r: map<int, Color>)
    ensures r.Keys == h.Keys + S
    ensures forall a :: a in S ==> r[a] == NoColor
    ensures forall a :: a in h && a !in S ==> r[a] == h[a]
  {
    map a | a in h.Keys + S :: if a in S then NoColor else h[a]
  }

  /** Clearing one more pending address is one more map update. */
  lemma UnhighlightOneMore(h: map<int, Color>, all: set<int>, pending: set<int>, b: int)
    requires b in pending && b in all
    ensures Unhighlight(h, all - (pending - {b})) == Unhighlight(h, all - pending)[b := NoColor]
  {
    var done := all - (pending - {b});
    assert done == (all - pending) + {b};
    var l, r := Unhighlight(h, done), Unhighlight(h, all - pending)[b := NoColor];
    assert l.Keys == r.Keys;
    forall a | a in l ensures l[a] == r[a] {
      if a != b && a !in all - pending {
        assert a !in done;
      }
    }
  }

  /** `stop`: forget the session, close the connection, delete every breakpoint without
      telling WinDbg, and clear a non-zero instruction pointer. */
  function StopSpec(s: SessionState): (r: SessionState)
    ensures r.bps == {} && !r.registered && !r.connOpen && !Truthy(r.ip)
    ensures r.outbox == s.outbox && r.comments == s.comments && r.cursor == s.cursor
    ensures forall a :: a in s.bps ==> HasColor(r.highlights, a, NoColor)
    ensures Truthy(s.ip) ==> r.ip == None && HasColor(r.highlights, s.ip.value, NoColor)
    ensures forall a :: a in s.highlights && a !in s.bps && (!Truthy(s.ip) || a != s.ip.value) ==>
      a in r.highlights && r.highlights[a] == s.highlights[a]
  {
    var cleared := Unhighlight(s.highlights, s.bps);
    if Truthy(s.ip) then
      s.(registered := false, connOpen := false, bps := {}, highlights := cleared[s.ip.value := NoColor], ip := None)
    else
      s.(registered := false, connOpen := false, bps := {}, highlights := cleared)
  }

  /** `send`: the message goes out on an open connection; on a closed one the `IOError`
      makes the session stop. */
  function SendSpec(s: SessionState, m: Message): SessionState {
    if s.connOpen then s.(outbox := s.outbox + [m]) else StopSpec(s)
  }

  /** `set_bp(addr, came_from_binja)`. */
  function SetBpSpec(s: SessionState, start: int, addr: int, fromBinja: bool): (r: SessionState)
    ensures HasColor(r.highlights, addr, EnabledBpColor) && r.ip == (if fromBinja then SendSpec(s, AddrMessage("set_bp", addr - start)).ip else s.ip)
    ensures s.connOpen || !fromBinja ==>
      r.bps == s.bps + {addr} && r.connOpen == s.connOpen &&
      r.outbox == s.outbox + (if fromBinja then [AddrMessage("set_bp", addr - start)] else [])
    ensures !s.connOpen && fromBinja ==> r.bps == {addr} && r.outbox == s.outbox && !r.registered
  {
    var s1 := if fromBinja then SendSpec(s, AddrMessage("set_bp", addr - start)) else s;
    s1.(bps := s1.bps + {addr}, highlights := s1.highlights[addr := EnabledBpColor])
  }

  /** `delete_bp(addr, came_from_binja)`. When telling WinDbg fails, the session has
      stopped and emptied `bps`, and `self.bps.remove(addr)` raises `KeyError`. */
  function DeleteBpSpec(s: SessionState, start: int, addr: int, fromBinja: bool): (r: Step)
    ensures addr !in s.bps ==> r == Step(s, false)
    ensures addr in s.bps && (s.connOpen || !fromBinja) ==>
      !r.raised && r.state.bps == s.bps - {addr} && HasColor(r.state.highlights, addr, NoColor) &&
      r.state.ip == s.ip && r.state.connOpen == s.connOpen &&
      r.state.outbox == s.outbox + (if fromBinja then [AddrMessage("delete_bp", addr - start)] else [])
    ensures addr in s.bps && !s.connOpen && fromBinja ==> r == Step(StopSpec(s), true)
  {
    if addr !in s.bps then Step(s, false)
    else
      var s1 := if fromBinja then SendSpec(s, AddrMessage("delete_bp", addr - start)) else s;
      if addr !in s1.bps then Step(s1, true)
      else Step(s1.(bps := s1.bps - {addr}, highlights := s1.highlights[addr := NoColor]), false)
  }

  /** The branch highlight `set_ip` adds for the instruction at `addr`. */
  function BranchOf(img: Image, addr: int, regs: Regs): Resolution {
    BranchTarget(addr, img.isConditional(addr), regs, img.disassembly(addr), img.instrLength(addr))
  }

  /** `set_ip(addr, regs, came_from_binja)`: move the yellow highlight to `addr`, go
      there, and for a conditional jump highlight in green where it will go. */
  function SetIpSpec(s: SessionState, img: Image, addr: int, regs: Regs, fromBinja: bool): (r: Step)
    ensures r.state.ip == Some(addr) && r.state.cursor == Some(addr)
    ensures r.raised <==> BranchOf(img, addr, regs).Raises?
    ensures HasColor(r.state.highlights, addr, IpColor) || BranchOf(img, addr, regs) == Target(addr)
    ensures BranchOf(img, addr, regs).Target? ==> HasColor(r.state.highlights, BranchOf(img, addr, regs).at, CondJumpColor)
    ensures s.connOpen || !fromBinja ==>
      r.state.bps == s.bps && r.state.connOpen == s.connOpen && r.state.registered == s.registered &&
      r.state.outbox == s.outbox + (if fromBinja then [Message("set_ip", map["ip" := Num(addr - img.start)])] else [])
    ensures (s.connOpen || !fromBinja) && Truthy(s.ip) && s.ip.value != addr && BranchOf(img, addr, regs) != Target(s.ip.value) ==>
      HasColor(r.state.highlights, s.ip.value, NoColor)
    ensures forall a :: a in s.highlights && a != addr && (s.ip.None? || a != s.ip.value) &&
                        (s.connOpen || !fromBinja) && BranchOf(img, addr, regs) != Target(a) ==>
      a in r.state.highlights && r.state.highlights[a] == s.highlights[a]
    ensures !s.connOpen && fromBinja ==>
      r.state.bps == {} && !r.state.registered && !r.state.connOpen && r.state.outbox == s.outbox
  {
    var s1 := if fromBinja then SendSpec(s, Message("set_ip", map["ip" := Num(addr - img.start)])) else s;
    var h1 := if Truthy(s1.ip) then s1.highlights[s1.ip.value := NoColor] else s1.highlights;
    var s2 := s1.(highlights := h1[addr := IpColor], ip := Some(addr), cursor := Some(addr));
    match BranchOf(img, addr, regs)
    case NoTarget => Step(s2, false)
    case Raises => Step(s2, true)
    case Target(t) => Step(s2.(highlights := s2.highlights[t := CondJumpColor]), false)
  }

  /** `bp_hit(addr, regs)`: `set_ip`, then orange over the yellow unless `set_ip` raised. */
  function BpHitSpec(s: SessionState, img: Image, addr: int, regs: Regs): (r: Step)
    ensures r.raised <==> BranchOf(img, addr, regs).Raises?
    ensures !r.raised ==> HasColor(r.state.highlights, addr, HitBpColor)
    ensures r.state.ip == Some(addr) && r.state.bps == s.bps && r.state.outbox == s.outbox
    ensures r.state.connOpen == s.connOpen && r.state.registered == s.registered
  {
    var st := SetIpSpec(s, img, addr, regs, false);
    if st.raised then st
    else Step(st.state.(highlights := st.state.highlights[addr := HitBpColor]), false)
  }

  /** How the session names an address: its symbol, or `str(addr)`. */
  function SymbolName(img: Image, addr: int): string {
    match img.symbolAt(addr)
    case Some(name) => name
    case None => DecimalText(addr)
  }

  /** How the session names the object's class: the part of its symbol before the first
      `::`, or `str(addr)`. */
  function ClassName(img: Image, addr: int): (r: string)
    ensures !Contains(r, "::")
    ensures img.symbolAt(addr).Some? ==>
      r <= img.symbolAt(addr).value &&
      (r == img.symbolAt(addr).value || OccursAt(img.symbolAt(addr).value, "::", |r|))
    ensures img.symbolAt(addr).None? ==> r == DecimalText(addr)
  {
    match img.symbolAt(addr)
    case Some(name) => Before(name, "::")
    case None =>
      var d := DecimalText(addr);
      DecimalTextHasNoColon(addr);
      d
  }

  lemma DecimalTextHasNoColon(n: int)
    ensures !Contains(DecimalText(n), "::")
  {
    var d := DecimalText(n);
    forall k | 0 <= k < |d| ensures d[k] != ':' {
      if n < 0 && k > 0 {
        assert d[k] == DecimalDigits(-n)[k - 1];
      }
    }
    forall k | 0 <= k <= |d| - 2 ensures !OccursAt(d, "::", k) {
      assert d[k..k + 2][0] == d[k];
    }
  }

  /** The comment `vtable` writes at the reporting instruction. */
  function VtableComment(img: Image, target: int, obj: Option<int>, instr: Value): (r: string)
    ensures !Truthy(obj) ==> r == SymbolName(img, target)
    ensures Truthy(obj) && instr != Text("lea") ==>
      r == SymbolName(img, target) + " (from " + ClassName(img, obj.value) + " object)"
    ensures Truthy(obj) && instr == Text("lea") ==>
      r == "(ptr)" + SymbolName(img, target) + " (from " + ClassName(img, obj.value) + " object)"
  {
    var targetName := SymbolName(img, target);
    if Truthy(obj) then
      var comment := targetName + " (from " + ClassName(img, obj.value) + " object)";
      if instr == Text("lea") then "(ptr)" + comment else comment
    else targetName
  }

  /** `vtable(ip, target, object, instr)`. */
  function VtableSpec(s: SessionState, img: Image, ip: int, target: int, obj: Option<int>, instr: Value): SessionState {
    s.(comments := s.comments[ip := VtableComment(img, target, obj, instr)])
  }

  /** The address a `vtable` message's optional `object` parameter names, after rebasing;
      `None` when absent, and a raise when present but not a number. */
  function ObjectParam(m: Message, start: int): Option<Option<int>> {
    if "object" !in m.params then Some(None)
    else match NumParam(m, "object")
      case None => None
      case Some(o) => Some(Some(o + start))
  }

  /** `process(data)`: a message from WinDbg. Wire addresses are rebased by `bv.start`;
      a bp or `set_ip` message whose address is not in the binary is dropped. */
  function ProcessSpec(s: SessionState, img: Image, m: Message): (r: Step) {
    if Contains(m.cmd, "bp") then
      match NumParam(m, "addr")
      case None => Step(s, true)
      case Some(wire) =>
        var addr := wire + img.start;
        if !img.isValidOffset(addr) then Step(s, false)
        else if m.cmd == "set_bp" then Step(SetBpSpec(s, img.start, addr, false), false)
        else if m.cmd == "delete_bp" then DeleteBpSpec(s, img.start, addr, false)
        else if m.cmd == "bp_hit" then
          (match RegsParam(m, "regs")
           case None => Step(s, true)
           case Some(regs) => BpHitSpec(s, img, addr, regs))
        else Step(s, false)
    else if m.cmd == "set_ip" then
      match NumParam(m, "ip")
      case None => Step(s, true)
      case Some(wire) =>
        var addr := wire + img.start;
        if !img.isValidOffset(addr) then Step(s, false)
        else
          (match RegsParam(m, "regs")
           case None => Step(s, true)
           case Some(regs) => SetIpSpec(s, img, addr, regs, false))
    else if m.cmd == "vtable" then
      match (NumParam(m, "ip"), NumParam(m, "target"), ObjectParam(m, img.start))
      case (Some(ip), Some(target), Some(obj)) =>
        if "instr" in m.params then
          Step(VtableSpec(s, img, ip + img.start, target + img.start, obj, m.params["instr"]), false)
        else Step(s, true)
      case _ => Step(s, true)
    else Step(s, false)
  }

  // ---------------------------------------------------------------- what the operations promise

  /** Stopping twice ends where stopping once does. */
  lemma StopIdempotent(s: SessionState)
    ensures StopSpec(StopSpec(s)) == StopSpec(s)
  {
    var once := StopSpec(s);
    assert Unhighlight(once.highlights, {}) == once.highlights;
  }

  /** `stop` keeps an instruction pointer of 0: `if self.ip:` reads address 0 as false. */
  lemma StopKeepsZeroIp(s: SessionState)
    requires s.ip == Some(0)
    ensures StopSpec(s).ip == Some(0)
  {
  }

  /** `process` never sends anything and never closes the session. */
  lemma ProcessNeverSends(s: SessionState, img: Image, m: Message)
    ensures ProcessSpec(s, img, m).state.outbox == s.outbox
    ensures ProcessSpec(s, img, m).state.connOpen == s.connOpen
    ensures ProcessSpec(s, img, m).state.registered == s.registered
  {
  }

  /** A breakpoint or instruction-pointer message naming an address outside the binary
      changes nothing. */
  lemma ProcessDropsInvalidAddress(s: SessionState, img: Image, m: Message)
    requires Contains(m.cmd, "bp") || m.cmd == "set_ip"
    requires var key := if Contains(m.cmd, "bp") then "addr" else "ip";
             NumParam(m, key).Some? && !img.isValidOffset(NumParam(m, key).value + img.start)
    ensures ProcessSpec(s, img, m) == Step(s, false)
  {
  }

  /** A `set_bp` message for an address in the binary tracks and highlights the address
      rebased by `bv.start`, and sends nothing back. */
  lemma ProcessSetBp(s: SessionState, img: Image, wire: int)
    requires img.isValidOffset(wire + img.start)
    ensures var r := ProcessSpec(s, img, AddrMessage("set_bp", wire));
            !r.raised && r.state.bps == s.bps + {wire + img.start} &&
            HasColor(r.state.highlights, wire + img.start, EnabledBpColor) && r.state.outbox == s.outbox
  {
    assert Contains("set_bp", "bp") by { assert OccursAt("set_bp", "bp", 4); }
  }

  /** A `delete_bp` message for a tracked address in the binary forgets and unhighlights
      it; for an untracked one it changes nothing. */
  lemma ProcessDeleteBp(s: SessionState, img: Image, wire: int)
    requires img.isValidOffset(wire + img.start)
    ensures var r := ProcessSpec(s, img, AddrMessage("delete_bp", wire));
            !r.raised && r.state.bps == s.bps - {wire + img.start} && r.state.outbox == s.outbox &&
            (wire + img.start !in s.bps ==> r.state == s) &&
            (wire + img.start in s.bps ==> HasColor(r.state.highlights, wire + img.start, NoColor))
  {
    assert Contains("delete_bp", "bp") by { assert OccursAt("delete_bp", "bp", 7); }
  }

  /** `send` never takes back what was sent: on an open connection it adds the message and
      keeps the session; on a closed one it sends nothing and leaves the session ended,
      unregistered and tracking no breakpoint. */
  lemma SendOutcome(s: SessionState, m: Message)
    ensures var r := SendSpec(s, m);
            s.outbox <= r.outbox && |r.outbox| <= |s.outbox| + 1 &&
            (r.outbox == s.outbox + [m] <==> s.connOpen) &&
            (s.connOpen ==> r.bps == s.bps && r.registered == s.registered && r.connOpen) &&
            (!s.connOpen ==> r.outbox == s.outbox && r.bps == {} && !r.registered && !r.connOpen)
  {
    if !s.connOpen {
      assert |SendSpec(s, m).outbox| != |s.outbox + [m]|;
    }
  }

  /** A `set_ip` message for an address in the binary, with registers, is `set_ip` at the
      address rebased by `bv.start`, not forwarded back. */
  lemma ProcessSetIp(s: SessionState, img: Image, m: Message, wire: int, regs: Regs)
    requires m.cmd == "set_ip" && NumParam(m, "ip") == Some(wire) && RegsParam(m, "regs") == Some(regs)
    requires img.isValidOffset(wire + img.start)
    ensures ProcessSpec(s, img, m) == SetIpSpec(s, img, wire + img.start, regs, false)
  {
    NotContainsWithoutFirst("set_ip", "bp");
  }

  /** A `bp_hit` message for an address in the binary, with registers, is `bp_hit` at the
      address rebased by `bv.start`. */
  lemma ProcessBpHit(s: SessionState, img: Image, m: Message, wire: int, regs: Regs)
    requires m.cmd == "bp_hit" && NumParam(m, "addr") == Some(wire) && RegsParam(m, "regs") == Some(regs)
    requires img.isValidOffset(wire + img.start)
    ensures ProcessSpec(s, img, m) == BpHitSpec(s, img, wire + img.start, regs)
  {
    assert Contains("bp_hit", "bp") by { assert OccursAt("bp_hit", "bp", 0); }
  }

  /** A well-formed `vtable` message comments the instruction at its rebased `ip`, naming
      the rebased target and, when present, the rebased object; nothing else changes. */
  lemma ProcessVtable(s: SessionState, img: Image, m: Message, ip: int, target: int)
    requires m.cmd == "vtable" && NumParam(m, "ip") == Some(ip) && NumParam(m, "target") == Some(target)
    requires "instr" in m.params
    requires "object" in m.params ==> NumParam(m, "object").Some?
    ensures var obj := if "object" in m.params then Some(NumParam(m, "object").value + img.start) else None;
            var r := ProcessSpec(s, img, m);
            r == Step(VtableSpec(s, img, ip + img.start, target + img.start, obj, m.params["instr"]), false) &&
            r.state.bps == s.bps && r.state.ip == s.ip && r.state.highlights == s.highlights &&
            r.state.outbox == s.outbox && r.state.cursor == s.cursor &&
            r.state.comments == s.comments[ip + img.start := VtableComment(img, target + img.start, obj, m.params["instr"])]
  {
    assert !Contains("vtable", "bp") by {
      forall k | 0 <= k <= |"vtable"| - 2 ensures !OccursAt("vtable", "bp", k) {
        assert "vtable"[k..k + 2][1] == "vtable"[k + 1];
      }
    }
  }

  /** Sending a breakpoint to WinDbg and deleting it again restores the tracked set. */
  lemma SetThenDeleteBp(s: SessionState, start: int, addr: int)
    requires s.connOpen && addr !in s.bps
    ensures var r := DeleteBpSpec(SetBpSpec(s, start, addr, true), start, addr, true);
            !r.raised && r.state.bps == s.bps &&
            r.state.outbox == s.outbox + [AddrMessage("set_bp", addr - start), AddrMessage("delete_bp", addr - start)]
  {
  }

  // ---------------------------------------------------------------- the binary view

  /** The parts of a Binary Ninja binary view the session touches. */
  class View {
    const image: Image
    var bindbg: Session?           // bv.session_data['bindbg']
    var highlights: map<int, Color>
    var comments: map<int, string>
    var cursor: Option<int>

    constructor(image: Image)
      ensures this.image == image && bindbg == null
      ensures highlights == map[] && comments == map[] && cursor == None
    {
      this.image := image;
      bindbg := null;
      highlights := map[];
      comments := map[];
      cursor := None;
    }

    /** `highlight(addr, color)`. */
    method Highlight(addr: int, color: Color)
      modifies this
      ensures highlights == old(highlights)[addr := color]
      ensures bindbg == old(bindbg) && comments == old(comments) && cursor == old(cursor)
    {
      highlights := highlights[addr := color];
    }
  }

  /** `start(bv)`: open a session for the view unless one is already registered. */
  method Start(view: View)
    modifies view
    ensures old(view.bindbg) != null ==> view.bindbg == old(view.bindbg)
    ensures old(view.bindbg) == null ==>
      view.bindbg != null && fresh(view.bindbg) && view.bindbg.view == view &&
      view.bindbg.bps == {} && view.bindbg.ip == None && view.bindbg.connOpen &&
      view.bindbg.outbox == [Message("sync", map[])]
    ensures view.highlights == old(view.highlights) && view.comments == old(view.comments) && view.cursor == old(view.cursor)
  {
    if view.bindbg == null {
      var session := new Session(view);
      view.bindbg := session;
    }
  }

  // ---------------------------------------------------------------- the session

  class Session {
    const view: View
    var bps: set<int>
    var ip: Option<int>
    var connOpen: bool
    var outbox: seq<Message>

    /** The session and its view as one value. */
    function State(): SessionState
      reads this, view
    {
      SessionState(bps, ip, connOpen, outbox, view.bindbg != null, view.highlights, view.comments, view.cursor)
    }

    /** `__init__`, then the first successful `connect` and `send('sync')`. */
    constructor(view: View)
      ensures this.view == view
      ensures bps == {} && ip == None && connOpen && outbox == [Message("sync", map[])]
    {
      this.view := view;
      bps := {};
      ip := None;
      connOpen := true;
      outbox := [Message("sync", map[])];
    }

    method Send(m: Message)
      modifies this, view
      decreases 2
      ensures State() == SendSpec(old(State()), m)
    {
      if connOpen {
        outbox := outbox + [m];
      } else {
        Stop();
      }
    }

    method Stop()
      modifies this, view
      decreases 1
      ensures State() == StopSpec(old(State()))
    {
      if view.bindbg != null {
        view.bindbg := null;
      }
      connOpen := false;
      ghost var h0, b0 := view.highlights, bps;
      var pending := bps;
      while pending != {}
        invariant bps == pending && pending <= b0
        invariant view.highlights == Unhighlight(h0, b0 - pending)
        invariant ip == old(ip) && outbox == old(outbox) && !connOpen && view.bindbg == null
        invariant view.comments == old(view.comments) && view.cursor == old(view.cursor)
        decreases pending
      {
        var b := Pick(pending);
        var _ := DeleteBp(b, false);
        UnhighlightOneMore(h0, b0, pending, b);
        pending := pending - {b};
      }
      assert b0 - pending == b0;
      if Truthy(ip) {
        view.Highlight(ip.value, NoColor);
        ip := None;
      }
    }

    method SetBp(addr: int, fromBinja: bool)
      modifies this, view
      decreases 3
      ensures State() == SetBpSpec(old(State()), view.image.start, addr, fromBinja)
    {
      if fromBinja {
        Send(AddrMessage("set_bp", addr - view.image.start));
      }
      bps := bps + {addr};
      view.Highlight(addr, EnabledBpColor);
    }

    method DeleteBp(addr: int, fromBinja: bool) returns (raised: bool)
      modifies this, view
      decreases if fromBinja then 3 else 0
      ensures Step(State(), raised) == DeleteBpSpec(old(State()), view.image.start, addr, fromBinja)
    {
      raised := false;
      if addr !in bps {
        return;
      }
      if fromBinja {
        Send(AddrMessage("delete_bp", addr - view.image.start));
      }
      if addr !in bps {
        raised := true;
        return;
      }
      bps := bps - {addr};
      view.Highlight(addr, NoColor);
    }

    method SetIp(addr: int, regs: Regs, fromBinja: bool) returns (raised: bool)
      modifies this, view
      decreases 3
      ensures Step(State(), raised) == SetIpSpec(old(State()), view.image, addr, regs, fromBinja)
    {
      if fromBinja {
        Send(Message("set_ip", map["ip" := Num(addr - view.image.start)]));
      }
      if Truthy(ip) {
        view.Highlight(ip.value, NoColor);
      }
      view.Highlight(addr, IpColor);
      ip := Some(addr);
      view.cursor := Some(addr);
      raised := false;
      match BranchOf(view.image, addr, regs)
      case NoTarget =>
      case Raises => raised := true;
      case Target(t) => view.Highlight(t, CondJumpColor);
    }

    method BpHit(addr: int, regs: Regs) returns (raised: bool)
      modifies this, view
      decreases 4
      ensures Step(State(), raised) == BpHitSpec(old(State()), view.image, addr, regs)
    {
      raised := SetIp(addr, regs, false);
      if !raised {
        view.Highlight(addr, HitBpColor);
      }
    }

    method Vtable(at: int, target: int, obj: Option<int>, instr: Value)
      modifies view
      ensures State() == VtableSpec(old(State()), view.image, at, target, obj, instr)
    {
      view.comments := view.comments[at := VtableComment(view.image, target, obj, instr)];
    }

    method Process(m: Message) returns (raised: bool)
      modifies this, view
      decreases 5
      ensures Step(State(), raised) == ProcessSpec(old(State()), view.image, m)
    {
      var start := view.image.start;
      if Contains(m.cmd, "bp") {
        var wire := NumParam(m, "addr");
        if wire.None? {
          return true;
        }
        var addr := wire.value + start;
        raised := false;
        if view.image.isValidOffset(addr) {
          if m.cmd == "set_bp" {
            SetBp(addr, false);
          } else if m.cmd == "delete_bp" {
            raised := DeleteBp(addr, false);
          } else if m.cmd == "bp_hit" {
            var regs := RegsParam(m, "regs");
            if regs.None? {
              return true;
            }
            raised := BpHit(addr, regs.value);
          }
        }
      } else if m.cmd == "set_ip" {
        var wire := NumParam(m, "ip");
        if wire.None? {
          return true;
        }
        var addr := wire.value + start;
        raised := false;
        if view.image.isValidOffset(addr) {
          var regs := RegsParam(m, "regs");
          if regs.None? {
            return true;
          }
          raised := SetIp(addr, regs.value, false);
        }
      } else if m.cmd == "vtable" {
        var at, target, obj := NumParam(m, "ip"), NumParam(m, "target"), ObjectParam(m, start);
        if at.None? || target.None? || obj.None? || "instr" !in m.params {
          return true;
        }
        Vtable(at.value + start, target.value + start, obj.value, m.params["instr"]);
        raised := false;
      } else {
        raised := false;
      }
    }
  }
}
