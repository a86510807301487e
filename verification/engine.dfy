/** The WinDbg side of the plugin: a script running inside the debugger that answers
    Binary Ninja's commands and, while the debuggee is stopped, reports instruction-pointer
    changes, vtable calls and breakpoints added or removed in WinDbg itself.

    Its module globals (`bps`, `ip`, the connection's outgoing messages) are the fields of
    `Engine`; the debugger behind pykd is the value `DbgState` held beside them. Each
    operation is specified by a function over `EngineState`; where the script loops over a
    dict or a set, whose order Python leaves open, the order is a parameter of that
    function and the method returns the order it took. */
module Engine {
  import opened Common
  import opened PyText
  import opened Wire
  import opened Pykd
  import Vtable

  // ---------------------------------------------------------------- the debugger

  /** `getExecutionStatus()`: running, or stopped. */
  datatype Status = Go | Break

  /** One native breakpoint: its handle (`getBp(index)`) and its address
      (`breakpoint.getOffset(bp)`). */
  datatype NativeBp = NativeBp(handle: int, offset: int)

  /** A command the script gives the debugger. */
  datatype Call =
    | BuCommand(addr: int)      // dbgCommand('bu ' + findSymbol(addr, True))
    | RemoveCommand(handle: int) // breakpoint.remove(bp)
    | GoCommand                 // go()
    | BreakinCommand            // breakin()
    | SetIpCommand(addr: int)   // setIP(addr)
    | StepOutCommand            // dbgCommand('pt; p')
    | TraceCommand              // trace()
    | StepCommand               // step()

  /** The debugger as the script sees it between two of its own calls. */
  datatype DbgState = DbgState(
    status: Status,        // getExecutionStatus()
    ip: int,               // getIP()
    bps: seq<NativeBp>,    // the native breakpoint list, by index
    nextHandle: int,       // the handle the next new breakpoint gets
    calls: seq<Call>)      // every command given, in order

  /** The addresses of the native breakpoints, by index: `current_bps` in `update_bps`. */
  function Offsets(native: seq<NativeBp>): (r: seq<int>)
    ensures |r| == |native|
    ensures forall k :: 0 <= k < |native| ==> r[k] == native[k].offset
  {
    if native == [] then [] else [native[0].offset] + Offsets(native[1..])
  }

  /** `get_bp(addr)`: the handle of the first native breakpoint at `addr`, if any. */
  function FindBp(native: seq<NativeBp>, addr: int): Option<int> {
    if native == [] then None
    else if native[0].offset == addr then Some(native[0].handle)
    else FindBp(native[1..], addr)
  }

  /** `get_bp` finds a breakpoint exactly when one is at the address. */
  lemma {:induction false} FindBpFinds(native: seq<NativeBp>, addr: int)
    ensures FindBp(native, addr).Some? <==> addr in Offsets(native)
    decreases |native|
  {
    if native != [] {
      assert Offsets(native) == [native[0].offset] + Offsets(native[1..]);
      FindBpFinds(native[1..], addr);
    }
  }

  /** What `get_bp` finds is the first native breakpoint at the address. */
  lemma {:induction false} FindBpFirst(native: seq<NativeBp>, addr: int)
    requires FindBp(native, addr).Some?
    ensures exists k :: 0 <= k < |native| && native[k] == NativeBp(FindBp(native, addr).value, addr) &&
                        forall j :: 0 <= j < k ==> native[j].offset != addr
    decreases |native|
  {
    if native[0].offset != addr {
      var h := FindBp(native, addr).value;
      FindBpFirst(native[1..], addr);
      var k :| 0 <= k < |native[1..]| && native[1..][k] == NativeBp(h, addr) &&
               forall j :: 0 <= j < k ==> native[1..][j].offset != addr;
      assert native[k + 1] == NativeBp(h, addr);
    } else {
      assert native[0] == NativeBp(FindBp(native, addr).value, addr);
    }
  }

  /** `bu <symbol of addr>`: an unresolved breakpoint at `addr`. WinDbg redefines the
      breakpoint already at that address rather than adding a second one. */
  function Bu(d: DbgState, addr: int): DbgState {
    var bps := if FindBp(d.bps, addr).Some? then d.bps else d.bps + [NativeBp(d.nextHandle, addr)];
    d.(bps := bps, nextHandle := d.nextHandle + 1, calls := d.calls + [BuCommand(addr)])
  }

  /** After `bu` the debugger has a breakpoint at the address. */
  lemma BuSets(d: DbgState, addr: int)
    ensures FindBp(Bu(d, addr).bps, addr).Some?
    ensures FindBp(d.bps, addr).Some? ==> Bu(d, addr).bps == d.bps
  {
    FindBpAppend(d.bps, NativeBp(d.nextHandle, addr), addr);
  }

  /** Appending a breakpoint changes what `get_bp` finds only at its own address, and only
      when nothing was there before. */
  lemma {:induction false} FindBpAppend(native: seq<NativeBp>, b: NativeBp, a: int)
    ensures FindBp(native + [b], a) == if FindBp(native, a).Some? || b.offset != a then FindBp(native, a) else Some(b.handle)
    decreases |native|
  {
    if native != [] {
      assert (native + [b])[1..] == native[1..] + [b];
      FindBpAppend(native[1..], b, a);
    }
  }

  /** The native breakpoints whose handle is not `h`. */
  function Without(native: seq<NativeBp>, h: int): (r: seq<NativeBp>)
    ensures forall b :: b in r <==> b in native && b.handle != h
  {
    if native == [] then []
    else if native[0].handle == h then Without(native[1..], h)
    else [native[0]] + Without(native[1..], h)
  }

  /** `breakpoint.remove(bp)`. */
  function Remove(d: DbgState, h: int): DbgState {
    d.(bps := Without(d.bps, h), calls := d.calls + [RemoveCommand(h)])
  }

  /** A command that only the debuggee's execution answers to; `go()` resumes it and
      `breakin()` stops it. */
  function Command(d: DbgState, c: Call): DbgState {
    d.(status := if c == GoCommand then Go else if c == BreakinCommand then Break else d.status,
       calls := d.calls + [c])
  }

  // ---------------------------------------------------------------- the script's state

  /** The script's globals and the debugger, as one value. */
  datatype EngineState = EngineState(
    bps: map<int, int>,     // bps: address to native breakpoint handle
    ip: Option<int>,        // ip: the last instruction pointer reported
    outbox: seq<Message>,   // every message sent, in order
    dbg: DbgState)

  /** A state, whether `process` asks to keep the debuggee running, and whether the
      operation raised a Python exception that ends the event loop. */
  datatype Reply = Reply(state: EngineState, cont: bool, raised: bool)

  /** `get_regs()`: every register whose name has no digit in it, with its value. */
  function Snapshot(t: Target): Regs {
    map n | n in t.registerNames && !HasDigit(n) :: t.reg(n)
  }

  /** `send('set_ip', ip=..., regs=...)`. */
  function SetIpMessage(ip: int, regs: Regs): Message {
    Message("set_ip", map["ip" := Num(ip), "regs" := RegMap(regs)])
  }

  /** `send('bp_hit', addr=..., regs=...)`. */
  function BpHitMessage(addr: int, regs: Regs): Message {
    Message("bp_hit", map["addr" := Num(addr), "regs" := RegMap(regs)])
  }

  /** What `sync` sends when it visits the breakpoints in the order `order`. */
  function SyncMessages(s: EngineState, t: Target, base: int, order: seq<int>): seq<Message> {
    [SetIpMessage(s.dbg.ip - base, Snapshot(t))] + AddrMessages("set_bp", order, base)
  }

  /** `process` for a command naming `bp`: set or delete a breakpoint at the rebased
      address unless it is already or not tracked; any other such command does nothing. */
  function BpCommandSpec(s: EngineState, base: int, m: Message): Reply {
    match NumParam(m, "addr")
    case None => Reply(s, true, true)
    case Some(wire) =>
      var addr := wire + base;
      if m.cmd == "set_bp" && addr !in s.bps then
        BuSets(s.dbg, addr);
        var d := Bu(s.dbg, addr);
        Reply(s.(dbg := d, bps := s.bps[addr := FindBp(d.bps, addr).value]), true, false)
      else if m.cmd == "delete_bp" && addr in s.bps then
        Reply(s.(dbg := Remove(s.dbg, s.bps[addr]), bps := s.bps - {addr}), true, false)
      else Reply(s, true, false)
  }

  /** `run_to`: a breakpoint at the rebased address, resume, and remove the breakpoint
      `get_bp` then finds there. */
  function RunToSpec(s: EngineState, base: int, m: Message): Reply {
    match NumParam(m, "addr")
    case None => Reply(s, true, true)
    case Some(wire) =>
      var addr := wire + base;
      BuSets(s.dbg, addr);
      var d := Command(Bu(s.dbg, addr), GoCommand);
      Reply(s.(dbg := Remove(d, FindBp(d.bps, addr).value)), true, false)
  }

  /** `process((cmd, params))`. Wire addresses are rebased by adding `base`; a missing or
      non-numeric parameter raises. `order` is the order in which `sync` visits `bps`. */
  function ProcessSpec(s: EngineState, t: Target, base: int, m: Message, order: seq<int>): Reply {
    if Contains(m.cmd, "bp") then BpCommandSpec(s, base, m)
    else if m.cmd == "set_ip" then
      match NumParam(m, "ip")
      case None => Reply(s, true, true)
      case Some(wire) => Reply(s.(dbg := s.dbg.(ip := wire + base, calls := s.dbg.calls + [SetIpCommand(wire + base)])), true, false)
    else if m.cmd == "sync" then
      Reply(s.(outbox := s.outbox + SyncMessages(s, t, base, order)), true, false)
    else if m.cmd == "go" then Reply(s.(dbg := Command(s.dbg, GoCommand)), true, false)
    else if m.cmd == "break" then Reply(s.(dbg := Command(s.dbg, BreakinCommand)), false, false)
    else if m.cmd == "step_out" then Reply(s.(dbg := Command(s.dbg, StepOutCommand)), true, false)
    else if m.cmd == "step_in" then Reply(s.(dbg := Command(s.dbg, TraceCommand)), true, false)
    else if m.cmd == "step_over" then Reply(s.(dbg := Command(s.dbg, StepCommand)), true, false)
    else if m.cmd == "run_to" then RunToSpec(s, base, m)
    else Reply(s, true, false)
  }

  /** `update_ip(current_ip)`: remember the address and report it, as a breakpoint hit
      when a tracked breakpoint is there. */
  function UpdateIpSpec(s: EngineState, t: Target, base: int, cur: int): EngineState {
    var m := if cur in s.bps then BpHitMessage(cur - base, Snapshot(t)) else SetIpMessage(cur - base, Snapshot(t));
    s.(ip := Some(cur), outbox := s.outbox + [m])
  }

  /** A state, and whether the operation raised. */
  datatype Step = Step(state: EngineState, raised: bool)

  /** `update_vtable(current_ip)`: at most one `vtable` message. */
  function UpdateVtableSpec(s: EngineState, t: Target, base: int, cur: int): Step {
    match Vtable.UpdateVtable(t, base, cur)
    case NoMessage => Step(s, false)
    case Send(m) => Step(s.(outbox := s.outbox + [m]), false)
    case Crashed => Step(s, true)
  }

  /** The addresses first seen among `offs`, in order, that are not in `known`. */
  function NewOffsets(offs: seq<int>, known: set<int>): (r: seq<int>)
    ensures forall a :: a in r <==> a in offs && a !in known
    ensures Distinct(r)
  {
    if offs == [] then []
    else
      var prefix := offs[..|offs| - 1];
      var a := offs[|offs| - 1];
      var r := NewOffsets(prefix, known);
      assert forall b :: b in offs <==> b in prefix || b == a by {
        assert offs == prefix + [a];
      }
      if a in known || a in prefix then r else r + [a]
  }

  /** One more address extends the new ones by itself exactly when it is neither known
      nor seen before. */
  lemma NewOffsetsSnoc(current: seq<int>, a: int, known: set<int>)
    ensures NewOffsets(current + [a], known) ==
            if a in known || a in current then NewOffsets(current, known) else NewOffsets(current, known) + [a]
  {
    assert (current + [a])[..|current|] == current;
  }

  /** Nothing is new when every address is known. */
  lemma {:induction false} NewOffsetsNone(offs: seq<int>, known: set<int>)
    requires forall a :: a in offs ==> a in known
    ensures NewOffsets(offs, known) == []
    decreases |offs|
  {
    if offs != [] {
      var prefix := offs[..|offs| - 1];
      assert forall a :: a in prefix ==> a in offs;
      NewOffsetsNone(prefix, known);
      assert offs[|offs| - 1] in offs;
    }
  }

  /** The tracked addresses that no native breakpoint is at any more. */
  ghost function Vanished(s: EngineState): set<int> {
    set a | a in s.bps && a !in Offsets(s.dbg.bps)
  }

  /** The tracked breakpoints after `update_bps`: the native breakpoints' addresses, each
      with the handle tracked before or else the one `get_bp` finds. */
  function Tracked(s: EngineState): map<int, int> {
    map a | a in Offsets(s.dbg.bps) :: if a in s.bps then s.bps[a] else (FindBpFinds(s.dbg.bps, a); FindBp(s.dbg.bps, a).value)
  }

  /** What `update_bps` sends: the new addresses in list order, then the vanished ones in
      the order `order`. */
  function BpsReports(s: EngineState, base: int, order: seq<int>): seq<Message> {
    AddrMessages("set_bp", NewOffsets(Offsets(s.dbg.bps), s.bps.Keys), base) + AddrMessages("delete_bp", order, base)
  }

  /** `update_bps()`. */
  function UpdateBpsSpec(s: EngineState, base: int, order: seq<int>): EngineState {
    s.(bps := Tracked(s), outbox := s.outbox + BpsReports(s, base, order))
  }

  /** Receiving a message: a running debuggee is broken into first, and resumed afterwards
      unless the command was `break`. `order` is the order `sync` visits `bps` in. */
  function ReceiveSpec(s: EngineState, t: Target, base: int, msg: Option<Message>, order: seq<int>): Step {
    match msg
    case None => Step(s, false)
    case Some(m) =>
      if s.dbg.status == Go then
        var r := ProcessSpec(s.(dbg := Command(s.dbg, BreakinCommand)), t, base, m, order);
        if !r.raised && r.cont then Step(r.state.(dbg := Command(r.state.dbg, GoCommand)), false)
        else Step(r.state, r.raised)
      else
        var r := ProcessSpec(s, t, base, m, order);
        Step(r.state, r.raised)
  }

  /** The instruction pointer moved since it was last reported. */
  predicate IpMoved(s: EngineState) {
    s.ip != Some(s.dbg.ip)
  }

  /** The state after the instruction-pointer checks of a stopped debuggee. */
  function IpChecked(s: EngineState, t: Target, base: int): Step {
    if IpMoved(s) then UpdateVtableSpec(UpdateIpSpec(s, t, base, s.dbg.ip), t, base, s.dbg.ip)
    else Step(s, false)
  }

  /** The checks of one tick after any message is handled: nothing while the debuggee
      runs; otherwise report a moved instruction pointer, then diff the breakpoints when
      the native count and `len(bps)` disagree. `order` is the order of the vanished
      breakpoints. */
  function CheckSpec(s: EngineState, t: Target, base: int, order: seq<int>): Step {
    if s.dbg.status == Go then Step(s, false)
    else
      var r := IpChecked(s, t, base);
      if r.raised then r
      else if |r.state.dbg.bps| != |r.state.bps| then Step(UpdateBpsSpec(r.state, base, order), false)
      else r
  }

  /** Whether the checks of a tick reach `update_bps`. */
  predicate DiffsBps(s: EngineState, t: Target, base: int) {
    s.dbg.status != Go && !IpChecked(s, t, base).raised &&
    |IpChecked(s, t, base).state.dbg.bps| != |IpChecked(s, t, base).state.bps|
  }

  /** One pass of `event_loop`'s `while True:`. */
  function TickSpec(s: EngineState, t: Target, base: int, msg: Option<Message>,
                    syncOrder: seq<int>, vanishedOrder: seq<int>): Step {
    var r := ReceiveSpec(s, t, base, msg, syncOrder);
    if r.raised then r else CheckSpec(r.state, t, base, vanishedOrder)
  }

  // ---------------------------------------------------------------- what the operations promise

  /** `process` asks to keep the debuggee running after every command but `break`. */
  lemma ProcessResumesUnlessBreak(s: EngineState, t: Target, base: int, m: Message, order: seq<int>)
    ensures var r := ProcessSpec(s, t, base, m, order);
            !r.raised ==> (r.cont <==> m.cmd != "break")
  {
    if m.cmd == "break" {
      assert !Contains(m.cmd, "bp") by {
        forall k | 0 <= k <= |m.cmd| - 2 ensures !OccursAt(m.cmd, "bp", k) {
          assert m.cmd[k] != 'b' || m.cmd[k + 1] != 'p';
        }
      }
    }
  }

  /** A command naming `bp` is a breakpoint command. */
  lemma ProcessRoutesBp(s: EngineState, t: Target, base: int, m: Message, order: seq<int>)
    requires Contains(m.cmd, "bp")
    ensures ProcessSpec(s, t, base, m, order) == BpCommandSpec(s, base, m)
  {
  }

  /** `run_to` is handled by `RunToSpec`. */
  lemma ProcessRoutesRunTo(s: EngineState, t: Target, base: int, m: Message, order: seq<int>)
    requires m.cmd == "run_to"
    ensures ProcessSpec(s, t, base, m, order) == RunToSpec(s, base, m)
  {
    NotContainsWithoutFirst("run_to", "bp");
  }

  /** `set_bp` for an untracked address sets a breakpoint there in WinDbg and tracks its
      handle; the other tracked addresses keep theirs and nothing is sent. */
  lemma ProcessSetBpTracks(s: EngineState, base: int, wire: int)
    requires wire + base !in s.bps
    ensures var r := BpCommandSpec(s, base, AddrMessage("set_bp", wire));
            var addr := wire + base;
            !r.raised && r.cont &&
            (forall a :: a in r.state.bps <==> a in s.bps || a == addr) &&
            (forall a :: a in s.bps ==> r.state.bps[a] == s.bps[a]) &&
            FindBp(r.state.dbg.bps, addr) == Some(r.state.bps[addr]) &&
            r.state.outbox == s.outbox && r.state.ip == s.ip
  {
    var addr := wire + base;
    BuSets(s.dbg, addr);
    var d := Bu(s.dbg, addr);
    var h := FindBp(d.bps, addr).value;
    assert BpCommandSpec(s, base, AddrMessage("set_bp", wire)) ==
           Reply(s.(dbg := d, bps := s.bps[addr := h]), true, false);
  }

  /** `set_bp` for a tracked address changes nothing. */
  lemma ProcessSetBpTracked(s: EngineState, t: Target, base: int, wire: int, order: seq<int>)
    requires wire + base in s.bps
    ensures ProcessSpec(s, t, base, AddrMessage("set_bp", wire), order) == Reply(s, true, false)
  {
    assert Contains("set_bp", "bp") by { assert OccursAt("set_bp", "bp", 4); }
  }

  /** `delete_bp` for a tracked address removes its breakpoint in WinDbg and stops tracking
      exactly that address; for an untracked address it changes nothing. */
  lemma ProcessDeleteBp(s: EngineState, t: Target, base: int, wire: int, order: seq<int>)
    ensures var r := ProcessSpec(s, t, base, AddrMessage("delete_bp", wire), order);
            var addr := wire + base;
            !r.raised && r.cont &&
            (addr !in s.bps ==> r.state == s) &&
            (addr in s.bps ==>
               (forall a :: a in r.state.bps <==> a in s.bps && a != addr) &&
               (forall a :: a in r.state.bps ==> r.state.bps[a] == s.bps[a]) &&
               (forall b :: b in r.state.dbg.bps ==> b.handle != s.bps[addr]) &&
               r.state.outbox == s.outbox)
  {
    assert Contains("delete_bp", "bp") by { assert OccursAt("delete_bp", "bp", 7); }
  }

  /** `sync` does not name `bp`. */
  lemma SyncIsNotBp()
    ensures !Contains("sync", "bp")
  {
    NotContainsWithoutFirst("sync", "bp");
  }

  /** `sync` only sends. */
  lemma ProcessSync(s: EngineState, t: Target, base: int, params: map<string, Value>, order: seq<int>)
    ensures ProcessSpec(s, t, base, Message("sync", params), order) ==
            Reply(s.(outbox := s.outbox + SyncMessages(s, t, base, order)), true, false)
  {
    SyncIsNotBp();
  }

  /** What `sync` sends: one `set_ip` with the rebased instruction pointer and the
      register snapshot, then one `set_bp` for each tracked breakpoint and no other. */
  lemma SyncReports(s: EngineState, t: Target, base: int, order: seq<int>)
    requires Enumerates(order, s.bps.Keys)
    ensures var sent := SyncMessages(s, t, base, order);
            |sent| == 1 + |s.bps| &&
            sent[0] == SetIpMessage(s.dbg.ip - base, Snapshot(t)) &&
            forall wire :: Occurrences(sent, AddrMessage("set_bp", wire)) == if wire + base in s.bps then 1 else 0
  {
    var sent := SyncMessages(s, t, base, order);
    var head := [SetIpMessage(s.dbg.ip - base, Snapshot(t))];
    EnumerationSize(order, s.bps.Keys);
    forall wire ensures Occurrences(sent, AddrMessage("set_bp", wire)) == if wire + base in s.bps then 1 else 0 {
      var m := AddrMessage("set_bp", wire);
      assert Occurrences(head, m) == 0 by {
        assert head[0].cmd != m.cmd;
        assert head[1..] == [];
      }
      OccurrencesAppend(head, AddrMessages("set_bp", order, base), m);
      OccurrencesOfAddrMessages("set_bp", order, base, "set_bp", wire);
    }
  }

  /** `update_ip` records the address and sends one message for it, rebased: `bp_hit` when
      a tracked breakpoint is there, `set_ip` otherwise, both with the register snapshot. */
  lemma UpdateIpReports(s: EngineState, t: Target, base: int, cur: int)
    ensures var r := UpdateIpSpec(s, t, base, cur);
            var key := if cur in s.bps then "addr" else "ip";
            r.ip == Some(cur) && r.bps == s.bps && r.dbg == s.dbg &&
            |r.outbox| == |s.outbox| + 1 && r.outbox[..|s.outbox|] == s.outbox &&
            (r.outbox[|s.outbox|].cmd == "bp_hit" <==> cur in s.bps) &&
            (r.outbox[|s.outbox|].cmd == "set_ip" <==> cur !in s.bps) &&
            r.outbox[|s.outbox|].params.Keys == {key, "regs"} &&
            r.outbox[|s.outbox|].params[key] == Num(cur - base) &&
            r.outbox[|s.outbox|].params["regs"] == RegMap(Snapshot(t))
  {
  }

  /** After `update_bps` the tracked addresses are exactly the native breakpoints'
      addresses; an address tracked before keeps its handle and a new one gets the handle
      `get_bp` finds. */
  lemma UpdateBpsTracksNative(s: EngineState, base: int, order: seq<int>)
    ensures var r := UpdateBpsSpec(s, base, order);
            r.ip == s.ip && r.dbg == s.dbg &&
            (forall a :: a in r.bps <==> a in Offsets(s.dbg.bps)) &&
            (forall a :: a in r.bps && a in s.bps ==> r.bps[a] == s.bps[a]) &&
            (forall a :: a in r.bps && a !in s.bps ==> FindBp(s.dbg.bps, a) == Some(r.bps[a]))
  {
    forall a | a in Offsets(s.dbg.bps) ensures FindBp(s.dbg.bps, a).Some? {
      FindBpFinds(s.dbg.bps, a);
    }
  }

  /** `update_bps` sends exactly one `set_bp` per new address and exactly one `delete_bp`
      per vanished one, after what was sent before. */
  lemma UpdateBpsReports(s: EngineState, base: int, order: seq<int>)
    requires Enumerates(order, Vanished(s))
    ensures var r := UpdateBpsSpec(s, base, order);
            var offs := Offsets(s.dbg.bps);
            var sent := r.outbox[|s.outbox|..];
            r.outbox[..|s.outbox|] == s.outbox &&
            (forall wire :: Occurrences(sent, AddrMessage("set_bp", wire)) ==
                            if wire + base in offs && wire + base !in s.bps then 1 else 0) &&
            (forall wire :: Occurrences(sent, AddrMessage("delete_bp", wire)) ==
                            if wire + base in s.bps && wire + base !in offs then 1 else 0)
  {
    var r := UpdateBpsSpec(s, base, order);
    var offs := Offsets(s.dbg.bps);
    var newOffs := NewOffsets(offs, s.bps.Keys);
    var sent := AddrMessages("set_bp", newOffs, base) + AddrMessages("delete_bp", order, base);
    SplitSent(r.outbox, s.outbox, sent);
    forall wire
      ensures Occurrences(sent, AddrMessage("set_bp", wire)) ==
              if wire + base in offs && wire + base !in s.bps then 1 else 0
      ensures Occurrences(sent, AddrMessage("delete_bp", wire)) ==
              if wire + base in s.bps && wire + base !in offs then 1 else 0
    {
      var a := wire + base;
      assert a in newOffs <==> a in offs && a !in s.bps;
      assert a in order <==> a in s.bps && a !in offs;
      CountReports(sent, newOffs, order, base, wire);
    }
  }

  /** Counting the reports of one rebased address in `set_bp` messages followed by
      `delete_bp` ones. */
  lemma CountReports(sent: seq<Message>, added: seq<int>, removed: seq<int>, base: int, wire: int)
    requires sent == AddrMessages("set_bp", added, base) + AddrMessages("delete_bp", removed, base)
    requires Distinct(added) && Distinct(removed)
    ensures Occurrences(sent, AddrMessage("set_bp", wire)) == if wire + base in added then 1 else 0
    ensures Occurrences(sent, AddrMessage("delete_bp", wire)) == if wire + base in removed then 1 else 0
  {
    var adds := AddrMessages("set_bp", added, base);
    var dels := AddrMessages("delete_bp", removed, base);
    OccurrencesAppend(adds, dels, AddrMessage("set_bp", wire));
    OccurrencesAppend(adds, dels, AddrMessage("delete_bp", wire));
    OccurrencesOfAddrMessages("set_bp", added, base, "set_bp", wire);
    OccurrencesOfAddrMessages("delete_bp", removed, base, "set_bp", wire);
    OccurrencesOfAddrMessages("set_bp", added, base, "delete_bp", wire);
    OccurrencesOfAddrMessages("delete_bp", removed, base, "delete_bp", wire);
  }

  /** `update_bps` settles: a second diff against the same native list finds nothing new
      and nothing vanished, and leaves the state as the first one left it. */
  lemma UpdateBpsSettles(s: EngineState, base: int, order: seq<int>)
    requires Enumerates(order, Vanished(s))
    ensures var r := UpdateBpsSpec(s, base, order);
            Enumerates([], Vanished(r)) && UpdateBpsSpec(r, base, []) == r
  {
    var r := UpdateBpsSpec(s, base, order);
    var offs := Offsets(s.dbg.bps);
    NewOffsetsNone(offs, r.bps.Keys);
    assert BpsReports(r, base, []) == [];
    assert Tracked(r) == r.bps;
    assert forall a :: a !in Vanished(r);
  }

  /** When no two native breakpoints share an address, `update_bps` leaves `len(bps)` equal
      to the native count, so the next stopped tick does not diff again. */
  lemma UpdateBpsEqualizesCount(s: EngineState, base: int, order: seq<int>)
    requires Enumerates(order, Vanished(s))
    requires Distinct(Offsets(s.dbg.bps))
    ensures |UpdateBpsSpec(s, base, order).bps| == |s.dbg.bps|
  {
    var r := UpdateBpsSpec(s, base, order);
    assert Enumerates(Offsets(s.dbg.bps), r.bps.Keys);
    EnumerationSize(Offsets(s.dbg.bps), r.bps.Keys);
  }

  /** Two native breakpoints at one address keep `len(bps)` below the native count, so
      every tick of a stopped debuggee runs `update_bps` again, which sends nothing. */
  lemma SharedAddressDiffsForever(s: EngineState, base: int, a: int, h1: int, h2: int)
    requires s.dbg.bps == [NativeBp(h1, a), NativeBp(h2, a)] && s.bps == map[a := h1]
    ensures UpdateBpsSpec(s, base, []) == s && |s.bps| != |s.dbg.bps|
  {
    var offs := Offsets(s.dbg.bps);
    assert offs == [a, a];
    NewOffsetsNone(offs, s.bps.Keys);
    assert BpsReports(s, base, []) == [];
    assert Tracked(s) == s.bps;
  }

  /** `run_to` an address whose tracked breakpoint is still in WinDbg: `bu` there redefines
      that breakpoint and `get_bp` then finds it, so it is removed in WinDbg while `bps`
      still tracks it; the next stopped tick reports it as deleted. */
  lemma RunToRemovesTrackedBreakpoint(s: EngineState, base: int, wire: int)
    requires wire + base in s.bps && FindBp(s.dbg.bps, wire + base) == Some(s.bps[wire + base])
    ensures var r := RunToSpec(s, base, AddrMessage("run_to", wire));
            !r.raised && r.cont && r.state.bps == s.bps &&
            (forall b :: b in r.state.dbg.bps ==> b.handle != s.bps[wire + base]) &&
            r.state.dbg.calls == s.dbg.calls + [BuCommand(wire + base), GoCommand, RemoveCommand(s.bps[wire + base])]
  {
    var addr := wire + base;
    var h := s.bps[addr];
    RunToCalls(s.dbg, addr, h);
    var d := Command(Bu(s.dbg, addr), GoCommand);
    assert d.bps == s.dbg.bps;
    assert RunToSpec(s, base, AddrMessage("run_to", wire)) == Reply(s.(dbg := Remove(d, h)), true, false);
  }

  lemma RunToCalls(d: DbgState, addr: int, h: int)
    ensures Remove(Command(Bu(d, addr), GoCommand), h).calls == d.calls + [BuCommand(addr), GoCommand, RemoveCommand(h)]
  {
    var c := Command(Bu(d, addr), GoCommand).calls;
    assert c == d.calls + [BuCommand(addr)] + [GoCommand];
  }

  /** A message that arrives while the debuggee runs is handled with the debuggee broken
      into, and it runs again afterwards unless the message was `break`. */
  lemma ReceiveWhileRunning(s: EngineState, t: Target, base: int, m: Message, order: seq<int>)
    requires s.dbg.status == Go
    ensures var r := ReceiveSpec(s, t, base, Some(m), order);
            !r.raised ==> (r.state.dbg.status == Go <==> m.cmd != "break")
  {
    var stopped := s.(dbg := Command(s.dbg, BreakinCommand));
    ProcessResumesUnlessBreak(stopped, t, base, m, order);
    if m.cmd == "break" {
      assert !Contains(m.cmd, "bp") by {
        forall k | 0 <= k <= |m.cmd| - 2 ensures !OccursAt(m.cmd, "bp", k) {
          assert m.cmd[k] != 'b' || m.cmd[k + 1] != 'p';
        }
      }
    }
  }

  /** While the debuggee runs after the message is handled, a tick does nothing more. */
  lemma TickSkipsChecksWhileRunning(s: EngineState, t: Target, base: int, msg: Option<Message>,
                                    syncOrder: seq<int>, vanishedOrder: seq<int>)
    requires var r := ReceiveSpec(s, t, base, msg, syncOrder); !r.raised && r.state.dbg.status == Go
    ensures TickSpec(s, t, base, msg, syncOrder, vanishedOrder) == ReceiveSpec(s, t, base, msg, syncOrder)
  {
  }

  /** A tick changes the tracked breakpoints only through the message it handles, unless
      the native count and `len(bps)` disagree. */
  lemma TickDiffsOnlyOnCountChange(s: EngineState, t: Target, base: int, msg: Option<Message>,
                                   syncOrder: seq<int>, vanishedOrder: seq<int>)
    requires !DiffsBps(ReceiveSpec(s, t, base, msg, syncOrder).state, t, base)
    ensures TickSpec(s, t, base, msg, syncOrder, vanishedOrder).state.bps == ReceiveSpec(s, t, base, msg, syncOrder).state.bps
  {
  }

  // ---------------------------------------------------------------- the script

  /** The first native breakpoint with no earlier one at its address is what `get_bp`
      finds there. */
  lemma {:induction false} FindBpAt(native: seq<NativeBp>, i: int)
    requires 0 <= i < |native|
    requires forall j :: 0 <= j < i ==> native[j].offset != native[i].offset
    ensures FindBp(native, native[i].offset) == Some(native[i].handle)
    decreases i
  {
    if i > 0 {
      assert native[1..][i - 1] == native[i];
      FindBpAt(native[1..], i - 1);
    }
  }

  /** The two loops of `update_bps` leave `Tracked(s)`: the first adopts every native
      address into `adopted`, the second keeps of those only the native ones. */
  lemma TrackedAfterDiff(s: EngineState, adopted: map<int, int>, kept: map<int, int>)
    requires forall a :: a in adopted <==> a in s.bps || a in Offsets(s.dbg.bps)
    requires forall a :: a in adopted && a in s.bps ==> adopted[a] == s.bps[a]
    requires forall a :: a in adopted && a !in s.bps ==> Some(adopted[a]) == FindBp(s.dbg.bps, a)
    requires forall a :: a in kept <==> a in adopted && a in Offsets(s.dbg.bps)
    requires forall a :: a in kept ==> kept[a] == adopted[a]
    ensures kept == Tracked(s)
  {
    var t := Tracked(s);
    forall a | a in kept ensures a in t && kept[a] == t[a] {
      if a !in s.bps {
        assert Some(adopted[a]) == FindBp(s.dbg.bps, a);
      }
    }
    forall a | a in t ensures a in kept {
    }
    assert kept.Keys == t.Keys;
  }

  /** The addresses of the first `i + 1` native breakpoints. */
  lemma OffsetsPrefix(native: seq<NativeBp>, i: int)
    requires 0 <= i < |native|
    ensures Offsets(native)[..i + 1] == Offsets(native)[..i] + [native[i].offset]
  {
    var offs := Offsets(native);
    assert offs[i] == native[i].offset;
    assert offs[..i + 1] == offs[..i] + [offs[i]];
  }

  /** A native breakpoint whose address no earlier one has is what `get_bp` finds there. */
  lemma FindBpFresh(native: seq<NativeBp>, i: int)
    requires 0 <= i < |native| && native[i].offset !in Offsets(native)[..i]
    ensures FindBp(native, native[i].offset) == Some(native[i].handle)
  {
    forall j | 0 <= j < i ensures native[j].offset != native[i].offset {
      assert Offsets(native)[..i][j] == native[j].offset;
    }
    FindBpAt(native, i);
  }

  /** `get_regs()`: read every register whose name has no digit. */
  method GetRegs(t: Target) returns (regs: Regs)
    ensures forall n :: n in regs <==> n in t.registerNames && !HasDigit(n)
    ensures forall n :: n in regs ==> regs[n] == t.reg(n)
    ensures regs == Snapshot(t)
  {
    var names := t.registerNames;
    regs := map[];
    var i := 0;
    while i < |names|
      invariant 0 <= i <= |names|
      invariant regs == map n | n in names[..i] && !HasDigit(n) :: t.reg(n)
    {
      var name := names[i];
      if !HasDigit(name) {
        regs := regs[name := t.reg(name)];
      }
      i := i + 1;
      assert names[..i] == names[..i - 1] + [name];
    }
    assert names[..i] == names;
  }

  /** `get_bp(addr)`: scan the native breakpoints for the first one at `addr`. */
  method GetBp(native: seq<NativeBp>, addr: int) returns (bp: Option<int>)
    ensures bp == FindBp(native, addr)
  {
    var i := 0;
    while i < |native|
      invariant 0 <= i <= |native|
      invariant FindBp(native[i..], addr) == FindBp(native, addr)
    {
      if native[i].offset == addr {
        return Some(native[i].handle);
      }
      assert native[i..][1..] == native[i + 1..];
      i := i + 1;
    }
    return None;
  }

  /** The script's module globals. */
  class Engine {
    const base: int               // base: the first module's load address
    var bps: map<int, int>        // bps
    var ip: Option<int>           // ip
    var outbox: seq<Message>      // what conn.send has sent
    var dbg: DbgState             // the debugger behind pykd

    function State(): EngineState
      reads this
    {
      EngineState(bps, ip, outbox, dbg)
    }

    /** The globals as the script sets them up before Binary Ninja connects. */
    constructor(base: int, dbg: DbgState)
      ensures this.base == base && State() == EngineState(map[], None, [], dbg)
    {
      this.base := base;
      bps := map[];
      ip := None;
      outbox := [];
      this.dbg := dbg;
    }

    /** `send(command, **params)`. */
    method Send(m: Message)
      modifies this
      ensures outbox == old(outbox) + [m]
      ensures bps == old(bps) && ip == old(ip) && dbg == old(dbg)
    {
      outbox := outbox + [m];
    }

    /** `send(cmd, addr=a - base)` after the messages for `addrs`. */
    method Report(cmd: string, a: int, ghost sent: seq<Message>, ghost addrs: seq<int>)
      modifies this
      requires outbox == sent + AddrMessages(cmd, addrs, base)
      ensures outbox == sent + AddrMessages(cmd, addrs + [a], base)
      ensures bps == old(bps) && ip == old(ip) && dbg == old(dbg)
    {
      ghost var before := outbox;
      Send(AddrMessage(cmd, a - base));
      SentOneMore(outbox, before, sent, cmd, addrs, a, base);
    }

    /** The `sync` branch of `process`: the instruction pointer and registers, then every
        tracked breakpoint, in the order the loop visits them. */
    method Sync(t: Target) returns (ghost order: seq<int>)
      modifies this
      ensures Enumerates(order, old(bps).Keys)
      ensures State() == old(State()).(outbox := old(outbox) + SyncMessages(old(State()), t, base, order))
    {
      var regs := GetRegs(t);
      Send(SetIpMessage(dbg.ip - base, regs));
      ghost var head := outbox;
      order := ReportAll(bps.Keys);
      SentThen(outbox, head, old(outbox), [SetIpMessage(dbg.ip - base, Snapshot(t))], AddrMessages("set_bp", order, base));
    }

    /** `for bp in bps: send('set_bp', addr=bp - base)`; returns the order the loop
        visits the addresses in. */
    method ReportAll(S: set<int>) returns (ghost order: seq<int>)
      modifies this
      ensures Enumerates(order, S)
      ensures outbox == old(outbox) + AddrMessages("set_bp", order, base)
      ensures bps == old(bps) && ip == old(ip) && dbg == old(dbg)
    {
      var pending := S;
      order := [];
      while pending != {}
        invariant pending <= S
        invariant forall a :: a in order <==> a in S && a !in pending
        invariant Distinct(order)
        invariant bps == old(bps) && ip == old(ip) && dbg == old(dbg)
        invariant outbox == old(outbox) + AddrMessages("set_bp", order, base)
        decreases pending
      {
        var a := Pick(pending);
        Report("set_bp", a, old(outbox), order);
        order := order + [a];
        pending := pending - {a};
      }
    }

    /** The breakpoint branch of `process`, for a command whose name contains `bp`. */
    method BpCommand(m: Message) returns (raised: bool)
      modifies this
      ensures Reply(State(), true, raised) == BpCommandSpec(old(State()), base, m)
    {
      var wire := NumParam(m, "addr");
      if wire.None? {
        return true;
      }
      raised := false;
      var addr := wire.value + base;
      if m.cmd == "set_bp" && addr !in bps {
        BuSets(dbg, addr);
        dbg := Bu(dbg, addr);
        var bp := GetBp(dbg.bps, addr);
        bps := bps[addr := bp.value];
      } else if m.cmd == "delete_bp" && addr in bps {
        dbg := Remove(dbg, bps[addr]);
        bps := bps - {addr};
      }
    }

    /** The `run_to` branch of `process`. */
    method RunTo(m: Message) returns (raised: bool)
      modifies this
      ensures Reply(State(), true, raised) == RunToSpec(old(State()), base, m)
    {
      var wire := NumParam(m, "addr");
      if wire.None? {
        return true;
      }
      raised := false;
      var addr := wire.value + base;
      BuSets(dbg, addr);
      var d := Command(Bu(dbg, addr), GoCommand);
      var bp := GetBp(d.bps, addr);
      dbg := Remove(d, bp.value);
    }

    /** `process((cmd, params))`: whether to keep the debuggee running, whether it raised,
        and the order `sync` visited the breakpoints in. */
    method Process(t: Target, m: Message) returns (cont: bool, raised: bool, ghost order: seq<int>)
      modifies this
      ensures m.cmd == "sync" ==> Enumerates(order, old(bps).Keys)
      ensures Reply(State(), cont, raised) == ProcessSpec(old(State()), t, base, m, order)
    {
      cont, raised, order := true, false, [];
      SyncIsNotBp();
      if Contains(m.cmd, "bp") {
        raised := BpCommand(m);
      } else if m.cmd == "set_ip" {
        var wire := NumParam(m, "ip");
        if wire.None? {
          return true, true, [];
        }
        dbg := dbg.(ip := wire.value + base, calls := dbg.calls + [SetIpCommand(wire.value + base)]);
      } else if m.cmd == "sync" {
        order := Sync(t);
      } else if m.cmd == "go" {
        dbg := Command(dbg, GoCommand);
      } else if m.cmd == "break" {
        dbg := Command(dbg, BreakinCommand);
        cont := false;
      } else if m.cmd == "step_out" {
        dbg := Command(dbg, StepOutCommand);
      } else if m.cmd == "step_in" {
        dbg := Command(dbg, TraceCommand);
      } else if m.cmd == "step_over" {
        dbg := Command(dbg, StepCommand);
      } else if m.cmd == "run_to" {
        raised := RunTo(m);
      }
    }

    /** `update_ip(current_ip)`. */
    method UpdateIp(t: Target, cur: int)
      modifies this
      ensures State() == UpdateIpSpec(old(State()), t, base, cur)
    {
      ip := Some(cur);
      var regs := GetRegs(t);
      if cur !in bps {
        Send(SetIpMessage(cur - base, regs));
      } else {
        Send(BpHitMessage(cur - base, regs));
      }
    }

    /** `update_vtable(current_ip)`: whether it raised. */
    method UpdateVtable(t: Target, cur: int) returns (raised: bool)
      modifies this
      ensures Step(State(), raised) == UpdateVtableSpec(old(State()), t, base, cur)
    {
      raised := false;
      match Vtable.UpdateVtable(t, base, cur)
      case NoMessage =>
      case Send(m) => Send(m);
      case Crashed => raised := true;
    }

    /** `update_bps()`: adopt every native breakpoint not yet tracked, then drop every
        tracked address no native breakpoint is at; returns the order the second loop
        dropped them in. */
    method UpdateBps() returns (ghost order: seq<int>)
      modifies this
      ensures Enumerates(order, Vanished(old(State())))
      ensures State() == UpdateBpsSpec(old(State()), base, order)
    {
      var current := AdoptNative();
      ghost var adopted := bps;
      ghost var middle := outbox;
      order := DropVanished(current);
      SentThen(outbox, middle, old(outbox), AddrMessages("set_bp", NewOffsets(current, old(bps).Keys), base),
               AddrMessages("delete_bp", order, base));
      TrackedAfterDiff(old(State()), adopted, bps);
    }

    /** The first loop of `update_bps`: list the native breakpoints' addresses, tracking
        and reporting each one not tracked yet. */
    method AdoptNative() returns (current: seq<int>)
      modifies this
      ensures current == Offsets(dbg.bps)
      ensures forall a :: a in bps <==> a in old(bps) || a in current
      ensures forall a :: a in bps && a in old(bps) ==> bps[a] == old(bps)[a]
      ensures forall a :: a in bps && a !in old(bps) ==> Some(bps[a]) == FindBp(dbg.bps, a)
      ensures outbox == old(outbox) + AddrMessages("set_bp", NewOffsets(current, old(bps).Keys), base)
      ensures ip == old(ip) && dbg == old(dbg)
    {
      var native := dbg.bps;
      ghost var added: seq<int> := [];
      current := [];
      var i := 0;
      while i < |native|
        invariant 0 <= i <= |native|
        invariant current == Offsets(native)[..i]
        invariant forall a :: a in bps <==> a in old(bps) || a in current
        invariant forall a :: a in bps && a in old(bps) ==> bps[a] == old(bps)[a]
        invariant forall a :: a in bps && a !in old(bps) ==> Some(bps[a]) == FindBp(native, a)
        invariant added == NewOffsets(current, old(bps).Keys)
        invariant outbox == old(outbox) + AddrMessages("set_bp", added, base)
        invariant ip == old(ip) && dbg == old(dbg)
      {
        added := AdoptStep(native, i, current, old(bps), old(outbox), added);
        current := current + [native[i].offset];
        i := i + 1;
      }
      assert Offsets(native)[..i] == Offsets(native);
    }

    /** One pass of the first loop of `update_bps`: track and report the `i`th native
        breakpoint's address unless it is tracked already. */
    method AdoptStep(native: seq<NativeBp>, i: int, current: seq<int>, ghost known: map<int, int>,
                     ghost sent: seq<Message>, ghost added: seq<int>) returns (ghost added': seq<int>)
      modifies this
      requires 0 <= i < |native| && current == Offsets(native)[..i]
      requires forall a :: a in bps <==> a in known || a in current
      requires forall a :: a in bps && a in known ==> bps[a] == known[a]
      requires forall a :: a in bps && a !in known ==> Some(bps[a]) == FindBp(native, a)
      requires added == NewOffsets(current, known.Keys)
      requires outbox == sent + AddrMessages("set_bp", added, base)
      ensures current + [native[i].offset] == Offsets(native)[..i + 1]
      ensures forall a :: a in bps <==> a in known || a in current + [native[i].offset]
      ensures forall a :: a in bps && a in known ==> bps[a] == known[a]
      ensures forall a :: a in bps && a !in known ==> Some(bps[a]) == FindBp(native, a)
      ensures added' == NewOffsets(current + [native[i].offset], known.Keys)
      ensures outbox == sent + AddrMessages("set_bp", added', base)
      ensures ip == old(ip) && dbg == old(dbg)
    {
      var bp := native[i];
      OffsetsPrefix(native, i);
      added' := added;
      if bp.offset !in bps {
        FindBpFresh(native, i);
        Adopt(bp, sent, added);
        added' := added + [bp.offset];
      }
      NewOffsetsSnoc(current, bp.offset, known.Keys);
    }

    /** Track a native breakpoint's handle under its address and report the address. */
    method Adopt(bp: NativeBp, ghost sent: seq<Message>, ghost added: seq<int>)
      modifies this
      requires outbox == sent + AddrMessages("set_bp", added, base)
      ensures bps == old(bps)[bp.offset := bp.handle]
      ensures outbox == sent + AddrMessages("set_bp", added + [bp.offset], base)
      ensures ip == old(ip) && dbg == old(dbg)
    {
      bps := bps[bp.offset := bp.handle];
      Report("set_bp", bp.offset, sent, added);
    }

    /** The second loop of `update_bps`: over a copy of the tracked addresses, drop and
        report each one not in `current`; returns the order it dropped them in. */
    method DropVanished(current: seq<int>) returns (ghost order: seq<int>)
      modifies this
      ensures forall a :: a in order <==> a in old(bps) && a !in current
      ensures Distinct(order)
      ensures forall a :: a in bps <==> a in old(bps) && a in current
      ensures forall a :: a in bps ==> bps[a] == old(bps)[a]
      ensures outbox == old(outbox) + AddrMessages("delete_bp", order, base)
      ensures ip == old(ip) && dbg == old(dbg)
    {
      var pending := bps.Keys;
      order := [];
      while pending != {}
        invariant forall a :: a in pending ==> a in old(bps)
        invariant forall a :: a in bps <==> a in old(bps) && (a in pending || a in current)
        invariant forall a :: a in bps ==> bps[a] == old(bps)[a]
        invariant forall a :: a in order <==> a in old(bps) && a !in pending && a !in current
        invariant Distinct(order)
        invariant outbox == old(outbox) + AddrMessages("delete_bp", order, base)
        invariant ip == old(ip) && dbg == old(dbg)
        decreases pending
      {
        var a := Pick(pending);
        if a !in current {
          bps := bps - {a};
          Report("delete_bp", a, old(outbox), order);
          order := order + [a];
        }
        pending := pending - {a};
      }
    }

    /** The part of an `event_loop` pass that handles a message from Binary Ninja, if one
        arrived within the poll time. */
    method Receive(t: Target, msg: Option<Message>) returns (raised: bool, ghost order: seq<int>)
      modifies this
      ensures msg.Some? && msg.value.cmd == "sync" ==> Enumerates(order, old(bps).Keys)
      ensures Step(State(), raised) == ReceiveSpec(old(State()), t, base, msg, order)
    {
      raised, order := false, [];
      if msg.Some? {
        if dbg.status == Go {
          dbg := Command(dbg, BreakinCommand);
          var cont;
          cont, raised, order := Process(t, msg.value);
          if !raised && cont {
            dbg := Command(dbg, GoCommand);
          }
        } else {
          var cont;
          cont, raised, order := Process(t, msg.value);
        }
      }
    }

    /** The rest of an `event_loop` pass: nothing while the debuggee runs; otherwise report
        a moved instruction pointer and a vtable call there, then diff the breakpoints if
        the counts disagree. */
    method Check(t: Target) returns (raised: bool, ghost order: seq<int>)
      modifies this
      ensures DiffsBps(old(State()), t, base) ==> Enumerates(order, Vanished(IpChecked(old(State()), t, base).state))
      ensures Step(State(), raised) == CheckSpec(old(State()), t, base, order)
    {
      raised, order := false, [];
      if dbg.status == Go {
        return;
      }
      var cur := dbg.ip;
      if Some(cur) != ip {
        UpdateIp(t, cur);
        raised := UpdateVtable(t, cur);
        if raised {
          return;
        }
      }
      if |dbg.bps| != |bps| {
        order := UpdateBps();
      }
    }

    /** One pass of `event_loop`'s loop; `raised` means the loop ends with the exception. */
    method Tick(t: Target, msg: Option<Message>) returns (raised: bool, ghost syncOrder: seq<int>, ghost vanishedOrder: seq<int>)
      modifies this
      ensures msg.Some? && msg.value.cmd == "sync" ==> Enumerates(syncOrder, old(bps).Keys)
      ensures var mid := ReceiveSpec(old(State()), t, base, msg, syncOrder);
              !mid.raised && DiffsBps(mid.state, t, base) ==>
                Enumerates(vanishedOrder, Vanished(IpChecked(mid.state, t, base).state))
      ensures Step(State(), raised) == TickSpec(old(State()), t, base, msg, syncOrder, vanishedOrder)
    {
      vanishedOrder := [];
      raised, syncOrder := Receive(t, msg);
      if !raised {
        raised, vanishedOrder := Check(t);
      }
    }
  }
}
