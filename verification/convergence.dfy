/** How the two halves of the plugin keep the same breakpoints. Binary Ninja holds
    breakpoints as addresses in its view of the binary (based at the image's `start`);
    WinDbg tracks them as addresses in the loaded module (based at `base`); on the wire
    they travel as offsets from either base. The two sides agree when they hold the same
    set of offsets. */
module Convergence {
  import opened PyText
  import opened Wire
  import Analyzer
  import Engine
  import Pykd

  /** The offsets of a set of addresses from `origin`. */
  function Offsets(S: set<int>, origin: int): set<int> {
    set a | a in S :: a - origin
  }

  /** An offset is in the set exactly when its address is. */
  lemma InOffsets(S: set<int>, origin: int, w: int)
    ensures w in Offsets(S, origin) <==> w + origin in S
  {
    if w + origin in S {
      assert (w + origin) - origin == w;
    }
  }

  /** The session's breakpoints and the ones WinDbg tracks name the same offsets. */
  predicate Agree(s: Analyzer.SessionState, start: int, e: Engine.EngineState, base: int) {
    Offsets(s.bps, start) == Offsets(e.bps.Keys, base)
  }

  /** Agreement, one address at a time. */
  lemma AgreeAt(s: Analyzer.SessionState, start: int, e: Engine.EngineState, base: int, addr: int)
    requires Agree(s, start, e, base)
    ensures addr in s.bps <==> addr - start + base in e.bps
  {
    InOffsets(s.bps, start, addr - start);
    InOffsets(e.bps.Keys, base, addr - start);
  }

  /** Setting a breakpoint from Binary Ninja on an open connection sends exactly one
      `set_bp`, and once WinDbg has processed it the two sides agree again. */
  lemma SetBpKeepsAgreement(s: Analyzer.SessionState, start: int, e: Engine.EngineState, base: int,
                            t: Pykd.Target, order: seq<int>, addr: int)
    requires s.connOpen && Agree(s, start, e, base)
    ensures var m := AddrMessage("set_bp", addr - start);
            var r := Analyzer.SetBpSpec(s, start, addr, true);
            r.outbox == s.outbox + [m] &&
            Agree(r, start, Engine.ProcessSpec(e, t, base, m, order).state, base)
  {
    var m := AddrMessage("set_bp", addr - start);
    assert OccursAt(m.cmd, "bp", 4);
    Engine.ProcessRoutesBp(e, t, base, m, order);
    var r := Analyzer.SetBpSpec(s, start, addr, true);
    var e' := Engine.ProcessSpec(e, t, base, m, order).state;
    assert e'.bps.Keys == e.bps.Keys + {addr - start + base};
    forall w ensures w in Offsets(r.bps, start) <==> w in Offsets(e'.bps.Keys, base) {
      InOffsets(r.bps, start, w);
      InOffsets(s.bps, start, w);
      InOffsets(e'.bps.Keys, base, w);
      InOffsets(e.bps.Keys, base, w);
    }
  }

  /** Deleting a breakpoint from Binary Ninja on an open connection sends one
      `delete_bp` when the session had the breakpoint and nothing otherwise; once WinDbg
      has processed what was sent, the two sides agree again. */
  lemma DeleteBpKeepsAgreement(s: Analyzer.SessionState, start: int, e: Engine.EngineState, base: int,
                               t: Pykd.Target, order: seq<int>, addr: int)
    requires s.connOpen && Agree(s, start, e, base)
    ensures var m := AddrMessage("delete_bp", addr - start);
            var r := Analyzer.DeleteBpSpec(s, start, addr, true);
            !r.raised &&
            r.state.outbox == s.outbox + (if addr in s.bps then [m] else []) &&
            Agree(r.state, start, if addr in s.bps then Engine.ProcessSpec(e, t, base, m, order).state else e, base)
  {
    var m := AddrMessage("delete_bp", addr - start);
    assert OccursAt(m.cmd, "bp", 7);
    Engine.ProcessRoutesBp(e, t, base, m, order);
    AgreeAt(s, start, e, base, addr);
    if addr in s.bps {
      var r := Analyzer.DeleteBpSpec(s, start, addr, true);
      var e' := Engine.ProcessSpec(e, t, base, m, order).state;
      assert e'.bps.Keys == e.bps.Keys - {addr - start + base};
      forall w ensures w in Offsets(r.state.bps, start) <==> w in Offsets(e'.bps.Keys, base) {
        InOffsets(r.state.bps, start, w);
        InOffsets(s.bps, start, w);
        InOffsets(e'.bps.Keys, base, w);
        InOffsets(e.bps.Keys, base, w);
      }
    }
  }
}
