/** The conditional-branch resolver inside `BinDbgSession.set_ip`: once the current
    instruction lifts to a conditional (`LLIL_IF`) and a register snapshot came with the
    new instruction pointer, the mnemonic is looked up in a table of flag tests; the jump
    operand is highlighted when its test holds and the fall-through address otherwise.
    The table is kept exactly as the source writes it; `X86Condition` is the processor's
    own rule, and the lemmas below say where the two agree and where they do not. */
module Branch {
  import opened Common
  import opened PyText
  import opened Wire

  // ---------------------------------------------------------------- the table as written

  /** How a clause names its mnemonics. `instr in ('je','jz')` tests tuple membership, but
      `instr in ('jo')` has no comma, so its parentheses make a plain string and the test
      is "`instr` is a substring of 'jo'". */
  datatype Names = Bare(s: string) | Tuple(members: seq<string>)

  predicate Named(names: Names, instr: string) {
    match names
    case Bare(s) => Contains(s, instr)
    case Tuple(ms) => instr in ms
  }

  /** A test over the register snapshot, in the source's own terms. */
  datatype Test =
    | Is(reg: string, v: int)      // regs[reg] == v
    | Differ(a: string, b: string) // regs[a] != regs[b]
    | Same(a: string, b: string)   // regs[a] == regs[b]
    | Either(x: Test, y: Test)     // x or y
    | Both(x: Test, y: Test)       // x and y

  /** Python's evaluation of a test: `None` when it reaches a register the snapshot lacks
      (a `KeyError`); `or` and `and` short-circuit. */
  function Eval(t: Test, regs: Regs): Option<bool> {
    match t
    case Is(r, v) => if r in regs then Some(regs[r] == v) else None
    case Differ(a, b) => if a in regs && b in regs then Some(regs[a] != regs[b]) else None
    case Same(a, b) => if a in regs && b in regs then Some(regs[a] == regs[b]) else None
    case Either(x, y) =>
      (match Eval(x, regs)
       case None => None
       case Some(hx) => if hx then Some(true) else Eval(y, regs))
    case Both(x, y) =>
      (match Eval(x, regs)
       case None => None
       case Some(hx) => if hx then Eval(y, regs) else Some(false))
  }

  /** One disjunct `(instr in names and test)` of the source's condition. */
  datatype Clause = Clause(names: Names, test: Test)

  /** The disjuncts of `__init__.py` lines 184-200, in the source's order. */
  function Table(): seq<Clause> {
    [ Clause(Bare("jo"), Is("of", 1)),
      Clause(Bare("jno"), Is("of", 0)),
      Clause(Bare("js"), Is("sf", 1)),
      Clause(Bare("jns"), Is("sf", 0)),
      Clause(Tuple(["je", "jz"]), Is("zf", 1)),
      Clause(Bare("jne"), Is("zf", 0)),
      Clause(Tuple(["jb", "jnae", "jc"]), Is("cf", 1)),
      Clause(Tuple(["jnb", "jae", "jnc"]), Is("cf", 0)),
      Clause(Tuple(["jbe", "jna"]), Either(Is("cf", 1), Is("zf", 1))),
      Clause(Tuple(["ja", "jnbe"]), Both(Is("cf", 0), Is("zf", 0))),
      Clause(Tuple(["jl", "jnge"]), Differ("sf", "of")),
      Clause(Tuple(["jge", "jnl"]), Same("sf", "of")),
      Clause(Tuple(["jle", "jng"]), Either(Is("zf", 1), Differ("sf", "of"))),
      Clause(Tuple(["jg", "jnle"]), Both(Is("zf", 0), Is("sf", 0))),
      Clause(Tuple(["jp", "jpe"]), Is("pf", 1)),
      Clause(Tuple(["jnp", "jpo"]), Is("pf", 1)),
      Clause(Tuple(["jcxz", "jecxz"]), Is("cx", 0)) ]
  }

  /** The `or` of the clauses, left to right: `Some(true)` when the jump is taken,
      `Some(false)` when it falls through, `None` when evaluation raises. */
  function Taken(clauses: seq<Clause>, instr: string, regs: Regs): Option<bool> {
    if clauses == [] then Some(false)
    else
      var here := if Named(clauses[0].names, instr) then Eval(clauses[0].test, regs) else Some(false);
      match here
      case None => None
      case Some(h) => if h then Some(true) else Taken(clauses[1..], instr, regs)
  }

  /** Where the branch highlight goes. */
  datatype Resolution =
    | NoTarget         // nothing is highlighted
    | Target(at: int)  // this address is highlighted
    | Raises           // the source raises before highlighting

  /** The tail of `set_ip`: for an instruction at `addr` that lifts to a conditional
      (`isIf`), with snapshot `regs`, disassembly text `text` and byte length `length`. */
  function BranchTarget(addr: int, isIf: bool, regs: Regs, text: string, length: int): (r: Resolution)
    ensures r.NoTarget? <==> !isIf || regs == map[]
    ensures r.Target? ==> r.at == addr + length || exists w :: w in Words(text) && ParseHex(w) == Some(r.at)
  {
    if !isIf || regs == map[] then NoTarget
    else
      var words := Words(text);
      if |words| != 2 then Raises
      else
        match Taken(Table(), words[0], regs)
        case None => Raises
        case Some(h) =>
          if !h then Target(addr + length)
          else
            match ParseHex(words[1])
            case None => Raises
            case Some(t) => assert words[1] in words; Target(t)
  }

  /** On a disassembly line "`m` `operand`", the target is the operand exactly when the
      table takes the jump, and the next instruction otherwise. */
  lemma BranchTargetOfJump(addr: int, regs: Regs, m: string, operand: string, length: int, t: int)
    requires regs != map[] && IsWord(m) && IsWord(operand) && ParseHex(operand) == Some(t)
    requires Taken(Table(), m, regs).Some?
    ensures BranchTarget(addr, true, regs, m + " " + operand, length)
            == if Taken(Table(), m, regs).value then Target(t) else Target(addr + length)
  {
    WordsOfSpaced([m, operand]);
    assert Spaced([m, operand]) == m + " " + operand;
  }

  // ---------------------------------------------------------------- the processor's rule

  /** The condition flags and the count registers the conditional jumps test. */
  datatype Flags = Flags(of: bool, sf: bool, zf: bool, cf: bool, pf: bool, cx: int, ecx: int, rcx: int)

  /** The x86 conditional-jump mnemonics: Intel's names and their aliases. */
  const Conditional: set<string> := {
    "jo", "jno", "js", "jns", "je", "jz", "jne", "jnz", "jb", "jnae", "jc", "jnb", "jae",
    "jnc", "jbe", "jna", "ja", "jnbe", "jl", "jnge", "jge", "jnl", "jle", "jng", "jg",
    "jnle", "jp", "jpe", "jnp", "jpo", "jcxz", "jecxz", "jrcxz" }

  /** When the processor takes each conditional jump. */
  function X86Condition(m: string, f: Flags): bool
    requires m in Conditional
  {
    if m == "jo" then f.of
    else if m == "jno" then !f.of
    else if m == "js" then f.sf
    else if m == "jns" then !f.sf
    else if m in {"je", "jz"} then f.zf
    else if m in {"jne", "jnz"} then !f.zf
    else if m in {"jb", "jnae", "jc"} then f.cf
    else if m in {"jnb", "jae", "jnc"} then !f.cf
    else if m in {"jbe", "jna"} then f.cf || f.zf
    else if m in {"ja", "jnbe"} then !f.cf && !f.zf
    else if m in {"jl", "jnge"} then f.sf != f.of
    else if m in {"jge", "jnl"} then f.sf == f.of
    else if m in {"jle", "jng"} then f.zf || f.sf != f.of
    else if m in {"jg", "jnle"} then !f.zf && f.sf == f.of
    else if m in {"jp", "jpe"} then f.pf
    else if m in {"jnp", "jpo"} then !f.pf
    else if m == "jcxz" then f.cx == 0
    else if m == "jecxz" then f.ecx == 0
    else f.rcx == 0
  }

  predicate Bit(regs: Regs, name: string, b: bool) {
    name in regs && regs[name] == if b then 1 else 0
  }

  /** The snapshot holds the five flags as 0/1 and `cx`, all as in `f`. */
  predicate Describes(regs: Regs, f: Flags) {
    Bit(regs, "of", f.of) && Bit(regs, "sf", f.sf) && Bit(regs, "zf", f.zf) &&
    Bit(regs, "cf", f.cf) && Bit(regs, "pf", f.pf) && "cx" in regs && regs["cx"] == f.cx
  }

  /** The mnemonics on which the table follows the processor. */
  const Agreeing: set<string> := Conditional - {"jnz", "jg", "jnle", "jnp", "jpo", "jecxz", "jrcxz"}

  /** A clause that names a real mnemonic by a bare string names that mnemonic only:
      no conditional mnemonic is a proper substring of 'jo', 'jno', 'js', 'jns' or 'jne'. */
  lemma BareNamesExact(s: string, m: string)
    requires s in {"jo", "jno", "js", "jns", "jne"} && m in Conditional
    ensures Named(Bare(s), m) <==> m == s
  {
    assert |m| >= 2 && m[0] == 'j' && m != "jn";
    var r := Find(s, m);
    if r >= 0 {
      assert s[r..r + |m|] == m;
      assert r == 0;
    } else {
      assert !OccursAt(s, m, 0);
    }
  }

  /** The index of the clause that names `m`, or -1. */
  function ClauseFor(m: string): int {
    if m == "jo" then 0 else if m == "jno" then 1 else if m == "js" then 2
    else if m == "jns" then 3 else if m in {"je", "jz"} then 4 else if m == "jne" then 5
    else if m in {"jb", "jnae", "jc"} then 6 else if m in {"jnb", "jae", "jnc"} then 7
    else if m in {"jbe", "jna"} then 8 else if m in {"ja", "jnbe"} then 9
    else if m in {"jl", "jnge"} then 10 else if m in {"jge", "jnl"} then 11
    else if m in {"jle", "jng"} then 12 else if m in {"jg", "jnle"} then 13
    else if m in {"jp", "jpe"} then 14 else if m in {"jnp", "jpo"} then 15
    else if m in {"jcxz", "jecxz"} then 16 else -1
  }


  lemma {:induction false} NoneNamed(clauses: seq<Clause>, m: string, regs: Regs)
    requires forall i :: 0 <= i < |clauses| ==> !Named(clauses[i].names, m)
    ensures Taken(clauses, m, regs) == Some(false)
    decreases |clauses|
  {
    if clauses != [] {
      NoneNamed(clauses[1..], m, regs);
    }
  }

  /** When a single clause names `m`, the chain decides as that clause's test does. */
  lemma {:induction false} TakenOnly(clauses: seq<Clause>, m: string, regs: Regs, k: nat)
    requires k < |clauses| && Named(clauses[k].names, m)
    requires forall i :: 0 <= i < |clauses| && i != k ==> !Named(clauses[i].names, m)
    ensures Taken(clauses, m, regs) == Eval(clauses[k].test, regs)
    decreases k
  {
    if k > 0 {
      TakenOnly(clauses[1..], m, regs, k - 1);
    } else {
      NoneNamed(clauses[1..], m, regs);
    }
  }

  /** The five bare-string clauses name exactly their own mnemonic among the real ones. */
  lemma BareClausesExact(m: string)
    requires m in Conditional
    ensures Named(Bare("jo"), m) <==> m == "jo"
    ensures Named(Bare("jno"), m) <==> m == "jno"
    ensures Named(Bare("js"), m) <==> m == "js"
    ensures Named(Bare("jns"), m) <==> m == "jns"
    ensures Named(Bare("jne"), m) <==> m == "jne"
  {
    BareNamesExact("jo", m);
    BareNamesExact("jno", m);
    BareNamesExact("js", m);
    BareNamesExact("jns", m);
    BareNamesExact("jne", m);
  }

  /** `ClauseFor(m)` is the only clause of the first eight that can name `m`. */
  lemma NamedOnlyByLow(m: string)
    requires m in Conditional
    ensures forall i :: 0 <= i < 8 ==> (Named(Table()[i].names, m) <==> i == ClauseFor(m))
  {
    BareClausesExact(m);
  }

  /** ... and of clauses 8 to 11. */
  lemma NamedOnlyByMid(m: string)
    ensures forall i :: 8 <= i < 12 ==> (Named(Table()[i].names, m) <==> i == ClauseFor(m))
  {
  }

  /** ... and of the last five. */
  lemma NamedOnlyByHigh(m: string)
    ensures forall i :: 12 <= i < |Table()| ==> (Named(Table()[i].names, m) <==> i == ClauseFor(m))
  {
  }

  /** The clause for an agreeing mnemonic tests the processor's condition: the first
      eight clauses ... */
  lemma ClauseTestAgreesLow(m: string, regs: Regs, f: Flags)
    requires m in Agreeing && ClauseFor(m) < 8 && Describes(regs, f)
    ensures 0 <= ClauseFor(m) < |Table()|
    ensures Eval(Table()[ClauseFor(m)].test, regs) == Some(X86Condition(m, f))
  {
  }

  /** ... and the others. */
  lemma ClauseTestAgreesHigh(m: string, regs: Regs, f: Flags)
    requires m in Agreeing && ClauseFor(m) >= 8 && Describes(regs, f)
    ensures 0 <= ClauseFor(m) < |Table()|
    ensures Eval(Table()[ClauseFor(m)].test, regs) == Some(X86Condition(m, f))
  {
  }

  /** For a snapshot that holds the flags, the table decides every conditional jump other
      than `jnz`, `jg`/`jnle`, `jnp`/`jpo`, `jecxz` and `jrcxz` as the processor does. */
  lemma TableAgreesWithX86(m: string, regs: Regs, f: Flags)
    requires m in Agreeing && Describes(regs, f)
    ensures Taken(Table(), m, regs) == Some(X86Condition(m, f))
  {
    NamedOnlyByLow(m);
    NamedOnlyByMid(m);
    NamedOnlyByHigh(m);
    if ClauseFor(m) < 8 {
      ClauseTestAgreesLow(m, regs, f);
    } else {
      ClauseTestAgreesHigh(m, regs, f);
    }
    TakenOnly(Table(), m, regs, ClauseFor(m));
  }

  /** The only clause that names `m` decides it. */
  lemma DecidedBy(m: string, regs: Regs)
    requires m in Conditional && ClauseFor(m) >= 0
    ensures Taken(Table(), m, regs) == Eval(Table()[ClauseFor(m)].test, regs)
  {
    NamedOnlyByLow(m);
    NamedOnlyByMid(m);
    NamedOnlyByHigh(m);
    TakenOnly(Table(), m, regs, ClauseFor(m));
  }

  /** `jg` and `jnle` test `sf` against 0 where the processor compares it with `of`: they
      follow the processor exactly when `zf` is set or `of` is clear. */
  lemma GreaterTestsSignOnly(m: string, regs: Regs, f: Flags)
    requires m in {"jg", "jnle"} && Describes(regs, f)
    ensures Taken(Table(), m, regs) == Some(!f.zf && !f.sf)
    ensures Taken(Table(), m, regs) == Some(X86Condition(m, f)) <==> f.zf || !f.of
  {
    DecidedBy(m, regs);
  }

  /** `jnp` and `jpo` repeat the parity test of `jp`, so they always take the opposite
      decision from the processor. */
  lemma ParityOddInverted(m: string, regs: Regs, f: Flags)
    requires m in {"jnp", "jpo"} && Describes(regs, f)
    ensures Taken(Table(), m, regs) == Some(f.pf)
    ensures Taken(Table(), m, regs) == Some(!X86Condition(m, f))
  {
    DecidedBy(m, regs);
  }

  /** `jecxz` tests the 16-bit `cx` instead of `ecx`. */
  lemma EcxTestsCx(regs: Regs, f: Flags)
    requires Describes(regs, f)
    ensures Taken(Table(), "jecxz", regs) == Some(f.cx == 0)
    ensures Taken(Table(), "jecxz", regs) == Some(X86Condition("jecxz", f)) <==> (f.cx == 0) == (f.ecx == 0)
  {
    DecidedBy("jecxz", regs);
  }

  /** `jnz` and `jrcxz` fall through whatever the snapshot holds, even an empty one. */
  lemma UnlistedFallThrough(m: string, regs: Regs)
    requires m in {"jnz", "jrcxz"}
    ensures Taken(Table(), m, regs) == Some(false)
  {
    NamedOnlyByLow(m);
    NamedOnlyByMid(m);
    NamedOnlyByHigh(m);
    NoneNamed(Table(), m, regs);
  }

  /** A concrete divergence: `jg` after a compare with signed overflow and a negative
      result (`sf` = `of` = 1, `zf` = 0) is taken by the processor but not by the table. */
  lemma GreaterCounterexample()
    ensures var f := Flags(true, true, false, false, false, 1, 1, 1);
            var regs := map["of" := 1, "sf" := 1, "zf" := 0, "cf" := 0, "pf" := 0, "cx" := 1];
            Describes(regs, f) && X86Condition("jg", f) && Taken(Table(), "jg", regs) == Some(false)
  {
    var f := Flags(true, true, false, false, false, 1, 1, 1);
    var regs := map["of" := 1, "sf" := 1, "zf" := 0, "cf" := 0, "pf" := 0, "cx" := 1];
    assert Describes(regs, f);
    GreaterTestsSignOnly("jg", regs, f);
  }
}
