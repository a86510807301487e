/** `update_vtable` on the WinDbg side: when the instruction at the new instruction pointer
    looks like a virtual call or a load from a vtable, report where the call goes and,
    when it can be worked out, the object the vtable came from. Classification is plain
    text work on WinDbg's disassembly line (`Classify`); resolving a classified line reads
    registers and memory through the pykd queries (`Resolve`). */
module Vtable {
  import opened Common
  import opened PyText
  import opened Wire
  import opened Pykd

  // ---------------------------------------------------------------- the three patterns

  /** Text between `{` and `}` made of characters other than parentheses and of
      parenthesised groups with no parentheses inside: the body of
      `\{([^()]*|\([^()]*\))*\}`. `open` says a group has been opened and not closed. */
  predicate FlatParens(w: string, open: bool)
    decreases |w|
  {
    if w == [] then !open
    else if w[0] == '(' then !open && FlatParens(w[1..], true)
    else if w[0] == ')' then open && FlatParens(w[1..], false)
    else FlatParens(w[1..], open)
  }

  /** `re.search(symbol_regex, asm)`: somewhere in the line, a symbol annotation such as
      `{Symbol!ExampleSymbol (73b43420)}`. */
  predicate HasSymbol(s: string) {
    exists i, j :: 0 <= i < j < |s| && s[i] == '{' && s[j] == '}' && FlatParens(s[i + 1..j], false)
  }

  /** `re.search(deref_regex, asm)` for `\[[^\[]*\]`: a `[`, then no `[`, then a `]`. */
  predicate HasDeref(s: string) {
    exists i, j :: 0 <= i < j < |s| && s[i] == '[' && s[j] == ']' && '[' !in s[i + 1..j]
  }

  // A character of the source's arithmetic class, written with a range from '+' to '/'
  // and a '*': the range takes in '+', ',', '-', '.' and '/'.
  predicate IsArith(c: char) {
    '+' <= c <= '/' || c == '*'
  }

  predicate HasArith(s: string) {
    exists k :: 0 <= k < |s| && IsArith(s[k])
  }

  /** `re.split(arith_regex, s)[0]`: the text before the first arithmetic character. */
  function BeforeArith(s: string): (r: string)
    ensures r <= s
    ensures forall k :: 0 <= k < |r| ==> !IsArith(r[k])
    ensures r == s || IsArith(s[|r|])
  {
    if s == [] || IsArith(s[0]) then []
    else [s[0]] + BeforeArith(s[1..])
  }

  /** Any `[` before any later `]` is a match of the dereference pattern: the last `[`
      before that `]` starts one. */
  lemma {:induction false} DerefFromBrackets(s: string, i: int, j: int)
    requires 0 <= i < j < |s| && s[i] == '[' && s[j] == ']'
    ensures HasDeref(s)
    decreases j - i
  {
    if '[' in s[i + 1..j] {
      var k :| i + 1 <= k < j && s[k] == '[' by {
        var m :| 0 <= m < |s[i + 1..j]| && s[i + 1..j][m] == '[';
        assert s[i + 1 + m] == '[';
      }
      DerefFromBrackets(s, k, j);
    } else {
      assert 0 <= i < j < |s| && s[i] == '[' && s[j] == ']' && '[' !in s[i + 1..j];
    }
  }

  /** So the dereference pattern matches exactly when a `[` comes before a `]`. */
  lemma HasDerefIff(s: string)
    ensures HasDeref(s) <==> exists i, j :: 0 <= i < j < |s| && s[i] == '[' && s[j] == ']'
  {
    if i, j :| 0 <= i < j < |s| && s[i] == '[' && s[j] == ']' {
      DerefFromBrackets(s, i, j);
    }
  }

  // ---------------------------------------------------------------- classification

  /** Where the reported call target comes from. */
  datatype TargetRef =
    | Direct(addr: int)           // WinDbg printed the target: `target = long(..., 16)`
    | LoadFrom(ptr: int)          // a pointer read from this address: `ptr_target`
    | LoadFromExpr(text: string)  // a pointer read from where this expression points

  /** Where the object the vtable belongs to is read from. */
  datatype ObjectRef =
    | NoObject                    // no object address
    | SymbolExpr(text: string)    // `expr(symbol)`
    | Literal(addr: int)          // an address written out in the text
    | Register(name: string)      // `reg(name)`

  /** What the disassembly line says, before any debugger query. */
  datatype Shape =
    | NotVtable                   // not a recognised shape: nothing is sent
    | Import                      // a call through an import: nothing is sent
    | Candidate(instr: string, target: TargetRef, obj: ObjectRef)
    | Malformed                   // Python raises while taking the line apart

  /** `s[s.find(open) + 1:s.find(close)]`, the slicing idiom of the source. */
  function Between(s: string, open: string, close: string): (r: string)
    ensures |r| <= |s|
    ensures 0 <= Find(s, open) < Find(s, close) ==> r == s[Find(s, open) + 1..Find(s, close)]
    ensures Find(s, open) == -1 && 0 <= Find(s, close) ==> r == s[..Find(s, close)]
    ensures 0 <= Find(s, close) <= Find(s, open) ==> r == []
  {
    Slice(s, Find(s, open) + 1, Find(s, close))
  }

  /** The object address from the bracketed text `r` (`reg_and_arith`); `None` where the
      source raises (a symbol's or a number's address text that `long(.., 16)` rejects). */
  function ObjectOf(r: string): Option<ObjectRef> {
    if '!' in r then
      if '+' in r then Some(SymbolExpr(Before(r, "+")))
      else
        match ParseHex(Between(r, "(", ")"))
        case None => None
        case Some(a) => Some(Literal(a))
    else if HasArith(r) then Some(Register(BeforeArith(r)))
    else if AllHexDigits(r) then
      match ParseHex(Strip(r, 'h'))
      case None => None
      case Some(a) => Some(Literal(a))
    else if IsAlpha(r) then Some(Register(r))
    else Some(NoObject)
  }

  /** The classified line for an instruction whose object is looked for. */
  function WithObject(instr: string, target: TargetRef, asm: string): Shape {
    match ObjectOf(Between(asm, "[", "]"))
    case None => Malformed
    case Some(o) => Candidate(instr, target, o)
  }

  /** The address inside the parentheses, as a call or a symbolic `mov` gives it. */
  function ParenAddress(asm: string): Option<int> {
    ParseHex(Between(asm, "(", ")"))
  }

  /** The classifying half of `update_vtable`, over one disassembly line whose third
      column is the mnemonic. */
  function Classify(asm: string): (r: Shape)
    ensures r.Candidate? || r.Import? ==> |Words(asm)| >= 3
    ensures r.Candidate? ==> r.instr == Words(asm)[2] && r.instr in {"call", "mov", "lea"}
    ensures r.Import? ==> Words(asm)[2] == "call" && HasSymbol(asm)
    ensures r.Candidate? && r.instr == "call" ==> r.target.Direct? && r.obj.NoObject?
    ensures r.Candidate? && r.instr == "lea" ==> r.target.LoadFromExpr?
    ensures |Words(asm)| < 3 ==> r.Malformed?
    ensures |Words(asm)| >= 3 && Words(asm)[2] !in {"call", "mov", "lea"} ==> r.NotVtable?
  {
    var words := Words(asm);
    if |words| < 3 then Malformed
    else
      var instr := words[2];
      if instr == "call" && HasSymbol(asm) then
        var addr := Between(asm, "(", ")");
        if Contains(asm, addr + "={") then Import
        else
          match ParseHex(addr)
          case None => Malformed
          case Some(a) => Candidate(instr, Direct(a), NoObject)
      else if instr == "mov" && |Split(asm, ',')| < 2 then Malformed
      else if instr == "mov" && Contains(Split(asm, ',')[1], "ptr") then
        if HasSymbol(asm) then
          match ParenAddress(asm)
          case None => Malformed
          case Some(a) => WithObject(instr, Direct(a), asm)
        else if |Split(asm, '=')| < 2 then Malformed
        else
          match ParseHex(Split(asm, '=')[1])
          case None => Malformed
          case Some(p) => WithObject(instr, LoadFrom(p), asm)
      else if instr == "lea" && HasDeref(asm) then
        WithObject(instr, LoadFromExpr(Between(asm, "[", "]")), asm)
      else NotVtable
  }

  /** A `call` is a candidate only with a symbol annotation; it is an import when the
      parenthesised address is followed by `={`, and otherwise reports that address. */
  lemma ClassifyCall(asm: string)
    requires |Words(asm)| >= 3 && Words(asm)[2] == "call"
    ensures !HasSymbol(asm) ==> Classify(asm) == NotVtable
    ensures HasSymbol(asm) ==>
      (Classify(asm).Import? <==> Contains(asm, Between(asm, "(", ")") + "={"))
    ensures HasSymbol(asm) && !Contains(asm, Between(asm, "(", ")") + "={") ==>
      (ParseHex(Between(asm, "(", ")")).None? ==> Classify(asm).Malformed?) &&
      (ParseHex(Between(asm, "(", ")")).Some? ==>
         Classify(asm) == Candidate("call", Direct(ParseHex(Between(asm, "(", ")")).value), NoObject))
  {
  }

  /** A `mov` raises without a second comma-separated field, is no vtable reference
      unless that field mentions `ptr`, and otherwise reads its target from the address
      WinDbg printed (with a symbol) or from the hex after the first `=`. */
  lemma ClassifyMov(asm: string)
    requires |Words(asm)| >= 3 && Words(asm)[2] == "mov"
    ensures |Split(asm, ',')| < 2 ==> Classify(asm) == Malformed
    ensures |Split(asm, ',')| >= 2 && !Contains(Split(asm, ',')[1], "ptr") ==> Classify(asm) == NotVtable
    ensures Classify(asm).Candidate? ==>
      |Split(asm, ',')| >= 2 && Contains(Split(asm, ',')[1], "ptr") &&
      ObjectOf(Between(asm, "[", "]")) == Some(Classify(asm).obj)
    ensures Classify(asm).Candidate? && HasSymbol(asm) ==>
      Classify(asm).target.Direct? && ParenAddress(asm) == Some(Classify(asm).target.addr)
    ensures Classify(asm).Candidate? && !HasSymbol(asm) ==>
      Classify(asm).target.LoadFrom? && |Split(asm, '=')| >= 2 &&
      ParseHex(Split(asm, '=')[1]) == Some(Classify(asm).target.ptr)
    ensures ObjectOf(Between(asm, "[", "]")).None? ==> !Classify(asm).Candidate?
    ensures |Split(asm, ',')| >= 2 && Contains(Split(asm, ',')[1], "ptr") && HasSymbol(asm) ==>
      Classify(asm) == match ParenAddress(asm)
                       case None => Malformed
                       case Some(a) => WithObject("mov", Direct(a), asm)
    ensures (|Split(asm, ',')| >= 2 && Contains(Split(asm, ',')[1], "ptr") && !HasSymbol(asm) &&
             |Split(asm, '=')| < 2) ==> Classify(asm) == Malformed
    ensures (|Split(asm, ',')| >= 2 && Contains(Split(asm, ',')[1], "ptr") && !HasSymbol(asm) &&
             |Split(asm, '=')| >= 2) ==>
      Classify(asm) == match ParseHex(Split(asm, '=')[1])
                       case None => Malformed
                       case Some(p) => WithObject("mov", LoadFrom(p), asm)
  {
  }

  /** A `lea` is no vtable reference without a dereference; otherwise its target is read
      through the bracketed expression and its object comes from the same text. */
  lemma ClassifyLea(asm: string)
    requires |Words(asm)| >= 3 && Words(asm)[2] == "lea"
    ensures !HasDeref(asm) ==> Classify(asm) == NotVtable
    ensures HasDeref(asm) ==>
      match ObjectOf(Between(asm, "[", "]"))
      case None => Classify(asm) == Malformed
      case Some(o) => Classify(asm) == Candidate("lea", LoadFromExpr(Between(asm, "[", "]")), o)
  {
  }

  // ---------------------------------------------------------------- resolution

  /** What one `update_vtable` call amounts to. */
  datatype Outcome = NoMessage | Send(msg: Message) | Crashed

  /** The `vtable` message; the `object` parameter is present only when given. */
  function VtableMessage(instr: string, target: int, obj: Option<int>, ip: int): Message {
    var params := map["instr" := Text(instr), "target" := Num(target), "ip" := Num(ip)];
    Message("vtable", if obj.Some? then params["object" := Num(obj.value)] else params)
  }

  /** `ptr_target`: the address the target pointer is read from, if any. */
  function TargetPointer(t: Target, r: TargetRef): Option<int> {
    match r
    case Direct(_) => None
    case LoadFrom(p) => Some(p)
    case LoadFromExpr(e) => Some(t.expr(e))
  }

  /** `ptr_object`: the address the object pointer is read from, if any. */
  function ObjectPointer(t: Target, o: ObjectRef): Option<int> {
    match o
    case NoObject => None
    case SymbolExpr(e) => Some(t.expr(e))
    case Literal(a) => Some(a)
    case Register(n) => Some(t.reg(n))
  }

  /** The call target: the printed address, or the pointer stored at `ptr_target`. */
  function CallTarget(t: Target, r: TargetRef): int {
    match TargetPointer(t, r)
    case None => r.addr
    case Some(p) => t.ptrPtr(p)
  }

  /** The resolving half of `update_vtable`: one `vtable` message for a candidate whose
      pointer and target are mapped, with addresses made relative to `base`. */
  function Resolve(t: Target, base: int, ip: int, shape: Shape): (r: Outcome)
    ensures r.Crashed? <==> shape.Malformed?
    ensures r.Send? <==>
      shape.Candidate? &&
      (TargetPointer(t, shape.target).Some? ==> t.isValid(TargetPointer(t, shape.target).value)) &&
      t.isValid(CallTarget(t, shape.target))
    ensures r.Send? ==>
      r.msg.cmd == "vtable" &&
      "instr" in r.msg.params && "target" in r.msg.params && "ip" in r.msg.params &&
      r.msg.params["instr"] == Text(shape.instr) &&
      r.msg.params["target"] == Num(CallTarget(t, shape.target) - base) &&
      r.msg.params["ip"] == Num(ip - base)
    ensures r.Send? ==>
      ("object" in r.msg.params <==>
         ObjectPointer(t, shape.obj).Some? && t.isValid(ObjectPointer(t, shape.obj).value))
    ensures r.Send? && "object" in r.msg.params ==>
      r.msg.params["object"] == Num(t.ptrPtr(ObjectPointer(t, shape.obj).value) - base)
  {
    match shape
    case NotVtable => NoMessage
    case Import => NoMessage
    case Malformed => Crashed
    case Candidate(instr, target, o) =>
      var ptrTarget := TargetPointer(t, target);
      if ptrTarget.Some? && !t.isValid(ptrTarget.value) then NoMessage
      else
        var callTarget := CallTarget(t, target);
        var ptrObject := ObjectPointer(t, o);
        var obj := if ptrObject.Some? && t.isValid(ptrObject.value) then Some(t.ptrPtr(ptrObject.value)) else None;
        if !t.isValid(callTarget) then NoMessage
        else Send(VtableMessage(instr, callTarget - base, if obj.Some? then Some(obj.value - base) else None, ip - base))
  }

  /** `update_vtable(current_ip)`. */
  function UpdateVtable(t: Target, base: int, ip: int): Outcome {
    Resolve(t, base, ip, Classify(t.disasm(ip)))
  }

  // ---------------------------------------------------------------- what the text yields

  /** A register followed by arithmetic (`eax+30h`, `ebp-8`) yields that register. */
  lemma RegisterWithOffset(name: string, rest: string)
    requires forall k :: 0 <= k < |name| ==> !IsArith(name[k]) && name[k] != '!'
    requires rest != [] && IsArith(rest[0]) && '!' !in rest
    ensures ObjectOf(name + rest) == Some(Register(name))
  {
    var r := name + rest;
    assert '!' !in r by {
      forall k | 0 <= k < |r| ensures r[k] != '!' {
        if k >= |name| { assert r[k] == rest[k - |name|]; }
      }
    }
    assert IsArith(r[|name|]);
    var b := BeforeArith(r);
    assert |b| == |name|;
    assert b == r[..|b|];
  }

  /** A bare register (`esi`) yields that register, unless all its letters are hex digits. */
  lemma BareRegister(name: string)
    requires IsAlpha(name) && !AllHexDigits(name)
    ensures ObjectOf(name) == Some(Register(name))
  {
    assert '!' !in name by {
      forall k | 0 <= k < |name| ensures name[k] != '!' { assert IsLetter(name[k]); }
    }
    assert !HasArith(name) by {
      forall k | 0 <= k < |name| ensures !IsArith(name[k]) { assert IsLetter(name[k]); }
    }
  }

  /** An address written in hex digits (`00402000`) yields that address. */
  lemma HexLiteral(ds: string)
    requires ds != [] && AllHexDigits(ds)
    ensures ObjectOf(ds) == Some(Literal(HexValue(ds)))
  {
    assert '!' !in ds by {
      forall k | 0 <= k < |ds| ensures ds[k] != '!' { assert IsHexDigit(ds[k]); }
    }
    assert !HasArith(ds) by {
      forall k | 0 <= k < |ds| ensures !IsArith(ds[k]) { assert IsHexDigit(ds[k]); }
    }
    HexDigitsHaveNoH(ds);
    ParseHexDigits(ds);
  }

  /** WinDbg writes hex constants with an `h` suffix (`30h`), but `h` is not a hex digit:
      such a number never reaches the `strip('h')` branch and yields no object. */
  lemma HexSuffixYieldsNoObject(ds: string)
    requires AllHexDigits(ds) && HasDigit(ds)
    ensures ObjectOf(ds + "h") == Some(NoObject)
  {
    var r := ds + "h";
    assert r[|ds|] == 'h';
    assert '!' !in r by {
      forall k | 0 <= k < |r| ensures r[k] != '!' {
        if k < |ds| { assert IsHexDigit(ds[k]); }
      }
    }
    assert !HasArith(r) by {
      forall k | 0 <= k < |r| ensures !IsArith(r[k]) {
        if k < |ds| { assert IsHexDigit(ds[k]); }
      }
    }
    assert !AllHexDigits(r);
    var d :| 0 <= d < |ds| && '0' <= ds[d] <= '9';
    assert r[d] == ds[d];
    assert !IsAlpha(r);
  }

  /** Empty brackets pass every test up to `all(...)`, which holds vacuously, and then
      `long('', 16)` raises. */
  lemma EmptyBracketsRaise()
    ensures ObjectOf([]) == None
  {
    assert ParseHex([]) == None;
  }

  /** A symbol with an offset (`mod!gObject+8`) yields the symbol before the first `+`. */
  lemma SymbolWithOffset(sym: string, offset: string)
    requires '!' in sym && '+' !in sym
    ensures ObjectOf(sym + "+" + offset) == Some(SymbolExpr(sym))
  {
    var r := sym + "+" + offset;
    assert r[|sym|] == '+';
    assert OccursAt(r, "+", |sym|) by { assert r[|sym|..|sym| + 1] == "+"; }
    assert r[..|sym|] == sym;
  }

  /** A line whose mnemonic is none of `call`, `mov`, `lea`, or that is too short to have
      one, sends nothing; too short a line makes the source raise. */
  lemma OtherInstructionsSendNothing(t: Target, base: int, ip: int)
    requires var ws := Words(t.disasm(ip)); |ws| >= 3 && ws[2] !in {"call", "mov", "lea"}
    ensures UpdateVtable(t, base, ip) == NoMessage
  {
  }

  /** A call through an import sends nothing. */
  lemma ImportSendsNothing(t: Target, base: int, ip: int)
    requires Classify(t.disasm(ip)).Import?
    ensures UpdateVtable(t, base, ip) == NoMessage
  {
  }

  /** A call whose printed target is mapped is always reported, without an object. */
  lemma DirectCallReported(t: Target, base: int, ip: int)
    requires Classify(t.disasm(ip)).Candidate? && Classify(t.disasm(ip)).instr == "call"
    requires t.isValid(Classify(t.disasm(ip)).target.addr)
    ensures UpdateVtable(t, base, ip) ==
      Send(VtableMessage("call", Classify(t.disasm(ip)).target.addr - base, None, ip - base))
  {
  }
}
