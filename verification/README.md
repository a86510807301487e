# bindbg, modelled in Dafny

bindbg connects Binary Ninja to WinDbg. It has two halves that exchange `(command, params)`
messages over a named pipe:

- **The Binary Ninja side (`__init__.py`).** One `BinDbgSession` per open binary mirrors the debugger's state in the binary view:
  - the instruction pointer is highlighted in yellow;
  - breakpoints are red, or orange when hit;
  - the way a conditional jump will go is green;
  - vtable calls get comments.

  It also forwards the user's breakpoint and instruction-pointer changes to WinDbg.
- **The WinDbg side (`windbg.py`).** A pykd script answers those commands. While the debuggee is stopped, it reports:
  - instruction-pointer changes;
  - virtual calls found in the disassembly;
  - breakpoints added or removed in WinDbg itself.

The project has one module per concern:

| file | module | what it holds |
|---|---|---|
| `common.dfy` | `Common` | `Option` and Python truthiness of an optional integer. |
| `pytext.dfy` | `PyText` | The Python string and number operations the source relies on (`in`, `find`, slicing, `split`, `strip`, `long(s, 16)`, `str(n)`) and lemmas about them. |
| `wire.dfy` | `Wire` | The message shape. Parameters are read with Python's failure modes. Also: address messages, counting messages, and enumeration of a set in an unspecified order (Python's dict and set iteration). |
| `pykd.dfy` | `Pykd` | The debugger queries the WinDbg side makes, as pure functions of a stopped debuggee. |
| `branch.dfy` | `Branch` | The conditional-jump table of `set_ip`, as written, and a reference definition of when an x86 processor takes each conditional jump. Lemmas compare the two. |
| `vtable.dfy` | `Vtable` | `update_vtable` split in two. `Classify` is text work on the disassembly line. `Resolve` does the pykd queries and builds the message. |
| `analyzer.dfy` | `Analyzer` | `BinDbgSession` as the class `Session` over the class `View` (the parts of the binary view it writes). Every method is specified by a function over the value `SessionState`. |
| `engine.dfy` | `Engine` | The WinDbg script's globals as the class `Engine`. The debugger is a value `DbgState` that logs every command given. Every operation, and one pass of `event_loop`, is specified by a function over `EngineState`. |
| `convergence.dfy` | `Convergence` | Agreement between the breakpoints Binary Ninja holds and the ones WinDbg tracks, as offsets from each side's base, and its preservation by breakpoint commands sent from Binary Ninja. |

A Python exception that escapes an operation is modelled as a `raised` flag or a `Crashed` outcome. Changes made before the exception are kept. Where the script loops over a dict or a set, the order is a ghost result of the method and a parameter of its specification.

Quirks of the code are modelled as written. The lemmas make their effect precise:

- In the branch table, `('jo')` and similar are single strings, so `in` is a substring test.
- `jg`/`jnle` test only `sf == 0`.
- `jnp`/`jpo` repeat the parity test of `jp`.
- `jnz` is missing from the table.
- `jecxz` tests `cx`.
- `if self.ip:` treats address 0 as no instruction pointer.
- The arithmetic class `[+-/*]` is a character range.
- `strip('h')` never sees an `h`.

## Model

| member | source | states |
|---|---|---|
| Branch.BranchTarget | __init__.py:178-204 | No target is computed, and nothing is raised, exactly when the instruction does not lift to a conditional or the register snapshot is empty. A highlighted address is either the next instruction or the value of a hex word of the disassembly. |
| Branch.BranchTargetOfJump | __init__.py:183-204 | For a two-word line `m operand`, the highlight is the operand exactly when the table takes the jump, and the next instruction otherwise. |
| Branch.BareNamesExact | __init__.py:184-189 | A bare-string clause (`'jo'`, `'jno'`, `'js'`, `'jns'`, `'jne'`) names no real mnemonic but its own, despite the substring test. |
| Branch.BareClausesExact | __init__.py:184-189 | The five bare-string clauses each match exactly their own mnemonic among the conditional jumps. |
| Branch.NoneNamed | __init__.py:184-203 | When no clause names the mnemonic, the chain is false and the jump falls through. |
| Branch.TakenOnly | __init__.py:184-200 | When exactly one clause names the mnemonic, the chain decides as that clause's test does, including its `KeyError` on a missing register. |
| Branch.NamedOnlyByLow | __init__.py:184-191 | Among the first eight clauses, only the mnemonic's own clause names it. |
| Branch.NamedOnlyByMid | __init__.py:192-195 | Among clauses 8 to 11, only the mnemonic's own clause names it. |
| Branch.NamedOnlyByHigh | __init__.py:196-200 | Among the last five clauses, only the mnemonic's own clause names it. |
| Branch.ClauseTestAgreesLow | __init__.py:184-191 | For the first eight clauses, the clause of an agreeing mnemonic tests the processor's condition. |
| Branch.ClauseTestAgreesHigh | __init__.py:192-200 | For the remaining clauses, the clause of an agreeing mnemonic tests the processor's condition. |
| Branch.TableAgreesWithX86 | __init__.py:184-200 | Given a snapshot that holds the flags, the table decides every conditional jump as the x86 processor does, except `jnz`, `jg`/`jnle`, `jnp`/`jpo`, `jecxz` and `jrcxz`. |
| Branch.DecidedBy | __init__.py:184-200 | Every listed mnemonic is decided by its own clause alone. |
| Branch.GreaterTestsSignOnly | __init__.py:197 | `jg`/`jnle` are taken when `zf` and `sf` are both clear. This agrees with the processor exactly when `zf` is set or `of` is clear. |
| Branch.ParityOddInverted | __init__.py:199 | `jnp`/`jpo` are taken when `pf` is set, which is always the opposite of the processor's decision. |
| Branch.EcxTestsCx | __init__.py:200 | `jecxz` tests `cx`. It agrees with the processor exactly when `cx` and `ecx` are zero together. |
| Branch.UnlistedFallThrough | __init__.py:184-203 | `jnz` and `jrcxz` always fall through to the next instruction. |
| Branch.GreaterCounterexample | __init__.py:197 | A concrete flag state (signed overflow with a negative result) where the processor takes `jg` and the table does not. |
| Vtable.BeforeArith | windbg.py:181-183 | The register name is the longest prefix with no arithmetic character. The character after it is arithmetic, or the prefix is the whole text. |
| Vtable.DerefFromBrackets | windbg.py:132 | Any `[` before a later `]` yields a match of the dereference pattern. |
| Vtable.HasDerefIff | windbg.py:132 | The dereference pattern matches exactly when some `[` precedes some `]`. |
| Vtable.Between | windbg.py:145 | `s[s.find(open)+1:s.find(close)]`: the text strictly between the first opening and the first closing delimiter when both occur in that order; the text before the closing delimiter when there is no opening one; empty when the closing delimiter comes first. |
| Vtable.Classify | windbg.py:136-165 | Classifying a line: <br>• A candidate has at least three words, and its mnemonic is the third word, one of `call`/`mov`/`lea`. <br>• A `call` candidate has a printed target and no object; a `lea` candidate loads through its bracket expression. <br>• An import is a `call` with a symbol annotation. <br>• A line of fewer than three words raises. <br>• Any other mnemonic is not a vtable reference. |
| Vtable.ClassifyCall | windbg.py:143-148 | A `call` without a symbol annotation is no vtable reference. With one, it is an import exactly when the parenthesised address is followed by `={`. Otherwise it raises when that address is not hex, and is a candidate whose target is that address, with no object. |
| Vtable.ClassifyMov | windbg.py:149-155 | A `mov` raises without a second comma-separated field, and is no vtable reference unless that field contains `ptr`. A candidate's target is the parenthesised address when there is a symbol, or else the pointer read from the hex after the first `=`. Its object comes from the bracketed text, and a bracketed text that cannot be parsed makes it raise. Conversely, each of these inputs gives exactly the outcome the source computes for it: a symbol with an unreadable parenthesised address raises, a line without `=` raises, an unreadable hex after `=` raises, and otherwise the candidate is built from that address or pointer and the bracketed object. |
| Vtable.ClassifyLea | windbg.py:156-162 | A `lea` without a dereference is no vtable reference. With one, its target is read through the bracketed expression, and its object comes from the same text, or the line raises when that text cannot be parsed. |
| Vtable.Resolve | windbg.py:190-201 | The outcome of a classified line: <br>• It raises exactly for a malformed line. <br>• A `vtable` message is sent exactly when the pointer to the target (if any) and the target itself are mapped. <br>• The message carries the mnemonic, and the target and instruction pointer rebased by `base`. <br>• It has an `object` exactly when the object pointer is known and mapped, holding the rebased pointer read there. |
| Vtable.RegisterWithOffset | windbg.py:181-183 | A register followed by arithmetic (`eax+30h`) yields that register as the object pointer. |
| Vtable.BareRegister | windbg.py:186-188 | An alphabetic register name that is not all hex digits yields that register. |
| Vtable.HexLiteral | windbg.py:184-185 | An address written in hex digits yields that address. |
| Vtable.HexSuffixYieldsNoObject | windbg.py:184-188 | A hex number with WinDbg's `h` suffix yields no object, because `h` is not a hex digit. |
| Vtable.EmptyBracketsRaise | windbg.py:184-185 | Empty brackets pass the `all(...)` test vacuously, and `long('', 16)` raises. |
| Vtable.SymbolWithOffset | windbg.py:172-176 | A symbol with an offset yields the symbol before the first `+`. |
| Vtable.OtherInstructionsSendNothing | windbg.py:163-165 | A line whose mnemonic is not `call`, `mov` or `lea` sends nothing. |
| Vtable.ImportSendsNothing | windbg.py:145-147 | A call through an import sends nothing. |
| Vtable.DirectCallReported | windbg.py:143-201 | A call whose printed target is mapped is always reported, without an object. |
| Analyzer.Unhighlight | __init__.py:58-59 | Clearing a set of breakpoints gives each of them `no_color` and leaves every other highlight as it was. |
| Analyzer.UnhighlightOneMore | __init__.py:58-59 | Each pass of `stop`'s deletion loop clears one more pending breakpoint. |
| Analyzer.StopSpec | __init__.py:46-65 | After `stop`: <br>• the session is unregistered, the connection closed and no breakpoints are tracked; <br>• every old breakpoint is highlighted `no_color`; <br>• nothing is sent, because deletion is not forwarded; <br>• a non-zero instruction pointer is cleared and unhighlighted; <br>• every other highlight is kept. |
| Analyzer.SendOutcome | __init__.py:68-72 | `send` never takes back what was sent, and adds at most one message. It adds exactly this message exactly when the connection is open, and then keeps the session. On a closed connection it sends nothing and leaves the session closed, unregistered and tracking no breakpoint. |
| Analyzer.SetBpSpec | __init__.py:207-212 | The address is tracked and highlighted red. When the user set it, one `set_bp` with the rebased address is sent. If that send fails, the session has stopped and tracks only the new address. |
| Analyzer.DeleteBpSpec | __init__.py:215-223 | An untracked address changes nothing. A tracked one is forgotten and unhighlighted, and sent as `delete_bp` when the user removed it. A failed send stops the session, and the removal then raises `KeyError`. |
| Analyzer.SetIpSpec | __init__.py:168-204 | After `set_ip`: <br>• the instruction pointer and cursor are at the address, highlighted yellow (unless the branch highlight lands on it); <br>• the call raises exactly when the branch table does, and a branch target is green; <br>• the old instruction pointer is cleared, other highlights are kept, and one `set_ip` is sent when the user moved it; <br>• when the user moved it over a closed connection, nothing is sent and the session has stopped: no breakpoints, unregistered, closed. |
| Analyzer.BpHitSpec | __init__.py:226-228 | `set_ip` then orange over the address unless `set_ip` raised. Nothing is sent, and breakpoints and the connection are kept. |
| Analyzer.ClassName | __init__.py:235-236 | With a symbol at the object, the class name is that symbol up to its first `::`, or the whole symbol when it has none. Without a symbol it is `str(addr)`. It never contains `::`. |
| Analyzer.DecimalTextHasNoColon | __init__.py:236 | `str(addr)` never contains `::`. |
| Analyzer.VtableComment | __init__.py:231-241 | The comment is the target's name. With a truthy object it is followed by ` (from <class> object)`, and a `lea` adds the `(ptr)` prefix. |
| Analyzer.StopIdempotent | __init__.py:46-65 | Stopping twice ends where stopping once does. |
| Analyzer.StopKeepsZeroIp | __init__.py:61-63 | An instruction pointer of 0 survives `stop`, because `if self.ip:` reads it as false. |
| Analyzer.ProcessNeverSends | __init__.py:138-160 | Handling a message from WinDbg never sends anything, never closes the connection and never unregisters the session. |
| Analyzer.ProcessDropsInvalidAddress | __init__.py:142-154 | A breakpoint or instruction-pointer message naming an address outside the binary changes nothing. |
| Analyzer.ProcessSetBp | __init__.py:142-146 | A `set_bp` message for an address in the binary tracks and highlights the address rebased by `bv.start`, and sends nothing back. |
| Analyzer.ProcessDeleteBp | __init__.py:142-148 | A `delete_bp` message for an address in the binary forgets and unhighlights a tracked address, and leaves the state unchanged for an untracked one. |
| Analyzer.ProcessSetIp | __init__.py:151-154 | A `set_ip` message for an address in the binary, with registers, is `set_ip` at the address rebased by `bv.start`, not forwarded back to WinDbg. |
| Analyzer.ProcessBpHit | __init__.py:142-150 | A `bp_hit` message for an address in the binary, with registers, is `bp_hit` at the address rebased by `bv.start`. |
| Analyzer.ProcessVtable | __init__.py:155-160 | A well-formed `vtable` message writes exactly one comment, at the rebased `ip`. The comment names the rebased target and, when the message has one, the rebased object. Breakpoints, instruction pointer, highlights, cursor and what was sent are unchanged. |
| Analyzer.SetThenDeleteBp | __init__.py:207-223 | Setting a new breakpoint from Binary Ninja and deleting it again restores the tracked set and sends `set_bp` then `delete_bp` for the rebased address. |
| Analyzer.View.constructor | __init__.py:258-260 | A fresh view has no session, highlights, comments or cursor. |
| Analyzer.View.Highlight | __init__.py:163-165 | One instruction's highlight is set, and nothing else changes. |
| Analyzer.Start | __init__.py:258-262 | A view with a session keeps it. A view without one gets a fresh session with no breakpoints and no instruction pointer, which has sent `sync`. |
| Analyzer.Session.constructor | __init__.py:24-126 | A new session tracks nothing and has sent exactly `sync` on its open connection. |
| Analyzer.Session.Send | __init__.py:68-72 | The new state is `SendSpec` of the old. |
| Analyzer.Session.Stop | __init__.py:46-65 | The new state is `StopSpec` of the old, after deleting every tracked breakpoint in some order. |
| Analyzer.Session.SetBp | __init__.py:207-212 | The new state is `SetBpSpec` of the old. |
| Analyzer.Session.DeleteBp | __init__.py:215-223 | The new state and the raise are `DeleteBpSpec` of the old state. |
| Analyzer.Session.SetIp | __init__.py:168-204 | The new state and the raise are `SetIpSpec` of the old state. |
| Analyzer.Session.BpHit | __init__.py:226-228 | The new state and the raise are `BpHitSpec` of the old state. |
| Analyzer.Session.Vtable | __init__.py:231-242 | The new state is `VtableSpec` of the old. |
| Analyzer.Session.Process | __init__.py:138-160 | The new state and the raise are `ProcessSpec` of the old state and the message. |
| Engine.Offsets | windbg.py:206-210 | `current_bps` lists the address of each native breakpoint, by index. |
| Engine.FindBpFinds | windbg.py:222-226 | `get_bp` finds a breakpoint exactly when one is at the address. |
| Engine.FindBpFirst | windbg.py:222-226 | What `get_bp` finds is the first native breakpoint at the address. |
| Engine.FindBpAt | windbg.py:222-226 | A native breakpoint with no earlier one at its address is what `get_bp` finds there. |
| Engine.BuSets | windbg.py:85 | After `bu` the debugger has a breakpoint at the address. It keeps the one already there, if any. |
| Engine.FindBpAppend | windbg.py:222-226 | Appending a native breakpoint changes what `get_bp` finds only at its own address, and only when nothing was there. |
| Engine.Without | windbg.py:90 | After `breakpoint.remove`, exactly the breakpoints with another handle remain. |
| Engine.NewOffsets | windbg.py:206-214 | The addresses the first loop of `update_bps` adopts are exactly the native addresses not already tracked, each once. |
| Engine.NewOffsetsSnoc | windbg.py:207-214 | One more native breakpoint is adopted exactly when its address is neither tracked nor already seen in the loop. |
| Engine.NewOffsetsNone | windbg.py:212 | Nothing is adopted when every native address is tracked. |
| Engine.ProcessResumesUnlessBreak | windbg.py:76-115 | `process` asks to keep the debuggee running after every command but `break`. |
| Engine.ProcessRoutesBp | windbg.py:81-91 | Any command whose name contains `bp` is a breakpoint command. |
| Engine.ProcessRoutesRunTo | windbg.py:109-114 | `run_to` reaches its own branch, because its name does not contain `bp`. |
| Engine.ProcessSetBpTracks | windbg.py:83-88 | `set_bp` for an untracked address does three things: <br>• WinDbg gets a breakpoint at the rebased address, and its handle is tracked; <br>• the other tracked handles stay as they were; <br>• nothing is sent. |
| Engine.ProcessSetBpTracked | windbg.py:83 | `set_bp` for an already tracked address changes nothing. |
| Engine.ProcessDeleteBp | windbg.py:89-91 | `delete_bp` for a tracked address removes its handle from WinDbg and untracks exactly that address, sending nothing. For an untracked address it changes nothing. |
| Engine.SyncIsNotBp | windbg.py:81 | `sync` does not reach the breakpoint branch. |
| Engine.ProcessSync | windbg.py:94-97 | `sync` only sends. |
| Engine.SyncReports | windbg.py:94-97 | `sync` sends one `set_ip` with the rebased instruction pointer and the register snapshot, then one `set_bp` for each tracked breakpoint and no other. |
| Engine.UpdateIpReports | windbg.py:118-125 | `update_ip` records the address and sends one message for it, rebased, with the register snapshot: `bp_hit` when a tracked breakpoint is there, `set_ip` otherwise. |
| Engine.UpdateBpsTracksNative | windbg.py:204-219 | After `update_bps`, the tracked addresses are exactly the native breakpoints' addresses. An address tracked before keeps its handle, and a new one gets the handle of the first native breakpoint there. |
| Engine.UpdateBpsReports | windbg.py:204-219 | `update_bps` appends exactly one `set_bp` per new native address and one `delete_bp` per vanished tracked address, and no other address message. |
| Engine.CountReports | windbg.py:214-219 | In the `set_bp` messages followed by the `delete_bp` messages, each rebased address appears once in the list it belongs to and nowhere else. |
| Engine.UpdateBpsSettles | windbg.py:204-219 | A second `update_bps` against the same native list finds nothing new or vanished and changes nothing. |
| Engine.UpdateBpsEqualizesCount | windbg.py:67-68 | When no two native breakpoints share an address, `update_bps` leaves `len(bps)` equal to the native count. |
| Engine.SharedAddressDiffsForever | windbg.py:67-68 | Two native breakpoints at one address keep the counts apart, so each stopped tick runs `update_bps` again and it sends nothing. |
| Engine.RunToRemovesTrackedBreakpoint | windbg.py:109-114 | `run_to` an address whose tracked breakpoint is still in WinDbg removes that breakpoint in WinDbg while `bps` still tracks it. The commands given are `bu`, `go`, `remove`. |
| Engine.RunToCalls | windbg.py:112-114 | `run_to` gives `bu`, `go` and `remove`, in that order. |
| Engine.ReceiveWhileRunning | windbg.py:48-53 | A message that arrives while the debuggee runs is handled with the debuggee broken into. It runs again afterwards exactly when the message was not `break`. |
| Engine.TickSkipsChecksWhileRunning | windbg.py:57-58 | A tick whose debuggee runs after the message is handled does nothing more. |
| Engine.TickDiffsOnlyOnCountChange | windbg.py:66-68 | A tick changes the tracked breakpoints only through its message, unless the native count and `len(bps)` disagree. |
| Engine.TrackedAfterDiff | windbg.py:206-219 | The two loops of `update_bps` leave exactly the tracked map `Tracked` describes. |
| Engine.OffsetsPrefix | windbg.py:207-210 | The first loop's `current_bps` grows by one native address per pass. |
| Engine.FindBpFresh | windbg.py:212-213 | The native breakpoint adopted for a new address is the one `get_bp` would find. |
| Engine.GetRegs | windbg.py:229-236 | `get_regs` holds exactly the registers whose names have no digit, each with its value. |
| Engine.GetBp | windbg.py:222-226 | The scan returns what `FindBp` names: the first native breakpoint at the address, or none. |
| Engine.Engine.constructor | windbg.py:10-14 | The globals start with no tracked breakpoints, no instruction pointer and nothing sent. |
| Engine.Engine.Send | windbg.py:32-38 | One message is appended to what was sent, and nothing else changes. |
| Engine.Engine.Report | windbg.py:214 | Sending one more address message extends the rebased messages for the addresses so far. |
| Engine.Engine.Sync | windbg.py:94-97 | The new state is the old one with `SyncMessages` appended, visiting every tracked address once in the order returned. |
| Engine.Engine.ReportAll | windbg.py:96-97 | Every member of the set is reported once, in the order returned, and nothing else changes. |
| Engine.Engine.BpCommand | windbg.py:81-91 | The new state and the raise are `BpCommandSpec` of the old state. |
| Engine.Engine.RunTo | windbg.py:109-114 | The new state and the raise are `RunToSpec` of the old state. |
| Engine.Engine.Process | windbg.py:76-115 | The new state, the answer and the raise are `ProcessSpec` of the old state. |
| Engine.Engine.UpdateIp | windbg.py:118-125 | The new state is `UpdateIpSpec` of the old. |
| Engine.Engine.UpdateVtable | windbg.py:128-201 | The new state and the raise are what `Vtable.UpdateVtable` decides for the line at the address. |
| Engine.Engine.UpdateBps | windbg.py:204-219 | The new state is `UpdateBpsSpec` of the old. The vanished addresses are visited once each, in the order returned. |
| Engine.Engine.AdoptNative | windbg.py:206-214 | The first loop: <br>• it lists every native address; <br>• it tracks each new one under the handle of the first native breakpoint there, keeping old handles; <br>• it sends one `set_bp` per new address, in list order. |
| Engine.Engine.AdoptStep | windbg.py:207-214 | One pass of the first loop keeps the loop's invariant. |
| Engine.Engine.Adopt | windbg.py:213-214 | The handle is tracked under its address and that address is reported. |
| Engine.Engine.DropVanished | windbg.py:215-219 | The second loop untracks exactly the tracked addresses no native breakpoint is at, keeps the other handles, and sends one `delete_bp` per untracked address. |
| Engine.Engine.Receive | windbg.py:47-55 | The new state and the raise are `ReceiveSpec` of the old state. |
| Engine.Engine.Check | windbg.py:57-68 | The new state and the raise are `CheckSpec` of the old state. |
| Engine.Engine.Tick | windbg.py:45-68 | The new state and the raise are `TickSpec` of the old state: one pass of `event_loop`. |
| Convergence.SetBpKeepsAgreement | __init__.py:207-212 | On an open connection, a breakpoint set in Binary Ninja sends exactly one `set_bp`. Once WinDbg's `process` has handled it, both sides again hold the same breakpoint offsets, if they did before. |
| Convergence.DeleteBpKeepsAgreement | __init__.py:215-223 | On an open connection, deleting a breakpoint in Binary Ninja never raises. It sends one `delete_bp` exactly when the session had that breakpoint. Once WinDbg's `process` has handled what was sent, both sides again hold the same breakpoint offsets, if they did before. |

## Left out

- `__init__` asks the user for a pipe name and stores `proc_args`. It also starts the event loop on a thread. These are user interface and threading. The constructor of `Session` starts directly from a successful first `connect` and `send('sync')`.
- `connect`, `start_windbg`, the reconnect and poll loop of the Binary Ninja `event_loop`, and its `IOError` exit depend on the operating system and the pipe. Their effect is an open connection, and receiving a message is a call of `Process`.
- `stop` closes WinDbg's windows through `get_hwnds_for_pid`. The `break_` command sends a key press to WinDbg. Both are window management and are not part of this model.
- `highlight` fails with `IndexError` for an address outside every function, because of `get_functions_containing(addr)[0]`. The model treats every address as inside a function.
- The plugin command wrappers (`stop`, `set_bp`, `delete_bp`, `set_ip`, `run_to`, `go`, `step_*` at module level) only look up the session and call its methods or `send`; they are not modelled. Their `except KeyError` branch prints a message when no session is registered, except in `go`, which starts a session instead (__init__.py:300-304). The same branch also catches the `KeyError` that `delete_bp` raises after a failed send (__init__.py:279-283), so the raise `Analyzer.DeleteBpSpec` reports becomes a printed message when the user deletes from the menu.
- `print` output is left out.
- On the WinDbg side, `start` (the listener and accept loop) and `stop(conn)` are transport. `send` is modelled as always succeeding. An `IOError` that ends `event_loop` is not modelled.
- Every pykd query is modelled as total. The `DbgException` branch of `event_loop`, and the `print` message it sends, are left out.
- The debuggee's own execution is not modelled. `go`, `breakin` and the step commands only set the execution status or are logged. The instruction pointer and the native breakpoints change only through the script's own commands, or through the state handed to a tick.
- Register and memory contents are fixed for one tick (`Target`), and `time.sleep` and `poll_time` are left out.
- `findSymbol(addr, True)` is treated as naming `addr`, so `bu` sets a breakpoint at `addr`. It redefines the breakpoint already there instead of adding a second one. A pykd breakpoint object is modelled by its handle.
- Python 2's `int`/`long` distinction is not modelled. `long(s, 16)` is modelled by `ParseHex`. It accepts surrounding whitespace, one sign and a `0x`/`0X` prefix before a non-empty run of hex digits, and rejects everything else. Python 2's `long` also accepts a trailing `L`; that suffix is not modelled.
- Analyzer.ProcessSpec: a `set_ip` or `bp_hit` whose `regs` parameter is not a mapping is modelled as raising where `process` reads it, with the session unchanged. In Python that read succeeds: `set_ip` first moves the instruction pointer, its highlight and the cursor, and raises only when an `LLIL_IF` instruction indexes `regs['of']`; a falsy value such as 0 even returns normally (__init__.py:168-183). The model does not capture that partial update. Other parameters of the wrong type are likewise modelled only as raising where they are read.
- Agreement of the two sides' breakpoints is proved for breakpoints set and deleted in Binary Ninja. It is not proved for breakpoints that WinDbg's `update_bps` reports back, nor across a stop or a closed connection, where the session drops its breakpoints without telling WinDbg.
- Engine.Engine.Sync: the order in which `for bp in bps` visits the dict is not fixed. The contract states only that every tracked address is visited once.
- Engine.Engine.UpdateBps: the order of `for addr in bps.copy()` is not fixed. The contract states only that each vanished address is visited once.
- Analyzer.Session.Stop: the order of `for bp in self.bps.copy()` is not fixed. The contract states the resulting highlights, which do not depend on it.
