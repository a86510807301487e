/** The message vocabulary both halves exchange over the pipe: a pair `(command, params)`
    whose params are a keyword mapping. Every address on the wire is module-relative: the
    sender subtracts its own load base and the receiver adds its own. */
module Wire {
  import opened Common

  /** A register snapshot: register name to value. */
  type Regs = map<string, int>

  /** A keyword-argument value: an address, a text (the instruction kind), or a
      register snapshot. */
  datatype Value = Num(n: int) | Text(s: string) | RegMap(regs: Regs)

  /** `(command, params)` as `conn.send((command, params))` writes it. */
  datatype Message = Message(cmd: string, params: map<string, Value>)

  /** `params[key]` used in integer arithmetic; `None` where Python raises (`KeyError` for
      a missing key, `TypeError` for a value that is not a number). */
  function NumParam(m: Message, key: string): (r: Option<int>)
    ensures r.Some? <==> key in m.params && m.params[key].Num?
    ensures r.Some? ==> m.params[key] == Num(r.value)
  {
    if key in m.params && m.params[key].Num? then Some(m.params[key].n) else None
  }

  /** `params[key]` used as a register mapping; `None` where Python raises. */
  function RegsParam(m: Message, key: string): (r: Option<Regs>)
    ensures r.Some? <==> key in m.params && m.params[key].RegMap?
    ensures r.Some? ==> m.params[key] == RegMap(r.value)
  {
    if key in m.params && m.params[key].RegMap? then Some(m.params[key].regs) else None
  }

  /** `send(cmd, addr=addr)`: a message with one address parameter. */
  function AddrMessage(cmd: string, addr: int): Message {
    Message(cmd, map["addr" := Num(addr)])
  }

  /** One `cmd` message per absolute address, in order, each carrying `addr - base`. */
  function AddrMessages(cmd: string, addrs: seq<int>, base: int): (ms: seq<Message>)
    ensures |ms| == |addrs|
    ensures forall k :: 0 <= k < |addrs| ==> ms[k] == AddrMessage(cmd, addrs[k] - base)
  {
    if addrs == [] then [] else [AddrMessage(cmd, addrs[0] - base)] + AddrMessages(cmd, addrs[1..], base)
  }

  lemma AddrMessagesAppend(cmd: string, addrs: seq<int>, a: int, base: int)
    ensures AddrMessages(cmd, addrs + [a], base) == AddrMessages(cmd, addrs, base) + [AddrMessage(cmd, a - base)]
  {
  }

  /** Sending the message for `a` after `sent` and the messages for `addrs` leaves
      `sent` and the messages for `addrs + [a]`. */
  lemma SentOneMore(outbox: seq<Message>, before: seq<Message>, sent: seq<Message>, cmd: string, addrs: seq<int>, a: int, base: int)
    requires before == sent + AddrMessages(cmd, addrs, base)
    requires outbox == before + [AddrMessage(cmd, a - base)]
    ensures outbox == sent + AddrMessages(cmd, addrs + [a], base)
  {
    AddrMessagesAppend(cmd, addrs, a, base);
  }

  /** Sending `first` after `sent` and then `second` leaves `sent` then both. */
  lemma SentThen(outbox: seq<Message>, middle: seq<Message>, sent: seq<Message>, first: seq<Message>, second: seq<Message>)
    requires middle == sent + first
    requires outbox == middle + second
    ensures outbox == sent + (first + second)
  {
  }

  /** An outbox that holds `sent` then `extra` splits back into the two. */
  lemma SplitSent(outbox: seq<Message>, sent: seq<Message>, extra: seq<Message>)
    requires outbox == sent + extra
    ensures outbox[..|sent|] == sent && outbox[|sent|..] == extra
  {
  }

  /** How many times `m` was sent in `ms`. */
  function Occurrences(ms: seq<Message>, m: Message): nat {
    if ms == [] then 0 else (if ms[0] == m then 1 else 0) + Occurrences(ms[1..], m)
  }

  lemma {:induction false} OccurrencesAppend(a: seq<Message>, b: seq<Message>, m: Message)
    ensures Occurrences(a + b, m) == Occurrences(a, m) + Occurrences(b, m)
    decreases |a|
  {
    if a != [] {
      assert (a + b)[1..] == a[1..] + b;
      OccurrencesAppend(a[1..], b, m);
    } else {
      assert a + b == b;
    }
  }

  /** Messages for distinct addresses name each of them once. */
  lemma {:induction false} OccurrencesOfAddrMessages(cmd: string, addrs: seq<int>, base: int, cmd2: string, wire: int)
    requires Distinct(addrs)
    ensures Occurrences(AddrMessages(cmd, addrs, base), AddrMessage(cmd2, wire)) ==
            if cmd2 == cmd && wire + base in addrs then 1 else 0
    decreases |addrs|
  {
    if addrs != [] {
      var m := AddrMessage(cmd2, wire);
      assert AddrMessage(cmd, addrs[0] - base) == m <==> cmd == cmd2 && addrs[0] == wire + base by {
        if AddrMessage(cmd, addrs[0] - base) == m {
          assert AddrMessage(cmd, addrs[0] - base).params["addr"] == m.params["addr"];
        }
      }
      assert Distinct(addrs[1..]);
      OccurrencesOfAddrMessages(cmd, addrs[1..], base, cmd2, wire);
      assert addrs == [addrs[0]] + addrs[1..];
    }
  }

  // ---------------------------------------------------------------- dict and set iteration

  /** No address appears twice. */
  predicate Distinct(s: seq<int>) {
    forall i, j :: 0 <= i < j < |s| ==> s[i] != s[j]
  }

  /** A set that is not empty has a member. */
  lemma NonEmptyHasMember(S: set<int>)
    requires S != {}
    ensures exists x :: x in S
  {
    if forall x :: x !in S {
      assert false;
    }
  }

  /** Some member of a non-empty set: the next address a loop over a set visits. */
  method Pick(S: set<int>) returns (x: int)
    requires S != {}
    ensures x in S
  {
    NonEmptyHasMember(S);
    x :| x in S;
  }

  /** `s` lists every member of `S` exactly once, in some order: what a Python loop over a
      set or a dict's keys visits. */
  ghost predicate Enumerates(s: seq<int>, S: set<int>) {
    Distinct(s) && forall x :: x in s <==> x in S
  }

  /** An enumeration of a set has as many entries as the set has members. */
  lemma {:induction false} EnumerationSize(s: seq<int>, S: set<int>)
    requires Enumerates(s, S)
    ensures |s| == |S|
    decreases |s|
  {
    if s == [] {
      assert forall x :: x !in S;
    } else {
      var x := s[0];
      var rest := S - {x};
      assert Enumerates(s[1..], rest) by {
        forall y ensures y in s[1..] <==> y in rest {
          if y in s[1..] {
            var j :| 1 <= j < |s| && s[j] == y;
            assert s[0] != s[j];
          }
          if y in rest {
            assert y in s;
            var j :| 0 <= j < |s| && s[j] == y;
            assert j != 0;
            assert s[1..][j - 1] == y;
          }
        }
      }
      EnumerationSize(s[1..], rest);
      assert S == rest + {x};
    }
  }
}
