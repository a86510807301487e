/** The few Python string operations the plugin's text handling relies on, with Python's
    semantics: `in`, `find`, slicing with negative indices, `split(sep)`, `split()`,
    `strip(ch)`, `isalpha`, `string.hexdigits`, `int(s, 16)` and `str(n)`.
    Characters are treated as ASCII. */
module PyText {
  import opened Common

  // ---------------------------------------------------------------- find / in

  /** `sub` occurs in `s` starting at index `k`. */
  predicate OccursAt(s: string, sub: string, k: int) {
    0 <= k && k + |sub| <= |s| && s[k..k + |sub|] == sub
  }

  /** `s.find(sub)`: the index of the first occurrence of `sub` in `s`, or -1. */
  function Find(s: string, sub: string): (r: int)
    ensures r == -1 || OccursAt(s, sub, r)
    ensures r == -1 <==> forall k :: !OccursAt(s, sub, k)
    ensures forall k :: 0 <= k < r ==> !OccursAt(s, sub, k)
    decreases |s|
  {
    if |s| < |sub| then -1
    else if s[..|sub|] == sub then 0
    else
      var r := Find(s[1..], sub);
      assert forall k :: 0 < k ==> OccursAt(s, sub, k) == OccursAt(s[1..], sub, k - 1) by {
        forall k | 0 < k ensures OccursAt(s, sub, k) == OccursAt(s[1..], sub, k - 1) {
          OccursShift(s, sub, k);
        }
      }
      assert !OccursAt(s, sub, 0);
      if r == -1 then -1 else r + 1
  }

  lemma OccursShift(s: string, sub: string, k: int)
    requires 0 < k && s != []
    ensures OccursAt(s, sub, k) == OccursAt(s[1..], sub, k - 1)
  {
    if k + |sub| <= |s| {
      var a, b := s[k..k + |sub|], s[1..][k - 1..k - 1 + |sub|];
      assert |a| == |b|;
      forall j | 0 <= j < |a| ensures a[j] == b[j] {
        assert a[j] == s[k + j];
        assert b[j] == s[1..][k - 1 + j];
      }
      assert a == b;
    }
  }

  /** Python's `sub in s`. */
  predicate Contains(s: string, sub: string) {
    exists k :: 0 <= k <= |s| - |sub| && OccursAt(s, sub, k)
  }

  /** A string none of whose characters starts `sub` does not contain it. */
  lemma NotContainsWithoutFirst(s: string, sub: string)
    requires |sub| > 0 && forall k :: 0 <= k < |s| ==> s[k] != sub[0]
    ensures !Contains(s, sub)
  {
    forall k | 0 <= k <= |s| - |sub| ensures !OccursAt(s, sub, k) {
      assert s[k..k + |sub|][0] == s[k];
    }
  }

  /** `Find` on a one-character needle looks for that character. */
  lemma FindChar(s: string, c: char)
    ensures Find(s, [c]) == -1 <==> c !in s
    ensures Find(s, [c]) >= 0 ==> s[Find(s, [c])] == c && c !in s[..Find(s, [c])]
  {
    forall k | 0 <= k < |s| ensures OccursAt(s, [c], k) <==> s[k] == c {
      assert s[k..k + 1] == [s[k]];
    }
    var r := Find(s, [c]);
    if r >= 0 {
      forall k | 0 <= k < r ensures s[..r][k] != c {
        assert !OccursAt(s, [c], k);
      }
    } else {
      forall k | 0 <= k < |s| ensures s[k] != c {
        assert !OccursAt(s, [c], k);
      }
    }
  }

  // ---------------------------------------------------------------- slicing

  /** A slice bound as Python normalises it: negative counts from the end, then clamped. */
  function SliceBound(i: int, n: nat): (r: nat)
    ensures r <= n
    ensures 0 <= i <= n ==> r == i
  {
    if i < 0 then (if i + n < 0 then 0 else i + n)
    else if i > n then n
    else i
  }

  /** `s[i:j]`. */
  function Slice(s: string, i: int, j: int): (r: string)
    ensures |r| <= |s|
    ensures 0 <= i <= j <= |s| ==> r == s[i..j]
  {
    var lo, hi := SliceBound(i, |s|), SliceBound(j, |s|);
    if lo < hi then s[lo..hi] else []
  }

  // ---------------------------------------------------------------- split(sep) and its inverse

  /** `s.split(sep)` for a one-character separator: the pieces between separators,
      empty pieces included. */
  function Split(s: string, sep: char): (parts: seq<string>)
    ensures |parts| >= 1
    ensures forall p :: p in parts ==> sep !in p
    decreases |s|
  {
    var i := Find(s, [sep]);
    FindChar(s, sep);
    if i < 0 then [s] else [s[..i]] + Split(s[i + 1..], sep)
  }

  /** `sep.join(parts)`. */
  function Join(parts: seq<string>, sep: string): string
    requires |parts| >= 1
  {
    if |parts| == 1 then parts[0] else parts[0] + sep + Join(parts[1..], sep)
  }

  /** Splitting on a character and joining with it gives the text back. */
  lemma {:induction false} JoinSplit(s: string, sep: char)
    ensures Join(Split(s, sep), [sep]) == s
    decreases |s|
  {
    var i := Find(s, [sep]);
    FindChar(s, sep);
    if i >= 0 {
      var rest := Split(s[i + 1..], sep);
      var parts := Split(s, sep);
      assert parts == [s[..i]] + rest;
      assert parts[1..] == rest;
      JoinSplit(s[i + 1..], sep);
      assert Join(parts, [sep]) == s[..i] + [sep] + Join(rest, [sep]);
      Reassemble(s, i);
    }
  }

  /** A text is the part before index `i`, the character there and the part after. */
  lemma Reassemble(s: string, i: int)
    requires 0 <= i < |s|
    ensures s[..i] + [s[i]] + s[i + 1..] == s
  {
  }

  /** `s.split(sep)[0]` for a separator string: the text before the first `sep`. */
  function Before(s: string, sep: string): (r: string)
    requires sep != []
    ensures r <= s
    ensures !Contains(r, sep)
    ensures r == s || OccursAt(s, sep, |r|)
  {
    var i := Find(s, sep);
    if i < 0 then s
    else
      var r := s[..i];
      assert forall k :: OccursAt(r, sep, k) ==> OccursAt(s, sep, k) by {
        forall k | OccursAt(r, sep, k) ensures OccursAt(s, sep, k) {
          assert s[k..k + |sep|] == r[k..k + |sep|];
        }
      }
      r
  }

  // ---------------------------------------------------------------- split() on whitespace

  /** A character `str.split()` treats as whitespace: space, tab, newline, vertical tab,
      form feed, carriage return. */
  predicate IsSpace(c: char) {
    c == ' ' || '\t' <= c <= '\r'
  }

  /** A word `split()` can return: non-empty and without whitespace. */
  predicate IsWord(w: string) {
    w != [] && forall k :: 0 <= k < |w| ==> !IsSpace(w[k])
  }

  /** Length of the run of non-whitespace characters that starts `s`. */
  function WordLength(s: string): (n: nat)
    ensures n <= |s|
    ensures forall k :: 0 <= k < n ==> !IsSpace(s[k])
    ensures n < |s| ==> IsSpace(s[n])
  {
    if s == [] || IsSpace(s[0]) then 0 else 1 + WordLength(s[1..])
  }

  /** `s.split()`: the maximal runs of non-whitespace characters, in order. */
  function Words(s: string): (ws: seq<string>)
    ensures forall k :: 0 <= k < |ws| ==> IsWord(ws[k])
    decreases |s|
  {
    if s == [] then []
    else if IsSpace(s[0]) then Words(s[1..])
    else
      var n := WordLength(s);
      [s[..n]] + Words(s[n..])
  }

  /** Words separated by single spaces, the way disassembly text lays out its columns. */
  function Spaced(ws: seq<string>): string {
    if ws == [] then [] else if |ws| == 1 then ws[0] else ws[0] + " " + Spaced(ws[1..])
  }

  lemma WordLengthOfWord(w: string, rest: string)
    requires IsWord(w)
    requires rest == [] || IsSpace(rest[0])
    ensures WordLength(w + rest) == |w|
    decreases |w|
  {
    if |w| > 1 {
      assert (w + rest)[1..] == w[1..] + rest;
      WordLengthOfWord(w[1..], rest);
    } else {
      assert (w + rest)[1..] == rest;
    }
  }

  /** `split()` recovers the words of a space-separated line. */
  lemma {:induction false} WordsOfSpaced(ws: seq<string>)
    requires forall k :: 0 <= k < |ws| ==> IsWord(ws[k])
    ensures Words(Spaced(ws)) == ws
    decreases |ws|
  {
    if |ws| == 1 {
      var w := ws[0];
      WordLengthOfWord(w, []);
      assert w + [] == w;
      assert w[|w|..] == [];
    } else if |ws| > 1 {
      var w, tail := ws[0], Spaced(ws[1..]);
      var s := w + " " + tail;
      WordLengthOfWord(w, " " + tail);
      assert s == w + (" " + tail);
      assert s[..|w|] == w;
      assert s[|w|..] == " " + tail;
      assert (" " + tail)[1..] == tail;
      WordsOfSpaced(ws[1..]);
    }
  }

  // ---------------------------------------------------------------- character classes

  /** An ASCII letter, as `str.isalpha` counts it. */
  predicate IsLetter(c: char) {
    'a' <= c <= 'z' || 'A' <= c <= 'Z'
  }

  /** `s.isalpha()`: non-empty and all letters. */
  predicate IsAlpha(s: string) {
    s != [] && forall k :: 0 <= k < |s| ==> IsLetter(s[k])
  }

  /** `c in string.hexdigits`, i.e. `0123456789abcdefABCDEF`. */
  predicate IsHexDigit(c: char) {
    '0' <= c <= '9' || 'a' <= c <= 'f' || 'A' <= c <= 'F'
  }

  /** `all(char in string.hexdigits for char in s)`: true of the empty string. */
  predicate AllHexDigits(s: string) {
    forall k :: 0 <= k < |s| ==> IsHexDigit(s[k])
  }

  /** `any(char.isdigit() for char in s)`. */
  predicate HasDigit(s: string) {
    exists k :: 0 <= k < |s| && '0' <= s[k] <= '9'
  }

  // ---------------------------------------------------------------- strip

  function StripLeft(s: string, c: char): string
  {
    if s != [] && s[0] == c then StripLeft(s[1..], c) else s
  }

  function StripRight(s: string, c: char): string
  {
    if s != [] && s[|s| - 1] == c then StripRight(s[..|s| - 1], c) else s
  }

  /** `s.strip(c)`: drop every leading and trailing `c`. */
  function Strip(s: string, c: char): (r: string)
    ensures c !in s ==> r == s
  {
    StripRight(StripLeft(s, c), c)
  }

  /** `strip('h')` never changes text made only of `string.hexdigits`, since 'h' is not one. */
  lemma HexDigitsHaveNoH(s: string)
    requires AllHexDigits(s)
    ensures Strip(s, 'h') == s
  {
    assert 'h' !in s by {
      forall k | 0 <= k < |s| ensures s[k] != 'h' {
        assert IsHexDigit(s[k]);
      }
    }
  }

  function StripSpaceLeft(s: string): string
  {
    if s != [] && IsSpace(s[0]) then StripSpaceLeft(s[1..]) else s
  }

  function StripSpaceRight(s: string): string
  {
    if s != [] && IsSpace(s[|s| - 1]) then StripSpaceRight(s[..|s| - 1]) else s
  }

  // ---------------------------------------------------------------- int(s, 16)

  function HexDigitValue(c: char): (v: nat)
    requires IsHexDigit(c)
    ensures v < 16
  {
    if '0' <= c <= '9' then c as int - '0' as int
    else if 'a' <= c <= 'f' then c as int - 'a' as int + 10
    else c as int - 'A' as int + 10
  }

  /** The number a string of hex digits denotes, most significant digit first. */
  function HexValue(ds: string): nat
    requires AllHexDigits(ds)
  {
    if ds == [] then 0 else HexValue(ds[..|ds| - 1]) * 16 + HexDigitValue(ds[|ds| - 1])
  }

  /** `int(s, 16)` (Python 2 `long(s, 16)`): surrounding whitespace, an optional sign and
      an optional `0x`/`0X` prefix around at least one hex digit; `None` where Python
      raises `ValueError`. */
  function ParseHex(s: string): Option<int>
  {
    var t := StripSpaceRight(StripSpaceLeft(s));
    var neg := t != [] && t[0] == '-';
    var u := if t != [] && (t[0] == '-' || t[0] == '+') then t[1..] else t;
    var d := if |u| >= 2 && u[0] == '0' && (u[1] == 'x' || u[1] == 'X') then u[2..] else u;
    if d != [] && AllHexDigits(d) then
      var v: int := HexValue(d);
      Some(if neg then -v else v)
    else None
  }

  /** Lower-case hex digits of `n` with no prefix, as WinDbg prints addresses. */
  function HexText(n: nat): (ds: string)
    ensures ds != [] && AllHexDigits(ds)
  {
    var digit := "0123456789abcdef"[n % 16];
    if n < 16 then [digit] else HexText(n / 16) + [digit]
  }

  lemma {:induction false} HexTextValue(n: nat)
    ensures HexValue(HexText(n)) == n
  {
    var ds := HexText(n);
    assert ds[..|ds| - 1] == if n < 16 then [] else HexText(n / 16);
    if n >= 16 {
      HexTextValue(n / 16);
    }
  }

  /** Parsing the address text WinDbg prints gives the address back. */
  lemma ParseHexText(n: nat)
    ensures ParseHex(HexText(n)) == Some(n)
  {
    ParseHexDigits(HexText(n));
    HexTextValue(n);
  }

  /** Bare hex digits parse to the number they denote. */
  lemma ParseHexDigits(ds: string)
    requires ds != [] && AllHexDigits(ds)
    ensures ParseHex(ds) == Some(HexValue(ds))
  {
    assert IsHexDigit(ds[0]) && IsHexDigit(ds[|ds| - 1]);
    assert StripSpaceLeft(ds) == ds;
    assert StripSpaceRight(ds) == ds;
    assert ds[0] != '-' && ds[0] != '+';
    assert |ds| >= 2 ==> IsHexDigit(ds[1]) && ds[1] != 'x' && ds[1] != 'X';
  }

  // ---------------------------------------------------------------- str(n)

  function DecimalDigits(n: nat): (ds: string)
    ensures ds != [] && forall k :: 0 <= k < |ds| ==> '0' <= ds[k] <= '9'
  {
    var digit := "0123456789"[n % 10];
    if n < 10 then [digit] else DecimalDigits(n / 10) + [digit]
  }

  /** The number a string of decimal digits denotes. */
  function DecimalValue(ds: string): nat
    requires forall k :: 0 <= k < |ds| ==> '0' <= ds[k] <= '9'
  {
    if ds == [] then 0 else DecimalValue(ds[..|ds| - 1]) * 10 + (ds[|ds| - 1] as int - '0' as int)
  }

  /** `str(n)` for an integer: its decimal digits, with a leading '-' when negative. */
  function DecimalText(n: int): (r: string)
    ensures r != []
    ensures (r[0] == '-') <==> n < 0
  {
    if n < 0 then "-" + DecimalDigits(-n) else DecimalDigits(n)
  }

  /** The digits `str(n)` writes denote the magnitude of `n`. */
  lemma {:induction false} DecimalTextValue(n: int)
    ensures var ds := if n < 0 then DecimalText(n)[1..] else DecimalText(n);
            (forall k :: 0 <= k < |ds| ==> '0' <= ds[k] <= '9') &&
            DecimalValue(ds) == if n < 0 then -n else n
  {
    var m: nat := if n < 0 then -n else n;
    if n < 0 {
      assert DecimalText(n)[1..] == DecimalDigits(m);
    }
    DecimalDigitsValue(m);
  }

  lemma {:induction false} DecimalDigitsValue(n: nat)
    ensures DecimalValue(DecimalDigits(n)) == n
  {
    var ds := DecimalDigits(n);
    assert ds[..|ds| - 1] == if n < 10 then [] else DecimalDigits(n / 10);
    if n >= 10 {
      DecimalDigitsValue(n / 10);
    }
  }
}
