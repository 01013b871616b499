/** Lua string literals in the requests to the compositor
    (packages/hypr-workspaced/src/request.rs). Strings are their UTF-8 bytes: every
    character the quoting looks at is ASCII, and no byte of any other is. */
module LuaQuote {
  import opened Text

  type Byte = b: int | 0 <= b < 256

  const QUOTE: Byte := '"' as int
  const BACKSLASH: Byte := '\\' as int
  const NEWLINE: Byte := 10
  const RETURN: Byte := 13
  const TAB: Byte := 9

  predicate IsAsciiControl(c: Byte) {
    c < 32 || c == 127
  }

  predicate IsDigitByte(c: Byte) {
    '0' as int <= c <= '9' as int
  }

  function Digits(n: nat): (d: seq<Byte>)
    requires n < 1000
  {
    ['0' as int + n / 100, '0' as int + n / 10 % 10, '0' as int + n % 10]
  }

  function EscapedByte(c: Byte): seq<Byte> {
    if c == QUOTE then [BACKSLASH, QUOTE]
    else if c == BACKSLASH then [BACKSLASH, BACKSLASH]
    else if c == NEWLINE then [BACKSLASH, 'n' as int]
    else if c == RETURN then [BACKSLASH, 'r' as int]
    else if c == TAB then [BACKSLASH, 't' as int]
    else if IsAsciiControl(c) then [BACKSLASH] + Digits(c)
    else [c]
  }

  function Escaped(s: seq<Byte>): seq<Byte> {
    if s == [] then [] else EscapedByte(s[0]) + Escaped(s[1..])
  }

  function Literal(s: seq<Byte>): seq<Byte> {
    [QUOTE] + Escaped(s) + [QUOTE]
  }

  method LuaString(value: seq<Byte>) returns (quoted: seq<Byte>)
    ensures quoted == Literal(value)
    ensures forall rest :: ReadLiteral(quoted + rest) == Some((value, rest))
  {
    quoted := [QUOTE];
    for i := 0 to |value|
      invariant quoted + Escaped(value[i..]) == [QUOTE] + Escaped(value)
    {
      EscapedStep(value, i);
      Regroup(quoted, EscapedByte(value[i]), Escaped(value[i + 1..]));
      quoted := Push(quoted, value[i]);
    }
    assert value[|value|..] == [] && quoted == quoted + Escaped(value[|value|..]);
    quoted := quoted + [QUOTE];
    forall rest
      ensures ReadLiteral(quoted + rest) == Some((value, rest))
    {
      ReadsBack(value, rest);
    }
  }

  lemma EscapedStep(value: seq<Byte>, i: nat)
    requires i < |value|
    ensures Escaped(value[i..]) == EscapedByte(value[i]) + Escaped(value[i + 1..])
  {
    assert value[i..][1..] == value[i + 1..];
  }

  /** The body of the loop. */
  method Push(quoted: seq<Byte>, c: Byte) returns (r: seq<Byte>)
    ensures r == quoted + EscapedByte(c)
  {
    if c == QUOTE {
      r := quoted + [BACKSLASH, QUOTE];
    } else if c == BACKSLASH {
      r := quoted + [BACKSLASH, BACKSLASH];
    } else if c == NEWLINE {
      r := quoted + [BACKSLASH, 'n' as int];
    } else if c == RETURN {
      r := quoted + [BACKSLASH, 'r' as int];
    } else if c == TAB {
      r := quoted + [BACKSLASH, 't' as int];
    } else if IsAsciiControl(c) {
      r := quoted + ([BACKSLASH] + Digits(c));
    } else {
      r := quoted + [c];
    }
  }

  // --- the reading rules of section 3.1 of the Lua 5.4 Reference Manual -----------------

  function SimpleEscape(c: Byte): Option<Byte> {
    if c == 'a' as int then Some(7)
    else if c == 'b' as int then Some(8)
    else if c == 't' as int then Some(9)
    else if c == 'n' as int then Some(10)
    else if c == 'v' as int then Some(11)
    else if c == 'f' as int then Some(12)
    else if c == 'r' as int then Some(13)
    else if c == BACKSLASH || c == QUOTE || c == '\'' as int || c == NEWLINE then Some(c)
    else None
  }

  /** A decimal escape takes up to three digits, as many as there are. */
  function DecimalLength(s: seq<Byte>): (n: nat)
    ensures n <= 3 && n <= |s|
  {
    if s == [] || !IsDigitByte(s[0]) then 0
    else if |s| == 1 || !IsDigitByte(s[1]) then 1
    else if |s| == 2 || !IsDigitByte(s[2]) then 2
    else 3
  }

  function DecimalValue(s: seq<Byte>): int {
    if s == [] then 0 else DecimalValue(s[..|s| - 1]) * 10 + s[|s| - 1] - '0' as int
  }

  function HexNibble(c: Byte): Option<nat> {
    if IsDigitByte(c) then Some(c - '0' as int)
    else if 'a' as int <= c <= 'f' as int then Some(c - 'a' as int + 10)
    else if 'A' as int <= c <= 'F' as int then Some(c - 'A' as int + 10)
    else None
  }

  function SkipSpace(s: seq<Byte>): (r: seq<Byte>)
    ensures |r| <= |s|
  {
    if s != [] && (s[0] == 32 || 9 <= s[0] <= 13) then SkipSpace(s[1..]) else s
  }

  /** The rest of a literal after its opening quote: its value and what follows the
      closing quote. The escape for code points is not read: it is never written. */
  function ReadBody(s: seq<Byte>): Option<(seq<Byte>, seq<Byte>)>
    decreases |s|
  {
    if s == [] || s[0] == NEWLINE || s[0] == RETURN then None
    else if s[0] == QUOTE then Some(([], s[1..]))
    else if s[0] != BACKSLASH then Prepend(s[0], ReadBody(s[1..]))
    else if |s| == 1 then None
    else if SimpleEscape(s[1]).Some? then Prepend(SimpleEscape(s[1]).value, ReadBody(s[2..]))
    else if IsDigitByte(s[1]) then
      var n := DecimalLength(s[1..]);
      var v := DecimalValue(s[1..1 + n]);
      if 0 <= v < 256 then Prepend(v, ReadBody(s[1 + n..])) else None
    else if s[1] == 'x' as int then
      if |s| < 4 || HexNibble(s[2]).None? || HexNibble(s[3]).None? then None
      else
        var v := HexNibble(s[2]).value * 16 + HexNibble(s[3]).value;
        if v < 256 then Prepend(v, ReadBody(s[4..])) else None
    else if s[1] == 'z' as int then ReadBody(SkipSpace(s[2..]))
    else None
  }

  function Prepend(b: Byte, r: Option<(seq<Byte>, seq<Byte>)>): Option<(seq<Byte>, seq<Byte>)> {
    match r
    case None => None
    case Some((v, rest)) => Some(([b] + v, rest))
  }

  function ReadLiteral(s: seq<Byte>): Option<(seq<Byte>, seq<Byte>)> {
    if s != [] && s[0] == QUOTE then ReadBody(s[1..]) else None
  }

  lemma ReadByte(c: Byte, rest: seq<Byte>)
    ensures ReadBody(EscapedByte(c) + rest) == Prepend(c, ReadBody(rest))
  {
    var e := EscapedByte(c);
    if |e| == 4 {
      ReadDecimal(c, rest);
    } else {
      assert (e + rest)[|e|..] == rest;
    }
  }

  lemma ReadDecimal(c: Byte, rest: seq<Byte>)
    ensures ReadBody([BACKSLASH] + Digits(c) + rest) == Prepend(c, ReadBody(rest))
  {
    var s := [BACKSLASH] + Digits(c) + rest;
    DigitsValue(c);
    assert s[1..4] == Digits(c) && s[4..] == rest;
    assert DecimalLength(s[1..]) == 3;
  }

  lemma DigitsValue(c: Byte)
    ensures DecimalValue(Digits(c)) == c
  {
    var d := Digits(c);
    assert d[..2][..1] == d[..1] && d[..1][..0] == [];
    assert DecimalValue(d[..1]) == c / 100;
    assert DecimalValue(d[..2]) == c / 100 * 10 + c / 10 % 10;
  }

  lemma {:induction false} ReadEscaped(s: seq<Byte>, rest: seq<Byte>)
    ensures ReadBody(Escaped(s) + [QUOTE] + rest) == Some((s, rest))
  {
    if s == [] {
      assert Escaped(s) + [QUOTE] + rest == [QUOTE] + rest;
      assert ([QUOTE] + rest)[1..] == rest;
    } else {
      var more := Escaped(s[1..]) + [QUOTE] + rest;
      assert Escaped(s) + [QUOTE] + rest == EscapedByte(s[0]) + more;
      ReadByte(s[0], more);
      ReadEscaped(s[1..], rest);
      assert s == [s[0]] + s[1..];
    }
  }

  /** Whatever follows it in the request, the literal reads as exactly the string,
      control characters followed by digits included. */
  lemma ReadsBack(s: seq<Byte>, rest: seq<Byte>)
    ensures ReadLiteral(Literal(s) + rest) == Some((s, rest))
  {
    ReadEscaped(s, rest);
    AfterFirst(QUOTE, Escaped(s), [QUOTE], rest);
  }

  lemma AfterFirst(a: Byte, b: seq<Byte>, c: seq<Byte>, rest: seq<Byte>)
    ensures ([a] + b + c + rest)[0] == a && ([a] + b + c + rest)[1..] == b + c + rest
  {
  }

  // --- quotes inside the literal ---------------------------------------------------------

  /** The number of backslashes right before position `i`. */
  function Backslashes(t: seq<Byte>, i: nat): nat
    requires i <= |t|
  {
    if i > 0 && t[i - 1] == BACKSLASH then 1 + Backslashes(t, i - 1) else 0
  }

  predicate UnescapedQuote(t: seq<Byte>, i: nat)
    requires i < |t|
  {
    t[i] == QUOTE && Backslashes(t, i) % 2 == 0
  }

  lemma {:induction false} BackslashesLocal(t: seq<Byte>, more: seq<Byte>, i: nat)
    requires i <= |t|
    ensures Backslashes(t + more, i) == Backslashes(t, i)
  {
    if i > 0 {
      assert (t + more)[i - 1] == t[i - 1];
      BackslashesLocal(t, more, i - 1);
    }
  }

  predicate NoQuotes(t: seq<Byte>, from: nat) {
    forall i :: from <= i < |t| ==> !UnescapedQuote(t, i)
  }

  /** From `from` on the text has no unescaped quote, and the next would be one. */
  predicate Closed(t: seq<Byte>, from: nat) {
    Backslashes(t, |t|) % 2 == 0 && NoQuotes(t, from)
  }

  lemma EscapedByteQuotes(before: seq<Byte>, c: Byte)
    requires Backslashes(before, |before|) % 2 == 0
    ensures Closed(before + EscapedByte(c), |before|)
  {
    BackslashesLocal(before, EscapedByte(c), |before|);
    if |EscapedByte(c)| == 1 {
      OneClosed(before, c);
    } else if |EscapedByte(c)| == 2 {
      TwoClosed(before, EscapedByte(c)[1]);
    } else {
      FourClosed(before, Digits(c));
    }
  }

  lemma OneClosed(before: seq<Byte>, c: Byte)
    requires Backslashes(before, |before|) % 2 == 0 && c != QUOTE && c != BACKSLASH
    ensures Closed(before + [c], |before|)
  {
  }

  lemma TwoClosed(before: seq<Byte>, c: Byte)
    requires Backslashes(before, |before|) % 2 == 0
    ensures Closed(before + [BACKSLASH, c], |before|)
  {
    var t, n := before + [BACKSLASH, c], |before|;
    BackslashesLocal(before, [BACKSLASH, c], n);
    assert t[n] == BACKSLASH && t[n + 1] == c;
    OneMore(t, n);
    OneMore(t, n + 1);
    forall i | n <= i < |t|
      ensures !UnescapedQuote(t, i)
    {
      assert i == n || i == n + 1;
    }
  }

  lemma OneMore(t: seq<Byte>, i: nat)
    requires i < |t|
    ensures Backslashes(t, i + 1) == if t[i] == BACKSLASH then Backslashes(t, i) + 1 else 0
  {
  }

  lemma FourClosed(before: seq<Byte>, d: seq<Byte>)
    requires Backslashes(before, |before|) % 2 == 0 && |d| == 3 && forall k :: 0 <= k < 3 ==> IsDigitByte(d[k])
    ensures Closed(before + ([BACKSLASH] + d), |before|)
  {
    var t := before + ([BACKSLASH] + d);
    assert t[|before|] == BACKSLASH && forall k :: 0 <= k < 3 ==> t[|before| + 1 + k] == d[k];
  }

  lemma Regroup(a: seq<Byte>, b: seq<Byte>, c: seq<Byte>)
    ensures a + (b + c) == a + b + c
  {
  }

  lemma {:induction false} EscapedQuotes(before: seq<Byte>, s: seq<Byte>)
    requires Backslashes(before, |before|) % 2 == 0
    ensures Closed(before + Escaped(s), |before|)
    decreases |s|
  {
    if s == [] {
      assert before + Escaped(s) == before;
    } else {
      var e, rest := EscapedByte(s[0]), Escaped(s[1..]);
      EscapedByteQuotes(before, s[0]);
      EscapedQuotes(before + e, s[1..]);
      Regroup(before, e, rest);
      ClosedTwice(before + e, rest, |before|);
    }
  }

  lemma ClosedTwice(t: seq<Byte>, more: seq<Byte>, from: nat)
    requires Closed(t, from) && Closed(t + more, |t|)
    ensures Closed(t + more, from)
  {
    forall i | from <= i < |t|
      ensures !UnescapedQuote(t + more, i)
    {
      BackslashesLocal(t, more, i);
      assert !UnescapedQuote(t, i);
    }
  }

  /** After the opening quote, the only unescaped quote is the closing one. */
  lemma OnlyClosingQuote(s: seq<Byte>, i: nat)
    requires 0 < i < |Literal(s)|
    ensures UnescapedQuote(Literal(s), i) <==> i == |Literal(s)| - 1
  {
    var t := [QUOTE] + Escaped(s);
    assert Backslashes([QUOTE], 1) == 0;
    EscapedQuotes([QUOTE], s);
    assert Literal(s) == t + [QUOTE];
    BackslashesLocal(t, [QUOTE], i);
    BackslashesLocal(t, [QUOTE], |t|);
    if i < |t| {
      assert !UnescapedQuote(t, i);
    }
  }
}
