/** The HTTP Basic credential of the credential validator
    (packages/oidc-credential-validator/src/main.rs). */
module BasicCredential {
  import opened Text

  type Byte = b: int | 0 <= b < 256

  const SPACE: Byte := ' ' as int
  const PLUS: Byte := '+' as int
  const PERCENT: Byte := '%' as int
  const COLON: Byte := ':' as int
  const PAD: Byte := '=' as int

  // --- form encoding --------------------------------------------------------------

  predicate Unreserved(b: Byte) {
    || 'A' as int <= b <= 'Z' as int || 'a' as int <= b <= 'z' as int || '0' as int <= b <= '9' as int
    || b == '-' as int || b == '.' as int || b == '_' as int || b == '~' as int
  }

  function HexDigit(n: nat): Byte
    requires n < 16
  {
    if n < 10 then '0' as int + n else 'A' as int + n - 10
  }

  function FormByte(b: Byte): seq<Byte> {
    if Unreserved(b) then [b]
    else if b == SPACE then [PLUS]
    else [PERCENT, HexDigit(b / 16), HexDigit(b % 16)]
  }

  function FormEncoded(s: seq<Byte>): seq<Byte> {
    if s == [] then [] else FormEncoded(s[..|s| - 1]) + FormByte(s[|s| - 1])
  }

  method FormUrlencode(s: seq<Byte>) returns (out: seq<Byte>)
    ensures out == FormEncoded(s)
  {
    out := [];
    for i := 0 to |s|
      invariant out == FormEncoded(s[..i])
    {
      assert s[..i + 1][..i] == s[..i];
      var b := s[i];
      if Unreserved(b) {
        out := out + [b];
      } else if b == SPACE {
        out := out + [PLUS];
      } else {
        out := out + [PERCENT, HexDigit(b / 16), HexDigit(b % 16)];
      }
    }
    assert s[..|s|] == s;
  }

  function HexValue(c: Byte): Option<nat> {
    if '0' as int <= c <= '9' as int then Some(c - '0' as int)
    else if 'A' as int <= c <= 'F' as int then Some(c - 'A' as int + 10)
    else if 'a' as int <= c <= 'f' as int then Some(c - 'a' as int + 10)
    else None
  }

  /** A reference decoder for application/x-www-form-urlencoded values, which
      section 2.3.1 of RFC 6749 applies to both halves. */
  function FormDecoded(t: seq<Byte>): Option<seq<Byte>> {
    if t == [] then Some([])
    else if t[0] == PERCENT then
      if |t| < 3 || HexValue(t[1]).None? || HexValue(t[2]).None? then None
      else
        var rest := FormDecoded(t[3..]);
        var b := HexValue(t[1]).value * 16 + HexValue(t[2]).value;
        if rest.None? || b >= 256 then None else Some([b] + rest.value)
    else
      var rest := FormDecoded(t[1..]);
      if rest.None? then None else Some([if t[0] == PLUS then SPACE else t[0]] + rest.value)
  }

  lemma {:induction false} FormDecodeByte(b: Byte, rest: seq<Byte>)
    requires FormDecoded(rest).Some?
    ensures FormDecoded(FormByte(b) + rest) == Some([b] + FormDecoded(rest).value)
  {
    var e := FormByte(b);
    assert (e + rest)[|e|..] == rest;
  }

  lemma {:induction false} FormDecodeEncode(s: seq<Byte>, rest: seq<Byte>)
    requires FormDecoded(rest).Some?
    ensures FormDecoded(FormEncoded(s) + rest) == Some(s + FormDecoded(rest).value)
  {
    if s == [] {
      assert FormEncoded(s) + rest == rest;
      assert s + FormDecoded(rest).value == FormDecoded(rest).value;
    } else {
      var init, last := s[..|s| - 1], s[|s| - 1];
      FormDecodeByte(last, rest);
      FormDecodeEncode(init, FormByte(last) + rest);
      Regroup(FormEncoded(init), FormByte(last), rest);
      Regroup(init, [last], FormDecoded(rest).value);
      assert s == init + [last];
    }
  }

  lemma Regroup(a: seq<Byte>, b: seq<Byte>, c: seq<Byte>)
    ensures a + b + c == a + (b + c)
  {
  }

  /** A form-encoded half holds no colon. */
  lemma {:induction false} FormHasNoColon(s: seq<Byte>)
    ensures COLON !in FormEncoded(s)
  {
    if s != [] {
      FormHasNoColon(s[..|s| - 1]);
      assert COLON !in FormByte(s[|s| - 1]);
    }
  }

  // --- base64 -----------------------------------------------------------------------

  type Sextet = n: int | 0 <= n < 64

  function Symbol(n: Sextet): Byte {
    if n < 26 then 'A' as int + n
    else if n < 52 then 'a' as int + n - 26
    else if n < 62 then '0' as int + n - 52
    else if n == 62 then '+' as int
    else '/' as int
  }

  /** The program's table of symbols, eight to a row. */
  function Row(k: nat): (r: string)
    requires k < 8
    ensures |r| == 8
  {
    match k
    case 0 => "ABCDEFGH"
    case 1 => "IJKLMNOP"
    case 2 => "QRSTUVWX"
    case 3 => "YZabcdef"
    case 4 => "ghijklmn"
    case 5 => "opqrstuv"
    case 6 => "wxyz0123"
    case _ => "456789+/"
  }

  lemma TableRows(k: nat, i: nat)
    requires k < 8 && i < 8
    ensures Row(k)[i] as int == Symbol(8 * k + i)
  {
    assert i == 0 || i == 1 || i == 2 || i == 3 || i == 4 || i == 5 || i == 6 || i == 7;
    match k
    case 0 =>
    case 1 =>
    case 2 =>
    case 3 =>
    case 4 =>
    case 5 =>
    case 6 =>
    case _ =>
  }

  /** The value of a symbol, by table 1 of RFC 4648. */
  function SymbolValue(c: Byte): Option<Sextet> {
    if 'A' as int <= c <= 'Z' as int then Some(c - 'A' as int)
    else if 'a' as int <= c <= 'z' as int then Some(c - 'a' as int + 26)
    else if '0' as int <= c <= '9' as int then Some(c - '0' as int + 52)
    else if c == '+' as int then Some(62)
    else if c == '/' as int then Some(63)
    else None
  }

  /** The table the program uses is the one of RFC 4648. */
  lemma TableIsStandard(n: Sextet)
    ensures SymbolValue(Row(n / 8)[n % 8] as int) == Some(n)
  {
    TableRows(n / 8, n % 8);
  }

  /** Up to three bytes as the 24 bits the program shifts together. */
  function Bits(c: seq<Byte>): (n: nat)
    requires 1 <= |c| <= 3
    ensures n < 16777216
  {
    var b0: int, b1: int, b2: int := c[0], if |c| > 1 then c[1] else 0, if |c| > 2 then c[2] else 0;
    b0 * 65536 + b1 * 256 + b2
  }

  /** The four sextets of three bytes. */
  function Sextets(b0: Byte, b1: Byte, b2: Byte): (Sextet, Sextet, Sextet, Sextet) {
    (b0 / 4, b0 % 4 * 16 + b1 / 16, b1 % 16 * 4 + b2 / 64, b2 % 64)
  }

  lemma BitsSplit(b0: int, b1: int, b2: int)
    requires 0 <= b0 < 256 && 0 <= b1 < 256 && 0 <= b2 < 256
    ensures var n := b0 * 65536 + b1 * 256 + b2;
            && n / 262144 == b0 / 4
            && n / 4096 % 64 == b0 % 4 * 16 + b1 / 16
            && n / 64 % 64 == b1 % 16 * 4 + b2 / 64
            && n % 64 == b2 % 64
  {
    var n := b0 * 65536 + b1 * 256 + b2;
    PartsSplit(b0 / 4, b0 % 4, b1 / 16, b1 % 16, b2 / 64, b2 % 64, n);
  }

  lemma PartsSplit(a: int, x: int, y: int, z: int, u: int, v: int, n: int)
    requires 0 <= a < 64 && 0 <= x < 4 && 0 <= y < 16 && 0 <= z < 16 && 0 <= u < 4 && 0 <= v < 64
    requires n == a * 262144 + x * 65536 + y * 4096 + z * 256 + u * 64 + v
    ensures n / 262144 == a && n / 4096 % 64 == x * 16 + y && n / 64 % 64 == z * 4 + u && n % 64 == v
  {
    assert n / 4096 == a * 64 + (x * 16 + y);
    assert n / 64 == (a * 64 + x * 16 + y) * 64 + (z * 4 + u);
  }

  function Chunk(c: seq<Byte>): (r: seq<Byte>)
    requires 1 <= |c| <= 3
    ensures |r| == 4
  {
    var s := Sextets(c[0], if |c| > 1 then c[1] else 0, if |c| > 2 then c[2] else 0);
    [Symbol(s.0), Symbol(s.1), if |c| > 1 then Symbol(s.2) else PAD, if |c| > 2 then Symbol(s.3) else PAD]
  }

  function Encoded(input: seq<Byte>): (r: seq<Byte>)
    ensures |r| == 4 * ((|input| + 2) / 3)
  {
    if |input| <= 3 then
      if input == [] then [] else Chunk(input)
    else Chunk(input[..3]) + Encoded(input[3..])
  }

  method Base64(input: seq<Byte>) returns (out: seq<Byte>)
    ensures out == Encoded(input)
  {
    out := [];
    var i := 0;
    while i < |input|
      invariant 0 <= i <= |input|
      invariant out + Encoded(input[i..]) == Encoded(input)
    {
      var next := if i + 3 <= |input| then i + 3 else |input|;
      var four := EncodeChunk(input[i..next]);
      AdvanceFrom(input, i, next);
      Regroup(out, four, Encoded(input[next..]));
      out := out + four;
      i := next;
    }
    assert input[i..] == [] && out == out + Encoded(input[i..]);
  }

  /** The body of the loop: the bytes shifted into 24 bits, cut into sextets. */
  method EncodeChunk(chunk: seq<Byte>) returns (four: seq<Byte>)
    requires 1 <= |chunk| <= 3
    ensures four == Chunk(chunk)
  {
    var n := Bits(chunk);
    BitsSplit(chunk[0], if |chunk| > 1 then chunk[1] else 0, if |chunk| > 2 then chunk[2] else 0);
    four := [Symbol(n / 262144), Symbol(n / 4096 % 64),
             if |chunk| > 1 then Symbol(n / 64 % 64) else PAD,
             if |chunk| > 2 then Symbol(n % 64) else PAD];
  }

  lemma Advance(input: seq<Byte>)
    requires input != []
    ensures var k := if |input| <= 3 then |input| else 3;
            Encoded(input) == Chunk(input[..k]) + Encoded(input[k..])
  {
    if |input| <= 3 {
      assert input[..|input|] == input && input[|input|..] == [];
      assert Chunk(input) + [] == Chunk(input);
    }
  }

  lemma AdvanceFrom(input: seq<Byte>, i: nat, next: nat)
    requires i < |input| && next == if i + 3 <= |input| then i + 3 else |input|
    ensures Encoded(input[i..]) == Chunk(input[i..next]) + Encoded(input[next..])
  {
    Advance(input[i..]);
    assert input[i..][..next - i] == input[i..next] && input[i..][next - i..] == input[next..];
  }

  /** A reference decoder for section 4 of RFC 4648, strict: whole groups, padding
      only at the end, no stray bits. */
  function Decoded(t: seq<Byte>): Option<seq<Byte>> {
    if t == [] then Some([])
    else if |t| < 4 then None
    else
      var g := DecodedGroup(t[..4], |t| == 4);
      var rest := Decoded(t[4..]);
      if g.None? || rest.None? then None else Some(g.value + rest.value)
  }

  function DecodedGroup(g: seq<Byte>, last: bool): (r: Option<seq<Byte>>)
    requires |g| == 4
    ensures r.Some? ==> 1 <= |r.value| <= 3 && (!last ==> |r.value| == 3)
  {
    var s0, s1, s2, s3 := SymbolValue(g[0]), SymbolValue(g[1]), SymbolValue(g[2]), SymbolValue(g[3]);
    if s0.None? || s1.None? then None
    else if g[2] == PAD && g[3] == PAD then
      if last && s1.value % 16 == 0 then Some([s0.value * 4 + s1.value / 16]) else None
    else if s2.None? then None
    else if g[3] == PAD then
      if last && s2.value % 4 == 0 then
        Some([s0.value * 4 + s1.value / 16, s1.value % 16 * 16 + s2.value / 4])
      else None
    else if s3.None? then None
    else Some([s0.value * 4 + s1.value / 16, s1.value % 16 * 16 + s2.value / 4, s2.value % 4 * 64 + s3.value])
  }

  lemma SextetsForth(b0: Byte, b1: Byte, b2: Byte)
    ensures var s := Sextets(b0, b1, b2);
            && s.0 * 4 + s.1 / 16 == b0
            && s.1 % 16 * 16 + s.2 / 4 == b1
            && s.2 % 4 * 64 + s.3 == b2
  {
    var s := Sextets(b0, b1, b2);
    assert s.1 / 16 == b0 % 4 && s.1 % 16 == b1 / 16;
    assert s.2 / 4 == b1 % 16 && s.2 % 4 == b2 / 64;
  }

  lemma SymbolReads(n: Sextet)
    ensures SymbolValue(Symbol(n)) == Some(n) && Symbol(n) != PAD
  {
  }

  lemma DecodeChunk(c: seq<Byte>, last: bool)
    requires 1 <= |c| <= 3 && (!last ==> |c| == 3)
    ensures DecodedGroup(Chunk(c), last) == Some(c)
  {
    var b1, b2 := if |c| > 1 then c[1] else 0, if |c| > 2 then c[2] else 0;
    var s := Sextets(c[0], b1, b2);
    SextetsForth(c[0], b1, b2);
    SymbolReads(s.0);
    SymbolReads(s.1);
    SymbolReads(s.2);
    SymbolReads(s.3);
    if |c| == 1 {
      assert c == [c[0]] && s.1 % 16 == 0;
    } else if |c| == 2 {
      assert c == [c[0], c[1]] && s.2 % 4 == 0;
    } else {
      assert c == [c[0], c[1], c[2]];
    }
  }

  /** Decoding undoes the encoding, for all inputs. */
  lemma {:induction false} DecodeEncode(input: seq<Byte>)
    ensures Decoded(Encoded(input)) == Some(input)
  {
    if input != [] {
      var k := if |input| <= 3 then |input| else 3;
      Advance(input);
      var t := Encoded(input);
      assert t[..4] == Chunk(input[..k]) && t[4..] == Encoded(input[k..]);
      DecodeChunk(input[..k], |t| == 4);
      DecodeEncode(input[k..]);
      assert input == input[..k] + input[k..];
    }
  }

  lemma SextetsBack(s0: Sextet, s1: Sextet, s2: Sextet, s3: Sextet)
    ensures s0 * 4 + s1 / 16 < 256 && s1 % 16 * 16 + s2 / 4 < 256 && s2 % 4 * 64 + s3 < 256
    ensures Sextets(s0 * 4 + s1 / 16, s1 % 16 * 16 + s2 / 4, s2 % 4 * 64 + s3) == (s0, s1, s2, s3)
  {
    PartsBack(s0, s1 / 16, s1 % 16, s2 / 4, s2 % 4, s3);
  }

  lemma PartsBack(s0: int, a: int, b: int, c: int, d: int, s3: int)
    requires 0 <= s0 < 64 && 0 <= a < 4 && 0 <= b < 16 && 0 <= c < 16 && 0 <= d < 4 && 0 <= s3 < 64
    ensures s0 * 4 + a < 256 && b * 16 + c < 256 && d * 64 + s3 < 256
    ensures Sextets(s0 * 4 + a, b * 16 + c, d * 64 + s3) == (s0, a * 16 + b, c * 4 + d, s3)
  {
    assert (s0 * 4 + a) / 4 == s0 && (s0 * 4 + a) % 4 == a;
    assert (b * 16 + c) / 16 == b && (b * 16 + c) % 16 == c;
    assert (d * 64 + s3) / 64 == d && (d * 64 + s3) % 64 == s3;
  }

  lemma SymbolWrites(c: Byte)
    requires SymbolValue(c).Some?
    ensures Symbol(SymbolValue(c).value) == c && c != PAD
  {
  }

  lemma EncodeGroup(g: seq<Byte>, last: bool)
    requires |g| == 4 && DecodedGroup(g, last).Some?
    ensures Chunk(DecodedGroup(g, last).value) == g
  {
    if g[2] == PAD {
      PaddedTwice(g, last);
    } else if g[3] == PAD {
      PaddedOnce(g, last);
    } else {
      FullGroup(g, last);
    }
  }

  lemma OneByteBack(s0: Sextet, s1: Sextet)
    requires s1 % 16 == 0
    ensures s0 * 4 + s1 / 16 < 256
    ensures Chunk([s0 * 4 + s1 / 16]) == [Symbol(s0), Symbol(s1), PAD, PAD]
  {
    SextetsBack(s0, s1, 0, 0);
  }

  lemma PaddedTwice(g: seq<Byte>, last: bool)
    requires |g| == 4 && DecodedGroup(g, last).Some? && g[2] == PAD
    ensures Chunk(DecodedGroup(g, last).value) == g
  {
    assert SymbolValue(PAD).None?;
    SymbolWrites(g[0]);
    SymbolWrites(g[1]);
    OneByteBack(SymbolValue(g[0]).value, SymbolValue(g[1]).value);
  }

  lemma PaddedOnce(g: seq<Byte>, last: bool)
    requires |g| == 4 && DecodedGroup(g, last).Some? && g[2] != PAD && g[3] == PAD
    ensures Chunk(DecodedGroup(g, last).value) == g
  {
    SymbolWrites(g[0]);
    SymbolWrites(g[1]);
    SymbolWrites(g[2]);
    SextetsBack(SymbolValue(g[0]).value, SymbolValue(g[1]).value, SymbolValue(g[2]).value, 0);
  }

  lemma FullGroup(g: seq<Byte>, last: bool)
    requires |g| == 4 && DecodedGroup(g, last).Some? && g[2] != PAD && g[3] != PAD
    ensures Chunk(DecodedGroup(g, last).value) == g
  {
    SymbolWrites(g[0]);
    SymbolWrites(g[1]);
    SymbolWrites(g[2]);
    SymbolWrites(g[3]);
    SextetsBack(SymbolValue(g[0]).value, SymbolValue(g[1]).value, SymbolValue(g[2]).value, SymbolValue(g[3]).value);
  }

  /** And the encoding undoes the decoding: a text decodes exactly if it is the
      encoding of something. */
  lemma {:induction false} EncodeDecode(t: seq<Byte>)
    requires Decoded(t).Some?
    ensures Encoded(Decoded(t).value) == t
  {
    if t != [] {
      var g, rest := DecodedGroup(t[..4], |t| == 4).value, Decoded(t[4..]).value;
      EncodeGroup(t[..4], |t| == 4);
      EncodeDecode(t[4..]);
      var x := Decoded(t).value;
      assert x == g + rest;
      if |t| > 4 {
        assert rest != [];
      }
      assert x[..|g|] == g && x[|g|..] == rest;
      Advance(x);
      assert t == t[..4] + t[4..];
    }
  }

  // --- the credential -----------------------------------------------------------------

  function Credential(id: seq<Byte>, secret: seq<Byte>): seq<Byte> {
    Encoded(FormEncoded(id) + [COLON] + FormEncoded(secret))
  }

  method BasicValue(id: seq<Byte>, secret: seq<Byte>) returns (out: seq<Byte>)
    ensures Recovered(out) == Some((id, secret))
  {
    var left := FormUrlencode(id);
    var right := FormUrlencode(secret);
    out := Base64(left + [COLON] + right);
    CredentialRoundTrip(id, secret);
  }

  function FindColon(s: seq<Byte>): (n: nat)
    ensures n <= |s| && (n < |s| ==> s[n] == COLON)
    ensures forall i :: 0 <= i < n ==> s[i] != COLON
  {
    if s == [] || s[0] == COLON then 0 else 1 + FindColon(s[1..])
  }

  /** What a server reads from the credential. */
  function Recovered(token: seq<Byte>): Option<(seq<Byte>, seq<Byte>)> {
    match Decoded(token)
    case None => None
    case Some(pair) =>
      var n := FindColon(pair);
      if n == |pair| then None
      else
        var id, secret := FormDecoded(pair[..n]), FormDecoded(pair[n + 1..]);
        if id.None? || secret.None? then None else Some((id.value, secret.value))
  }

  /** The credential carries exactly the client id and secret, for all byte strings:
      colons, percent signs, spaces and plus signs cannot move its boundary. */
  lemma CredentialRoundTrip(id: seq<Byte>, secret: seq<Byte>)
    ensures Recovered(Credential(id, secret)) == Some((id, secret))
  {
    var left, right := FormEncoded(id), FormEncoded(secret);
    var pair := left + [COLON] + right;
    DecodeEncode(pair);
    FormHasNoColon(id);
    SplitAtColon(left, right);
    FormDecodeWhole(id);
    FormDecodeWhole(secret);
  }

  lemma FormDecodeWhole(s: seq<Byte>)
    ensures FormDecoded(FormEncoded(s)) == Some(s)
  {
    FormDecodeEncode(s, []);
    assert FormEncoded(s) + [] == FormEncoded(s) && s + [] == s;
  }

  lemma SplitAtColon(left: seq<Byte>, right: seq<Byte>)
    requires COLON !in left
    ensures var pair := left + [COLON] + right;
            FindColon(pair) == |left| && pair[..|left|] == left && pair[|left| + 1..] == right
  {
    var pair := left + [COLON] + right;
    assert pair[|left|] == COLON;
    assert forall i :: 0 <= i < |left| ==> pair[i] == left[i] && pair[i] != COLON;
  }
}
