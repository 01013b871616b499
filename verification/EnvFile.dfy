/** Env-files: the printer and the parser of stored secrets
    (packages/operator-secrets/src/lib.rs). */
module EnvFile {
  import opened Text

  type Fields = seq<(string, string)>

  predicate IsValidKey(k: string) {
    k != "" && !IsDigit(k[0]) && forall c :: c in k ==> IsAlphanumeric(c) || c == '_'
  }

  // --- printing ---------------------------------------------------------------

  predicate IsBareSafe(v: string) {
    v != "" && forall c :: c in v ==> IsAlphanumeric(c) || c in "_-./:@+,=~"
  }

  predicate NeedsEscape(c: char) {
    c in "\\\"$`"
  }

  function Escaped(v: string): (e: string)
    ensures '\n' in e <==> '\n' in v
  {
    if v == "" then ""
    else
      assert v == [v[0]] + v[1..];
      (if NeedsEscape(v[0]) then ['\\', v[0]] else [v[0]]) + Escaped(v[1..])
  }

  function EncodedValue(v: string): (e: string)
    ensures e != "" && !IsSpace(e[0]) && !IsSpace(e[|e| - 1])
    ensures '\n' in e <==> '\n' in v
  {
    if IsBareSafe(v) then
      assert v[0] in v && v[|v| - 1] in v;
      v
    else "\"" + Escaped(v) + "\""
  }

  lemma EscapedStep(done: string, v: string, i: nat)
    requires i < |v|
    ensures done + Escaped(v[i..]) ==
            (if NeedsEscape(v[i]) then done + "\\" else done) + [v[i]] + Escaped(v[i + 1..])
  {
    assert v[i..][1..] == v[i + 1..];
  }

  method EncodeEnvValue(v: string) returns (out: string)
    ensures out == EncodedValue(v)
  {
    if IsBareSafe(v) {
      return v;
    }
    out := "\"";
    for i := 0 to |v|
      invariant out + Escaped(v[i..]) == "\"" + Escaped(v)
    {
      EscapedStep(out, v, i);
      if NeedsEscape(v[i]) {
        out := out + "\\";
      }
      out := out + [v[i]];
    }
    assert v[|v|..] == "" && out == out + Escaped(v[|v|..]);
    out := out + "\"";
  }

  function EncodedLine(f: (string, string)): string {
    f.0 + "=" + EncodedValue(f.1)
  }

  function Encoded(fields: Fields): (text: string)
    ensures Terminated(text)
  {
    if fields == [] then ""
    else Encoded(fields[..|fields| - 1]) + EncodedLine(fields[|fields| - 1]) + "\n"
  }

  lemma Regroup(done: string, k: string, v: string)
    ensures done + k + "=" + v + "\n" == done + (k + "=" + v) + "\n"
  {
    assert done + k + "=" + v == done + (k + "=" + v);
  }

  method EncodeEnvFile(fields: Fields) returns (out: string)
    ensures out == Encoded(fields)
  {
    out := "";
    for i := 0 to |fields|
      invariant out == Encoded(fields[..i])
    {
      var v := EncodeEnvValue(fields[i].1);
      assert fields[..i + 1][..i] == fields[..i];
      Regroup(out, fields[i].0, v);
      out := out + fields[i].0;
      out := out + "=";
      out := out + v;
      out := out + "\n";
    }
    assert fields[..|fields|] == fields;
  }

  // --- parsing ----------------------------------------------------------------

  function Unescaped(s: string): (r: string)
    ensures forall c :: c in r ==> c in s
  {
    if s == "" then ""
    else if s[0] == '\\' && |s| >= 2 then [s[1]] + Unescaped(s[2..])
    else [s[0]] + Unescaped(s[1..])
  }

  predicate Wrapped(v: string, quote: char) {
    |v| >= 2 && v[0] == quote && v[|v| - 1] == quote
  }

  function DecodedValue(v: string): (r: string)
    ensures forall c :: c in r ==> c in v
  {
    if Wrapped(v, '"') then Unescaped(v[1..|v| - 1])
    else if Wrapped(v, '\'') then v[1..|v| - 1]
    else v
  }

  lemma UnescapedStep(inner: string, i: nat)
    requires i < |inner|
    ensures Unescaped(inner[i..]) ==
            if inner[i] == '\\' && i + 1 < |inner| then [inner[i + 1]] + Unescaped(inner[i + 2..])
            else [inner[i]] + Unescaped(inner[i + 1..])
  {
    if i + 1 < |inner| {
      assert inner[i..][2..] == inner[i + 2..];
    }
    assert inner[i..][1..] == inner[i + 1..];
  }

  lemma Append(done: string, c: char, rest: string)
    ensures done + [c] + rest == done + ([c] + rest)
  {
  }

  /** The loop over the inside of a double-quoted value. */
  method UnescapeInner(inner: string) returns (out: string)
    ensures out == Unescaped(inner)
  {
    out := "";
    var i := 0;
    while i < |inner|
      invariant 0 <= i <= |inner|
      invariant out + Unescaped(inner[i..]) == Unescaped(inner)
    {
      UnescapedStep(inner, i);
      if inner[i] == '\\' && i + 1 < |inner| {
        Append(out, inner[i + 1], Unescaped(inner[i + 2..]));
        out := out + [inner[i + 1]];
        i := i + 2;
      } else {
        Append(out, inner[i], Unescaped(inner[i + 1..]));
        out := out + [inner[i]];
        i := i + 1;
      }
    }
    assert inner[i..] == "" && out == out + Unescaped(inner[i..]);
  }

  method DecodeEnvValue(v: string) returns (out: string)
    ensures out == DecodedValue(v)
  {
    if Wrapped(v, '"') {
      out := UnescapeInner(v[1..|v| - 1]);
    } else if Wrapped(v, '\'') {
      out := v[1..|v| - 1];
    } else {
      out := v;
    }
  }

  /** What one line of the file assigns, if anything. */
  function ParsedLine(raw: string): (r: Option<(string, string)>)
    ensures r.Some? ==> IsValidKey(r.value.0) && forall c :: c in r.value.1 ==> c in raw
  {
    var line := Trim(IsSpace, raw);
    if line == "" || line[0] == '#' then None
    else
      var n := Find(line, '=');
      if n == |line| then None
      else
        var k := Trim(IsSpace, line[..n]);
        if IsValidKey(k) then Some((k, DecodedValue(Trim(IsSpace, line[n + 1..])))) else None
  }

  function ParsedLines(lines: seq<string>): (m: map<string, string>)
    ensures forall k :: k in m ==> IsValidKey(k)
    ensures forall k, c :: k in m && c in m[k] ==> exists l :: l in lines && c in l
  {
    if lines == [] then map[]
    else
      var m := ParsedLines(lines[..|lines| - 1]);
      var last := lines[|lines| - 1];
      match ParsedLine(last)
      case None => m
      case Some((k, v)) => m[k := v]
  }

  function Parsed(text: string): map<string, string> {
    ParsedLines(Lines(text))
  }

  method ParseEnvFile(text: string) returns (out: map<string, string>)
    ensures out == Parsed(text)
  {
    var lines := Lines(text);
    out := map[];
    for i := 0 to |lines|
      invariant out == ParsedLines(lines[..i])
    {
      ParsedLinesSnoc(lines, i);
      var entry := ParseLine(lines[i]);
      if entry.Some? {
        out := out[entry.value.0 := entry.value.1];
      }
    }
    assert lines[..|lines|] == lines;
  }

  lemma ParsedLinesSnoc(lines: seq<string>, i: nat)
    requires i < |lines|
    ensures ParsedLines(lines[..i + 1]) ==
            match ParsedLine(lines[i])
            case None => ParsedLines(lines[..i])
            case Some((k, v)) => ParsedLines(lines[..i])[k := v]
  {
    assert lines[..i + 1][..i] == lines[..i];
  }

  /** The body of the loop: the assignment of one line, unless it is skipped. */
  method ParseLine(raw: string) returns (entry: Option<(string, string)>)
    ensures entry == ParsedLine(raw)
  {
    var line := Trim(IsSpace, raw);
    if line == "" || line[0] == '#' {
      return None;
    }
    var n := Find(line, '=');
    if n == |line| {
      return None;
    }
    var k := Trim(IsSpace, line[..n]);
    if !IsValidKey(k) {
      return None;
    }
    var v := DecodeEnvValue(Trim(IsSpace, line[n + 1..]));
    return Some((k, v));
  }

  // --- the parser undoes the printer --------------------------------------------

  /** The assignments of a field list; a repeated key keeps its last value. */
  function MapOf(fields: Fields): map<string, string> {
    if fields == [] then map[]
    else MapOf(fields[..|fields| - 1])[fields[|fields| - 1].0 := fields[|fields| - 1].1]
  }

  predicate Storable(fields: Fields) {
    forall f :: f in fields ==> IsValidKey(f.0) && '\n' !in f.1
  }

  lemma {:induction false} UnescapeEscape(v: string)
    ensures Unescaped(Escaped(v)) == v
  {
    if v != "" {
      var head := if NeedsEscape(v[0]) then ['\\', v[0]] else [v[0]];
      var e := Escaped(v);
      assert e[|head|..] == Escaped(v[1..]);
      UnescapeEscape(v[1..]);
      assert v == [v[0]] + v[1..];
    }
  }

  lemma DecodeEncode(v: string)
    ensures DecodedValue(EncodedValue(v)) == v
  {
    var e := EncodedValue(v);
    if IsBareSafe(v) {
      assert v[0] in v;
    } else {
      assert e[1..|e| - 1] == Escaped(v);
      UnescapeEscape(v);
    }
  }

  lemma KeyIsPlain(k: string)
    requires IsValidKey(k)
    ensures '=' !in k && '\n' !in k && Trimmed(IsSpace, k) && !IsSpace(k[0]) && k[0] != '#'
  {
    assert k[0] in k && k[|k| - 1] in k;
  }

  /** One printed line reads back as exactly the assignment it was printed for. */
  lemma LineRoundTrip(k: string, v: string)
    requires IsValidKey(k) && '\n' !in v
    ensures '\n' !in EncodedLine((k, v))
    ensures StripCr(EncodedLine((k, v))) == EncodedLine((k, v))
    ensures ParsedLine(EncodedLine((k, v))) == Some((k, v))
  {
    var e := EncodedValue(v);
    var line := k + ['='] + e;
    KeyIsPlain(k);
    assert EncodedLine((k, v)) == line;
    assert line[0] == k[0] && line[|line| - 1] == e[|e| - 1];
    assert Trimmed(IsSpace, line);
    assert StripCr(line) == line by { assert IsSpace('\r'); }
    FindAt(k, '=', e);
    assert line[..|k|] == k;
    assert line[|k| + 1..] == e;
    DecodeEncode(v);
  }

  /** The parser inverts the printer on every list of valid keys and
      newline-free values, quotes, backslashes, `=`, `#` and edge spaces included. */
  lemma {:induction false} ParseEncoded(fields: Fields)
    requires Storable(fields)
    ensures Parsed(Encoded(fields)) == MapOf(fields)
    ensures |Lines(Encoded(fields))| == |fields|
  {
    if fields != [] {
      var init, last := fields[..|fields| - 1], fields[|fields| - 1];
      ParseEncoded(init);
      LineRoundTrip(last.0, last.1);
      LinesSnoc(Encoded(init), EncodedLine(last));
      var lines := Lines(Encoded(init)) + [EncodedLine(last)];
      assert Lines(Encoded(fields)) == lines;
      assert lines[..|lines| - 1] == Lines(Encoded(init));
    }
  }

  predicate DistinctKeys(fields: Fields) {
    forall i, j :: 0 <= i < j < |fields| ==> fields[i].0 != fields[j].0
  }

  lemma {:induction false} MapOfAt(fields: Fields, i: nat)
    requires i < |fields| && DistinctKeys(fields)
    ensures fields[i].0 in MapOf(fields) && MapOf(fields)[fields[i].0] == fields[i].1
  {
    if i < |fields| - 1 {
      MapOfAt(fields[..|fields| - 1], i);
    }
  }

  /** A value with a newline never survives: newline-free values are exactly the
      ones that can be stored. */
  lemma RoundTripExactly(fields: Fields)
    requires DistinctKeys(fields) && forall f :: f in fields ==> IsValidKey(f.0)
    ensures Parsed(Encoded(fields)) == MapOf(fields) <==> forall f :: f in fields ==> '\n' !in f.1
  {
    if forall f :: f in fields ==> '\n' !in f.1 {
      ParseEncoded(fields);
    } else {
      var i :| 0 <= i < |fields| && '\n' in fields[i].1;
      MapOfAt(fields, i);
      ParsedIsStorable(Encoded(fields));
    }
  }

  lemma ParsedIsStorable(text: string)
    ensures forall k :: k in Parsed(text) ==> IsValidKey(k) && '\n' !in Parsed(text)[k]
  {
  }

  /** Rewriting a parsed file, in any order of its keys, changes nothing. */
  lemma RewriteParsed(text: string, fields: Fields)
    requires DistinctKeys(fields) && MapOf(fields) == Parsed(text)
    ensures Parsed(Encoded(fields)) == Parsed(text)
  {
    forall f | f in fields
      ensures IsValidKey(f.0) && '\n' !in f.1
    {
      var i :| 0 <= i < |fields| && fields[i] == f;
      MapOfAt(fields, i);
      ParsedIsStorable(text);
    }
    ParseEncoded(fields);
  }
}
