/** Text as the programs see it: sequences of Unicode scalar values, with the
    few library operations the models rely on. */
module Text {

  datatype Option<+T> = None | Some(value: T)

  /** The Unicode White_Space property, which Rust's `trim` strips. */
  predicate IsSpace(c: char) {
    var n := c as int;
    || 9 <= n <= 13 || n == 32 || n == 0x85 || n == 0xA0 || n == 0x1680 || 0x2000 <= n <= 0x200A
    || n == 0x2028 || n == 0x2029 || n == 0x202F || n == 0x205F || n == 0x3000
  }

  /** What JavaScript's `trim` strips: no U+0085, but the byte order mark. */
  predicate IsScriptSpace(c: char) {
    (IsSpace(c) && c as int != 0x85) || c as int == 0xFEFF
  }

  predicate IsControl(c: char) {
    c as int < 0x20 || 0x7F <= c as int < 0xA0
  }

  predicate IsDigit(c: char) {
    '0' <= c <= '9'
  }

  predicate IsAlphanumeric(c: char) {
    IsDigit(c) || 'a' <= c <= 'z' || 'A' <= c <= 'Z'
  }

  predicate Trimmed(space: char -> bool, s: string) {
    s != "" ==> !space(s[0]) && !space(s[|s| - 1])
  }

  function Trim(space: char -> bool, s: string): (r: string)
    ensures Trimmed(space, r)
    ensures forall c :: c in r ==> c in s
    ensures r == s <==> Trimmed(space, s)
    ensures |r| <= |s|
  {
    if s == "" then s
    else if space(s[0]) then Trim(space, s[1..])
    else if space(s[|s| - 1]) then Trim(space, s[..|s| - 1])
    else s
  }

  /** The index of the first `c`, or the length when there is none. */
  function Find(s: string, c: char): (n: nat)
    ensures n <= |s| && c !in s[..n]
    ensures forall i :: 0 <= i < n ==> s[i] != c
    ensures n < |s| ==> s[n] == c
    ensures n == |s| <==> c !in s
  {
    if s == "" || s[0] == c then 0
    else
      assert s == [s[0]] + s[1..];
      1 + Find(s[1..], c)
  }

  lemma FindAt(s: string, c: char, rest: string)
    requires c !in s
    ensures Find(s + [c] + rest, c) == |s|
  {
    var t := s + [c] + rest;
    assert t[|s|] == c;
    assert forall i :: 0 <= i < |s| ==> t[i] == s[i] && t[i] != c;
  }

  function StripCr(line: string): string {
    if line != "" && line[|line| - 1] == '\r' then line[..|line| - 1] else line
  }

  /** Rust's `str::lines`: split at newlines, drop one trailing carriage return
      of every terminated line, and no empty line after the last newline. */
  function Lines(text: string): (lines: seq<string>)
    ensures forall l :: l in lines ==> '\n' !in l
  {
    if text == "" then []
    else
      var n := Find(text, '\n');
      if n == |text| then [text] else [StripCr(text[..n])] + Lines(text[n + 1..])
  }

  predicate Terminated(text: string) {
    text == "" || text[|text| - 1] == '\n'
  }

  lemma LinesFirst(line: string, rest: string)
    requires '\n' !in line
    ensures Lines(line + ['\n'] + rest) == [StripCr(line)] + Lines(rest)
  {
    var all := line + ['\n'] + rest;
    FindAt(line, '\n', rest);
    assert all[..|line|] == line;
    assert all[|line| + 1..] == rest;
  }

  lemma GroupEnd(a: string, b: string, c: string)
    ensures a + b + c == a + (b + c)
  {
  }

  lemma FirstLine(text: string)
    requires text != "" && Terminated(text)
    ensures var n := Find(text, '\n');
            n < |text| && text == text[..n] + ['\n'] + text[n + 1..] && Terminated(text[n + 1..])
  {
    assert text[|text| - 1] in text;
    SplitAt(text, Find(text, '\n'));
  }

  lemma SplitAt(text: string, n: nat)
    requires n < |text|
    ensures text == text[..n] + [text[n]] + text[n + 1..]
    ensures text[n + 1..] != "" ==> text[n + 1..][|text| - n - 2] == text[|text| - 1]
  {
  }

  lemma LinesSnoc(text: string, line: string)
    requires Terminated(text) && '\n' !in line
    ensures Lines(text + line + "\n") == Lines(text) + [StripCr(line)]
  {
    LinesEnd(text, line);
    GroupEnd(text, line, "\n");
  }

  lemma {:induction false} LinesEnd(text: string, line: string)
    requires Terminated(text) && '\n' !in line
    ensures Lines(text + (line + ['\n'])) == Lines(text) + [StripCr(line)]
    decreases |text|
  {
    var end := line + ['\n'];
    if text == "" {
      assert text + end == line + ['\n'] + "";
      LinesFirst(line, "");
    } else {
      FirstLine(text);
      var n := Find(text, '\n');
      LinesEnd(text[n + 1..], line);
      LinesAfterFirst(text[..n], text[n + 1..], end, StripCr(line));
      GroupEnd(text[..n] + ['\n'], text[n + 1..], end);
    }
  }

  lemma LinesAfterFirst(first: string, rest: string, end: string, last: string)
    requires '\n' !in first && Lines(rest + end) == Lines(rest) + [last]
    ensures Lines(first + ['\n'] + (rest + end)) == Lines(first + ['\n'] + rest) + [last]
  {
    LinesFirst(first, rest + end);
    LinesFirst(first, rest);
    Longer(StripCr(first), Lines(rest), last);
  }

  lemma Longer(first: string, lines: seq<string>, last: string)
    ensures [first] + (lines + [last]) == [first] + lines + [last]
  {
  }
}
