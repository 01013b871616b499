/** Redaction of field values from a validator's diagnostics
    (packages/operator-secrets/src/bin/daemon.rs). */
module Redaction {
  import opened EnvFile

  const OPENING := '\U{00AB}'
  const CLOSING := '\U{00BB}'
  const WORD := "redacted"
  const MARK := [OPENING] + WORD + [CLOSING]

  predicate StartsWith(text: string, v: string) {
    |v| <= |text| && text[..|v|] == v
  }

  predicate Occurs(v: string, text: string) {
    exists i :: 0 <= i <= |text| && StartsWith(text[i..], v)
  }

  /** Rust's `str::replace`: leftmost occurrences, not overlapping. */
  function Replaced(text: string, v: string): string
    requires v != ""
  {
    if text == "" then ""
    else if StartsWith(text, v) then MARK + Replaced(text[|v|..], v)
    else [text[0]] + Replaced(text[1..], v)
  }

  /** One round of the loop: values shorter than four characters are left alone. */
  function RedactedOne(text: string, v: string): string {
    if |v| >= 4 && Occurs(v, text) then Replaced(text, v) else text
  }

  function Redacted(text: string, values: Fields): string {
    if values == [] then text
    else RedactedOne(Redacted(text, values[..|values| - 1]), values[|values| - 1].1)
  }

  method RedactValues(text: string, values: Fields) returns (out: string)
    ensures out == Redacted(text, values)
  {
    out := text;
    for i := 0 to |values|
      invariant out == Redacted(text, values[..i])
    {
      assert values[..i + 1][..i] == values[..i];
      var v := values[i].1;
      if |v| >= 4 && Occurs(v, out) {
        out := Replaced(out, v);
      }
    }
    assert values[..|values|] == values;
  }

  // --- nothing long survives ---------------------------------------------------------

  predicate Unmarked(v: string) {
    OPENING !in v && CLOSING !in v
  }

  /** Put `k` characters after the beginning of a mark, the string differs from it in
      some character that they share. */
  predicate Clashes(w: string, k: int) {
    exists j :: 0 <= j < |w| && 0 <= j + k < |MARK| && w[j] != MARK[j + k]
  }

  /** The string cannot share any part of an occurrence with a mark. */
  predicate Apart(w: string) {
    forall k :: -|w| < k < |MARK| ==> Clashes(w, k)
  }

  lemma OccursLater(v: string, text: string, more: nat)
    requires more <= |text| && Occurs(v, text[more..])
    ensures Occurs(v, text)
  {
    var i :| 0 <= i <= |text[more..]| && StartsWith(text[more..][i..], v);
    assert text[more..][i..] == text[more + i..];
  }

  /** A string without the marks themselves is apart from them unless it is a part of
      the word between them. */
  lemma UnmarkedApart(w: string)
    requires Unmarked(w) && !Occurs(w, WORD)
    ensures Apart(w)
  {
    assert |WORD| == 8 && |MARK| == 10 && MARK[0] == OPENING && MARK[9] == CLOSING;
    forall k | -|w| < k < |MARK|
      ensures Clashes(w, k)
    {
      if k <= 0 {
        assert w[-k] in w && w[-k] != MARK[-k + k];
      } else if k + |w| >= |MARK| {
        assert w[9 - k] in w && w[9 - k] != MARK[9 - k + k];
      } else {
        InsideClashes(w, k);
      }
    }
  }

  lemma InsideClashes(w: string, k: int)
    requires 0 < k && k + |w| < |MARK| && !Occurs(w, WORD)
    ensures Clashes(w, k)
  {
    assert |WORD| == 8 && |MARK| == 10;
    assert forall j :: 0 <= j < 8 ==> WORD[j] == MARK[j + 1];
    assert !StartsWith(WORD[k - 1..], w);
    var piece := WORD[k - 1..][..|w|];
    var j :| 0 <= j < |w| && piece[j] != w[j];
    assert piece[j] == MARK[j + k];
  }

  /** What begins inside a mark clashes with it. */
  lemma NotInMark(w: string, rest: string, i: nat)
    requires i < |MARK| && w != "" && Apart(w)
    ensures !StartsWith((MARK + rest)[i..], w)
  {
    var t := (MARK + rest)[i..];
    assert Clashes(w, i);
    var j :| 0 <= j < |w| && 0 <= j + i < |MARK| && w[j] != MARK[j + i];
    assert |w| <= |t| ==> t[..|w|][j] == MARK[j + i];
  }

  /** Nor can the rest of a string, of which `m` characters are there, begin with a mark. */
  lemma NotBeforeMark(w: string, rest: string, m: nat)
    requires m < |w| && Apart(w)
    ensures !StartsWith(MARK + rest, w[m..])
  {
    var k: int := 0 - m;
    var t := MARK + rest;
    assert Clashes(w, k);
    var j :| 0 <= j < |w| && 0 <= j + k < |MARK| && w[j] != MARK[j + k];
    assert w[m..][j + k] == w[j];
    assert |w| - m <= |t| ==> t[..|w| - m][j + k] == MARK[j + k];
  }

  /** The rest of a string that follows in a redacted text followed in the original. */
  lemma {:induction false} RestKept(text: string, v: string, w: string, m: nat)
    requires v != "" && m <= |w| && Apart(w) && StartsWith(Replaced(text, v), w[m..])
    ensures StartsWith(text, w[m..])
    decreases |w| - m
  {
    if m < |w| {
      if StartsWith(text, v) {
        NotBeforeMark(w, Replaced(text[|v|..], v), m);
      } else {
        var out, rest := Replaced(text, v), Replaced(text[1..], v);
        assert out == [text[0]] + rest && w[m..] == [w[m]] + w[m + 1..];
        assert out[..|w| - m][0] == w[m] && out[..|w| - m][1..] == rest[..|w| - m - 1];
        RestKept(text[1..], v, w, m + 1);
        assert text == [text[0]] + text[1..];
      }
    }
  }

  /** Replacing one value lets no other string that is apart from the marks appear: what
      occurs afterwards occurred before, and the replaced value does not. */
  lemma {:induction false} NothingAppears(text: string, v: string, w: string)
    requires v != "" && w != "" && Apart(w) && Occurs(w, Replaced(text, v))
    ensures Occurs(w, text) && w != v
  {
    var out := Replaced(text, v);
    var i :| 0 <= i <= |out| && StartsWith(out[i..], w);
    assert |out[i..]| >= |w| > 0;
    if StartsWith(text, v) {
      var rest := Replaced(text[|v|..], v);
      if i < |MARK| {
        NotInMark(w, rest, i);
      } else {
        assert out[i..] == rest[i - |MARK|..];
        assert Occurs(w, rest);
        NothingAppears(text[|v|..], v, w);
        OccursLater(w, text, |v|);
      }
    } else {
      var rest := Replaced(text[1..], v);
      if i > 0 {
        assert out[i..] == rest[i - 1..];
        assert Occurs(w, rest);
        NothingAppears(text[1..], v, w);
        OccursLater(w, text, 1);
      } else {
        assert out[0..] == out && w[0..] == w;
        RestKept(text, v, w, 0);
        assert text[0..] == text;
      }
    }
  }

  predicate Long(v: string) {
    |v| >= 4
  }

  predicate Clean(text: string, values: Fields) {
    forall f :: f in values && Long(f.1) ==> !Occurs(f.1, text)
  }

  /** However the values overlap, none of four or more characters that is apart from the
      marks is left. */
  lemma {:induction false} RedactedIsClean(text: string, values: Fields)
    requires forall f :: f in values && Long(f.1) ==> Apart(f.1)
    ensures Clean(Redacted(text, values), values)
  {
    if values != [] {
      var init, v := values[..|values| - 1], values[|values| - 1].1;
      assert values == init + [values[|values| - 1]];
      RedactedIsClean(text, init);
      var before, out := Redacted(text, init), Redacted(text, values);
      forall f | f in values && Long(f.1)
        ensures !Occurs(f.1, out)
      {
        if Long(v) && Occurs(v, before) && Occurs(f.1, out) {
          NothingAppears(before, v, f.1);
        }
      }
    }
  }

  // --- and exactly when ------------------------------------------------------------------

  lemma {:induction false} MarkAppears(text: string, v: string)
    requires v != "" && Occurs(v, text)
    ensures Occurs(MARK, Replaced(text, v))
  {
    if StartsWith(text, v) {
      var rest := Replaced(text[|v|..], v);
      assert (MARK + rest)[0..] == MARK + rest && StartsWith(MARK + rest, MARK);
    } else {
      var i :| 0 <= i <= |text| && StartsWith(text[i..], v);
      assert text[0..] == text && i > 0;
      assert text[1..][i - 1..] == text[i..];
      assert Occurs(v, text[1..]);
      MarkAppears(text[1..], v);
      var rest := Replaced(text[1..], v);
      assert ([text[0]] + rest)[1..] == rest;
      OccursLater(MARK, [text[0]] + rest, 1);
    }
  }

  lemma {:induction false} UnchangedOrMarked(text: string, values: Fields)
    ensures Redacted(text, values) == text || Occurs(MARK, Redacted(text, values))
    ensures (exists f :: f in values && Long(f.1) && f.1 == text) ==> Occurs(MARK, Redacted(text, values))
  {
    if values != [] {
      var init, v := values[..|values| - 1], values[|values| - 1].1;
      assert values == init + [values[|values| - 1]];
      UnchangedOrMarked(text, init);
      var before := Redacted(text, init);
      if Long(v) && Occurs(v, before) {
        MarkAppears(before, v);
      }
      if v == text {
        assert text[0..] == text;
        assert Occurs(v, text);
      }
    }
  }

  lemma OccursTrans(a: string, b: string, c: string)
    requires Occurs(a, b) && Occurs(b, c)
    ensures Occurs(a, c)
  {
    var i :| 0 <= i <= |b| && StartsWith(b[i..], a);
    var j :| 0 <= j <= |c| && StartsWith(c[j..], b);
    PartOfPart(a, b, c, i, j);
    assert StartsWith(c[i + j..], a);
  }

  lemma PartOfPart(a: string, b: string, c: string, i: nat, j: nat)
    requires i <= |b| && StartsWith(b[i..], a) && j <= |c| && StartsWith(c[j..], b)
    ensures i + j <= |c| && StartsWith(c[i + j..], a)
  {
    forall x | 0 <= x < |a|
      ensures i + j + x < |c| && c[i + j..][x] == a[x]
    {
      assert a[x] == b[i..][x] && b[i + x] == c[j..][i + x];
    }
  }

  /** A long value that is a part of the mark survives, whatever other values there are. */
  lemma PartOfMarkSurvives(values: Fields, f: (string, string))
    requires f in values && Long(f.1) && Occurs(f.1, MARK)
    ensures !Clean(Redacted(f.1, values), values)
  {
    UnchangedOrMarked(f.1, values);
    OccursTrans(f.1, MARK, Redacted(f.1, values));
  }

  /** For values that do not reach over an edge of a mark: whatever the text, and however
      they overlap, none of four or more characters is left in it; exactly if none of
      them is part of the mark. */
  lemma RedactsExactly(values: Fields)
    requires forall f :: f in values && Long(f.1) ==> Apart(f.1) || Occurs(f.1, MARK)
    ensures (forall text :: Clean(Redacted(text, values), values)) <==>
            forall f :: f in values && Long(f.1) ==> !Occurs(f.1, MARK)
  {
    if forall f :: f in values && Long(f.1) ==> !Occurs(f.1, MARK) {
      forall text
        ensures Clean(Redacted(text, values), values)
      {
        RedactedIsClean(text, values);
      }
    } else {
      var f :| f in values && Long(f.1) && Occurs(f.1, MARK);
      PartOfMarkSurvives(values, f);
    }
  }

  /** In particular for all values without the marks themselves: exactly if none of them
      is part of the word between them. */
  lemma UnmarkedRedactExactly(values: Fields)
    requires forall f :: f in values && Long(f.1) ==> Unmarked(f.1)
    ensures (forall text :: Clean(Redacted(text, values), values)) <==>
            forall f :: f in values && Long(f.1) ==> !Occurs(f.1, WORD)
  {
    WordInMark();
    forall f | f in values && Long(f.1)
      ensures Occurs(f.1, MARK) <==> Occurs(f.1, WORD)
      ensures Apart(f.1) || Occurs(f.1, MARK)
    {
      if Occurs(f.1, WORD) {
        OccursTrans(f.1, WORD, MARK);
      } else {
        UnmarkedApart(f.1);
        NotPartOfMark(f.1);
      }
    }
    RedactsExactly(values);
  }

  lemma WordInMark()
    ensures Occurs(WORD, MARK)
  {
    assert MARK[1..][..|WORD|] == WORD;
    assert StartsWith(MARK[1..], WORD);
  }

  lemma NotPartOfMark(w: string)
    requires w != "" && Apart(w)
    ensures !Occurs(w, MARK)
  {
    assert MARK + "" == MARK;
    forall i | 0 <= i <= |MARK|
      ensures !StartsWith(MARK[i..], w)
    {
      if i < |MARK| {
        NotInMark(w, "", i);
      }
    }
  }

  // --- one value, exactly ----------------------------------------------------------------

  predicate NoMatchBefore(text: string, v: string, n: nat) {
    forall i :: 0 <= i < n && i <= |text| ==> !StartsWith(text[i..], v)
  }

  /** The leftmost occurrence of the value. */
  predicate MatchesFirstAt(text: string, v: string, n: nat) {
    n <= |text| && StartsWith(text[n..], v) && NoMatchBefore(text, v, n)
  }

  lemma {:induction false} ReplacedAt(text: string, v: string, n: nat)
    requires v != "" && MatchesFirstAt(text, v, n)
    ensures n + |v| <= |text|
    ensures Replaced(text, v) == text[..n] + MARK + Replaced(text[n..][|v|..], v)
  {
    assert text[0..] == text;
    if n == 0 {
      HereReplaced(text, v);
      assert text[..0] + MARK == MARK;
    } else {
      assert !StartsWith(text[0..], v);
      Shifted(text, v, n);
      ReplacedAt(text[1..], v, n - 1);
      NotHereReplaced(text, v);
      assert text[1..][n - 1..] == text[n..];
      OneCharOn(text, n, MARK, Replaced(text[n..][|v|..], v));
    }
  }

  lemma HereReplaced(text: string, v: string)
    requires v != "" && StartsWith(text, v)
    ensures |v| <= |text| && Replaced(text, v) == MARK + Replaced(text[|v|..], v)
  {
  }

  lemma NotHereReplaced(text: string, v: string)
    requires v != "" && text != "" && !StartsWith(text, v)
    ensures Replaced(text, v) == [text[0]] + Replaced(text[1..], v)
  {
  }

  lemma OneCharOn(text: string, n: nat, mid: string, rest: string)
    requires 0 < n <= |text|
    ensures [text[0]] + (text[1..][..n - 1] + mid + rest) == text[..n] + mid + rest
  {
    assert text[..n] == [text[0]] + text[1..][..n - 1];
  }

  lemma Shifted(text: string, v: string, n: nat)
    requires n > 0 && MatchesFirstAt(text, v, n)
    ensures text != "" && MatchesFirstAt(text[1..], v, n - 1)
  {
    assert text[1..][n - 1..] == text[n..];
    forall i | 0 <= i < n - 1
      ensures !StartsWith(text[1..][i..], v)
    {
      assert text[1..][i..] == text[i + 1..];
    }
  }

  lemma {:induction false} ReplacedNone(text: string, v: string)
    requires v != "" && !Occurs(v, text)
    ensures Replaced(text, v) == text
  {
    if text != "" {
      assert text[0..] == text && !StartsWith(text[0..], v);
      forall i | 0 <= i <= |text[1..]|
        ensures !StartsWith(text[1..][i..], v)
      {
        assert text[1..][i..] == text[i + 1..];
      }
      ReplacedNone(text[1..], v);
      assert text == [text[0]] + text[1..];
    }
  }

  lemma ShortDoesNotMatch(text: string, v: string)
    requires |text| < |v|
    ensures !Occurs(v, text)
  {
  }

  /** Put `k` characters after the beginning of a mark, the value agrees with it; and if it
      begins before the mark, the text before the mark does not make an earlier match. */
  predicate Revives(v: string, k: int) {
    && -|v| < k < |MARK| && !Clashes(v, k)
    && (k < 0 ==> MatchesFirstAt(v[..-k] + v, v, -k))
  }

  lemma Agrees(v: string, k: int, j: nat)
    requires !Clashes(v, k) && j < |v| && 0 <= j + k < |MARK|
    ensures v[j] == MARK[j + k]
  {
  }

  /** A value that begins inside the mark that replaces it comes back with what follows. */
  lemma RevivedAfter(v: string, k: int)
    requires v != "" && Revives(v, k) && k >= 0
    ensures exists text :: Occurs(v, Replaced(text, v))
  {
    var l := if |v| <= |MARK| - k then |v| else |MARK| - k;
    var rest := v[l..];
    var text := v + rest;
    assert text[0..] == text && MatchesFirstAt(text, v, 0);
    ReplacedAt(text, v, 0);
    assert text[0..][|v|..] == rest && text[..0] + MARK == MARK;
    ShortDoesNotMatch(rest, v);
    ReplacedNone(rest, v);
    TailComesBack(v, k, l);
  }

  lemma TailComesBack(v: string, k: nat, l: nat)
    requires v != "" && k < |MARK| && !Clashes(v, k) && l == if |v| <= |MARK| - k then |v| else |MARK| - k
    ensures Occurs(v, MARK + v[l..])
  {
    var out := MARK + v[l..];
    forall j | 0 <= j < |v|
      ensures out[k..][..|v|][j] == v[j]
    {
      if j < l {
        Agrees(v, k, j);
      }
    }
    assert out[k..][..|v|] == v;
    assert StartsWith(out[k..], v);
  }

  /** One that begins before it comes back with what precedes. */
  lemma RevivedBefore(v: string, k: int)
    requires v != "" && Revives(v, k) && k < 0
    ensures exists text :: Occurs(v, Replaced(text, v))
  {
    var n := -k;
    var l := if |v| - n <= |MARK| then |v| - n else |MARK|;
    var head, rest := v[..n], v[n + l..];
    LongerText(head + v, rest, v, n);
    AroundMatch(head, v, rest);
    HeadComesBack(v, n, l);
    assert Occurs(v, Replaced(head + v + rest, v));
  }

  lemma AroundMatch(head: string, v: string, rest: string)
    requires v != "" && MatchesFirstAt(head + v + rest, v, |head|) && |rest| < |v|
    ensures Replaced(head + v + rest, v) == head + MARK + rest
  {
    var text := head + v + rest;
    ReplacedAt(text, v, |head|);
    assert text[|head|..][|v|..] == rest && text[..|head|] == head;
    ShortDoesNotMatch(rest, v);
    ReplacedNone(rest, v);
  }

  lemma HeadComesBack(v: string, n: nat, l: nat)
    requires n < |v| && !Clashes(v, 0 - n) && l == if |v| - n <= |MARK| then |v| - n else |MARK|
    ensures Occurs(v, v[..n] + MARK + v[n + l..])
  {
    var out := v[..n] + MARK + v[n + l..];
    forall j | 0 <= j < |v|
      ensures out[0..][..|v|][j] == v[j]
    {
      if n <= j < n + l {
        Agrees(v, 0 - n, j);
      }
    }
    assert out[0..][..|v|] == v;
    assert StartsWith(out[0..], v);
  }

  lemma LongerText(text: string, rest: string, v: string, n: nat)
    requires MatchesFirstAt(text, v, n) && n + |v| == |text|
    ensures MatchesFirstAt(text + rest, v, n)
  {
    var all := text + rest;
    assert all[n..][..|v|] == text[n..][..|v|];
    forall i | 0 <= i < n
      ensures !StartsWith(all[i..], v)
    {
      assert !StartsWith(text[i..], v);
      assert all[i..][..|v|] == text[i..][..|v|];
    }
  }

  /** And there is no other way to come back. */
  lemma {:induction false} OnlyRevived(text: string, v: string)
    requires v != "" && Occurs(v, Replaced(text, v))
    ensures exists k :: Revives(v, k)
  {
    var out := Replaced(text, v);
    var i :| 0 <= i <= |out| && StartsWith(out[i..], v);
    if StartsWith(text, v) {
      var rest := Replaced(text[|v|..], v);
      if i < |MARK| {
        InMark(v, rest, i);
      } else {
        PastFront(MARK, rest, i);
        OnlyRevived(text[|v|..], v);
      }
    } else if i > 0 {
      var rest := Replaced(text[1..], v);
      PastFront([text[0]], rest, i);
      OnlyRevived(text[1..], v);
    } else {
      assert out[0..] == out;
      AtStart(text, v);
    }
  }

  lemma PastFront(front: string, rest: string, i: nat)
    requires |front| <= i <= |front + rest|
    ensures (front + rest)[i..] == rest[i - |front|..]
  {
  }

  lemma InMark(v: string, rest: string, i: nat)
    requires v != "" && i < |MARK| && StartsWith((MARK + rest)[i..], v)
    ensures Revives(v, i)
  {
    var t := (MARK + rest)[i..];
    forall j | 0 <= j < |v| && 0 <= j + i < |MARK|
      ensures v[j] == MARK[j + i]
    {
      assert t[..|v|][j] == (MARK + rest)[j + i];
    }
  }

  lemma StartedWith(text: string, v: string)
    requires v != "" && StartsWith(Replaced(text, v), v)
    ensures Occurs(v, text)
  {
    assert text[0..] == text;
    if !Occurs(v, text) {
      ReplacedNone(text, v);
    }
  }

  lemma AtStart(text: string, v: string)
    requires v != "" && !StartsWith(text, v) && StartsWith(Replaced(text, v), v)
    ensures exists k :: Revives(v, k)
  {
    StartedWith(text, v);
    FirstStraddles(text, v, FirstMatch(text, v));
  }

  lemma FirstStraddles(text: string, v: string, n: nat)
    requires v != "" && !StartsWith(text, v) && StartsWith(Replaced(text, v), v) && MatchesFirstAt(text, v, n)
    ensures Revives(v, 0 - n)
  {
    ReplacedAt(text, v, n);
    HeadMatches(text, v, n);
    assert text[0..] == text;
    Straddles(text, v, n, Replaced(text[n..][|v|..], v));
  }

  lemma Straddles(text: string, v: string, n: nat, rest: string)
    requires 0 < n <= |text| && !StartsWith(text, v) && StartsWith(text[..n] + MARK + rest, v)
    requires MatchesFirstAt(text[..n] + v, v, n)
    ensures Revives(v, 0 - n)
  {
    var out := text[..n] + MARK + rest;
    var k: int := 0 - n;
    forall j | 0 <= j < |v| && 0 <= j + k < |MARK|
      ensures v[j] == MARK[j + k]
    {
      assert out[..|v|][j] == MARK[j - n];
    }
    assert v[..n] == out[..|v|][..n] == text[..n];
  }

  function FirstMatch(text: string, v: string): (n: nat)
    requires v != "" && Occurs(v, text)
    ensures MatchesFirstAt(text, v, n)
  {
    if StartsWith(text, v) then
      assert text[0..] == text;
      0
    else
      var i :| 0 <= i <= |text| && StartsWith(text[i..], v);
      assert text[0..] == text && i > 0 && text[1..][i - 1..] == text[i..];
      var n := FirstMatch(text[1..], v);
      MatchOneOn(text, v, n);
      n + 1
  }

  lemma MatchOneOn(text: string, v: string, n: nat)
    requires text != "" && !StartsWith(text, v) && MatchesFirstAt(text[1..], v, n)
    ensures MatchesFirstAt(text, v, n + 1)
  {
    assert text[1..][n..] == text[n + 1..];
    forall i | 0 <= i < n + 1
      ensures !StartsWith(text[i..], v)
    {
      if i == 0 {
        assert text[0..] == text;
      } else {
        assert text[1..][i - 1..] == text[i..];
      }
    }
  }

  /** The head of a text, up to the end of its first match. */
  lemma HeadMatches(text: string, v: string, n: nat)
    requires MatchesFirstAt(text, v, n)
    ensures MatchesFirstAt(text[..n] + v, v, n)
  {
    var head := text[..n] + v;
    assert n + |v| <= |text| && head == text[..n + |v|] by {
      assert text[n..][..|v|] == v;
    }
    assert head[n..] == v && v[..|v|] == v;
    forall i | 0 <= i < n
      ensures !StartsWith(head[i..], v)
    {
      assert !StartsWith(text[i..], v);
      assert |head[i..]| >= |v| ==> head[i..][..|v|] == text[i..][..|v|];
    }
  }

  /** One value, whatever it is: every text comes out without it exactly if it cannot
      revive around the mark that replaces it. */
  lemma OneValueExactly(name: string, v: string)
    requires Long(v)
    ensures (forall text :: Clean(Redacted(text, [(name, v)]), [(name, v)])) <==> forall k :: !Revives(v, k)
  {
    if k :| Revives(v, k) {
      if k < 0 {
        RevivedBefore(v, k);
      } else {
        RevivedAfter(v, k);
      }
      var text :| Occurs(v, Replaced(text, v));
      OneRedacted(text, name, v);
    } else {
      forall text
        ensures Clean(Redacted(text, [(name, v)]), [(name, v)])
      {
        OneRedacted(text, name, v);
        if Occurs(v, Replaced(text, v)) {
          OnlyRevived(text, v);
        }
      }
    }
  }

  lemma OneRedacted(text: string, name: string, v: string)
    requires Long(v)
    ensures Redacted(text, [(name, v)]) == Replaced(text, v)
    ensures Clean(Redacted(text, [(name, v)]), [(name, v)]) <==> !Occurs(v, Replaced(text, v))
  {
    var values := [(name, v)];
    assert values[..0] == [] && Redacted(text, []) == text;
    if !Occurs(v, text) {
      ReplacedNone(text, v);
    }
    assert values[0] in values;
  }

  /** A value that reaches over an edge of the mark, and survives. */
  lemma EdgeValueSurvives(name: string)
    ensures exists text :: !Clean(Redacted(text, [(name, "ab\U{00AB}r")]), [(name, "ab\U{00AB}r")])
  {
    var v := "ab\U{00AB}r";
    var t := v[..2] + v;
    assert t[2..] == v && v[..4] == v;
    assert t == ['a', 'b', 'a', 'b', OPENING, 'r'];
    forall i | 0 <= i < 2
      ensures !StartsWith(t[i..], v)
    {
      assert t[i..][2] != v[2];
    }
    assert MatchesFirstAt(t, v, 2);
    assert MARK[0] == OPENING && MARK[1] == 'r';
    assert Revives(v, -2);
    OneValueExactly(name, v);
  }

  /** One that does, and never comes back: the text before it would match first. */
  lemma DoubledMarkIsClean(name: string, text: string)
    ensures var v := [OPENING, OPENING, OPENING, OPENING];
            Clean(Redacted(text, [(name, v)]), [(name, v)])
  {
    var v := [OPENING, OPENING, OPENING, OPENING];
    assert |WORD| == 8 && |MARK| == 10 && MARK[9] == CLOSING && OPENING !in WORD;
    forall k
      ensures !Revives(v, k)
    {
      if -4 < k < 0 {
        var t := v[..-k] + v;
        assert t[0..][..4] == v;
        assert StartsWith(t[0..], v);
      } else if 0 <= k < 9 {
        var j: int := if k == 0 then 1 else 0;
        assert MARK[j + k] == WORD[j + k - 1] && WORD[j + k - 1] in WORD;
        assert v[j] != MARK[j + k];
      } else if k == 9 {
        assert v[0] != MARK[0 + k];
      }
    }
    OneValueExactly(name, v);
  }

  /** But what is clean for each value alone need not be for both: another value's mark
      may complete it. */
  lemma CompanySurvives(name: string, other: string)
    ensures var v := [OPENING, OPENING, OPENING, OPENING];
            var values := [(name, v), (other, "xyzw")];
            exists text :: !Clean(Redacted(text, values), values)
  {
    var v, x := [OPENING, OPENING, OPENING, OPENING], "xyzw";
    var values := [(name, v), (other, x)];
    var text := v[..3] + x;
    NotBefore(text, v, x);
    ReplacedAt(text, x, 3);
    assert text[3..][4..] == "" && Replaced("", x) == "" && text[..3] == v[..3];
    assert Replaced(text, x) == v[..3] + MARK;
    TwoRedacted(text, values, v, x);
    assert (v[..3] + MARK)[0..][..4] == v;
    assert StartsWith((v[..3] + MARK)[0..], v) && values[0] in values;
  }

  lemma NotBefore(text: string, v: string, x: string)
    requires v == [OPENING, OPENING, OPENING, OPENING] && x == "xyzw" && text == v[..3] + x
    ensures !Occurs(v, text) && MatchesFirstAt(text, x, 3)
  {
    forall i | 0 <= i <= |text|
      ensures !StartsWith(text[i..], v)
    {
      if i < 4 {
        assert text[i..][3 - i] == 'x' && v[3 - i] == OPENING;
      }
    }
    assert text[3..] == x && x[..4] == x;
    forall i | 0 <= i < 3
      ensures !StartsWith(text[i..], x)
    {
      assert text[i..][0] == OPENING;
    }
  }

  lemma TwoRedacted(text: string, values: Fields, v: string, x: string)
    requires |values| == 2 && values[0].1 == v && values[1].1 == x
    requires !Occurs(v, text) && Long(x) && Occurs(x, text)
    ensures Redacted(text, values) == Replaced(text, x)
  {
    assert values[..1][..0] == [] && values[..1][0] == values[0];
    assert Redacted(text, values[..1][..0]) == text;
    assert Redacted(text, values[..1]) == text;
  }
}
