/** The client-secret file of the identity provider's configuration
    (services/zitadel-configure.ts). The server cannot read a client secret back, so
    the file must keep agreeing with it across failures, crashes and power cuts. */
module ClientSecret {
  import opened Text
  import AtomicFile

  // --- the file --------------------------------------------------------------------

  const ID_KEY := "CLIENT_ID"
  const SECRET_KEY := "CLIENT_SECRET"

  function Line(key: string, value: string): string {
    key + ['='] + value
  }

  function Format(id: string, secret: string): string {
    TwoLines(Line(ID_KEY, id), Line(SECRET_KEY, secret))
  }

  function TwoLines(l1: string, l2: string): string {
    l1 + ['\n'] + (l2 + ['\n'] + "")
  }

  /** JavaScript's `split("\n")`: one piece more than there are newlines. */
  function Pieces(text: string): (r: seq<string>)
    ensures forall p :: p in r ==> '\n' !in p
  {
    var n := Find(text, '\n');
    if n == |text| then [text] else [text[..n]] + Pieces(text[n + 1..])
  }

  /** A line sets a variable when an `=` follows at least one character. */
  function Variables(lines: seq<string>, vars: map<string, string>): map<string, string>
    decreases |lines|
  {
    if lines == [] then vars
    else
      var line := lines[0];
      var n := Find(line, '=');
      var next := if 0 < n < |line|
                  then vars[Trim(IsScriptSpace, line[..n]) := Trim(IsScriptSpace, line[n + 1..])]
                  else vars;
      Variables(lines[1..], next)
  }

  /** The stored secret, if the file holds one for this client id. */
  function StoredSecret(text: string, id: string): Option<string> {
    var vars := Variables(Pieces(text), map[]);
    if ID_KEY !in vars || vars[ID_KEY] != id || SECRET_KEY !in vars || vars[SECRET_KEY] == "" then None
    else Some(vars[SECRET_KEY])
  }

  method ReadVariables(text: string) returns (vars: map<string, string>)
    ensures vars == Variables(Pieces(text), map[])
  {
    var lines := Pieces(text);
    vars := map[];
    for i := 0 to |lines|
      invariant Variables(lines[i..], vars) == Variables(lines, map[])
    {
      assert lines[i..][1..] == lines[i + 1..];
      var n := Find(lines[i], '=');
      if 0 < n < |lines[i]| {
        vars := vars[Trim(IsScriptSpace, lines[i][..n]) := Trim(IsScriptSpace, lines[i][n + 1..])];
      }
    }
  }

  /** A token the file can carry. */
  predicate Plain(s: string) {
    s != "" && '\n' !in s && Trimmed(IsScriptSpace, s)
  }

  lemma PiecesFirst(line: string, rest: string)
    requires '\n' !in line
    ensures Pieces(line + ['\n'] + rest) == [line] + Pieces(rest)
  {
    FindAt(line, '\n', rest);
    var all := line + ['\n'] + rest;
    assert all[..|line|] == line && all[|line| + 1..] == rest;
  }

  lemma PieceAlone(line: string)
    requires '\n' !in line
    ensures Pieces(line) == [line]
  {
  }

  predicate IsKey(key: string) {
    key != "" && '=' !in key && Trimmed(IsScriptSpace, key)
  }

  lemma KeysAreKeys()
    ensures IsKey(ID_KEY) && IsKey(SECRET_KEY) && ID_KEY != SECRET_KEY
    ensures '\n' !in ID_KEY && '\n' !in SECRET_KEY
  {
    assert |ID_KEY| != |SECRET_KEY|;
  }

  lemma LineVariable(key: string, value: string, vars: map<string, string>, rest: seq<string>)
    requires IsKey(key)
    ensures Variables([Line(key, value)] + rest, vars) ==
            Variables(rest, vars[key := Trim(IsScriptSpace, value)])
  {
    var line := key + ['='] + value;
    FindAt(key, '=', value);
    assert line[..|key|] == key;
    assert line[|key| + 1..] == value;
    assert ([line] + rest)[1..] == rest;
  }

  lemma NoVariables(vars: map<string, string>)
    ensures Variables([""], vars) == vars
  {
    assert [""][1..] == [];
  }

  /** What is read of a file whose second line sets the secret to `tail`. */
  lemma TwoVariables(id: string, tail: string, last: seq<string>)
    requires Plain(id) && (last == [] || last == [""])
    ensures Variables([Line(ID_KEY, id)] + ([Line(SECRET_KEY, tail)] + last), map[]) ==
            map[ID_KEY := id, SECRET_KEY := Trim(IsScriptSpace, tail)]
  {
    KeysAreKeys();
    LineVariable(ID_KEY, id, map[], [Line(SECRET_KEY, tail)] + last);
    LineVariable(SECRET_KEY, tail, map[ID_KEY := id], last);
    NoVariables(map[ID_KEY := id, SECRET_KEY := Trim(IsScriptSpace, tail)]);
  }

  lemma EndedFile(id: string, tail: string)
    requires Plain(id) && '\n' !in tail
    ensures Variables(Pieces(Format(id, tail)), map[]) == map[ID_KEY := id, SECRET_KEY := Trim(IsScriptSpace, tail)]
  {
    KeysAreKeys();
    PiecesFirst(Line(SECRET_KEY, tail), "");
    PieceAlone("");
    PiecesFirst(Line(ID_KEY, id), Line(SECRET_KEY, tail) + ['\n'] + "");
    TwoVariables(id, tail, [""]);
  }

  lemma OpenFile(id: string, tail: string)
    requires Plain(id) && '\n' !in tail
    ensures var text := Line(ID_KEY, id) + ['\n'] + Line(SECRET_KEY, tail);
            Variables(Pieces(text), map[]) == map[ID_KEY := id, SECRET_KEY := Trim(IsScriptSpace, tail)]
  {
    KeysAreKeys();
    TwoPieces(Line(ID_KEY, id), Line(SECRET_KEY, tail));
    TwoVariables(id, tail, []);
    assert [Line(SECRET_KEY, tail)] + [] == [Line(SECRET_KEY, tail)];
  }

  lemma FormatReads(id: string, secret: string, other: string)
    requires Plain(id) && Plain(secret)
    ensures StoredSecret(Format(id, secret), other) == if other == id then Some(secret) else None
  {
    KeysAreKeys();
    EndedFile(id, secret);
  }

  lemma {:induction false} VariablesAreLines(lines: seq<string>, vars: map<string, string>)
    requires forall l :: l in lines ==> '\n' !in l
    requires forall k :: k in vars ==> '\n' !in vars[k] && Trimmed(IsScriptSpace, vars[k])
    ensures forall k :: k in Variables(lines, vars) ==>
                          '\n' !in Variables(lines, vars)[k] && Trimmed(IsScriptSpace, Variables(lines, vars)[k])
    decreases |lines|
  {
    if lines != [] {
      var line, n := lines[0], Find(lines[0], '=');
      assert line in lines;
      var next := if 0 < n < |line|
                  then vars[Trim(IsScriptSpace, line[..n]) := Trim(IsScriptSpace, line[n + 1..])]
                  else vars;
      VariablesAreLines(lines[1..], next);
    }
  }

  /** The file carries a secret exactly if it is not empty, has no newline and no
      white space at its edges. */
  lemma CarriesExactly(id: string, secret: string)
    requires Plain(id)
    ensures StoredSecret(Format(id, secret), id) == Some(secret) <==> Plain(secret)
  {
    VariablesAreLines(Pieces(Format(id, secret)), map[]);
    if Plain(secret) {
      FormatReads(id, secret, id);
    }
  }

  // --- a write that fell short --------------------------------------------------------

  /** How much of the file precedes the secret itself. */
  function Lead(id: string): nat {
    |Line(ID_KEY, id)| + 1 + |SECRET_KEY| + 1
  }

  /** The parts of a two-line text, up to any length. */
  lemma Shape(l1: string, l2: string)
    ensures var f := TwoLines(l1, l2);
            && |f| == |l1| + |l2| + 2
            && (forall n :: 0 <= n <= |l1| ==> f[..n] == l1[..n])
            && (forall m :: 0 <= m <= |l2| ==> f[..|l1| + 1 + m] == l1 + ['\n'] + l2[..m])
  {
    var f := TwoLines(l1, l2);
    forall m | 0 <= m <= |l2|
      ensures f[..|l1| + 1 + m] == l1 + ['\n'] + l2[..m]
    {
    }
  }

  lemma LineShape(key: string, value: string)
    ensures |Line(key, value)| == |key| + 1 + |value|
    ensures forall n :: 0 <= n <= |key| ==> Line(key, value)[..n] == key[..n]
    ensures forall m :: 0 <= m <= |value| ==> Line(key, value)[..|key| + 1 + m] == Line(key, value[..m])
  {
  }

  lemma CutInSecret(id: string, secret: string, n: nat)
    requires Plain(id) && Plain(secret)
    requires Lead(id) < n < |Format(id, secret)| - 1
    ensures StoredSecret(Format(id, secret)[..n], id).Some?
    ensures StoredSecret(Format(id, secret)[..n], id) != Some(secret)
  {
    KeysAreKeys();
    var l1, l2 := Line(ID_KEY, id), Line(SECRET_KEY, secret);
    Shape(l1, l2);
    LineShape(SECRET_KEY, secret);
    var part := secret[..n - Lead(id)];
    assert Format(id, secret)[..n] == l1 + ['\n'] + l2[..n - |l1| - 1] == l1 + ['\n'] + Line(SECRET_KEY, part);
    OpenFile(id, part);
    TrimKeepsFirst(part);
    assert |Trim(IsScriptSpace, part)| <= |part| < |secret|;
  }

  lemma {:induction false} TrimKeepsFirst(s: string)
    requires s != "" && !IsScriptSpace(s[0])
    ensures Trim(IsScriptSpace, s) != ""
  {
    if IsScriptSpace(s[|s| - 1]) {
      TrimKeepsFirst(s[..|s| - 1]);
    }
  }

  lemma NoEqualsNoVariable(line: string, vars: map<string, string>)
    requires '=' !in line
    ensures Variables([line], vars) == vars
  {
    assert [line][1..] == [];
  }

  lemma OneVariable(key: string, value: string, vars: map<string, string>)
    requires IsKey(key)
    ensures Variables([Line(key, value)], vars) == vars[key := Trim(IsScriptSpace, value)]
  {
    LineVariable(key, value, vars, []);
    assert [Line(key, value)] + [] == [Line(key, value)];
  }

  /** A part of one line sets at most that line's variable. */
  lemma PartOfLine(key: string, value: string, n: nat, vars: map<string, string>)
    requires IsKey(key) && n <= |Line(key, value)|
    ensures n <= |key| ==> Variables([Line(key, value)[..n]], vars) == vars
    ensures n > |key| ==>
              Variables([Line(key, value)[..n]], vars) == vars[key := Trim(IsScriptSpace, value[..n - |key| - 1])]
  {
    LineShape(key, value);
    if n <= |key| {
      NoEqualsNoVariable(key[..n], vars);
    } else {
      OneVariable(key, value[..n - |key| - 1], vars);
    }
  }

  lemma CutInFirst(id: string, secret: string, n: nat)
    requires n <= |Line(ID_KEY, id)| && '\n' !in id
    ensures SECRET_KEY !in Variables(Pieces(Format(id, secret)[..n]), map[])
  {
    KeysAreKeys();
    var l1 := Line(ID_KEY, id);
    Shape(l1, Line(SECRET_KEY, secret));
    PieceAlone(l1[..n]);
    PartOfLine(ID_KEY, id, n, map[]);
  }

  lemma TwoPieces(l1: string, part: string)
    requires '\n' !in l1 && '\n' !in part
    ensures Pieces(l1 + ['\n'] + part) == [l1] + [part]
  {
    PiecesFirst(l1, part);
    PieceAlone(part);
  }

  lemma CutInSecond(l1: string, l2: string, n: nat)
    requires '\n' !in l1 && '\n' !in l2 && |l1| < n <= |l1| + 1 + |l2|
    ensures Pieces(TwoLines(l1, l2)[..n]) == [l1] + [l2[..n - |l1| - 1]]
  {
    Shape(l1, l2);
    TwoPieces(l1, l2[..n - |l1| - 1]);
    assert |l1| + 1 + (n - |l1| - 1) == n;
  }

  lemma SecondVariables(k1: string, id: string, part: string)
    requires IsKey(k1)
    ensures Variables([Line(k1, id)] + [part], map[]) == Variables([part], map[k1 := Trim(IsScriptSpace, id)])
  {
    LineVariable(k1, id, map[], [part]);
  }

  lemma CutInKey(k1: string, k2: string, id: string, secret: string, m: nat)
    requires IsKey(k1) && IsKey(k2) && k1 != k2 && m <= |k2| + 1
    ensures var vars := Variables([Line(k1, id)] + [Line(k2, secret)[..m]], map[]);
            k2 !in vars || vars[k2] == ""
  {
    SecondVariables(k1, id, Line(k2, secret)[..m]);
    PartOfLine(k2, secret, m, map[k1 := Trim(IsScriptSpace, id)]);
    assert secret[..0] == "";
  }

  lemma CutBeforeSecret(id: string, secret: string, n: nat)
    requires Plain(id) && Plain(secret) && n <= Lead(id)
    ensures StoredSecret(Format(id, secret)[..n], id) == None
  {
    KeysAreKeys();
    var l1, l2 := Line(ID_KEY, id), Line(SECRET_KEY, secret);
    if n <= |l1| {
      CutInFirst(id, secret, n);
    } else {
      LinesHaveNoNewline(id, secret);
      CutInSecond(l1, l2, n);
      CutInKey(ID_KEY, SECRET_KEY, id, secret, n - |l1| - 1);
    }
  }

  lemma LinesHaveNoNewline(id: string, secret: string)
    requires '\n' !in id && '\n' !in secret
    ensures '\n' !in Line(ID_KEY, id) && '\n' !in Line(SECRET_KEY, secret)
    ensures |Line(SECRET_KEY, secret)| == |SECRET_KEY| + 1 + |secret|
  {
    KeysAreKeys();
  }

  lemma CutAtEnd(id: string, secret: string)
    requires Plain(id) && Plain(secret)
    ensures StoredSecret(Unended(Format(id, secret)), id) == Some(secret)
  {
    OpenFileStores(id, secret);
    AllButLast(Line(ID_KEY, id), Line(SECRET_KEY, secret));
  }

  function Unended(text: string): string
    requires text != ""
  {
    text[..|text| - 1]
  }

  lemma OpenFileStores(id: string, secret: string)
    requires Plain(id) && Plain(secret)
    ensures StoredSecret(Line(ID_KEY, id) + ['\n'] + Line(SECRET_KEY, secret), id) == Some(secret)
  {
    OpenFile(id, secret);
    TwoVariablesStore(Line(ID_KEY, id) + ['\n'] + Line(SECRET_KEY, secret), id, secret);
  }

  lemma TwoVariablesStore(text: string, id: string, secret: string)
    requires Variables(Pieces(text), map[]) == map[ID_KEY := id, SECRET_KEY := Trim(IsScriptSpace, secret)]
    requires Plain(secret)
    ensures StoredSecret(text, id) == Some(secret)
  {
    KeysAreKeys();
  }

  lemma AllButLast(l1: string, l2: string)
    ensures Unended(TwoLines(l1, l2)) == l1 + ['\n'] + l2
  {
  }

  lemma CutLast(id: string, secret: string, n: nat)
    requires Plain(id) && Plain(secret) && |Format(id, secret)| - 1 <= n <= |Format(id, secret)|
    ensures StoredSecret(Format(id, secret)[..n], id) == Some(secret)
  {
    if n < |Format(id, secret)| {
      CutNewline(id, secret, n);
    } else {
      CutNothing(id, secret, n);
    }
  }

  lemma CutNewline(id: string, secret: string, n: nat)
    requires Plain(id) && Plain(secret) && n == |Format(id, secret)| - 1
    ensures StoredSecret(Format(id, secret)[..n], id) == Some(secret)
  {
    CutAtEnd(id, secret);
  }

  lemma CutNothing(id: string, secret: string, n: nat)
    requires Plain(id) && Plain(secret) && n == |Format(id, secret)|
    ensures StoredSecret(Format(id, secret)[..n], id) == Some(secret)
  {
    FormatReads(id, secret, id);
    assert Format(id, secret)[..n] == Format(id, secret);
  }

  /** Of the file's text only the last character, a newline, may be missing. */
  predicate Whole(id: string, secret: string, n: nat) {
    n >= |Format(id, secret)| - 1
  }

  /** The text is written with one call whose count is not checked. A file that got
      only its first `n` characters holds the secret exactly if not a character of it is
      missing, and holds none exactly if it was not begun; in between it holds a
      wrong one. */
  lemma ShortWriteExactly(id: string, secret: string, n: nat)
    requires Plain(id) && Plain(secret) && n <= |Format(id, secret)|
    ensures StoredSecret(Format(id, secret)[..n], id) == Some(secret) <==> Whole(id, secret, n)
    ensures StoredSecret(Format(id, secret)[..n], id) == None <==> n <= Lead(id)
  {
    LeadIsLess(id, secret);
    if n <= Lead(id) {
      CutBeforeSecret(id, secret, n);
    } else if Whole(id, secret, n) {
      CutLast(id, secret, n);
    } else {
      CutInSecret(id, secret, n);
    }
  }

  lemma LeadIsLess(id: string, secret: string)
    requires secret != ""
    ensures Lead(id) < |Format(id, secret)| - 1
  {
    Shape(Line(ID_KEY, id), Line(SECRET_KEY, secret));
  }

  lemma CutInSecondHasId(id: string, secret: string, n: nat)
    requires Plain(id) && Plain(secret) && |Line(ID_KEY, id)| < n < |Format(id, secret)|
    ensures var vars := Variables(Pieces(Format(id, secret)[..n]), map[]);
            ID_KEY in vars && vars[ID_KEY] == id
  {
    KeysAreKeys();
    LinesHaveNoNewline(id, secret);
    var l1, l2 := Line(ID_KEY, id), Line(SECRET_KEY, secret);
    Shape(l1, l2);
    CutInSecond(l1, l2, n);
    SecondVariables(ID_KEY, id, l2[..n - |l1| - 1]);
    PartOfLine(SECRET_KEY, secret, n - |l1| - 1, map[ID_KEY := id]);
  }

  /** However short the write fell, the file holds no secret for another client id. */
  lemma ShortWriteForOthers(id: string, secret: string, n: nat, other: string)
    requires Plain(id) && Plain(secret) && n <= |Format(id, secret)| && other != id
    ensures StoredSecret(Format(id, secret)[..n], other) == None
  {
    if n <= |Line(ID_KEY, id)| {
      CutInFirst(id, secret, n);
    } else if n < |Format(id, secret)| {
      CutInSecondHasId(id, secret, n);
    } else {
      FormatReads(id, secret, other);
      assert Format(id, secret)[..n] == Format(id, secret);
    }
  }

  // --- the server -----------------------------------------------------------------------

  datatype Status = Ok | Err | Cut

  /** What a call to the server comes to: it works, it is refused, or it takes effect
      and its answer is lost. When the answers run out the run is killed. */
  datatype Answer = Works | Refused | ReplyLost

  predicate AllWork(answers: seq<Answer>) {
    forall a :: a in answers ==> a == Works
  }

  /** An application: the number of its client id among those ever issued, and its
      current secret. */
  datatype App = App(number: nat, secret: string)

  type Mint = nat -> (string, string)

  ghost predicate GoodMint(mint: Mint) {
    && (forall n: nat :: Plain(mint(n).0) && Plain(mint(n).1))
    && (forall i: nat, j: nat :: i != j ==> mint(i).0 != mint(j).0)
  }

  class Server {
    const mint: Mint           // the n-th client id and secret the server makes up
    var apps: seq<App>         // the applications with the configured name
    var minted: nat
    var regenerated: nat
    var answers: seq<Answer>

    constructor (mint: Mint)
      ensures this.mint == mint && apps == [] && minted == 0 && regenerated == 0
    {
      this.mint, apps, minted, regenerated, answers := mint, [], 0, 0, [];
    }

    method Call() returns (s: Status, lost: bool)
      modifies this`answers
      ensures lost ==> s == Ok
      ensures AllWork(old(answers)) ==> AllWork(answers) && s != Err && !lost
    {
      if answers == [] {
        return Cut, false;
      }
      assert answers[0] in answers && forall a :: a in answers[1..] ==> a in answers;
      s, lost := if answers[0] == Refused then Err else Ok, answers[0] == ReplyLost;
      answers := answers[1..];
    }

    /** A call that changes nothing the file depends on. */
    method Query() returns (s: Status)
      modifies this`answers
      ensures AllWork(old(answers)) ==> AllWork(answers) && s != Err
    {
      var lost;
      s, lost := Call();
      s := if lost then Err else s;
    }

    /** The client id of the first application with the configured name, if any. */
    method Search() returns (s: Status, id: Option<string>)
      modifies this`answers
      ensures s == Ok ==> id == if apps == [] then None else Some(mint(apps[0].number).0)
      ensures AllWork(old(answers)) ==> AllWork(answers) && s != Err
    {
      s := Query();
      id := if apps == [] then None else Some(mint(apps[0].number).0);
    }

    /** A new application. Only the reply to this call carries its secret. */
    method Create() returns (s: Status, id: string, secret: string)
      requires apps == []
      modifies this
      ensures regenerated == old(regenerated)
      ensures (apps == [] && minted == old(minted)) ||
              (apps == [App(old(minted), mint(old(minted)).1)] && minted == old(minted) + 1)
      ensures s == Ok ==> apps != [] && id == mint(apps[0].number).0 && secret == apps[0].secret
      ensures AllWork(old(answers)) ==> AllWork(answers) && s != Err
    {
      var lost;
      s, lost := Call();
      id, secret := "", "";
      if s == Ok {
        id, secret := mint(minted).0, mint(minted).1;
        apps, minted := [App(minted, secret)], minted + 1;
      }
      s := if lost then Err else s;
    }

    /** A new secret. Only the reply to this call carries it. */
    method Regenerate() returns (s: Status, secret: string)
      requires apps != []
      modifies this
      ensures (apps == old(apps) && minted == old(minted) && regenerated == old(regenerated)) ||
              (apps == old(apps)[0 := old(apps)[0].(secret := mint(old(minted)).1)] && minted == old(minted) + 1)
      ensures s == Ok ==> minted == old(minted) + 1 && apps != [] && secret == apps[0].secret
      ensures AllWork(old(answers)) ==> AllWork(answers) && s != Err
    {
      var lost;
      s, lost := Call();
      secret := "";
      if s == Ok {
        secret := mint(minted).1;
        apps := apps[0 := apps[0].(secret := secret)];
        minted, regenerated := minted + 1, regenerated + 1;
      }
      s := if lost then Err else s;
    }
  }

  // --- the protocol ---------------------------------------------------------------------

  function Read(f: Option<AtomicFile.File>, id: string): Option<string> {
    if f.None? then None else StoredSecret(f.value.body, id)
  }

  function ReadIn(img: AtomicFile.Image, path: string, id: string): Option<string> {
    Read(AtomicFile.At(img, path), id)
  }

  /** A file agrees with the server: what it holds for an application is the
      application's current secret, and it holds nothing for ids not issued yet. */
  ghost predicate Agrees(mint: Mint, apps: seq<App>, minted: nat, f: Option<AtomicFile.File>) {
    && (f.Some? ==> f.value.synced)
    && (forall a :: a in apps ==> Read(f, mint(a.number).0).None? || Read(f, mint(a.number).0) == Some(a.secret))
    && (forall n: nat :: n >= minted ==> Read(f, mint(n).0).None?)
  }

  /** Every state the disk may be found in agrees, and none holds a secret for the
      application that the current one, the last, has lost. */
  ghost predicate ConsistentStates(
    mint: Mint, apps: seq<App>, minted: nat, journal: seq<AtomicFile.Image>, path: string)
    requires journal != []
  {
    && GoodMint(mint) && |apps| <= 1
    && (forall a :: a in apps ==> a.number < minted && Plain(a.secret))
    && (forall img :: img in journal ==> Agrees(mint, apps, minted, AtomicFile.At(img, path)))
    && (forall img, a :: img in journal && a in apps && ReadIn(img, path, mint(a.number).0).Some? ==>
                           ReadIn(journal[|journal| - 1], path, mint(a.number).0).Some?)
  }

  ghost predicate Consistent(server: Server, fs: AtomicFile.FileSystem, path: string)
    reads server, fs
  {
    fs.Valid() && ConsistentStates(server.mint, server.apps, server.minted, fs.journal, path)
  }

  /** What is known of the two even when they do not agree. */
  ghost predicate Sound(server: Server, fs: AtomicFile.FileSystem)
    reads server, fs
  {
    && fs.Valid() && GoodMint(server.mint) && |server.apps| <= 1
    && forall a :: a in server.apps ==> a.number < server.minted && Plain(a.secret)
  }

  /** A completed write of `n` characters keeps disk and server consistent; `stored` says
      that there was a secret before, and so the old file may come back. */
  predicate Kept(id: string, secret: string, n: nat, stored: bool) {
    Whole(id, secret, n) || (n <= Lead(id) && !stored)
  }

  lemma RegenerateConsistent(mint: Mint, app: App, minted: nat, journal: seq<AtomicFile.Image>, path: string)
    requires journal != [] && ConsistentStates(mint, [app], minted, journal, path)
    requires ReadIn(journal[|journal| - 1], path, mint(app.number).0).None?
    ensures ConsistentStates(mint, [app.(secret := mint(minted).1)], minted + 1, journal, path)
  {
    var apps, next := [app], [app.(secret := mint(minted).1)];
    assert app in apps;
    forall img | img in journal
      ensures Agrees(mint, next, minted + 1, AtomicFile.At(img, path))
      ensures ReadIn(img, path, mint(app.number).0).None?
    {
      assert Agrees(mint, apps, minted, AtomicFile.At(img, path));
    }
  }

  lemma CreateConsistent(mint: Mint, minted: nat, journal: seq<AtomicFile.Image>, path: string)
    requires journal != [] && ConsistentStates(mint, [], minted, journal, path)
    ensures ConsistentStates(mint, [App(minted, mint(minted).1)], minted + 1, journal, path)
  {
    var next := [App(minted, mint(minted).1)];
    forall img | img in journal
      ensures Agrees(mint, next, minted + 1, AtomicFile.At(img, path))
      ensures ReadIn(img, path, mint(minted).0).None?
    {
      assert Agrees(mint, [], minted, AtomicFile.At(img, path));
    }
  }

  lemma NewFileAgrees(mint: Mint, app: App, minted: nat, f: AtomicFile.File, n: nat)
    requires GoodMint(mint) && app.number < minted && Plain(app.secret)
    requires n <= |Format(mint(app.number).0, app.secret)|
    requires f.synced && f.body == Format(mint(app.number).0, app.secret)[..n]
    ensures Read(Some(f), mint(app.number).0) == Some(app.secret) <==> Whole(mint(app.number).0, app.secret, n)
    ensures Read(Some(f), mint(app.number).0) == None <==> n <= Lead(mint(app.number).0)
    ensures Agrees(mint, [app], minted, Some(f)) <==>
            Whole(mint(app.number).0, app.secret, n) || n <= Lead(mint(app.number).0)
  {
    var id := mint(app.number).0;
    ShortWriteExactly(id, app.secret, n);
    forall other | other != id
      ensures Read(Some(f), other) == None
    {
      ShortWriteForOthers(id, app.secret, n, other);
    }
    assert app in [app];
  }

  /** Storing the first `n` characters keeps every state that may survive a cut
      consistent exactly if the secret is among them to its end, or was not begun and
      none was stored before. */
  lemma DepositConsistent(
    mint: Mint, app: App, minted: nat, j0: seq<AtomicFile.Image>, j1: seq<AtomicFile.Image>, path: string,
    f: AtomicFile.File, n: nat)
    requires j0 != [] && j1 != [] && ConsistentStates(mint, [app], minted, j0, path)
    requires n <= |Format(mint(app.number).0, app.secret)|
    requires f.synced && f.body == Format(mint(app.number).0, app.secret)[..n]
    requires forall img :: img in j1 ==>
                             img in j0 || AtomicFile.At(img, path) == AtomicFile.At(j0[|j0| - 1], path) ||
                             AtomicFile.At(img, path) == Some(f)
    requires exists img :: img in j1 && AtomicFile.At(img, path) == AtomicFile.At(j0[|j0| - 1], path)
    requires AtomicFile.At(j1[|j1| - 1], path) == Some(f)
    ensures ConsistentStates(mint, [app], minted, j1, path) <==>
            Kept(mint(app.number).0, app.secret, n, ReadIn(j0[|j0| - 1], path, mint(app.number).0).Some?)
  {
    assert app in [app];
    NewFileAgrees(mint, app, minted, f, n);
    var id, last := mint(app.number).0, j0[|j0| - 1];
    assert last in j0 && j1[|j1| - 1] in j1;
    if Kept(id, app.secret, n, ReadIn(last, path, id).Some?) {
      MixedConsistent(mint, app, minted, j0, j1, path);
    } else if n <= Lead(id) {
      OldOneLeft(mint, app, minted, j0, j1, path);
    }
  }

  /** While the old file with a secret can come back, a new one without is a loss. */
  lemma OldOneLeft(
    mint: Mint, app: App, minted: nat, j0: seq<AtomicFile.Image>, j1: seq<AtomicFile.Image>, path: string)
    requires j0 != [] && j1 != []
    requires exists img :: img in j1 && AtomicFile.At(img, path) == AtomicFile.At(j0[|j0| - 1], path)
    requires ReadIn(j0[|j0| - 1], path, mint(app.number).0).Some?
    requires ReadIn(j1[|j1| - 1], path, mint(app.number).0).None?
    ensures !ConsistentStates(mint, [app], minted, j1, path)
  {
    var img :| img in j1 && AtomicFile.At(img, path) == AtomicFile.At(j0[|j0| - 1], path);
    assert app in [app] && ReadIn(img, path, mint(app.number).0).Some?;
  }

  /** New states that read as an old one does, or as the last of them, which agrees. */
  lemma MixedConsistent(
    mint: Mint, app: App, minted: nat, j0: seq<AtomicFile.Image>, j1: seq<AtomicFile.Image>, path: string)
    requires j0 != [] && j1 != [] && ConsistentStates(mint, [app], minted, j0, path)
    requires forall img :: img in j1 ==>
                             img in j0 || AtomicFile.At(img, path) == AtomicFile.At(j0[|j0| - 1], path) ||
                             AtomicFile.At(img, path) == AtomicFile.At(j1[|j1| - 1], path)
    requires Agrees(mint, [app], minted, AtomicFile.At(j1[|j1| - 1], path))
    requires ReadIn(j0[|j0| - 1], path, mint(app.number).0).Some? ==>
               ReadIn(j1[|j1| - 1], path, mint(app.number).0).Some?
    ensures ConsistentStates(mint, [app], minted, j1, path)
  {
    assert app in [app] && j0[|j0| - 1] in j0;
  }

  lemma LeftConsistent(
    mint: Mint, apps: seq<App>, minted: nat, j0: seq<AtomicFile.Image>, j1: seq<AtomicFile.Image>, path: string)
    requires j0 != [] && j1 != [] && ConsistentStates(mint, apps, minted, j0, path)
    requires forall img :: img in j1 ==> img in j0 || AtomicFile.At(img, path) == AtomicFile.At(j0[|j0| - 1], path)
    requires AtomicFile.At(j1[|j1| - 1], path) == AtomicFile.At(j0[|j0| - 1], path)
    ensures ConsistentStates(mint, apps, minted, j1, path)
  {
    assert j0[|j0| - 1] in j0;
  }

  method ReadStoredClientSecret(fs: AtomicFile.FileSystem, path: string, id: string)
    returns (s: Status, stored: Option<string>)
    modifies fs`calls
    ensures s == Ok ==> stored == Read(AtomicFile.At(fs.files, path), id)
    ensures AtomicFile.Working(old(fs.calls)) ==> AtomicFile.Working(fs.calls) && s != Err
  {
    stored := None;
    var c := fs.Next();
    if c.Dies? {
      return Cut, None;
    }
    if c.Fails? {
      return Err, None;
    }
    if path !in fs.files {
      return Ok, None;
    }
    var vars := ReadVariables(fs.files[path].body);
    if ID_KEY !in vars || vars[ID_KEY] != id {
      return Ok, None;
    }
    if SECRET_KEY in vars && vars[SECRET_KEY] != "" {
      return Ok, Some(vars[SECRET_KEY]);
    }
    return Ok, None;
  }

  /** What a run has learnt of the application: its client id and its secret. */
  predicate Knows(server: Server, id: string, secret: string)
    reads server
  {
    server.apps != [] && id == server.mint(server.apps[0].number).0 && secret == server.apps[0].secret
  }

  /** The file holds the current secret of the application. */
  predicate InAgreement(server: Server, fs: AtomicFile.FileSystem, path: string)
    reads server, fs
  {
    server.apps != [] && ReadIn(fs.files, path, server.mint(server.apps[0].number).0) == Some(server.apps[0].secret)
  }

  /** A run that starts with a secret stored for the application. */
  predicate HasStored(server: Server, fs: AtomicFile.FileSystem, path: string)
    reads server, fs
  {
    server.apps != [] && ReadIn(fs.files, path, server.mint(server.apps[0].number).0).Some?
  }

  /** What the server has and what the disk may hold. */
  datatype World = World(apps: seq<App>, minted: nat, journal: seq<AtomicFile.Image>)

  ghost function WorldOf(server: Server, fs: AtomicFile.FileSystem): World
    reads server, fs
  {
    World(server.apps, server.minted, fs.journal)
  }

  predicate Holds(f: Option<AtomicFile.File>, id: string, secret: string, n: nat) {
    n <= |Format(id, secret)| && f == Some(AtomicFile.File(Format(id, secret)[..n], true, 0, 0, AtomicFile.PRIVATE))
  }

  /** The file has the first `n` characters of what belongs into it. */
  ghost predicate Landed(mint: Mint, after: World, path: string, n: nat) {
    && after.journal != [] && after.apps != []
    && Holds(AtomicFile.At(after.journal[|after.journal| - 1], path), mint(after.apps[0].number).0,
             after.apps[0].secret, n)
  }

  ghost predicate LandedWell(mint: Mint, before: AtomicFile.Image, after: World, path: string, n: nat)
    requires after.apps != []
  {
    var id := mint(after.apps[0].number).0;
    Kept(id, after.apps[0].secret, n, ReadIn(before, path, id).Some?)
  }

  ghost predicate LandedWhole(mint: Mint, after: World, n: nat)
    requires after.apps != []
  {
    Whole(mint(after.apps[0].number).0, after.apps[0].secret, n)
  }

  /** `convergeConfidentialApp`. From a state in which the server and every state the disk
      may be found in agree, they agree at its end if it does not complete, and if it
      does exactly if what the one write call left out is no part of the secret: `n`
      is how much it wrote. A run that starts with a secret stored leaves the server's
      alone and stores that one again. */
  method Converge(server: Server, fs: AtomicFile.FileSystem, path: string, pid: string)
    returns (s: Status, ghost n: nat)
    requires Sound(server, fs)
    modifies server, fs
    ensures Sound(server, fs)
    ensures s != Ok && old(Consistent(server, fs, path)) ==> Consistent(server, fs, path)
    ensures s == Ok && old(Consistent(server, fs, path)) ==>
              && Landed(server.mint, WorldOf(server, fs), path, n)
              && (Consistent(server, fs, path) <==>
                  LandedWell(server.mint, old(fs.files), WorldOf(server, fs), path, n))
              && (InAgreement(server, fs, path) <==> LandedWhole(server.mint, WorldOf(server, fs), n))
              && (fs.wholeWrites ==> LandedWhole(server.mint, WorldOf(server, fs), n))
    ensures old(HasStored(server, fs, path)) ==>
              && server.apps == old(server.apps) && server.regenerated == old(server.regenerated)
              && var id := server.mint(server.apps[0].number).0;
              s == Ok ==> Holds(AtomicFile.At(fs.files, path), id, ReadIn(old(fs.files), path, id).value, n)
    // A leftover of a run with the same process id makes it fail and stays, and nothing
    // else but a failing call or answer makes it fail.
    ensures path + ".tmp." + pid in old(fs.files) ==> s != Ok && fs.files == old(fs.files)
    ensures AllWork(old(server.answers)) && AtomicFile.Working(old(fs.calls)) ==>
              path + ".tmp." + pid !in old(fs.files) ==> s != Err
  {
    var id, secret;
    n := 0;
    s, id, secret := Learn(server, fs, path);
    if s == Ok {
      s, n := Deposit(server, fs, path, pid, id, secret);
    }
  }

  method Learn(server: Server, fs: AtomicFile.FileSystem, path: string)
    returns (s: Status, id: string, secret: string)
    requires Sound(server, fs)
    modifies server, fs`calls
    ensures Sound(server, fs)
    ensures old(Consistent(server, fs, path)) ==>
              Consistent(server, fs, path) && (s == Ok ==> Knows(server, id, secret))
    ensures old(HasStored(server, fs, path)) ==>
              && server.apps == old(server.apps) && server.regenerated == old(server.regenerated)
              && (s == Ok ==> id == server.mint(server.apps[0].number).0 && Some(secret) == ReadIn(fs.files, path, id))
    ensures AllWork(old(server.answers)) && AtomicFile.Working(old(fs.calls)) ==>
              AtomicFile.Working(fs.calls) && s != Err
  {
    var found;
    id, secret := "", "";
    s, found := server.Search();
    if s == Ok {
      s, id, secret := Obtain(server, fs, path, found);
    }
    if s == Ok {
      s := server.Query();
    }
  }

  method Renew(server: Server, fs: AtomicFile.FileSystem, path: string) returns (s: Status, secret: string)
    requires Sound(server, fs) && server.apps != []
    modifies server
    ensures Sound(server, fs)
    ensures old(Consistent(server, fs, path)) && !old(HasStored(server, fs, path)) ==> Consistent(server, fs, path)
    ensures server.apps != [] && server.apps[0].number == old(server.apps)[0].number
    ensures s == Ok ==> secret == server.apps[0].secret
    ensures AllWork(old(server.answers)) ==> AllWork(server.answers) && s != Err
  {
    ghost var app, minted := server.apps[0], server.minted;
    ghost var safe := Consistent(server, fs, path) && !HasStored(server, fs, path);
    assert server.apps == [app];
    s, secret := server.Regenerate();
    assert server.apps == [app] || server.apps == [app.(secret := server.mint(minted).1)];
    if safe {
      RegenerateConsistent(server.mint, app, minted, fs.journal, path);
    }
  }

  /** Keep the stored secret, or have the server make up a new one. What the run goes on
      with is what the file or the reply says, and that is the current secret. */
  method Obtain(server: Server, fs: AtomicFile.FileSystem, path: string, found: Option<string>)
    returns (s: Status, id: string, secret: string)
    requires Sound(server, fs)
    requires found == if server.apps == [] then None else Some(server.mint(server.apps[0].number).0)
    modifies server, fs`calls
    ensures Sound(server, fs)
    ensures old(Consistent(server, fs, path)) ==>
              Consistent(server, fs, path) && (s == Ok ==> Knows(server, id, secret))
    ensures old(HasStored(server, fs, path)) ==>
              && server.apps == old(server.apps) && server.regenerated == old(server.regenerated)
              && (s == Ok ==> id == server.mint(server.apps[0].number).0 && Some(secret) == ReadIn(fs.files, path, id))
    ensures AllWork(old(server.answers)) ==> AllWork(server.answers)
    ensures AtomicFile.Working(old(fs.calls)) ==> AtomicFile.Working(fs.calls)
    ensures AllWork(old(server.answers)) && AtomicFile.Working(old(fs.calls)) ==> s != Err
  {
    if found.Some? {
      id := found.value;
      s, secret := KeepOrRenew(server, fs, path, id);
    } else {
      s, id, secret := NewApp(server, fs, path);
    }
  }

  method KeepOrRenew(server: Server, fs: AtomicFile.FileSystem, path: string, id: string)
    returns (s: Status, secret: string)
    requires Sound(server, fs)
    requires server.apps != [] && id == server.mint(server.apps[0].number).0
    modifies server, fs`calls
    ensures Sound(server, fs)
    ensures old(Consistent(server, fs, path)) ==>
              Consistent(server, fs, path) && (s == Ok ==> Knows(server, id, secret))
    ensures old(HasStored(server, fs, path)) ==>
              && server.apps == old(server.apps) && server.regenerated == old(server.regenerated)
              && (s == Ok ==> Some(secret) == ReadIn(fs.files, path, id))
    ensures AllWork(old(server.answers)) ==> AllWork(server.answers)
    ensures AtomicFile.Working(old(fs.calls)) ==> AtomicFile.Working(fs.calls)
    ensures AllWork(old(server.answers)) && AtomicFile.Working(old(fs.calls)) ==> s != Err
  {
    var stored;
    s, stored := Recall(server, fs, path, id);
    secret := "";
    if s == Ok && stored.Some? {
      secret := stored.value;
    } else if s == Ok {
      s, secret := Renew(server, fs, path);
    }
  }

  /** Read the stored secret. If there is one and disk and server are consistent, it is
      the current one. */
  method Recall(server: Server, fs: AtomicFile.FileSystem, path: string, id: string)
    returns (s: Status, stored: Option<string>)
    requires Sound(server, fs)
    requires server.apps != [] && id == server.mint(server.apps[0].number).0
    modifies fs`calls
    ensures Sound(server, fs)
    ensures old(Consistent(server, fs, path)) ==> Consistent(server, fs, path)
    ensures s == Ok ==> stored == ReadIn(fs.files, path, id)
    ensures old(Consistent(server, fs, path)) && s == Ok && stored.Some? ==> stored.value == server.apps[0].secret
    ensures AtomicFile.Working(old(fs.calls)) ==> AtomicFile.Working(fs.calls) && s != Err
  {
    s, stored := ReadStoredClientSecret(fs, path, id);
    if Consistent(server, fs, path) && s == Ok && stored.Some? {
      StoredIsCurrent(server.mint, server.apps, server.minted, fs.journal, path);
    }
  }

  /** A stored secret of the application is its current one. */
  lemma StoredIsCurrent(mint: Mint, apps: seq<App>, minted: nat, journal: seq<AtomicFile.Image>, path: string)
    requires journal != [] && ConsistentStates(mint, apps, minted, journal, path) && apps != []
    requires ReadIn(journal[|journal| - 1], path, mint(apps[0].number).0).Some?
    ensures ReadIn(journal[|journal| - 1], path, mint(apps[0].number).0) == Some(apps[0].secret)
  {
    assert journal[|journal| - 1] in journal && apps[0] in apps;
  }

  method NewApp(server: Server, fs: AtomicFile.FileSystem, path: string)
    returns (s: Status, id: string, secret: string)
    requires Sound(server, fs) && server.apps == []
    modifies server
    ensures Sound(server, fs)
    ensures old(Consistent(server, fs, path)) ==> Consistent(server, fs, path)
    ensures s == Ok ==> Knows(server, id, secret)
    ensures AllWork(old(server.answers)) ==> AllWork(server.answers) && s != Err
  {
    if Consistent(server, fs, path) {
      CreateConsistent(server.mint, server.minted, fs.journal, path);
    }
    s, id, secret := server.Create();
    if s == Ok {
      s := server.Query();
    }
  }

  /** Write what the run has learnt: `n` characters of it. If that was the current secret
      they hold it exactly if none of it is missing, and disk and server stay consistent
      exactly if they do, or if they hold none and none was stored before. */
  method Deposit(
    server: Server, fs: AtomicFile.FileSystem, path: string, pid: string, id: string, secret: string)
    returns (s: Status, ghost n: nat)
    requires Sound(server, fs)
    modifies fs
    ensures Sound(server, fs)
    ensures s == Ok ==> Holds(AtomicFile.At(fs.files, path), id, secret, n)
    ensures s != Ok && old(Consistent(server, fs, path)) ==> Consistent(server, fs, path)
    ensures s == Ok && old(Consistent(server, fs, path)) && Knows(server, id, secret) ==>
              && Landed(server.mint, WorldOf(server, fs), path, n)
              && (Consistent(server, fs, path) <==>
                  LandedWell(server.mint, old(fs.files), WorldOf(server, fs), path, n))
              && (InAgreement(server, fs, path) <==> LandedWhole(server.mint, WorldOf(server, fs), n))
              && (fs.wholeWrites ==> LandedWhole(server.mint, WorldOf(server, fs), n))
    ensures path + ".tmp." + pid in old(fs.files) ==> s != Ok && fs.files == old(fs.files)
    ensures AtomicFile.Working(old(fs.calls)) && path + ".tmp." + pid !in old(fs.files) ==> s != Err
  {
    ghost var consistent, j0 := Consistent(server, fs, path), fs.journal;
    var w;
    ghost var text;
    w, text := AtomicFile.WriteCredentialFile(fs, path, pid, Format(id, secret));
    s := if w == AtomicFile.Ok then Ok else if w == AtomicFile.Err then Err else Cut;
    n := |text|;
    assert text == Format(id, secret)[..n];
    TmpDiffers(path, pid);
    if consistent && s != Ok {
      NotDeposited(server.mint, server.apps, server.minted, j0, fs.journal, path, path + ".tmp." + pid);
    } else if consistent && Knows(server, id, secret) {
      assert server.apps == [server.apps[0]];
      Deposited(
        server.mint, server.apps[0], server.minted, j0, fs.journal, path, path + ".tmp." + pid,
        AtomicFile.File(text, true, 0, 0, AtomicFile.PRIVATE), n);
    }
  }

  lemma Deposited(
    mint: Mint, app: App, minted: nat, j0: seq<AtomicFile.Image>, j1: seq<AtomicFile.Image>, path: string,
    tmp: string, f: AtomicFile.File, n: nat)
    requires j0 != [] && j1 != [] && ConsistentStates(mint, [app], minted, j0, path)
    requires n <= |Format(mint(app.number).0, app.secret)|
    requires f.synced && f.body == Format(mint(app.number).0, app.secret)[..n]
    requires AtomicFile.OnlyReplacing(j0[|j0| - 1], j0, j1, path, tmp, f)
    requires exists img :: img in j1 && AtomicFile.At(img, path) == AtomicFile.At(j0[|j0| - 1], path)
    requires AtomicFile.At(j1[|j1| - 1], path) == Some(f)
    ensures ConsistentStates(mint, [app], minted, j1, path) <==>
            Kept(mint(app.number).0, app.secret, n, ReadIn(j0[|j0| - 1], path, mint(app.number).0).Some?)
    ensures ReadIn(j1[|j1| - 1], path, mint(app.number).0) == Some(app.secret) <==>
            Whole(mint(app.number).0, app.secret, n)
  {
    assert app in [app];
    forall img | img in j1
      ensures img in j0 || AtomicFile.At(img, path) == AtomicFile.At(j0[|j0| - 1], path) ||
              AtomicFile.At(img, path) == Some(f)
    {
      assert img in j0 || AtomicFile.Replacing(j0[|j0| - 1], img, path, tmp, f);
    }
    DepositConsistent(mint, app, minted, j0, j1, path, f, n);
    NewFileAgrees(mint, app, minted, f, n);
  }

  lemma NotDeposited(
    mint: Mint, apps: seq<App>, minted: nat, j0: seq<AtomicFile.Image>, j1: seq<AtomicFile.Image>, path: string,
    tmp: string)
    requires j0 != [] && j1 != [] && ConsistentStates(mint, apps, minted, j0, path) && tmp != path
    requires AtomicFile.OnlyPreparing(j0[|j0| - 1], j0, j1, tmp)
    requires AtomicFile.At(j1[|j1| - 1], path) == AtomicFile.At(j0[|j0| - 1], path)
    ensures ConsistentStates(mint, apps, minted, j1, path)
  {
    forall img | img in j1
      ensures img in j0 || AtomicFile.At(img, path) == AtomicFile.At(j0[|j0| - 1], path)
    {
      assert img in j0 || AtomicFile.Preparing(j0[|j0| - 1], img, tmp);
    }
    LeftConsistent(mint, apps, minted, j0, j1, path);
  }

  lemma TmpDiffers(path: string, pid: string)
    ensures path + ".tmp." + pid != path
  {
    assert |path + ".tmp." + pid| > |path|;
  }

  // --- any run of runs ------------------------------------------------------------------

  /** What happens to the two: a run, started with these outcomes ahead of it and
      killed where they end; the application deleted by hand; a power cut. */
  datatype Event =
    | Run(answers: seq<Answer>, calls: seq<AtomicFile.Call>, pid: string)
    | Deleted
    | PowerCut(k: nat, junk: map<string, string>)

  ghost predicate Good(mint: Mint, w: World, path: string) {
    w.journal != [] && ConsistentStates(mint, w.apps, w.minted, w.journal, path)
  }

  /** A run whose write stopped short: inside the secret, or before it where the old file
      with a secret can still come back. */
  ghost predicate Spoilt(mint: Mint, before: World, after: World, path: string) {
    before.journal != [] &&
    exists n :: Landed(mint, after, path, n) &&
                !LandedWell(mint, before.journal[|before.journal| - 1], after, path, n)
  }

  /** One event keeps disk and server consistent, unless it is a run that spoilt them. */
  ghost predicate KeptOrSpoilt(mint: Mint, before: World, event: Event, after: World, path: string) {
    Good(mint, before, path) ==> Good(mint, after, path) || (event.Run? && Spoilt(mint, before, after, path))
  }

  ghost predicate AllKeptOrSpoilt(mint: Mint, trace: seq<World>, events: seq<Event>, path: string) {
    && |trace| == |events| + 1
    && forall i :: 0 <= i < |events| ==> KeptOrSpoilt(mint, trace[i], events[i], trace[i + 1], path)
  }

  lemma OneEventMore(mint: Mint, trace: seq<World>, events: seq<Event>, event: Event, next: World, path: string)
    requires AllKeptOrSpoilt(mint, trace, events, path) && KeptOrSpoilt(mint, trace[|events|], event, next, path)
    ensures AllKeptOrSpoilt(mint, trace + [next], events + [event], path)
  {
    var longer, all := trace + [next], events + [event];
    forall i | 0 <= i < |all|
      ensures KeptOrSpoilt(mint, longer[i], all[i], longer[i + 1], path)
    {
      if i < |events| {
        assert longer[i] == trace[i] && longer[i + 1] == trace[i + 1] && all[i] == events[i];
      }
    }
  }

  lemma CutKeepsGood(
    mint: Mint, apps: seq<App>, minted: nat, journal: seq<AtomicFile.Image>, k: nat, after: AtomicFile.Image,
    path: string)
    requires journal != [] && ConsistentStates(mint, apps, minted, journal, path) && k < |journal|
    requires after.Keys == journal[k].Keys
    requires forall name :: name in after && journal[k][name].synced ==> after[name] == journal[k][name]
    ensures ConsistentStates(mint, apps, minted, [after], path)
  {
    assert journal[k] in journal;
    assert AtomicFile.At(after, path) == AtomicFile.At(journal[k], path);
  }

  method RunOnce(
    server: Server, fs: AtomicFile.FileSystem, path: string, answers: seq<Answer>, calls: seq<AtomicFile.Call>,
    pid: string)
    returns (s: Status)
    requires Sound(server, fs)
    modifies server, fs
    ensures Sound(server, fs)
    ensures old(Consistent(server, fs, path)) ==>
              Consistent(server, fs, path) ||
              Spoilt(server.mint, old(WorldOf(server, fs)), WorldOf(server, fs), path)
    ensures old(Consistent(server, fs, path)) && fs.wholeWrites ==>
              Consistent(server, fs, path) && (s == Ok ==> InAgreement(server, fs, path))
  {
    ghost var before := WorldOf(server, fs);
    Begin(server, fs, path, answers, calls);
    ghost var n;
    s, n := Converge(server, fs, path, pid);
    ghost var after := WorldOf(server, fs);
    ghost var last := before.journal[|before.journal| - 1];
    if Landed(server.mint, after, path, n) && !LandedWell(server.mint, last, after, path, n) {
      assert Spoilt(server.mint, before, after, path);
    }
  }

  method Begin(
    server: Server, fs: AtomicFile.FileSystem, path: string, answers: seq<Answer>, calls: seq<AtomicFile.Call>)
    requires Sound(server, fs)
    modifies server`answers, fs`calls
    ensures Sound(server, fs) && WorldOf(server, fs) == old(WorldOf(server, fs)) && fs.files == old(fs.files)
    ensures Consistent(server, fs, path) <==> old(Consistent(server, fs, path))
  {
    server.answers, fs.calls := answers, calls;
  }

  method LosePower(server: Server, fs: AtomicFile.FileSystem, path: string, k: nat, junk: map<string, string>)
    requires Sound(server, fs)
    modifies fs
    ensures Sound(server, fs)
    ensures old(Consistent(server, fs, path)) ==> Consistent(server, fs, path)
  {
    ghost var journal, consistent := fs.journal, Consistent(server, fs, path);
    if k < |fs.journal| {
      fs.PowerCycle(k, junk, []);
      if consistent {
        CutKeepsGood(server.mint, server.apps, server.minted, journal, k, fs.files, path);
      }
    }
  }

  method Happen(server: Server, fs: AtomicFile.FileSystem, path: string, event: Event) returns (last: Status)
    requires Sound(server, fs)
    modifies server, fs
    ensures Sound(server, fs)
    ensures KeptOrSpoilt(server.mint, old(WorldOf(server, fs)), event, WorldOf(server, fs), path)
    ensures old(Consistent(server, fs, path)) && fs.wholeWrites ==>
              Consistent(server, fs, path) && (last == Ok ==> InAgreement(server, fs, path))
  {
    last := Err;
    match event {
      case Run(answers, calls, pid) =>
        last := RunOnce(server, fs, path, answers, calls, pid);
      case Deleted =>
        server.apps := [];
      case PowerCut(k, junk) =>
        LosePower(server, fs, path, k, junk);
    }
  }

  /** Over any sequence of runs, interruptions, deletions and power cuts the stored
      secret never disagrees with the server, and a completed run ends in agreement, if
      no write reports success for less than it was given. If one does, disk and server
      are consistent until the first run that it spoilt; `trace` holds them before and
      after each event. */
  method Operate(server: Server, fs: AtomicFile.FileSystem, path: string, events: seq<Event>)
    returns (last: Status, ghost trace: seq<World>)
    requires Sound(server, fs)
    modifies server, fs
    ensures Sound(server, fs)
    ensures old(Consistent(server, fs, path)) && fs.wholeWrites ==>
              Consistent(server, fs, path) && (last == Ok ==> InAgreement(server, fs, path))
    ensures AllKeptOrSpoilt(server.mint, trace, events, path)
    ensures trace[0] == old(WorldOf(server, fs)) && trace[|events|] == WorldOf(server, fs)
  {
    last := Err;
    trace := [WorldOf(server, fs)];
    for i := 0 to |events|
      invariant Sound(server, fs)
      invariant old(Consistent(server, fs, path)) && fs.wholeWrites ==>
                  Consistent(server, fs, path) && (last == Ok ==> InAgreement(server, fs, path))
      invariant AllKeptOrSpoilt(server.mint, trace, events[..i], path)
      invariant trace[0] == old(WorldOf(server, fs)) && trace[i] == WorldOf(server, fs)
    {
      last := Happen(server, fs, path, events[i]);
      OneEventMore(server.mint, trace, events[..i], events[i], WorldOf(server, fs), path);
      trace := trace + [WorldOf(server, fs)];
      assert events[..i + 1] == events[..i] + [events[i]];
    }
    assert events[..|events|] == events;
  }
}
