/** Forms for one secret: what a stored file means, what a prompt shows and which
    submissions are accepted (packages/operator-secrets/src/lib.rs). */
module SecretForms {
  import opened Text
  import opened EnvFile

  datatype FieldSpec = FieldSpec(name: string, description: string, sensitive: bool)

  datatype SecretSpec = SecretSpec(
    name: string, description: string, fields: seq<FieldSpec>, path: string, hasValidator: bool)

  /** What `Spec::parse` guarantees of every secret. */
  predicate WellFormed(spec: SecretSpec) {
    spec.fields != [] && forall f :: f in spec.fields ==> IsValidKey(f.name)
  }

  function FieldNamed(fields: seq<FieldSpec>, name: string): (r: Option<FieldSpec>)
    ensures r.Some? ==> r.value in fields && r.value.name == name
    ensures r.None? <==> forall f :: f in fields ==> f.name != name
  {
    if fields == [] then None
    else if fields[0].name == name then Some(fields[0])
    else
      assert fields == [fields[0]] + fields[1..];
      FieldNamed(fields[1..], name)
  }

  // --- values -----------------------------------------------------------------

  datatype Check = Fine | EmptyValue | ControlCharacter

  function CheckFieldValue(v: string): Check {
    if v == "" then EmptyValue
    else if exists c :: c in v && IsControl(c) then ControlCharacter
    else Fine
  }

  // --- submissions --------------------------------------------------------------

  datatype SubmitError =
    | UnknownField(name: string)
    | SubmittedTwice(name: string)
    | MissingField(name: string)
    | BadValue(name: string, why: Check)

  datatype Result<T> = Success(value: T) | Failure(error: SubmitError)

  function Collect(spec: SecretSpec, found: map<string, string>, values: Fields): Result<map<string, string>>
    decreases values
  {
    if values == [] then Success(found)
    else
      var (k, v) := values[0];
      if FieldNamed(spec.fields, k).None? then Failure(UnknownField(k))
      else if k in found then Failure(SubmittedTwice(k))
      else Collect(spec, found[k := v], values[1..])
  }

  function Arrange(fields: seq<FieldSpec>, found: map<string, string>, done: Fields): Result<Fields>
    decreases fields
  {
    if fields == [] then Success(done)
    else
      var name := fields[0].name;
      if name !in found then Failure(MissingField(name))
      else if CheckFieldValue(found[name]) != Fine then Failure(BadValue(name, CheckFieldValue(found[name])))
      else Arrange(fields[1..], found, done + [(name, found[name])])
  }

  function Accepted(spec: SecretSpec, values: Fields): Result<Fields> {
    match Collect(spec, map[], values)
    case Failure(e) => Failure(e)
    case Success(found) => Arrange(spec.fields, found, [])
  }

  method AcceptSubmission(spec: SecretSpec, values: Fields) returns (r: Result<Fields>)
    ensures r == Accepted(spec, values)
  {
    var found: map<string, string> := map[];
    for i := 0 to |values|
      invariant Collect(spec, found, values[i..]) == Collect(spec, map[], values)
    {
      var (k, v) := values[i];
      assert values[i..][1..] == values[i + 1..];
      if FieldNamed(spec.fields, k).None? {
        return Failure(UnknownField(k));
      }
      if k in found {
        return Failure(SubmittedTwice(k));
      }
      found := found[k := v];
    }
    var out: Fields := [];
    for i := 0 to |spec.fields|
      invariant Arrange(spec.fields[i..], found, out) == Arrange(spec.fields, found, [])
    {
      var name := spec.fields[i].name;
      assert spec.fields[i..][1..] == spec.fields[i + 1..];
      if name !in found {
        return Failure(MissingField(name));
      }
      var why := CheckFieldValue(found[name]);
      if why != Fine {
        return Failure(BadValue(name, why));
      }
      out := out + [(name, found[name])];
    }
    return Success(out);
  }

  predicate Declared(spec: SecretSpec, k: string) {
    exists f :: f in spec.fields && f.name == k
  }

  /** A form the daemon takes: every key declared, none twice, every declared
      field present with a representable value. */
  predicate GoodForm(spec: SecretSpec, values: Fields) {
    && (forall p :: p in values ==> Declared(spec, p.0))
    && DistinctKeys(values)
    && (forall f :: f in spec.fields ==> exists p :: p in values && p.0 == f.name && CheckFieldValue(p.1) == Fine)
  }

  /** What the daemon keeps of it: the submitted values, in spec order. */
  predicate InSpecOrder(spec: SecretSpec, out: Fields) {
    && |out| == |spec.fields|
    && (forall i :: 0 <= i < |out| ==> out[i].0 == spec.fields[i].name && CheckFieldValue(out[i].1) == Fine)
  }

  lemma RestDistinct(values: Fields)
    requires values != []
    ensures DistinctKeys(values) <==> DistinctKeys(values[1..]) && forall p :: p in values[1..] ==> p.0 != values[0].0
  {
    if DistinctKeys(values[1..]) && forall p :: p in values[1..] ==> p.0 != values[0].0 {
      forall i, j | 0 <= i < j < |values|
        ensures values[i].0 != values[j].0
      {
        assert values[j] == values[1..][j - 1];
        if i > 0 {
          assert values[i] == values[1..][i - 1];
        }
      }
    }
  }

  lemma {:induction false} CollectExactly(spec: SecretSpec, found: map<string, string>, values: Fields)
    ensures Collect(spec, found, values).Success? <==>
            && (forall p :: p in values ==> Declared(spec, p.0) && p.0 !in found)
            && DistinctKeys(values)
    decreases values
  {
    if values != [] {
      var (k, v) := values[0];
      assert values == [values[0]] + values[1..];
      CollectExactly(spec, found[k := v], values[1..]);
      RestDistinct(values);
    }
  }

  lemma {:induction false} CollectFinds(spec: SecretSpec, found: map<string, string>, values: Fields)
    requires Collect(spec, found, values).Success?
    ensures var m := Collect(spec, found, values).value;
            && (forall k :: k in found ==> k in m && m[k] == found[k])
            && (forall p :: p in values ==> p.0 in m && m[p.0] == p.1)
            && (forall k :: k in m && k !in found ==> (k, m[k]) in values)
    decreases values
  {
    if values != [] {
      var (k, v) := values[0];
      assert values == [values[0]] + values[1..];
      CollectFinds(spec, found[k := v], values[1..]);
      assert k in found[k := v] && (k, v) in values;
    }
  }

  lemma CollectMeaning(spec: SecretSpec, found: map<string, string>, values: Fields)
    ensures Collect(spec, found, values).Success? <==>
            && (forall p :: p in values ==> Declared(spec, p.0) && p.0 !in found)
            && DistinctKeys(values)
    ensures Collect(spec, found, values).Success? ==>
              var m := Collect(spec, found, values).value;
              && (forall k :: k in found ==> k in m && m[k] == found[k])
              && (forall p :: p in values ==> p.0 in m && m[p.0] == p.1)
              && (forall k :: k in m && k !in found ==> (k, m[k]) in values)
  {
    CollectExactly(spec, found, values);
    if Collect(spec, found, values).Success? {
      CollectFinds(spec, found, values);
    }
  }

  lemma {:induction false} ArrangeMeaning(fields: seq<FieldSpec>, found: map<string, string>, done: Fields)
    ensures Arrange(fields, found, done).Success? <==>
            forall f :: f in fields ==> f.name in found && CheckFieldValue(found[f.name]) == Fine
    ensures Arrange(fields, found, done).Success? ==>
              var out := Arrange(fields, found, done).value;
              && |out| == |done| + |fields|
              && out[..|done|] == done
              && (forall i :: 0 <= i < |fields| ==> out[|done| + i] == (fields[i].name, found[fields[i].name]))
    decreases fields
  {
    if fields != [] {
      assert fields == [fields[0]] + fields[1..];
      var name := fields[0].name;
      if name in found && CheckFieldValue(found[name]) == Fine {
        var next := done + [(name, found[name])];
        ArrangeMeaning(fields[1..], found, next);
        if Arrange(fields, found, done).Success? {
          var out := Arrange(fields, found, done).value;
          assert out[..|done|] == out[..|next|][..|done|];
          assert out[|done|] == out[..|next|][|done|];
          forall i | 0 < i < |fields|
            ensures out[|done| + i] == (fields[i].name, found[fields[i].name])
          {
            assert fields[i] == fields[1..][i - 1];
          }
        }
      }
    }
  }

  lemma GoodFormExactly(spec: SecretSpec, values: Fields)
    ensures Accepted(spec, values).Success? <==> GoodForm(spec, values)
  {
    CollectMeaning(spec, map[], values);
    var c := Collect(spec, map[], values);
    if c.Success? {
      ArrangeMeaning(spec.fields, c.value, []);
      forall f | f in spec.fields
        ensures f.name in c.value && CheckFieldValue(c.value[f.name]) == Fine <==>
                exists p :: p in values && p.0 == f.name && CheckFieldValue(p.1) == Fine
      {
        if f.name in c.value {
          assert (f.name, c.value[f.name]) in values;
        }
      }
    }
  }

  lemma KeptInSpecOrder(spec: SecretSpec, values: Fields)
    requires Accepted(spec, values).Success?
    ensures InSpecOrder(spec, Accepted(spec, values).value)
    ensures forall p :: p in Accepted(spec, values).value <==> p in values
  {
    CollectMeaning(spec, map[], values);
    var found := Collect(spec, map[], values).value;
    ArrangeMeaning(spec.fields, found, []);
    var out := Accepted(spec, values).value;
    assert forall i :: 0 <= i < |out| ==> out[0 + i] == (spec.fields[i].name, found[spec.fields[i].name]);
    assert forall f :: f in spec.fields ==> f.name in found && CheckFieldValue(found[f.name]) == Fine;
    NoneDropped(spec, values, found, out);
  }

  lemma NoneDropped(spec: SecretSpec, values: Fields, found: map<string, string>, out: Fields)
    requires forall p :: p in values ==> Declared(spec, p.0) && p.0 in found && found[p.0] == p.1
    requires |out| == |spec.fields|
    requires forall i :: 0 <= i < |out| ==> spec.fields[i].name in found
    requires forall i :: 0 <= i < |out| ==> out[i] == (spec.fields[i].name, found[spec.fields[i].name])
    ensures forall p :: p in values ==> p in out
  {
    forall p | p in values
      ensures p in out
    {
      var f :| f in spec.fields && f.name == p.0;
      var i :| 0 <= i < |spec.fields| && spec.fields[i] == f;
      assert out[i] == p;
    }
  }

  /** The field an error names has the fault it is blamed for. */
  predicate Faulty(spec: SecretSpec, values: Fields, e: SubmitError) {
    match e
    case UnknownField(n) => !Declared(spec, n) && exists p :: p in values && p.0 == n
    case SubmittedTwice(n) => exists i, j :: 0 <= i < j < |values| && values[i].0 == values[j].0 == n
    case MissingField(n) => Declared(spec, n) && forall p :: p in values ==> p.0 != n
    case BadValue(n, why) =>
      Declared(spec, n) && why != Fine && exists p :: p in values && p.0 == n && CheckFieldValue(p.1) == why
  }

  lemma {:induction false} CollectRefusal(spec: SecretSpec, values: Fields, i: nat, found: map<string, string>)
    requires i <= |values| && Collect(spec, found, values[i..]).Failure?
    requires forall k :: k in found ==> exists j :: 0 <= j < i && values[j].0 == k
    ensures Faulty(spec, values, Collect(spec, found, values[i..]).error)
    decreases |values| - i
  {
    var (k, v) := values[i];
    assert values[i] in values && values[i..][1..] == values[i + 1..];
    if Declared(spec, k) && k !in found {
      var next := found[k := v];
      forall x | x in next
        ensures exists j :: 0 <= j < i + 1 && values[j].0 == x
      {
        if x == k {
          assert values[i].0 == x;
        }
      }
      CollectRefusal(spec, values, i + 1, next);
    }
  }

  lemma {:induction false} ArrangeRefusal(fields: seq<FieldSpec>, found: map<string, string>, done: Fields)
    requires Arrange(fields, found, done).Failure?
    ensures match Arrange(fields, found, done).error
            case MissingField(n) => n !in found && exists f :: f in fields && f.name == n
            case BadValue(n, why) =>
              n in found && CheckFieldValue(found[n]) == why != Fine && exists f :: f in fields && f.name == n
            case _ => false
    decreases fields
  {
    assert fields[0] in fields;
    var name := fields[0].name;
    if name in found && CheckFieldValue(found[name]) == Fine {
      ArrangeRefusal(fields[1..], found, done + [(name, found[name])]);
      assert fields == [fields[0]] + fields[1..];
    }
  }

  /** A refusal is never mistaken: the field it names has the fault it names. */
  lemma RefusalIsTrue(spec: SecretSpec, values: Fields)
    requires Accepted(spec, values).Failure?
    ensures Faulty(spec, values, Accepted(spec, values).error)
  {
    assert values[0..] == values;
    var c := Collect(spec, map[], values);
    if c.Failure? {
      CollectRefusal(spec, values, 0, map[]);
    } else {
      CollectMeaning(spec, map[], values);
      ArrangeRefusal(spec.fields, c.value, []);
      var e := Accepted(spec, values).error;
      if e.BadValue? {
        assert (e.name, c.value[e.name]) in values;
      }
    }
  }

  /** Acceptance, exactly: good forms and no others, and of a good form every
      submitted value, in the order the spec declares. */
  lemma AcceptsExactlyGoodForms(spec: SecretSpec, values: Fields)
    ensures Accepted(spec, values).Success? <==> GoodForm(spec, values)
    ensures Accepted(spec, values).Success? ==>
              && InSpecOrder(spec, Accepted(spec, values).value)
              && (forall p :: p in Accepted(spec, values).value <==> p in values)
  {
    GoodFormExactly(spec, values);
    if Accepted(spec, values).Success? {
      KeptInSpecOrder(spec, values);
    }
  }

  // --- the stored file ----------------------------------------------------------

  datatype Lack = NotThere(name: string) | Unusable(name: string)

  datatype StoredState =
    | Absent
    | Complete(values: Fields)
    | Incomplete(missing: seq<Lack>, usable: map<string, string>)

  predicate Holds(parsed: map<string, string>, name: string) {
    name in parsed && CheckFieldValue(parsed[name]) == Fine
  }

  function Usable(fields: seq<FieldSpec>, parsed: map<string, string>): Fields {
    if fields == [] then []
    else
      var name := fields[|fields| - 1].name;
      Usable(fields[..|fields| - 1], parsed) + if Holds(parsed, name) then [(name, parsed[name])] else []
  }

  function Lacking(fields: seq<FieldSpec>, parsed: map<string, string>): seq<Lack> {
    if fields == [] then []
    else
      var name := fields[|fields| - 1].name;
      Lacking(fields[..|fields| - 1], parsed) +
      if Holds(parsed, name) then [] else if name in parsed then [Unusable(name)] else [NotThere(name)]
  }

  function Classified(spec: SecretSpec, parsed: Option<map<string, string>>): StoredState {
    match parsed
    case None => Absent
    case Some(m) =>
      if Lacking(spec.fields, m) == [] then Complete(Usable(spec.fields, m))
      else Incomplete(Lacking(spec.fields, m), MapOf(Usable(spec.fields, m)))
  }

  method ClassifyStored(spec: SecretSpec, parsed: Option<map<string, string>>) returns (r: StoredState)
    ensures r == Classified(spec, parsed)
  {
    if parsed.None? {
      return Absent;
    }
    var m := parsed.value;
    var values: Fields, usable: map<string, string>, missing: seq<Lack> := [], map[], [];
    for i := 0 to |spec.fields|
      invariant values == Usable(spec.fields[..i], m)
      invariant usable == MapOf(values)
      invariant missing == Lacking(spec.fields[..i], m)
    {
      assert spec.fields[..i + 1][..i] == spec.fields[..i];
      var name := spec.fields[i].name;
      if Holds(m, name) {
        usable := usable[name := m[name]];
        assert (values + [(name, m[name])])[..|values|] == values;
        values := values + [(name, m[name])];
      } else if name in m {
        missing := missing + [Unusable(name)];
      } else {
        missing := missing + [NotThere(name)];
      }
    }
    assert spec.fields[..|spec.fields|] == spec.fields;
    return if missing == [] then Complete(values) else Incomplete(missing, usable);
  }

  lemma {:induction false} ClassifyMeaning(fields: seq<FieldSpec>, m: map<string, string>)
    ensures Lacking(fields, m) == [] <==> forall f :: f in fields ==> Holds(m, f.name)
    ensures Lacking(fields, m) == [] ==>
              && |Usable(fields, m)| == |fields|
              && forall i :: 0 <= i < |fields| ==> Usable(fields, m)[i] == (fields[i].name, m[fields[i].name])
  {
    if fields != [] {
      assert fields == fields[..|fields| - 1] + [fields[|fields| - 1]];
      ClassifyMeaning(fields[..|fields| - 1], m);
    }
  }

  /** A file is complete exactly when it holds a representable value for every
      declared field; those values, in spec order, are all that is taken. */
  lemma CompleteExactly(spec: SecretSpec, m: map<string, string>, values: Fields)
    ensures Classified(spec, Some(m)) == Complete(values) <==>
            && InSpecOrder(spec, values)
            && (forall p :: p in values ==> p.0 in m && m[p.0] == p.1)
  {
    ClassifyMeaning(spec.fields, m);
    if && InSpecOrder(spec, values) && (forall p :: p in values ==> p.0 in m && m[p.0] == p.1) {
      forall f | f in spec.fields
        ensures Holds(m, f.name)
      {
        var i :| 0 <= i < |spec.fields| && spec.fields[i] == f;
        assert values[i] in values;
      }
      assert forall i :: 0 <= i < |values| ==> values[i] in values;
      assert Usable(spec.fields, m) == values;
    }
  }

  // --- written, then read back ------------------------------------------------------

  lemma {:induction false} MapOfConsistent(fields: Fields, m: map<string, string>)
    requires forall p :: p in fields ==> p.0 in m && m[p.0] == p.1
    ensures forall p :: p in fields ==> p.0 in MapOf(fields) && MapOf(fields)[p.0] == p.1
  {
    if fields != [] {
      assert fields == fields[..|fields| - 1] + [fields[|fields| - 1]];
      MapOfConsistent(fields[..|fields| - 1], m);
    }
  }

  lemma InSpecOrderIsStorable(spec: SecretSpec, values: Fields)
    requires WellFormed(spec) && InSpecOrder(spec, values)
    ensures Storable(values)
  {
    forall p | p in values
      ensures IsValidKey(p.0) && '\n' !in p.1
    {
      var i :| 0 <= i < |values| && values[i] == p;
      assert spec.fields[i] in spec.fields && IsControl('\n');
    }
  }

  /** What is written for one complete set of values is what the next boot reads. */
  lemma WrittenIsComplete(spec: SecretSpec, values: Fields, m: map<string, string>)
    requires WellFormed(spec) && InSpecOrder(spec, values)
    requires forall p :: p in values ==> p.0 in m && m[p.0] == p.1
    ensures Classified(spec, Some(Parsed(Encoded(values)))) == Complete(values)
  {
    InSpecOrderIsStorable(spec, values);
    ParseEncoded(values);
    MapOfConsistent(values, m);
    CompleteExactly(spec, MapOf(values), values);
  }

  /** The accepted values, written and read back, are a complete stored secret:
      no requirement that the field names be distinct. */
  lemma AcceptedReadsBackComplete(spec: SecretSpec, submitted: Fields)
    requires WellFormed(spec) && Accepted(spec, submitted).Success?
    ensures var v := Accepted(spec, submitted).value;
            Classified(spec, Some(Parsed(Encoded(v)))) == Complete(v)
  {
    AcceptsExactlyGoodForms(spec, submitted);
    CollectMeaning(spec, map[], submitted);
    WrittenIsComplete(spec, Accepted(spec, submitted).value, Collect(spec, map[], submitted).value);
  }

  // --- prompts --------------------------------------------------------------------

  datatype FieldView = FieldView(name: string, description: string, sensitive: bool, value: string)

  /** A field of a prompt: it never carries the value of a sensitive field, and so
      no prompt and no snapshot built from it can. */
  type PromptField = v: FieldView | v.sensitive ==> v.value == "" witness FieldView("", "", true, "")

  function PromptFields(spec: SecretSpec, known: map<string, string>): seq<PromptField> {
    seq(|spec.fields|, i requires 0 <= i < |spec.fields| =>
      var f := spec.fields[i];
      FieldView(f.name, f.description, f.sensitive,
        if f.sensitive || f.name !in known then "" else known[f.name]))
  }

  /** The entries whose field, as first declared, is not sensitive. */
  function Visible(spec: SecretSpec, values: Fields): map<string, string> {
    if values == [] then map[]
    else
      var (k, v) := values[|values| - 1];
      var f := FieldNamed(spec.fields, k);
      var rest := Visible(spec, values[..|values| - 1]);
      if f.Some? && !f.value.sensitive then rest[k := v] else rest
  }

  function VisibleStored(spec: SecretSpec, m: map<string, string>): map<string, string> {
    map k | k in m && (var f := FieldNamed(spec.fields, k); f.Some? && !f.value.sensitive) :: m[k]
  }

  /** The values of the fields that are declared not sensitive. */
  function Prefill(spec: SecretSpec, m: map<string, string>): map<string, string> {
    map k | k in m && (exists f :: f in spec.fields && f.name == k && !f.sensitive) :: m[k]
  }
}
