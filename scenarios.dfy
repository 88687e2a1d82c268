/**
 * The schema and snapshots of src/__tests__/Validation.test.ts, and the
 * outcomes that file expects, stated about the model.
 */
module Scenarios {
  import opened JsObject
  import opened Types
  import opened Utilities
  import opened Reducer
  import AutoProps
  import Example

  /** JavaScript truthiness. */
  predicate Truthy(v: Value) {
    match v
    case Undefined => false
    case Null => false
    case Bool(b) => b
    case Num(n) => n != 0
    case Str(s) => s != []
    case Other(_, _) => true
  }

  /** `compose(stringIsNotEmpty, defaultTo(''), prop('name'))`. */
  function NameRequired(d: Data): Result<bool> {
    match Get(d, "name")
    case Undefined => Ok(false)
    case Null => Ok(false)
    case Str(s) => Ok(StringIsNotEmpty(s))
    case _ => Thrown("str.trim is not a function")
  }

  /** `compose(not, equals('bob'), prop('name'))`. */
  function NotBob(d: Data): Result<bool> {
    Ok(Get(d, "name") != Str("bob"))
  }

  /** `state.dingo ? state.name === 'dingo' : true`. */
  function DingoName(d: Data): Result<bool> {
    Ok(if Truthy(Get(d, "dingo")) then Get(d, "name") == Str("dingo") else true)
  }

  /** `state.age >= 18`, with `Number()` on strings given as `parse`. */
  function Adult(parse: string -> Option<int>): Data -> Result<bool> {
    d => Ok(AutoProps.Compare(AutoProps.ToNumber(Get(d, "age"), parse), x => x >= 18))
  }

  function NameRules(): seq<Rule> {
    [Rule("Name is required.", NameRequired), Rule("Cannot be bob.", NotBob), Rule("Must be dingo.", DingoName)]
  }

  function AgeRules(parse: string -> Option<int>): seq<Rule> {
    [Rule("Must be 18.", Adult(parse))]
  }

  /** The test schema: `name` with three rules, `age` with one. */
  function TestSchema(parse: string -> Option<int>): (r: Schema)
    ensures r.keys == ["name", "age"]
    ensures r.fields == map["name" := NameRules(), "age" := AgeRules(parse)]
  {
    Obj(["name", "age"], map["name" := NameRules(), "age" := AgeRules(parse)])
  }

  /** `failingState`: `{name: 'bob', dingo: false, age: 15}`. */
  function FailingData(): Data {
    map["name" := Str("bob"), "dingo" := Bool(false), "age" := Num(15)]
  }

  /** A rule that holds in front of others adds no message. */
  lemma Passes(r: Rule, tail: seq<Rule>, d: Data, rest: seq<string>)
    requires r.validation(d) == Ok(true) && FailingMessages(tail, d) == Ok(rest)
    ensures FailingMessages([r] + tail, d) == Ok(rest)
  {
    ConsAppend([r], tail);
    AppendEmpty(rest);
  }

  /** A rule that fails, with a message that is not blank, puts its message first. */
  lemma Fails(r: Rule, tail: seq<Rule>, d: Data, rest: seq<string>)
    requires r.validation(d) == Ok(false) && StringIsNotEmpty(r.error) && FailingMessages(tail, d) == Ok(rest)
    ensures FailingMessages([r] + tail, d) == Ok([r.error] + rest)
  {
    ConsAppend([r], tail);
  }

  /** The same for a list given whole: a first rule that fails puts its message before the rest's. */
  lemma FailsFirst(rules: seq<Rule>, d: Data, rest: seq<string>)
    requires rules != [] && rules[0].validation(d) == Ok(false) && StringIsNotEmpty(rules[0].error)
    requires FailingMessages(rules[1..], d) == Ok(rest)
    ensures FailingMessages(rules, d) == Ok([rules[0].error] + rest)
  {
  }

  /** Under `failingState`, the last two `name` rules report only "Cannot be bob.". */
  lemma FailingNameTail()
    ensures FailingMessages(NameRules()[1..], FailingData()) == Ok(["Cannot be bob."])
  {
    var r2, r3 := Rule("Cannot be bob.", NotBob), Rule("Must be dingo.", DingoName);
    assert NameRules()[1..] == [r2] + ([r3] + []);
    assert StringIsNotEmpty(r2.error) by { assert !IsWhitespace(r2.error[0]); }
    Passes(r3, [], FailingData(), []);
    Fails(r2, [r3] + [], FailingData(), []);
    AppendEmpty([r2.error]);
  }

  /** Under `failingState`, `name` fails only "Cannot be bob.". */
  lemma FailingName()
    ensures FailingMessages(NameRules(), FailingData()) == Ok(["Cannot be bob."])
  {
    var r1 := Rule("Name is required.", NameRequired);
    assert NameRules() == [r1] + NameRules()[1..];
    assert NameRequired(FailingData()) == Ok(true) by { assert !IsWhitespace('b'); }
    FailingNameTail();
    Passes(r1, NameRules()[1..], FailingData(), ["Cannot be bob."]);
  }

  /** Under `failingState`, `age` fails "Must be 18.". */
  lemma FailingAge(parse: string -> Option<int>)
    ensures FailingMessages(AgeRules(parse), FailingData()) == Ok(["Must be 18."])
  {
    var r := Rule("Must be 18.", Adult(parse));
    assert AgeRules(parse) == [r] + [];
    assert StringIsNotEmpty(r.error) by { assert !IsWhitespace(r.error[0]); }
    Fails(r, [], FailingData(), []);
    AppendEmpty([r.error]);
  }

  /** The entries `failingState` gives the two fields. */
  lemma FailingEntries(parse: string -> Option<int>)
    ensures FieldEntry(TestSchema(parse), "name", FailingData()) == Ok(Entry(false, ["Cannot be bob."]))
    ensures FieldEntry(TestSchema(parse), "age", FailingData()) == Ok(Entry(false, ["Must be 18."]))
  {
    FailingName();
    FailingAge(parse);
    FieldEntrySpec(TestSchema(parse), "name", FailingData());
    FieldEntrySpec(TestSchema(parse), "age", FailingData());
  }

  /** A map binding exactly `name` and `age` is the display of its two values. */
  lemma TwoFields<V>(m: map<string, V>)
    requires m.Keys == {"name", "age"}
    ensures m == map["name" := m["name"], "age" := m["age"]]
  {
  }

  /** `validateAll` over a two-field schema, from the initial state, holds the two computed entries in schema order. */
  lemma TwoFieldState(schema: Schema, data: Data, e1: Entry, e2: Entry, r: State)
    requires schema.keys == ["name", "age"]
    requires FieldEntry(schema, "name", data) == Ok(e1) && FieldEntry(schema, "age", data) == Ok(e2)
    requires ReducedFrom(schema, schema.keys, data, CreateValidationState(schema), false, r)
    ensures r.keys == ["name", "age"]
    ensures r.fields == map["name" := e1, "age" := e2]
  {
    var s := CreateValidationState(schema);
    ReducedOverSchema(schema, s, data, r);
    TwoFieldFacts(schema, s, r, data, e1, e2);
  }

  /** The facts `validateAll` from the initial state gives about a two-field schema, turned into its state. */
  lemma TwoFieldFacts(schema: Schema, s: State, r: State, data: Data, e1: Entry, e2: Entry)
    requires schema.keys == ["name", "age"] && s.keys == schema.keys
    requires FieldEntry(schema, "name", data) == Ok(e1) && FieldEntry(schema, "age", data) == Ok(e2)
    requires IsPrefix(s.keys, r.keys)
    requires r.fields.Keys == schema.fields.Keys
    requires forall k | k in r.fields :: FieldEntry(schema, k, data).Ok? && r.fields[k] == FieldEntry(schema, k, data).value
    ensures r.keys == ["name", "age"]
    ensures r.fields == map["name" := e1, "age" := e2]
  {
    TwoKeys(schema, r);
    PrefixSameKeys(s, r);
    TwoFields(r.fields);
  }

  /** An object with the keys of a two-field schema binds exactly those two. */
  lemma TwoKeys<V>(schema: Schema, r: Record<string, V>)
    requires schema.keys == ["name", "age"]
    requires r.fields.Keys == schema.fields.Keys
    ensures r.fields.Keys == {"name", "age"}
  {
    assert forall k | k in schema.fields :: k in schema.keys;
  }

  /** The state `validateAll(failingState)` commits from the initial state. */
  lemma FailingState(parse: string -> Option<int>, r: State)
    requires ReducedFrom(TestSchema(parse), TestSchema(parse).keys, FailingData(), CreateValidationState(TestSchema(parse)), false, r)
    ensures r.keys == ["name", "age"]
    ensures r.fields == map["name" := Entry(false, ["Cannot be bob."]), "age" := Entry(false, ["Must be 18."])]
  {
    FailingEntries(parse);
    TwoFieldState(TestSchema(parse), FailingData(), Entry(false, ["Cannot be bob."]), Entry(false, ["Must be 18."]), r);
  }

  /** The errors of the state `validateAll(failingState)` commits, in key order. */
  lemma FailingStateFirstErrors(r: State)
    requires r.keys == ["name", "age"]
    requires r.fields == map["name" := Entry(false, ["Cannot be bob."]), "age" := Entry(false, ["Must be 18."])]
    ensures FirstErrors(r.keys, r) == ["Cannot be bob.", "Must be 18."]
  {
    assert GetError("name", r) == "Cannot be bob.";
    assert GetError("age", r) == "Must be 18.";
    assert r.keys[1..] == ["age"] && r.keys[1..][1..] == [];
    assert FirstErrors(["age"], r) == ["Must be 18."] + [];
  }

  /** `validateAll(failingState)` reports `['Cannot be bob.', 'Must be 18.']` and the state turns invalid. */
  lemma FailingStateErrors(parse: string -> Option<int>)
    ensures var schema := TestSchema(parse);
      var r := ValidatedAll(schema, CreateValidationState(schema), FailingData(), schema.keys, false);
      && r.Ok?
      && GatherValidationErrors(r.value) == ["Cannot be bob.", "Must be 18."]
      && !CalculateIsValid(r.value)
  {
    var schema := TestSchema(parse);
    FailingEntries(parse);
    assert forall k | k in schema.keys :: FieldEntry(schema, k, FailingData()).Ok?;
    var r := ValidatedAll(schema, CreateValidationState(schema), FailingData(), schema.keys, false).value;
    FailingState(parse, r);
    FailingStateFirstErrors(r);
    assert !r.fields["name"].isValid;
  }

  /** `{name: 'mary', dingo: true}`. */
  function MaryData(): Data {
    map["name" := Str("mary"), "dingo" := Bool(true)]
  }

  /** `{...defaultState, name: 'chuck', dingo: true}`. */
  function ChuckData(): Data {
    map["name" := Str("chuck"), "dingo" := Bool(true), "age" := Num(42)]
  }

  /** A name that is given, is not bob and is not dingo while `dingo` is set fails only "Must be dingo.". */
  lemma DingoOnly(d: Data)
    requires NameRequired(d) == Ok(true) && NotBob(d) == Ok(true) && DingoName(d) == Ok(false)
    ensures FailingMessages(NameRules(), d) == Ok(["Must be dingo."])
  {
    var r1, r2, r3 := Rule("Name is required.", NameRequired), Rule("Cannot be bob.", NotBob), Rule("Must be dingo.", DingoName);
    assert NameRules() == [r1] + ([r2] + ([r3] + []));
    assert StringIsNotEmpty(r3.error) by { assert !IsWhitespace(r3.error[0]); }
    Fails(r3, [], d, []);
    AppendEmpty([r3.error]);
    Passes(r2, [r3] + [], d, [r3.error]);
    Passes(r1, [r2] + ([r3] + []), d, [r3.error]);
  }

  /** Under `{name: 'mary', dingo: true}`, `name` fails only "Must be dingo.". */
  lemma MaryName()
    ensures FailingMessages(NameRules(), MaryData()) == Ok(["Must be dingo."])
  {
    assert Get(MaryData(), "name") == Str("mary");
    assert StringIsNotEmpty("mary") by { assert !IsWhitespace("mary"[0]); }
    DingoOnly(MaryData());
  }

  /** Under `{...defaultState, name: 'chuck', dingo: true}`, `name` fails only "Must be dingo.". */
  lemma ChuckName()
    ensures FailingMessages(NameRules(), ChuckData()) == Ok(["Must be dingo."])
  {
    assert Get(ChuckData(), "name") == Str("chuck");
    assert StringIsNotEmpty("chuck") by { assert !IsWhitespace("chuck"[0]); }
    DingoOnly(ChuckData());
  }

  /** `{name: '', dingo: true}`. */
  function BlankDingoData(): Data {
    map["name" := Str(""), "dingo" := Bool(true)]
  }

  /** A name that is not bob while `dingo` is set and the name is not dingo: the last two `name` rules report "Must be dingo.". */
  lemma DingoTail(d: Data)
    requires NotBob(d) == Ok(true) && DingoName(d) == Ok(false)
    ensures FailingMessages(NameRules()[1..], d) == Ok(["Must be dingo."])
  {
    var r2, r3 := Rule("Cannot be bob.", NotBob), Rule("Must be dingo.", DingoName);
    assert NameRules()[1..] == [r2] + ([r3] + []);
    assert StringIsNotEmpty(r3.error) by { assert !IsWhitespace(r3.error[0]); }
    Fails(r3, [], d, []);
    AppendEmpty([r3.error]);
    Passes(r2, [r3] + [], d, [r3.error]);
  }

  /** A blank name while `dingo` is set fails the first and last `name` rules, in rule order. */
  lemma BlankAndDingo(d: Data)
    requires NameRequired(d) == Ok(false) && NotBob(d) == Ok(true) && DingoName(d) == Ok(false)
    ensures FailingMessages(NameRules(), d) == Ok(["Name is required.", "Must be dingo."])
  {
    var r1 := NameRules()[0];
    assert r1 == Rule("Name is required.", NameRequired);
    assert StringIsNotEmpty(r1.error) by { assert !IsWhitespace(r1.error[0]); }
    DingoTail(d);
    FailsFirst(NameRules(), d, ["Must be dingo."]);
    assert [r1.error] + ["Must be dingo."] == ["Name is required.", "Must be dingo."];
  }

  /** "retrieves array of all error messages": under `{name: '', dingo: true}`, `name` reports both messages. */
  lemma BlankDingoName()
    ensures FailingMessages(NameRules(), BlankDingoData()) == Ok(["Name is required.", "Must be dingo."])
  {
    var d := BlankDingoData();
    assert Get(d, "name") == Str("") && Get(d, "dingo") == Bool(true);
    assert NameRequired(d) == Ok(false) by { assert !StringIsNotEmpty(""); }
    assert DingoName(d) == Ok(false);
    BlankAndDingo(d);
  }

  /** A field whose rules report exactly one message gets an invalid entry holding it. */
  lemma OneMessageEntry(schema: Schema, p: string, data: Data, message: string)
    requires FailingMessages(RulesOf(schema, p), data) == Ok([message])
    ensures FieldEntry(schema, p, data) == Ok(Entry(false, [message]))
  {
    FieldEntrySpec(schema, p, data);
  }

  /** The initial state of a schema with fields `name` and `age`: both valid, in schema order. */
  lemma InitialTwoFieldState(schema: Schema)
    requires schema.keys == ["name", "age"]
    ensures CreateValidationState(schema).keys == ["name", "age"]
    ensures CreateValidationState(schema).fields == map["name" := ValidEntry(), "age" := ValidEntry()]
  {
    var s := CreateValidationState(schema);
    TwoKeys(schema, s);
    TwoFields(s.fields);
  }

  /** The initial state of the test schema: both fields valid, in schema order. */
  lemma InitialTestState(parse: string -> Option<int>)
    ensures CreateValidationState(TestSchema(parse)).keys == ["name", "age"]
    ensures CreateValidationState(TestSchema(parse)).fields == map["name" := ValidEntry(), "age" := ValidEntry()]
  {
    InitialTwoFieldState(TestSchema(parse));
  }


  /** Assigning `name` in the initial state of a two-field schema replaces that entry and keeps the order. */
  lemma AssocName(s0: State, e: Entry)
    requires s0.keys == ["name", "age"]
    requires s0.fields == map["name" := ValidEntry(), "age" := ValidEntry()]
    ensures Assoc(s0, "name", e).keys == ["name", "age"]
    ensures Assoc(s0, "name", e).fields == map["name" := e, "age" := ValidEntry()]
  {
    assert "name" in s0.fields;
    TwoFields(Assoc(s0, "name", e).fields);
  }

  /**
   * "updates the validationState when validation fails": `validate('name',
   * {name: 'mary', dingo: true})` on a fresh object returns `false` and
   * leaves `name` invalid with "Must be dingo." and `age` untouched.
   */
  method ValidateMary(parse: string -> Option<int>) returns (output: Result<bool>, valid: bool, state: State)
    ensures output == Ok(false) && !valid
    ensures state.keys == ["name", "age"]
    ensures state.fields == map["name" := Entry(false, ["Must be dingo."]), "age" := ValidEntry()]
  {
    var schema := TestSchema(parse);
    var e := Entry(false, ["Must be dingo."]);
    var v := new Example.Validation(Some(schema));
    var s0 := v.state;
    MaryName();
    OneMessageEntry(schema, "name", MaryData(), e.errors[0]);
    InitialTestState(parse);
    AssocName(s0, e);
    output := v.Validate("name", MaryData());
    assert output == Ok(false);
    assert v.state == Assoc(s0, "name", e);
    state := v.state;
    valid := v.IsValid();
    assert !state.fields["name"].isValid;
  }

  /**
   * "updates the validationState when validation fails" for
   * `validateIfTrue`: a failing field returns `true` and commits nothing.
   */
  method ValidateIfTrueChuck(parse: string -> Option<int>) returns (output: Result<bool>, valid: bool, state: State)
    ensures output == Ok(true) && valid
    ensures state == CreateValidationState(TestSchema(parse))
  {
    var schema := TestSchema(parse);
    var v := new Example.Validation(Some(schema));
    var s0 := v.state;
    ChuckName();
    OneMessageEntry(schema, "name", ChuckData(), "Must be dingo.");
    InitialState(schema);
    output := v.ValidateIfTrue("name", ChuckData());
    assert v.state == s0;
    state := v.state;
    valid := v.IsValid();
    assert valid;
  }

  /** "returns an array of all errors": `validateAll(failingState)` returns `false` and lists both errors. */
  method ValidateAllFailing(parse: string -> Option<int>) returns (output: Result<bool>, errors: seq<string>)
    ensures output == Ok(false)
    ensures errors == ["Cannot be bob.", "Must be 18."]
  {
    var schema := TestSchema(parse);
    var v := new Example.Validation(Some(schema));
    var ps := schema.keys;
    FailingStateErrors(parse);
    var expected := ValidatedAll(schema, CreateValidationState(schema), FailingData(), ps, false);
    output := v.ValidateAll(FailingData(), None);
    assert v.state == expected.value;
    errors := v.ValidationErrors();
  }

  /**
   * "handles a bogus schema": `Validation(null)` starts empty and valid,
   * and `validateAll` without a field list then throws and commits nothing.
   */
  method BogusSchema(data: Data) returns (initial: bool, all: Result<bool>)
    ensures initial
    ensures all.Thrown?
  {
    var v := new Example.Validation(None);
    initial := v.IsValid();
    all := v.ValidateAll(data, None);
  }
}
