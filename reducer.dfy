/**
 * The pure half of src/index.ts: building the initial validation state,
 * evaluating one field's rules into its entry, merging entries into the
 * state, and the derived views (aggregate validity, first-error list,
 * per-field getters). The commit policies of the `create*` factories are
 * stated here as next-state functions; the facades in `Example` and
 * `Vanilla` perform the commits.
 */
module Reducer {
  import opened JsObject
  import opened Types
  import opened Maybe
  import opened Utilities

  // ---------------------------------------------------------------------------
  // Reading the state

  /** `R.prop(property)` on a state: the entry, or `undefined` when the field is absent. */
  function PropOf(s: State, p: string): Nullable<Entry> {
    if p in s.fields then Present(s.fields[p]) else UndefinedValue
  }

  /** `isPropertyValid(property)(state)`: `R.path([property, 'isValid'])`, defaulting to `true`. */
  function IsPropertyValid(p: string, s: State): (r: bool)
    ensures r <==> p !in s.fields || s.fields[p].isValid
  {
    var path := Map(Map(Of<State>(Present(s)), (st: State) => PropOf(st, p)), (e: Entry) => Present(e.isValid));
    JoinOr(path, true)
  }

  /** The `reduce` of `calculateIsValid` from accumulator `acc` over the keys `ks`. */
  function ValidFrom(ks: seq<string>, s: State, acc: bool): (r: bool)
    ensures r <==> acc && forall i | 0 <= i < |ks| :: IsPropertyValid(ks[i], s)
  {
    if ks == [] then acc
    else
      var r := ValidFrom(ks[1..], s, if acc then IsPropertyValid(ks[0], s) else acc);
      assert forall i | 1 <= i < |ks| :: ks[i] == ks[1..][i - 1];
      r
  }

  /** `calculateIsValid(state)`: every entry is valid; the empty state is valid. */
  function CalculateIsValid(s: State): (r: bool)
    ensures r <==> forall k | k in s.fields :: s.fields[k].isValid
  {
    var r := ValidFrom(s.keys, s, true);
    assert forall k | k in s.fields :: exists i | 0 <= i < |s.keys| :: s.keys[i] == k;
    r
  }

  /** `getAllErrors(property)`: the field's errors, `[]` for an absent field. */
  function GetAllErrors(p: string, s: State): (r: seq<string>)
    ensures p in s.fields ==> r == s.fields[p].errors
    ensures p !in s.fields ==> r == []
  {
    var errors := Map(Map(Of<State>(Present(s)), (st: State) => PropOf(st, p)), (e: Entry) => Present(e.errors));
    JoinOr(errors, [])
  }

  /** `R.head`: `undefined` on the empty list. */
  function Head(xs: seq<string>): Nullable<string> {
    if xs == [] then UndefinedValue else Present(xs[0])
  }

  /** `getError(property)`: the field's first error, `''` when it is absent or has none. */
  function GetError(p: string, s: State): (r: string)
    ensures p in s.fields && s.fields[p].errors != [] ==> r == s.fields[p].errors[0]
    ensures p !in s.fields || s.fields[p].errors == [] ==> r == ""
  {
    var error := Map(Map(Map(Of<State>(Present(s)), (st: State) => PropOf(st, p)),
                         (e: Entry) => Present(e.errors)), Head);
    JoinOr(error, "")
  }

  /** `getFieldValid(property)`: `isPropertyValid` on the current state, `true` for an absent field. */
  function GetFieldValid(p: string, s: State): (r: bool)
    ensures r <==> p !in s.fields || s.fields[p].isValid
  {
    IsPropertyValid(p, s)
  }

  /** The first error of each key in `ks` that has one, in the order of `ks`. */
  function FirstErrors(ks: seq<string>, s: State): seq<string> {
    if ks == [] then []
    else (if GetError(ks[0], s) != "" then [GetError(ks[0], s)] else []) + FirstErrors(ks[1..], s)
  }

  /** The `reduce` of `gatherValidationErrors` from accumulator `acc` over the keys `ks`. */
  function GatherFrom(ks: seq<string>, s: State, acc: seq<string>): (r: seq<string>)
    ensures r == acc + FirstErrors(ks, s)
  {
    if ks == [] then acc
    else
      var e := GetError(ks[0], s);
      var next := if e != "" then acc + [e] else acc;
      var r := GatherFrom(ks[1..], s, next);
      assert next + FirstErrors(ks[1..], s) == acc + FirstErrors(ks, s);
      r
  }

  /** `gatherValidationErrors(state)`: the first error of every field that has one, in key order. */
  function GatherValidationErrors(s: State): (r: seq<string>)
    ensures r == FirstErrors(s.keys, s)
  {
    GatherFrom(s.keys, s, [])
  }

  /** The errors of a list of keys come out in the order of the keys. */
  lemma {:induction false} FirstErrorsAppend(ks1: seq<string>, ks2: seq<string>, s: State)
    ensures FirstErrors(ks1 + ks2, s) == FirstErrors(ks1, s) + FirstErrors(ks2, s)
  {
    if ks1 == [] {
      assert ks1 + ks2 == ks2;
    } else {
      assert (ks1 + ks2)[1..] == ks1[1..] + ks2;
      FirstErrorsAppend(ks1[1..], ks2, s);
    }
  }

  /** No gathered error is empty, and an error is gathered exactly when some key has it first. */
  lemma {:induction false} FirstErrorsMembers(ks: seq<string>, s: State)
    ensures |FirstErrors(ks, s)| <= |ks|
    ensures forall e | e in FirstErrors(ks, s) :: e != ""
    ensures forall e :: e in FirstErrors(ks, s) <==> exists i | 0 <= i < |ks| :: e != "" && GetError(ks[i], s) == e
  {
    if ks != [] {
      FirstErrorsMembers(ks[1..], s);
      forall e ensures e in FirstErrors(ks, s) <==> exists i | 0 <= i < |ks| :: e != "" && GetError(ks[i], s) == e {
        if e in FirstErrors(ks, s) && !(e != "" && GetError(ks[0], s) == e) {
          var i :| 0 <= i < |ks[1..]| && e != "" && GetError(ks[1..][i], s) == e;
          assert GetError(ks[i + 1], s) == e;
        }
        if exists i | 0 <= i < |ks| :: e != "" && GetError(ks[i], s) == e {
          var i :| 0 <= i < |ks| && e != "" && GetError(ks[i], s) == e;
          if i > 0 {
            assert GetError(ks[1..][i - 1], s) == e;
          }
        }
      }
    }
  }

  /** No error is gathered exactly when every key's first error is `''`. */
  lemma {:induction false} FirstErrorsNone(ks: seq<string>, s: State)
    ensures FirstErrors(ks, s) == [] <==> forall i | 0 <= i < |ks| :: GetError(ks[i], s) == ""
  {
    if ks != [] {
      FirstErrorsNone(ks[1..], s);
      assert forall i | 1 <= i < |ks| :: ks[i] == ks[1..][i - 1];
    }
  }

  // ---------------------------------------------------------------------------
  // Building the state

  /** A field that has not been validated, or has passed: `{isValid: true, errors: []}`. */
  function ValidEntry(): Entry {
    Entry(true, [])
  }

  /** `createValidationState(schema)`: every schema key, in schema order, with a valid entry. */
  function CreateValidationState(schema: Schema): (r: State)
    ensures r.keys == schema.keys
    ensures r.fields.Keys == schema.fields.Keys
    ensures forall k | k in r.fields :: r.fields[k] == ValidEntry()
  {
    FillKeys(schema, ValidEntry());
    AssocAll(schema.keys, ValidEntry(), Empty())
  }

  // ---------------------------------------------------------------------------
  // Evaluating one field

  /** `R.prop(property)` then `R.defaultTo([])` on the schema. */
  function RulesOf(schema: Schema, p: string): (r: seq<Rule>)
    ensures p in schema.fields ==> r == schema.fields[p]
    ensures p !in schema.fields ==> r == []
  {
    if p in schema.fields then schema.fields[p] else []
  }

  /**
   * `R.map(getErrorOrNone)`: `''` for each rule that holds of `data`, its
   * `error` for each that does not; the first rule that throws aborts.
   */
  function ErrorsOrNone(rules: seq<Rule>, data: Data): Result<seq<string>> {
    if rules == [] then Ok([])
    else
      match rules[0].validation(data)
      case Thrown(m) => Thrown(m)
      case Ok(valid) =>
        match ErrorsOrNone(rules[1..], data)
        case Thrown(m) => Thrown(m)
        case Ok(rest) => Ok([if valid then "" else rules[0].error] + rest)
  }

  /** `R.filter(stringIsNotEmpty)`. */
  function FilterNotEmpty(xs: seq<string>): seq<string> {
    if xs == [] then []
    else (if StringIsNotEmpty(xs[0]) then [xs[0]] else []) + FilterNotEmpty(xs[1..])
  }

  /** `updateValidationStateProp(errors)`: `{errors, isValid: Boolean(!errors.length)}`. */
  function ToEntry(errors: seq<string>): Entry {
    Entry(|errors| == 0, errors)
  }

  /** The entry `updateProperty` computes for field `p`. */
  function FieldEntry(schema: Schema, p: string, data: Data): Result<Entry> {
    match ErrorsOrNone(RulesOf(schema, p), data)
    case Thrown(m) => Thrown(m)
    case Ok(errors) => Ok(ToEntry(FilterNotEmpty(errors)))
  }

  /**
   * `updateProperty(schema)(property, data)`: the one-key object
   * `{[property]: entry}`. Field `p` of the result holds `FieldEntry`.
   */
  function UpdateProperty(schema: Schema, p: string, data: Data): (r: Result<State>)
    ensures r.Ok? <==> FieldEntry(schema, p, data).Ok?
    ensures r.Ok? ==> r.value.keys == [p] && r.value.fields == map[p := FieldEntry(schema, p, data).value]
    ensures r.Thrown? ==> r.message == FieldEntry(schema, p, data).message
  {
    match FieldEntry(schema, p, data)
    case Thrown(m) => Thrown(m)
    case Ok(entry) => Ok(Single(p, entry))
  }

  /**
   * The messages a field reports, stated directly: the `error` of every
   * rule that does not hold of `data`, in rule order, leaving out blank
   * messages; the first rule that throws aborts.
   */
  function FailingMessages(rules: seq<Rule>, data: Data): Result<seq<string>> {
    if rules == [] then Ok([])
    else
      match rules[0].validation(data)
      case Thrown(m) => Thrown(m)
      case Ok(valid) =>
        match FailingMessages(rules[1..], data)
        case Thrown(m) => Thrown(m)
        case Ok(rest) =>
          Ok((if !valid && StringIsNotEmpty(rules[0].error) then [rules[0].error] else []) + rest)
  }

  /** Mapping every rule to its message or `''` and then dropping blanks gives the failing messages. */
  lemma {:induction false} MapThenFilter(rules: seq<Rule>, data: Data)
    ensures ErrorsOrNone(rules, data).Thrown? <==> FailingMessages(rules, data).Thrown?
    ensures ErrorsOrNone(rules, data).Thrown? ==> ErrorsOrNone(rules, data).message == FailingMessages(rules, data).message
    ensures ErrorsOrNone(rules, data).Ok? ==> FilterNotEmpty(ErrorsOrNone(rules, data).value) == FailingMessages(rules, data).value
  {
    if rules != [] {
      MapThenFilter(rules[1..], data);
      match rules[0].validation(data)
      case Thrown(_) =>
      case Ok(valid) =>
        if ErrorsOrNone(rules[1..], data).Ok? {
          var rest := ErrorsOrNone(rules[1..], data).value;
          var head := if valid then "" else rules[0].error;
          FilterStep(head, rest);
          assert !StringIsNotEmpty("");
        }
    }
  }

  /** Filtering a list with a first element keeps that element exactly when it is not blank. */
  lemma FilterStep(head: string, rest: seq<string>)
    ensures FilterNotEmpty([head] + rest)
      == (if StringIsNotEmpty(head) then [head] else []) + FilterNotEmpty(rest)
  {
    assert ([head] + rest)[1..] == rest;
  }

  /**
   * `updateProperty`'s entry for `p`: its errors are the failing messages of
   * `p`'s rules, and it is valid exactly when there are none.
   */
  lemma FieldEntrySpec(schema: Schema, p: string, data: Data)
    ensures FieldEntry(schema, p, data).Thrown? <==> FailingMessages(RulesOf(schema, p), data).Thrown?
    ensures FieldEntry(schema, p, data).Ok? ==>
      && FieldEntry(schema, p, data).value.errors == FailingMessages(RulesOf(schema, p), data).value
      && (FieldEntry(schema, p, data).value.isValid <==> FieldEntry(schema, p, data).value.errors == [])
  {
    MapThenFilter(RulesOf(schema, p), data);
  }

  /** A field absent from the schema yields a valid entry with no errors. */
  lemma UnknownFieldIsValid(schema: Schema, p: string, data: Data)
    requires p !in schema.fields
    ensures FieldEntry(schema, p, data) == Ok(ValidEntry())
    ensures UpdateProperty(schema, p, data) == Ok(Single(p, ValidEntry()))
  {
  }

  /** There are no more messages than rules, and each reported message is non-blank. */
  lemma {:induction false} FailingMessagesSound(rules: seq<Rule>, data: Data)
    requires FailingMessages(rules, data).Ok?
    ensures |FailingMessages(rules, data).value| <= |rules|
    ensures forall e | e in FailingMessages(rules, data).value :: StringIsNotEmpty(e)
  {
    if rules != [] {
      var valid := rules[0].validation(data).value;
      FailingMessagesSound(rules[1..], data);
      var rest := FailingMessages(rules[1..], data).value;
      assert FailingMessages(rules, data).value ==
        (if !valid && StringIsNotEmpty(rules[0].error) then [rules[0].error] else []) + rest;
    }
  }

  /** Some rule of `rules` does not hold on `data` and carries message `e`. */
  predicate FailedWith(rules: seq<Rule>, data: Data, e: string) {
    exists i | 0 <= i < |rules| :: rules[i].validation(data) == Ok(false) && rules[i].error == e
  }

  /** A rule failing further down the list fails in the whole list. */
  lemma FailedWithTail(rules: seq<Rule>, data: Data, e: string)
    requires rules != [] && FailedWith(rules[1..], data, e)
    ensures FailedWith(rules, data, e)
  {
    var i :| 0 <= i < |rules[1..]| && rules[1..][i].validation(data) == Ok(false) && rules[1..][i].error == e;
    assert rules[i + 1] == rules[1..][i];
  }

  /** Each reported message belongs to a rule that does not hold. */
  lemma {:induction false} FailingMessagesOrigin(rules: seq<Rule>, data: Data)
    requires FailingMessages(rules, data).Ok?
    ensures forall e | e in FailingMessages(rules, data).value :: FailedWith(rules, data, e)
  {
    if rules != [] {
      var valid := rules[0].validation(data).value;
      FailingMessagesOrigin(rules[1..], data);
      var rest := FailingMessages(rules[1..], data).value;
      var all := FailingMessages(rules, data).value;
      assert all == (if !valid && StringIsNotEmpty(rules[0].error) then [rules[0].error] else []) + rest;
      forall e | e in all
        ensures FailedWith(rules, data, e)
      {
        if e in rest {
          FailedWithTail(rules, data, e);
        } else {
          assert rules[0].validation(data) == Ok(false) && rules[0].error == e;
        }
      }
    }
  }

  /** Every rule that does not hold and has a non-blank message is reported. */
  lemma {:induction false} FailingMessagesComplete(rules: seq<Rule>, data: Data)
    requires FailingMessages(rules, data).Ok?
    ensures forall i | 0 <= i < |rules| && rules[i].validation(data) == Ok(false) && StringIsNotEmpty(rules[i].error) ::
      rules[i].error in FailingMessages(rules, data).value
  {
    if rules != [] {
      var valid := rules[0].validation(data).value;
      FailingMessagesComplete(rules[1..], data);
      var rest := FailingMessages(rules[1..], data).value;
      var all := FailingMessages(rules, data).value;
      assert all == (if !valid && StringIsNotEmpty(rules[0].error) then [rules[0].error] else []) + rest;
      forall i | 0 <= i < |rules| && rules[i].validation(data) == Ok(false) && StringIsNotEmpty(rules[i].error)
        ensures rules[i].error in all
      {
        if i > 0 {
          assert rules[1..][i - 1] == rules[i];
        }
      }
    }
  }

  /** Messages of earlier rules come before messages of later rules. */
  lemma {:induction false} FailingMessagesAppend(rules1: seq<Rule>, rules2: seq<Rule>, data: Data)
    requires FailingMessages(rules1, data).Ok? && FailingMessages(rules2, data).Ok?
    ensures FailingMessages(rules1 + rules2, data) ==
      Ok(FailingMessages(rules1, data).value + FailingMessages(rules2, data).value)
  {
    if rules1 == [] {
      assert rules1 + rules2 == rules2;
      assert FailingMessages(rules1, data).value == [];
      assert [] + FailingMessages(rules2, data).value == FailingMessages(rules2, data).value;
    } else {
      var all := rules1 + rules2;
      ConsAppend(rules1, rules2);
      FailingMessagesAppend(rules1[1..], rules2, data);
      var valid := rules1[0].validation(data).value;
      var head := if !valid && StringIsNotEmpty(rules1[0].error) then [rules1[0].error] else [];
      var m1 := FailingMessages(rules1[1..], data).value;
      var m2 := FailingMessages(rules2, data).value;
      assert FailingMessages(rules1, data) == Ok(head + m1);
      assert FailingMessages(all[1..], data) == Ok(m1 + m2);
      assert FailingMessages(all, data) == Ok(head + (m1 + m2));
      AppendAssoc(head, m1, m2);
      assert FailingMessages(all, data) == Ok((head + m1) + m2);
    }
  }

  // ---------------------------------------------------------------------------
  // The invariant every state the engine builds keeps

  /** An entry is valid exactly when it has no errors, and none of its errors is blank. */
  predicate ConsistentEntry(e: Entry) {
    && (e.isValid <==> e.errors == [])
    && forall x | x in e.errors :: StringIsNotEmpty(x)
  }

  predicate Consistent(s: State) {
    forall k | k in s.fields :: ConsistentEntry(s.fields[k])
  }

  /** `updateProperty` only ever produces consistent entries. */
  lemma FieldEntryConsistent(schema: Schema, p: string, data: Data)
    requires FieldEntry(schema, p, data).Ok?
    ensures ConsistentEntry(FieldEntry(schema, p, data).value)
  {
    FieldEntrySpec(schema, p, data);
    FailingMessagesSound(RulesOf(schema, p), data);
  }

  /** The initial state is consistent and valid, and reports no errors. */
  lemma InitialState(schema: Schema)
    ensures Consistent(CreateValidationState(schema))
    ensures CalculateIsValid(CreateValidationState(schema))
    ensures GatherValidationErrors(CreateValidationState(schema)) == []
  {
    InitialConsistent(CreateValidationState(schema));
    InitialNoErrors(CreateValidationState(schema));
  }

  /** A state whose every entry is the valid one is consistent and valid. */
  lemma InitialConsistent(s: State)
    requires forall k | k in s.fields :: s.fields[k] == ValidEntry()
    ensures Consistent(s) && CalculateIsValid(s)
  {
    assert ConsistentEntry(ValidEntry());
  }

  /** A state whose every entry is the valid one reports no errors. */
  lemma InitialNoErrors(s: State)
    requires forall k | k in s.fields :: s.fields[k] == ValidEntry()
    ensures GatherValidationErrors(s) == []
  {
    FirstErrorsNone(s.keys, s);
    assert forall i | 0 <= i < |s.keys| :: s.keys[i] in s.fields;
  }


  /** On a consistent state, the error list is empty exactly when the state is valid. */
  lemma ErrorsIffInvalid(s: State)
    requires Consistent(s)
    ensures GatherValidationErrors(s) == [] <==> CalculateIsValid(s)
    ensures forall k | k in s.fields :: GetError(k, s) != "" <==> !s.fields[k].isValid
  {
    forall k | k in s.fields ensures GetError(k, s) != "" <==> !s.fields[k].isValid {
      var e := s.fields[k];
      if e.errors != [] {
        assert e.errors[0] in e.errors;
      }
    }
    FirstErrorsNone(s.keys, s);
    assert forall i | 0 <= i < |s.keys| :: s.keys[i] in s.fields;
    assert forall k | k in s.fields :: exists i | 0 <= i < |s.keys| :: s.keys[i] == k;
  }

  // ---------------------------------------------------------------------------
  // Commit policies

  /** `validate`: `mergeRight(state)(updateProperty(...))`, the state `createValidate` commits. */
  function Validated(schema: Schema, s: State, p: string, data: Data): (r: Result<State>)
    ensures r.Ok? <==> FieldEntry(schema, p, data).Ok?
    ensures r.Thrown? ==> r.message == FieldEntry(schema, p, data).message
    ensures r.Ok? ==> r.value == Assoc(s, p, FieldEntry(schema, p, data).value)
  {
    match UpdateProperty(schema, p, data)
    case Thrown(m) => Thrown(m)
    case Ok(update) =>
      MergeSingle(s, p, FieldEntry(schema, p, data).value);
      Ok(MergeRight(s, update))
  }

  /** Only the validated field's entry changes; a new field is added last. */
  lemma ValidatedChangesOneField(schema: Schema, s: State, p: string, data: Data)
    requires Validated(schema, s, p, data).Ok?
    ensures var r := Validated(schema, s, p, data).value;
      && r.fields.Keys == s.fields.Keys + {p}
      && (forall k | k in s.fields && k != p :: r.fields[k] == s.fields[k])
      && r.fields[p] == FieldEntry(schema, p, data).value
      && (p in s.fields ==> r.keys == s.keys)
      && (p !in s.fields ==> r.keys == s.keys + [p])
      && IsPropertyValid(p, r) == FieldEntry(schema, p, data).value.isValid
  {
  }

  /** Merging a consistent entry into a consistent state keeps it consistent. */
  lemma ValidatedConsistent(schema: Schema, s: State, p: string, data: Data)
    requires Consistent(s) && Validated(schema, s, p, data).Ok?
    ensures Consistent(Validated(schema, s, p, data).value)
  {
    FieldEntryConsistent(schema, p, data);
  }

  /** Whether `validateAll` keeps an entry: every entry, or for `validateAllIfTrue` only valid ones. */
  function Kept(e: Entry, onlyValid: bool): bool {
    !onlyValid || e.isValid
  }

  /**
   * The `reduce` of `createValidateAll` (`onlyValid` false: every result is
   * spread into the accumulator) and of `createValidateAllIfTrue`
   * (`onlyValid` true: only results whose `isValid` holds are).
   */
  function ReduceUpdates(schema: Schema, ps: seq<string>, data: Data, acc: State, onlyValid: bool)
    : Result<State>
  {
    if ps == [] then Ok(acc)
    else
      match UpdateProperty(schema, ps[0], data)
      case Thrown(m) => Thrown(m)
      case Ok(updated) =>
        var next := if Kept(updated.fields[ps[0]], onlyValid) then MergeRight(acc, updated) else acc;
        ReduceUpdates(schema, ps[1..], data, next, onlyValid)
  }

  /** What the reduction leaves in the accumulator. */
  predicate ReducedFrom(schema: Schema, ps: seq<string>, data: Data, acc: State, onlyValid: bool, r: State) {
    && (forall k | k in ps :: FieldEntry(schema, k, data).Ok?)
    && IsPrefix(acc.keys, r.keys)
    && (forall k | k in r.fields :: k in acc.fields || k in ps)
    && (forall k | k in acc.fields && k !in ps :: k in r.fields && r.fields[k] == acc.fields[k])
    && (forall k | k in ps && Kept(FieldEntry(schema, k, data).value, onlyValid) ::
          k in r.fields && r.fields[k] == FieldEntry(schema, k, data).value)
    && (forall k | k in ps && !Kept(FieldEntry(schema, k, data).value, onlyValid) ::
          (k in r.fields <==> k in acc.fields) && (k in acc.fields ==> r.fields[k] == acc.fields[k]))
  }

  /** The reduction fails exactly when some listed field's rules throw. */
  lemma {:induction false} ReduceUpdatesThrows(schema: Schema, ps: seq<string>, data: Data, acc: State, onlyValid: bool)
    ensures ReduceUpdates(schema, ps, data, acc, onlyValid).Ok? <==> forall k | k in ps :: FieldEntry(schema, k, data).Ok?
  {
    if ps != [] {
      var p := ps[0];
      assert forall k | k in ps :: k == p || k in ps[1..];
      if FieldEntry(schema, p, data).Ok? {
        var e := FieldEntry(schema, p, data).value;
        var next := if Kept(e, onlyValid) then MergeRight(acc, Single(p, e)) else acc;
        ReduceUpdatesThrows(schema, ps[1..], data, next, onlyValid);
      } else {
        assert p in ps;
      }
    }
  }

  /** One step of the reduction: what holds after the rest also holds after the whole. */
  lemma ReducedStep(schema: Schema, ps: seq<string>, data: Data, acc: State, next: State, onlyValid: bool, r: State)
    requires ps != [] && FieldEntry(schema, ps[0], data).Ok?
    requires var e := FieldEntry(schema, ps[0], data).value;
      next == if Kept(e, onlyValid) then Assoc(acc, ps[0], e) else acc
    requires ReducedFrom(schema, ps[1..], data, next, onlyValid, r)
    ensures ReducedFrom(schema, ps, data, acc, onlyValid, r)
  {
    assert forall k | k in ps :: k == ps[0] || k in ps[1..];
    assert IsPrefix(acc.keys, next.keys);
    ReducedStepUnlisted(schema, ps, data, acc, next, onlyValid, r);
    ReducedStepKept(schema, ps, data, acc, next, onlyValid, r);
    ReducedStepDropped(schema, ps, data, acc, next, onlyValid, r);
  }

  /** The step for the fields the whole list does not name. */
  lemma ReducedStepUnlisted(schema: Schema, ps: seq<string>, data: Data, acc: State, next: State, onlyValid: bool, r: State)
    requires ps != [] && FieldEntry(schema, ps[0], data).Ok?
    requires var e := FieldEntry(schema, ps[0], data).value;
      next == if Kept(e, onlyValid) then Assoc(acc, ps[0], e) else acc
    requires ReducedFrom(schema, ps[1..], data, next, onlyValid, r)
    ensures forall k | k in r.fields :: k in acc.fields || k in ps
    ensures forall k | k in acc.fields && k !in ps :: k in r.fields && r.fields[k] == acc.fields[k]
  {
    assert forall k | k in ps[1..] :: k in ps;
  }

  /** The step for the listed fields whose new entry is kept. */
  lemma ReducedStepKept(schema: Schema, ps: seq<string>, data: Data, acc: State, next: State, onlyValid: bool, r: State)
    requires ps != [] && FieldEntry(schema, ps[0], data).Ok?
    requires var e := FieldEntry(schema, ps[0], data).value;
      next == if Kept(e, onlyValid) then Assoc(acc, ps[0], e) else acc
    requires ReducedFrom(schema, ps[1..], data, next, onlyValid, r)
    ensures forall k | k in ps && Kept(FieldEntry(schema, k, data).value, onlyValid) ::
      k in r.fields && r.fields[k] == FieldEntry(schema, k, data).value
  {
    assert forall k | k in ps :: k == ps[0] || k in ps[1..];
  }

  /** The step for the listed fields whose new entry is not kept. */
  lemma ReducedStepDropped(schema: Schema, ps: seq<string>, data: Data, acc: State, next: State, onlyValid: bool, r: State)
    requires ps != [] && FieldEntry(schema, ps[0], data).Ok?
    requires var e := FieldEntry(schema, ps[0], data).value;
      next == if Kept(e, onlyValid) then Assoc(acc, ps[0], e) else acc
    requires ReducedFrom(schema, ps[1..], data, next, onlyValid, r)
    ensures forall k | k in ps && !Kept(FieldEntry(schema, k, data).value, onlyValid) ::
      (k in r.fields <==> k in acc.fields) && (k in acc.fields ==> r.fields[k] == acc.fields[k])
  {
    forall k | k in ps && !Kept(FieldEntry(schema, k, data).value, onlyValid)
      ensures (k in r.fields <==> k in acc.fields) && (k in acc.fields ==> r.fields[k] == acc.fields[k])
    {
      assert k in next.fields <==> k in acc.fields;
      assert k in acc.fields ==> next.fields[k] == acc.fields[k];
      if k !in ps[1..] {
        assert k == ps[0];
      }
    }
  }


  /**
   * When it does not fail, the reduction keeps the accumulator's key order,
   * leaves unlisted fields alone, and gives every listed field its new
   * entry (or, when that entry is not kept, its old one).
   */
  lemma {:induction false} ReduceUpdatesSpec(schema: Schema, ps: seq<string>, data: Data, acc: State, onlyValid: bool)
    requires ReduceUpdates(schema, ps, data, acc, onlyValid).Ok?
    ensures ReducedFrom(schema, ps, data, acc, onlyValid, ReduceUpdates(schema, ps, data, acc, onlyValid).value)
  {
    ReduceUpdatesThrows(schema, ps, data, acc, onlyValid);
    if ps != [] {
      var p := ps[0];
      var e := FieldEntry(schema, p, data).value;
      MergeSingle(acc, p, e);
      var next := if Kept(e, onlyValid) then Assoc(acc, p, e) else acc;
      assert ReduceUpdates(schema, ps, data, acc, onlyValid) == ReduceUpdates(schema, ps[1..], data, next, onlyValid);
      ReduceUpdatesSpec(schema, ps[1..], data, next, onlyValid);
      ReducedStep(schema, ps, data, acc, next, onlyValid, ReduceUpdates(schema, ps, data, acc, onlyValid).value);
    }
  }

  /**
   * The keys the reduction appends to an accumulator holding `present`:
   * each listed field not yet present whose new entry is kept, once, in
   * the order of its first such occurrence in `ps`.
   */
  function AddedKeys(schema: Schema, ps: seq<string>, data: Data, present: set<string>, onlyValid: bool): seq<string> {
    if ps == [] then []
    else if ps[0] !in present && FieldEntry(schema, ps[0], data).Ok? && Kept(FieldEntry(schema, ps[0], data).value, onlyValid) then
      [ps[0]] + AddedKeys(schema, ps[1..], data, present + {ps[0]}, onlyValid)
    else AddedKeys(schema, ps[1..], data, present, onlyValid)
  }

  /** The reduction keeps the accumulator's keys first and appends the new ones in first-occurrence order. */
  lemma {:induction false} ReduceUpdatesKeyOrder(schema: Schema, ps: seq<string>, data: Data, acc: State, onlyValid: bool)
    requires ReduceUpdates(schema, ps, data, acc, onlyValid).Ok?
    ensures ReduceUpdates(schema, ps, data, acc, onlyValid).value.keys
      == acc.keys + AddedKeys(schema, ps, data, acc.fields.Keys, onlyValid)
  {
    if ps != [] {
      var p := ps[0];
      assert UpdateProperty(schema, p, data).Ok?;
      var e := FieldEntry(schema, p, data).value;
      MergeSingle(acc, p, e);
      var next := if Kept(e, onlyValid) then Assoc(acc, p, e) else acc;
      assert ReduceUpdates(schema, ps, data, acc, onlyValid) == ReduceUpdates(schema, ps[1..], data, next, onlyValid);
      ReduceUpdatesKeyOrder(schema, ps[1..], data, next, onlyValid);
      AddedKeysStep(schema, ps, data, acc, onlyValid);
    }
  }

  /** One step of `AddedKeys`: the first field's key, if appended, comes before the rest. */
  lemma AddedKeysStep(schema: Schema, ps: seq<string>, data: Data, acc: State, onlyValid: bool)
    requires ps != [] && FieldEntry(schema, ps[0], data).Ok?
    ensures var e := FieldEntry(schema, ps[0], data).value;
      var next := if Kept(e, onlyValid) then Assoc(acc, ps[0], e) else acc;
      next.keys + AddedKeys(schema, ps[1..], data, next.fields.Keys, onlyValid)
        == acc.keys + AddedKeys(schema, ps, data, acc.fields.Keys, onlyValid)
  {
    var p, e := ps[0], FieldEntry(schema, ps[0], data).value;
    var present := acc.fields.Keys;
    var rest := AddedKeys(schema, ps[1..], data, present, onlyValid);
    if Kept(e, onlyValid) && p !in present {
      var next := Assoc(acc, p, e);
      var added := AddedKeys(schema, ps[1..], data, present + {p}, onlyValid);
      assert next.fields.Keys == present + {p};
      assert AddedKeys(schema, ps, data, present, onlyValid) == [p] + added;
      assert next.keys == acc.keys + [p];
      AppendAssoc(acc.keys, [p], added);
    } else {
      assert AddedKeys(schema, ps, data, present, onlyValid) == rest;
      if Kept(e, onlyValid) {
        assert Assoc(acc, p, e).fields.Keys == present;
        assert Assoc(acc, p, e).keys == acc.keys;
      }
    }
  }

  /**
   * The state `createValidateAll` (`onlyValid` false) or
   * `createValidateAllIfTrue` (`onlyValid` true) commits:
   * `mergeRight(state)(reduced)`.
   */
  function ValidatedAll(schema: Schema, s: State, data: Data, ps: seq<string>, onlyValid: bool)
    : (r: Result<State>)
    ensures r.Ok? <==> forall k | k in ps :: FieldEntry(schema, k, data).Ok?
    ensures r.Ok? ==> ReducedFrom(schema, ps, data, s, onlyValid, r.value)
    ensures r.Ok? ==> r.value.keys == s.keys + AddedKeys(schema, ps, data, s.fields.Keys, onlyValid)
  {
    ReduceUpdatesThrows(schema, ps, data, s, onlyValid);
    match ReduceUpdates(schema, ps, data, s, onlyValid)
    case Thrown(m) => Thrown(m)
    case Ok(reduced) =>
      ReduceUpdatesSpec(schema, ps, data, s, onlyValid);
      ReduceUpdatesKeyOrder(schema, ps, data, s, onlyValid);
      MergeExtension(s, reduced);
      Ok(MergeRight(s, reduced))
  }

  /**
   * A `null` or `undefined` schema as `R.keys` and `R.prop` read it: a
   * schema with no fields.
   */
  function SchemaOrEmpty(schema: Option<Schema>): (r: Schema)
    ensures schema.Some? ==> r == schema.value
    ensures schema.None? ==> r.keys == [] && r.fields == map[]
  {
    if schema.Some? then schema.value else Empty()
  }

  /**
   * The default parameter `props = Object.keys(validationSchema)`: the
   * fields given, or else every schema key; `Object.keys` of a `null` or
   * `undefined` schema throws.
   */
  function DefaultProps(schema: Option<Schema>, props: Option<seq<string>>): (r: Result<seq<string>>)
    ensures props.Some? ==> r == Ok(props.value)
    ensures props.None? && schema.Some? ==> r == Ok(schema.value.keys)
    ensures r.Thrown? <==> props.None? && schema.None?
    ensures r.Ok? ==> r.value == PropsOrSchema(SchemaOrEmpty(schema), props)
  {
    if props.Some? then Ok(props.value)
    else if schema.Some? then Ok(schema.value.keys)
    else Thrown("Cannot convert undefined or null to object")
  }

  /** The keys `validateAll` uses: the ones given, or else every schema key. */
  function PropsOrSchema(schema: Schema, props: Option<seq<string>>): (r: seq<string>)
    ensures props.Some? ==> r == props.value
    ensures props.None? ==> r == schema.keys
  {
    if props.Some? then props.value else schema.keys
  }

  /** Validating every field keeps a consistent state consistent. */
  lemma ValidatedAllConsistent(schema: Schema, s: State, data: Data, ps: seq<string>, onlyValid: bool)
    requires Consistent(s) && ValidatedAll(schema, s, data, ps, onlyValid).Ok?
    ensures Consistent(ValidatedAll(schema, s, data, ps, onlyValid).value)
  {
    var r := ValidatedAll(schema, s, data, ps, onlyValid).value;
    forall k | k in r.fields ensures ConsistentEntry(r.fields[k]) {
      if k in ps {
        FieldEntryConsistent(schema, k, data);
      }
    }
  }

  /** `validateAllIfTrue` never turns a valid state invalid: it only merges valid entries. */
  lemma ValidatedAllIfTrueKeepsValid(schema: Schema, s: State, data: Data, ps: seq<string>)
    requires ValidatedAll(schema, s, data, ps, true).Ok?
    ensures CalculateIsValid(s) ==> CalculateIsValid(ValidatedAll(schema, s, data, ps, true).value)
    ensures forall k | k in ps && !FieldEntry(schema, k, data).value.isValid && k !in s.fields ::
      k !in ValidatedAll(schema, s, data, ps, true).value.fields
  {
    var r := ValidatedAll(schema, s, data, ps, true).value;
    if CalculateIsValid(s) {
      ReducedIfTrueValid(schema, ps, data, s, r);
    }
    ReducedIfTrueAbsent(schema, ps, data, s, r);
  }

  /** Every entry a reduction that keeps only valid entries produces from a valid state is valid. */
  lemma ReducedIfTrueValid(schema: Schema, ps: seq<string>, data: Data, s: State, r: State)
    requires ReducedFrom(schema, ps, data, s, true, r)
    requires forall k | k in s.fields :: s.fields[k].isValid
    ensures forall k | k in r.fields :: r.fields[k].isValid
  {
    forall k | k in r.fields
      ensures r.fields[k].isValid
    {
      if k in ps && Kept(FieldEntry(schema, k, data).value, true) {
        assert r.fields[k] == FieldEntry(schema, k, data).value;
      } else {
        assert k in s.fields && r.fields[k] == s.fields[k];
      }
    }
  }

  /** A listed field that comes out invalid and was absent stays absent. */
  lemma ReducedIfTrueAbsent(schema: Schema, ps: seq<string>, data: Data, s: State, r: State)
    requires ReducedFrom(schema, ps, data, s, true, r)
    ensures forall k | k in ps && !FieldEntry(schema, k, data).value.isValid && k !in s.fields :: k !in r.fields
  {
    forall k | k in ps && !FieldEntry(schema, k, data).value.isValid && k !in s.fields
      ensures k !in r.fields
    {
      assert !Kept(FieldEntry(schema, k, data).value, true);
    }
  }

  /**
   * Over all of a schema's fields, starting from a state that only holds
   * schema fields, `validateAll` reports valid exactly when every field's
   * rules pass.
   */
  lemma ValidatedAllVerdict(schema: Schema, s: State, data: Data)
    requires forall k | k in s.fields :: k in schema.fields
    requires ValidatedAll(schema, s, data, schema.keys, false).Ok?
    ensures CalculateIsValid(ValidatedAll(schema, s, data, schema.keys, false).value) <==>
      forall k | k in schema.fields :: FieldEntry(schema, k, data).value.isValid
  {
    ReducedOverSchema(schema, s, data, ValidatedAll(schema, s, data, schema.keys, false).value);
  }

  /** After a full `validateAll` over the schema, the state holds exactly the new entry of every schema field. */
  lemma ReducedOverSchema(schema: Schema, s: State, data: Data, r: State)
    requires forall k | k in s.fields :: k in schema.fields
    requires ReducedFrom(schema, schema.keys, data, s, false, r)
    ensures r.fields.Keys == schema.fields.Keys
    ensures forall k | k in r.fields :: FieldEntry(schema, k, data).Ok? && r.fields[k] == FieldEntry(schema, k, data).value
  {
    assert forall k | k in schema.fields :: k in schema.keys;
  }
}
