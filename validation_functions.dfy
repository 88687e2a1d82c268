/**
 * The older helper set of src/validation-functions.ts. Its `maybe(x)` is
 * `Maybe.of(x)` and its `prop(k)` reads `o[k]`. Its defaulting differs from
 * src/index.ts: a `null` schema gives the empty state, and a field the
 * schema does not list gives no entry at all. Its `createValidateAllIfTrue`
 * takes no setter: it only computes a verdict.
 */
module ValidationFunctions {
  import opened JsObject
  import opened Types
  import opened Maybe
  import opened Utilities
  import Reducer

  /**
   * `createValidationState(schema)`: `{}` when the schema is `null` or
   * `undefined`, otherwise every schema key, in order, with a valid entry.
   */
  function CreateValidationState(schema: Nullable<Schema>): (r: State)
    ensures !schema.Present? ==> r.keys == [] && r.fields == map[]
    ensures schema.Present? ==> r.keys == schema.get.keys && r.fields.Keys == schema.get.fields.Keys
    ensures forall k | k in r.fields :: r.fields[k] == Reducer.ValidEntry()
  {
    var state := Map(Of(schema), (sc: Schema) => Present(Reducer.CreateValidationState(sc)));
    JoinOr(state, Empty())
  }

  /** `maybe(schema).map(prop(property))`: the field's rules, or Nothing. */
  function RulesOf(schema: Nullable<Schema>, p: string): Maybe<seq<Rule>> {
    Map(Of(schema), (sc: Schema) => if p in sc.fields then Present(sc.fields[p]) else UndefinedValue)
  }

  /**
   * `updatePropertyOnState(schema)(property, data)`: `{}` when the schema is
   * missing or does not list the field; otherwise the one-key object with
   * the field's entry.
   */
  function UpdatePropertyOnState(schema: Nullable<Schema>, p: string, data: Data): (r: Result<State>)
    ensures !schema.Present? || p !in schema.get.fields ==> r == Ok(Empty())
    ensures schema.Present? && p in schema.get.fields ==> r == Reducer.UpdateProperty(schema.get, p, data)
  {
    var rules := RulesOf(schema, p);
    if rules.IsNothing() then Ok(Empty())
    else
      match Reducer.ErrorsOrNone(rules.value.get, data)
      case Thrown(m) => Thrown(m)
      case Ok(errors) =>
        var es := Reducer.FilterNotEmpty(errors);
        Ok(Single(p, Entry(!(|es| > 0), es)))
  }

  /**
   * The entry `updatePropertyOnState` writes for a listed field: the
   * failing messages of its rules, and valid exactly when there are none.
   */
  lemma UpdatePropertyOnStateSpec(schema: Schema, p: string, data: Data)
    requires p in schema.fields
    ensures var r := UpdatePropertyOnState(Present(schema), p, data);
      && (r.Ok? <==> Reducer.FailingMessages(schema.fields[p], data).Ok?)
      && (r.Ok? ==> r.value.keys == [p]
                    && r.value.fields[p].errors == Reducer.FailingMessages(schema.fields[p], data).value
                    && (r.value.fields[p].isValid <==> r.value.fields[p].errors == []))
  {
    Reducer.FieldEntrySpec(schema, p, data);
  }

  /** The state a getter reads: an `undefined` argument takes the default, the current state. */
  function StateArg(vState: Nullable<State>, current: State): Nullable<State> {
    if vState.UndefinedValue? then Present(current) else vState
  }

  /** `createGetAllErrors(getState)(property, vState?)`: `[]` for a `null` state or a missing field. */
  function GetAllErrors(p: string, vState: Nullable<State>, current: State): (r: seq<string>)
    ensures var s := StateArg(vState, current);
      r == if s.Present? && p in s.get.fields then s.get.fields[p].errors else []
  {
    var errors := Map(Map(Of(StateArg(vState, current)), (st: State) => Reducer.PropOf(st, p)),
                      (e: Entry) => Present(e.errors));
    JoinOr(errors, [])
  }

  /** `createGetError(getState)(property, vState?)`: `''` for a `null` state, a missing field or one without errors. */
  function GetError(p: string, vState: Nullable<State>, current: State): (r: string)
    ensures var s := StateArg(vState, current);
      r == if s.Present? && p in s.get.fields && s.get.fields[p].errors != [] then s.get.fields[p].errors[0] else ""
  {
    var error := Map(Map(Map(Of(StateArg(vState, current)), (st: State) => Reducer.PropOf(st, p)),
                         (e: Entry) => Present(e.errors)), Reducer.Head);
    JoinOr(error, "")
  }

  /** `createGetFieldValid(state)(property, vState?)`: `true` for a `null` state or a missing field. */
  function GetFieldValid(p: string, vState: Nullable<State>, current: State): (r: bool)
    ensures var s := StateArg(vState, current);
      r <==> !s.Present? || p !in s.get.fields || s.get.fields[p].isValid
  {
    var valid := Map(Map(Of(StateArg(vState, current)), (st: State) => Reducer.PropOf(st, p)),
                     (e: Entry) => Present(e.isValid));
    JoinOr(valid, true)
  }

  /** On a state that is present, these getters answer as the src/index.ts ones do. */
  lemma GettersAgree(p: string, vState: Nullable<State>, current: State)
    requires !vState.NullValue?
    ensures var s := if vState.Present? then vState.get else current;
      && GetAllErrors(p, vState, current) == Reducer.GetAllErrors(p, s)
      && GetError(p, vState, current) == Reducer.GetError(p, s)
      && GetFieldValid(p, vState, current) == Reducer.GetFieldValid(p, s)
  {
  }

  /**
   * `calculateIsValid(state)`: the `reduce` over the keys of the state,
   * read through `getValue`, so the state may be passed as a getter.
   */
  function CalculateIsValid(validationState: Readable<State>): (r: bool)
    ensures var s := ReadValue(validationState);
      r <==> forall k | k in s.fields :: s.fields[k].isValid
  {
    var s := ReadValue(validationState);
    var r := Reducer.ValidFrom(s.keys, s, true);
    assert forall k | k in s.fields :: exists i | 0 <= i < |s.keys| :: s.keys[i] == k;
    r
  }

  // ---------------------------------------------------------------------------
  // createValidateAllIfTrue

  /**
   * A value in the accumulator of `createValidateAllIfTrue`: an entry, or,
   * when a stored entry is spread into it, that entry's `isValid` and
   * `errors` as top-level properties.
   */
  datatype Slot = EntrySlot(entry: Entry) | FlagSlot(flag: bool) | ListSlot(list: seq<string>)

  type Loose = Record<string, Slot>

  /** `isPropertyValid(k)` on the accumulator: `R.path([k, 'isValid'])` defaulting to `true`. */
  function SlotValid(k: string, acc: Loose): (r: bool)
    ensures r <==> !(k in acc.fields && acc.fields[k].EntrySlot? && !acc.fields[k].entry.isValid)
  {
    if k in acc.fields && acc.fields[k].EntrySlot? then acc.fields[k].entry.isValid else true
  }

  /** `{...e}` for a stored entry: its two properties. */
  function Spread(e: Entry): Loose {
    Obj(["isValid", "errors"], map["isValid" := FlagSlot(e.isValid), "errors" := ListSlot(e.errors)])
  }

  /** The message of the `TypeError` raised by reading `isValid` of `undefined`. */
  const ReadIsValidOfUndefined := "Cannot read properties of undefined (reading 'isValid')"

  /**
   * `reduceValids(acc, p)`: reading `updated[p].isValid` throws when the
   * schema is missing or does not list `p`; a valid result is spread into the
   * accumulator; for an invalid one, the properties of the stored entry
   * (`isValid`, `errors`) are spread into it instead.
   */
  function ReduceValid(schema: Nullable<Schema>, stored: State, p: string, data: Data, acc: Loose): Result<Loose> {
    match UpdatePropertyOnState(schema, p, data)
    case Thrown(m) => Thrown(m)
    case Ok(updated) =>
      if p !in updated.fields then Thrown(ReadIsValidOfUndefined)
      else if updated.fields[p].isValid then Ok(MergeRight(acc, MapValues(updated, (e: Entry) => EntrySlot(e))))
      else if p in stored.fields then Ok(MergeRight(acc, Spread(stored.fields[p])))
      else Ok(acc)
  }

  /** The `reduce(reduceValids, {})` of `createValidateAllIfTrue` from accumulator `acc`. */
  function ReduceValids(schema: Nullable<Schema>, stored: State, ps: seq<string>, data: Data, acc: Loose): Result<Loose>
    decreases ps
  {
    if ps == [] then Ok(acc)
    else
      match ReduceValid(schema, stored, ps[0], data, acc)
      case Thrown(m) => Thrown(m)
      case Ok(next) => ReduceValids(schema, stored, ps[1..], data, next)
  }

  /** A schema that may be `null` or `undefined`, as an `Option`. */
  function SchemaOption(schema: Nullable<Schema>): (r: Option<Schema>)
    ensures r.Some? <==> schema.Present?
    ensures r.Some? ==> r.value == schema.get
  {
    if schema.Present? then Some(schema.get) else None
  }

  /**
   * `createValidateAllIfTrue(schema, getState)(data, props?)`: folds the
   * listed fields (every schema field by default; `Object.keys` of a
   * missing schema throws), then `calculateIsValid` of the result;
   * `mergeRight` with the getter function adds nothing, and no state is
   * committed.
   */
  function ValidateAllIfTrue(schema: Nullable<Schema>, stored: State, data: Data, props: Option<seq<string>>): Result<bool> {
    match Reducer.DefaultProps(SchemaOption(schema), props)
    case Thrown(m) => Thrown(m)
    case Ok(ps) =>
      match ReduceValids(schema, stored, ps, data, Empty())
      case Thrown(m) => Thrown(m)
      case Ok(reduced) =>
        var merged := MergeRight(Empty(), reduced);
        Ok(forall k | k in merged.fields :: SlotValid(k, merged))
  }

  /** Every value of the accumulator reads as valid. */
  predicate AllSlotsValid(acc: Loose) {
    forall k | k in acc.fields :: SlotValid(k, acc)
  }

  /** Spreading an object whose values read as valid keeps every value valid. */
  lemma MergeSlotsValid(acc: Loose, x: Loose)
    requires AllSlotsValid(acc) && AllSlotsValid(x)
    ensures AllSlotsValid(MergeRight(acc, x))
  {
  }

  /** One step for a field the schema lists: it throws exactly when the field's rules throw. */
  lemma ReduceValidListed(schema: Schema, stored: State, p: string, data: Data, acc: Loose)
    requires AllSlotsValid(acc) && p in schema.fields
    ensures ReduceValid(Present(schema), stored, p, data, acc).Ok? <==> Reducer.FieldEntry(schema, p, data).Ok?
    ensures ReduceValid(Present(schema), stored, p, data, acc).Ok? ==> AllSlotsValid(ReduceValid(Present(schema), stored, p, data, acc).value)
  {
    if Reducer.FieldEntry(schema, p, data).Ok? {
      var updated := UpdatePropertyOnState(Present(schema), p, data).value;
      if updated.fields[p].isValid {
        MergeSlotsValid(acc, MapValues(updated, (e: Entry) => EntrySlot(e)));
      } else if p in stored.fields {
        MergeSlotsValid(acc, Spread(stored.fields[p]));
      }
    }
  }

  /** One step throws exactly when the field is not in the schema or its rules throw, and keeps every slot valid. */
  lemma ReduceValidSpec(schema: Nullable<Schema>, stored: State, p: string, data: Data, acc: Loose)
    requires AllSlotsValid(acc)
    ensures ReduceValid(schema, stored, p, data, acc).Ok? <==>
      schema.Present? && p in schema.get.fields && Reducer.FieldEntry(schema.get, p, data).Ok?
    ensures ReduceValid(schema, stored, p, data, acc).Ok? ==> AllSlotsValid(ReduceValid(schema, stored, p, data, acc).value)
  {
    if !schema.Present? || p !in schema.get.fields {
      assert UpdatePropertyOnState(schema, p, data) == Ok(Empty());
    } else {
      ReduceValidListed(schema.get, stored, p, data, acc);
    }
  }

  /** The fold throws exactly when a listed field is not in the schema or its rules throw; otherwise every slot reads valid. */
  lemma {:induction false} ReduceValidsSpec(schema: Nullable<Schema>, stored: State, ps: seq<string>, data: Data, acc: Loose)
    requires AllSlotsValid(acc)
    ensures ReduceValids(schema, stored, ps, data, acc).Ok? <==>
      forall k | k in ps :: schema.Present? && k in schema.get.fields && Reducer.FieldEntry(schema.get, k, data).Ok?
    ensures ReduceValids(schema, stored, ps, data, acc).Ok? ==> AllSlotsValid(ReduceValids(schema, stored, ps, data, acc).value)
    decreases ps
  {
    if ps != [] {
      var p := ps[0];
      assert forall k | k in ps :: k == p || k in ps[1..];
      assert p in ps;
      ReduceValidSpec(schema, stored, p, data, acc);
      if ReduceValid(schema, stored, p, data, acc).Ok? {
        ReduceValidsSpec(schema, stored, ps[1..], data, ReduceValid(schema, stored, p, data, acc).value);
      }
    }
  }

  /**
   * `createValidateAllIfTrue` never reports invalid: only valid entries and
   * the spread properties of stored entries, which read as valid, enter
   * the accumulator. It throws exactly when no list is given for a missing
   * schema, or a listed field is missing from the schema or one of its
   * rules throws; so with a missing schema only the empty list passes.
   */
  lemma ValidateAllIfTrueVerdict(schema: Nullable<Schema>, stored: State, data: Data, props: Option<seq<string>>)
    ensures var keys := Reducer.DefaultProps(SchemaOption(schema), props);
      ValidateAllIfTrue(schema, stored, data, props).Ok? <==>
        && keys.Ok?
        && forall k | k in keys.value :: schema.Present? && k in schema.get.fields && Reducer.FieldEntry(schema.get, k, data).Ok?
    ensures ValidateAllIfTrue(schema, stored, data, props).Ok? ==> ValidateAllIfTrue(schema, stored, data, props) == Ok(true)
  {
    var keys := Reducer.DefaultProps(SchemaOption(schema), props);
    if keys.Ok? {
      ReduceValidsSpec(schema, stored, keys.value, data, Empty());
      if ReduceValids(schema, stored, keys.value, data, Empty()).Ok? {
        MergedSlotsValid(ReduceValids(schema, stored, keys.value, data, Empty()).value);
      }
    }
  }

  /** Spreading an accumulator whose values read as valid into `{}` leaves every value valid. */
  lemma MergedSlotsValid(reduced: Loose)
    requires AllSlotsValid(reduced)
    ensures forall k | k in MergeRight(Empty(), reduced).fields :: SlotValid(k, MergeRight(Empty(), reduced))
  {
    MergeSlotsValid(Empty(), reduced);
  }

}
