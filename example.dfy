/**
 * The `Validation(schema)` object of src/example.ts: it keeps the
 * validation state in a cache (a `let` captured by `useCache`) and exposes
 * the engine's `create*` operations over it. The cache is the field
 * `state`; every operation that calls `setValidationState` assigns it.
 * An operation whose rules throw propagates the error (`Thrown`) and
 * commits nothing.
 */
module Example {
  import opened JsObject
  import opened Types
  import opened Maybe
  import opened Reducer
  import opened Utilities

  class Validation {
    /** The schema as passed, `None` for `null` or `undefined`. */
    const validationSchema: Option<Schema>
    /** The schema as the engine reads it: a missing one has no fields. */
    const schema: Schema
    var state: State

    /**
     * `Validation(schema)`: the cache starts at `createValidationState(schema)`;
     * a `null` schema gives the empty state.
     */
    constructor (validationSchema: Option<Schema>)
      ensures this.validationSchema == validationSchema
      ensures schema == SchemaOrEmpty(validationSchema)
      ensures state == CreateValidationState(schema)
      ensures validationSchema.None? ==> state.keys == [] && state.fields == map[]
      ensures Consistent(state) && IsValid() && ValidationErrors() == []
    {
      this.validationSchema := validationSchema;
      schema := SchemaOrEmpty(validationSchema);
      state := CreateValidationState(SchemaOrEmpty(validationSchema));
      new;
      InitialState(schema);
    }

    /** The `isValid` getter: `calculateIsValid` on the current state. */
    function IsValid(): (r: bool)
      reads this
      ensures r <==> forall k | k in state.fields :: state.fields[k].isValid
    {
      CalculateIsValid(state)
    }

    /** The `validationState` getter. */
    function ValidationState(): State
      reads this
    {
      state
    }

    /** The `validationErrors` getter: the first error of every field that has one, in key order. */
    function ValidationErrors(): (r: seq<string>)
      reads this
      ensures r == FirstErrors(state.keys, state)
      ensures Consistent(state) ==> (r == [] <==> IsValid())
    {
      if Consistent(state) then
        ErrorsIffInvalid(state);
        GatherValidationErrors(state)
      else
        GatherValidationErrors(state)
    }

    /** The state a getter reads: the one passed as `vState`, or else the current one. */
    function Current(vState: Option<State>): State
      reads this
    {
      if vState.Some? then vState.value else state
    }

    /** `getError(property, vState?)`. */
    function GetError(p: string, vState: Option<State>): (r: string)
      reads this
      ensures var s := Current(vState);
        r == if p in s.fields && s.fields[p].errors != [] then s.fields[p].errors[0] else ""
    {
      Reducer.GetError(p, Current(vState))
    }

    /** `getAllErrors(property, vState?)`. */
    function GetAllErrors(p: string, vState: Option<State>): (r: seq<string>)
      reads this
      ensures var s := Current(vState);
        r == if p in s.fields then s.fields[p].errors else []
    {
      Reducer.GetAllErrors(p, Current(vState))
    }

    /** `getFieldValid(property, vState?)`. */
    function GetFieldValid(p: string, vState: Option<State>): (r: bool)
      reads this
      ensures var s := Current(vState);
        r <==> p !in s.fields || s.fields[p].isValid
    {
      Reducer.GetFieldValid(p, Current(vState))
    }

    /** `setValidationState(s)`: the cache now holds `s`. */
    method SetValidationState(s: State)
      modifies this
      ensures state == s
    {
      state := s;
    }

    /** `resetValidationState()`: back to the initial state, valid and error-free. */
    method ResetValidationState()
      modifies this
      ensures state == CreateValidationState(schema)
      ensures Consistent(state) && IsValid() && ValidationErrors() == []
    {
      state := CreateValidationState(schema);
      InitialState(schema);
    }

    /**
     * `validate(property, data)`: evaluates the field's rules, merges the
     * new entry into the state, commits, and returns whether the field is
     * now valid, that is whether none of its rules fails.
     */
    method Validate(p: string, data: Data) returns (r: Result<bool>)
      modifies this
      ensures FieldEntry(schema, p, data).Thrown? ==>
        r == Thrown(FieldEntry(schema, p, data).message) && state == old(state)
      ensures FieldEntry(schema, p, data).Ok? ==>
        && state == Validated(schema, old(state), p, data).value
        && state == Assoc(old(state), p, FieldEntry(schema, p, data).value)
        && r.Ok?
        && (r.value <==> FailingMessages(RulesOf(schema, p), data) == Ok([]))
        && r.value == GetFieldValid(p, None)
      ensures Consistent(old(state)) ==> Consistent(state)
    {
      var merged := Validated(schema, state, p, data);
      if merged.Thrown? {
        return Thrown(merged.message);
      }
      state := merged.value;
      r := Ok(IsPropertyValid(p, state));
      FieldEntrySpec(schema, p, data);
      if Consistent(old(state)) {
        ValidatedConsistent(schema, old(state), p, data);
      }
    }

    /**
     * `validateIfTrue(property, data)`: commits the merged state only when
     * the field comes out valid. When it does not, the pipeline maps to
     * `null` and the fallback `true` is returned, so every call that does
     * not throw returns `true`.
     */
    method ValidateIfTrue(p: string, data: Data) returns (r: Result<bool>)
      modifies this
      ensures FieldEntry(schema, p, data).Thrown? ==>
        r == Thrown(FieldEntry(schema, p, data).message) && state == old(state)
      ensures FieldEntry(schema, p, data).Ok? ==> r == Ok(true)
      ensures FieldEntry(schema, p, data).Ok? && FieldEntry(schema, p, data).value.isValid ==>
        state == Validated(schema, old(state), p, data).value
      ensures FieldEntry(schema, p, data).Ok? && !FieldEntry(schema, p, data).value.isValid ==>
        state == old(state)
      ensures Consistent(old(state)) ==> Consistent(state)
    {
      var merged := Validated(schema, state, p, data);
      if merged.Thrown? {
        return Thrown(merged.message);
      }
      var kept: Nullable<State> := if IsPropertyValid(p, merged.value) then Present(merged.value) else NullValue;
      if kept.Present? {
        state := kept.get;
      }
      var valid := Map(Of(kept), (s: State) => Present(IsPropertyValid(p, s)));
      r := Ok(JoinOr(valid, true));
      if Consistent(old(state)) {
        ValidatedConsistent(schema, old(state), p, data);
      }
    }

    /**
     * `validateAll(data, props?)`: re-evaluates the listed fields (every
     * schema field by default), commits the merged state and returns
     * whether the whole state is now valid. Without `props`, a `null`
     * schema throws.
     */
    method ValidateAll(data: Data, props: Option<seq<string>>) returns (r: Result<bool>)
      modifies this
      ensures DefaultProps(validationSchema, props).Thrown? ==> r.Thrown? && state == old(state)
      ensures DefaultProps(validationSchema, props).Ok? ==>
        var ps := DefaultProps(validationSchema, props).value;
        && (r.Ok? <==> forall k | k in ps :: FieldEntry(schema, k, data).Ok?)
        && (r.Thrown? ==> state == old(state))
        && (r.Ok? ==> state == ValidatedAll(schema, old(state), data, ps, false).value)
        && (r.Ok? ==> ReducedFrom(schema, ps, data, old(state), false, state))
        && (r.Ok? ==> r.value == IsValid())
      ensures r.Ok? && Consistent(old(state)) ==> Consistent(state)
    {
      var default := DefaultProps(validationSchema, props);
      if default.Thrown? {
        return Thrown(default.message);
      }
      var ps := default.value;
      var merged := ValidatedAll(schema, state, data, ps, false);
      if merged.Thrown? {
        return Thrown(merged.message);
      }
      state := merged.value;
      r := Ok(CalculateIsValid(state));
      if Consistent(old(state)) {
        ValidatedAllConsistent(schema, old(state), data, ps, false);
      }
    }

    /**
     * `validateAllIfTrue(data, props?)`: like `validateAll`, but only the
     * listed fields that come out valid are merged; the rest keep their
     * old entry (or stay absent). Without `props`, a `null` schema throws.
     */
    method ValidateAllIfTrue(data: Data, props: Option<seq<string>>) returns (r: Result<bool>)
      modifies this
      ensures DefaultProps(validationSchema, props).Thrown? ==> r.Thrown? && state == old(state)
      ensures DefaultProps(validationSchema, props).Ok? ==>
        var ps := DefaultProps(validationSchema, props).value;
        && (r.Ok? <==> forall k | k in ps :: FieldEntry(schema, k, data).Ok?)
        && (r.Thrown? ==> state == old(state))
        && (r.Ok? ==> state == ValidatedAll(schema, old(state), data, ps, true).value)
        && (r.Ok? ==> ReducedFrom(schema, ps, data, old(state), true, state))
        && (r.Ok? ==> r.value == IsValid())
      ensures r.Ok? && old(IsValid()) ==> r.value
      ensures r.Ok? && Consistent(old(state)) ==> Consistent(state)
    {
      var default := DefaultProps(validationSchema, props);
      if default.Thrown? {
        return Thrown(default.message);
      }
      var ps := default.value;
      var merged := ValidatedAll(schema, state, data, ps, true);
      if merged.Thrown? {
        return Thrown(merged.message);
      }
      state := merged.value;
      r := Ok(CalculateIsValid(state));
      ValidatedAllIfTrueKeepsValid(schema, old(state), data, ps);
      if Consistent(old(state)) {
        ValidatedAllConsistent(schema, old(state), data, ps, true);
      }
    }

    /**
     * `validateOnBlur(data)(event)`: `validate` on the field the event
     * names, with the event's value spread over `data`. Returns nothing.
     */
    method ValidateOnBlur(data: Data, event: Event) returns (r: Result<()>)
      modifies this
      ensures var p := EventName(event);
        var d := data + EventNameValue(event);
        && (r.Ok? <==> FieldEntry(schema, p, d).Ok?)
        && (r.Ok? ==> state == Validated(schema, old(state), p, d).value)
        && (r.Thrown? ==> state == old(state))
    {
      var valid := Validate(EventName(event), data + EventNameValue(event));
      r := if valid.Thrown? then Thrown(valid.message) else Ok(());
    }

    /**
     * `validateOnChange(onChange, data)(event)`: `validateIfTrue` on the
     * field the event names, then the caller's handler, whose result is
     * returned.
     */
    method ValidateOnChange<T>(onChange: Event -> T, data: Data, event: Event) returns (r: Result<T>)
      modifies this
      ensures var p := EventName(event);
        var d := data + EventNameValue(event);
        && (r.Ok? <==> FieldEntry(schema, p, d).Ok?)
        && (r.Ok? ==> r.value == onChange(event))
        && (r.Ok? && FieldEntry(schema, p, d).value.isValid ==> state == Validated(schema, old(state), p, d).value)
        && (r.Ok? && !FieldEntry(schema, p, d).value.isValid ==> state == old(state))
        && (r.Thrown? ==> state == old(state))
    {
      var valid := ValidateIfTrue(EventName(event), data + EventNameValue(event));
      r := if valid.Thrown? then Thrown(valid.message) else Ok(onChange(event));
    }
  }
}
