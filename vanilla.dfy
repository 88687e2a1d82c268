/**
 * The dirty-aware `Validation(schema)` object of examples/vanilla.ts. Each
 * entry also carries `dirty`: a field becomes dirty the first time
 * `validate` or `validateAll` evaluates it, and only `resetValidationState`
 * (or a wholesale `setValidationState`) makes it clean again. The "if
 * dirty" operations always evaluate, but commit a field only when its
 * stored entry is already dirty. A field the schema does not list is
 * never written and counts as valid.
 */
module Vanilla {
  import opened JsObject
  import opened Types
  import opened Reducer
  import opened Utilities

  /** `{dirty, isValid, errors}`. */
  datatype DirtyEntry = DirtyEntry(dirty: bool, isValid: bool, errors: seq<string>)

  /** The dirty-aware validation state. */
  type DirtyState = Record<string, DirtyEntry>

  /** The `{isValid, errors}` part of an entry, which is all the getters read. */
  function Strip(e: DirtyEntry): Entry {
    Entry(e.isValid, e.errors)
  }

  /** The state as the getters see it: same keys in the same order, `dirty` dropped. */
  function AsState(s: DirtyState): (r: State)
    ensures r.keys == s.keys
    ensures r.fields.Keys == s.fields.Keys
    ensures forall k | k in s.fields :: r.fields[k] == Entry(s.fields[k].isValid, s.fields[k].errors)
  {
    MapValues(s, Strip)
  }

  /** A field that has not been touched: `{dirty: false, isValid: true, errors: []}`. */
  function CleanEntry(): DirtyEntry {
    DirtyEntry(false, true, [])
  }

  /** The initial dirty-aware state: every schema field, in schema order, clean and valid. */
  function CreateDirtyState(schema: Schema): (r: DirtyState)
    ensures r.keys == schema.keys
    ensures r.fields.Keys == schema.fields.Keys
    ensures forall k | k in r.fields :: r.fields[k] == CleanEntry()
  {
    FillKeys(schema, CleanEntry());
    AssocAll(schema.keys, CleanEntry(), Empty())
  }

  /** The entry a commit writes: the evaluated entry, now dirty. */
  function Dirtied(e: Entry): DirtyEntry {
    DirtyEntry(true, e.isValid, e.errors)
  }

  /** Whether an evaluation of field `p` is committed: always, or for the "if dirty" operations only onto a dirty entry. */
  predicate Commits(schema: Schema, s: DirtyState, p: string, onlyDirty: bool) {
    p in schema.fields && (!onlyDirty || (p in s.fields && s.fields[p].dirty))
  }

  /**
   * The state `validate` (`onlyDirty` false) or `validateIfDirty`
   * (`onlyDirty` true) commits for field `p`.
   */
  function Commit(schema: Schema, s: DirtyState, p: string, data: Data, onlyDirty: bool): (r: Result<DirtyState>)
    ensures r.Ok? <==> FieldEntry(schema, p, data).Ok?
    ensures r.Thrown? ==> r.message == FieldEntry(schema, p, data).message
    ensures r.Ok? && Commits(schema, s, p, onlyDirty) ==> r.value == Assoc(s, p, Dirtied(FieldEntry(schema, p, data).value))
    ensures r.Ok? && !Commits(schema, s, p, onlyDirty) ==> r.value == s
  {
    match FieldEntry(schema, p, data)
    case Thrown(m) => Thrown(m)
    case Ok(e) => if Commits(schema, s, p, onlyDirty) then Ok(Assoc(s, p, Dirtied(e))) else Ok(s)
  }

  /**
   * `validateAll` (`onlyDirty` false) and `validateAllIfDirty` (`onlyDirty`
   * true) over the listed fields, one field after the other.
   */
  function CommitAll(schema: Schema, s: DirtyState, ps: seq<string>, data: Data, onlyDirty: bool): Result<DirtyState>
    decreases ps
  {
    if ps == [] then Ok(s)
    else
      match Commit(schema, s, ps[0], data, onlyDirty)
      case Thrown(m) => Thrown(m)
      case Ok(next) => CommitAll(schema, next, ps[1..], data, onlyDirty)
  }

  /** What `CommitAll` leaves: listed fields that commit get their new, dirty entry; everything else is as it was. */
  predicate CommittedFrom(schema: Schema, ps: seq<string>, data: Data, s: DirtyState, onlyDirty: bool, r: DirtyState) {
    && (forall k | k in ps :: FieldEntry(schema, k, data).Ok?)
    && IsPrefix(s.keys, r.keys)
    && (forall k | k in r.fields :: k in s.fields || k in ps)
    && (forall k | k in s.fields && k !in ps :: k in r.fields && r.fields[k] == s.fields[k])
    && (forall k | k in ps && Commits(schema, s, k, onlyDirty) ::
          k in r.fields && r.fields[k] == Dirtied(FieldEntry(schema, k, data).value))
    && (forall k | k in ps && !Commits(schema, s, k, onlyDirty) ::
          (k in r.fields <==> k in s.fields) && (k in s.fields ==> r.fields[k] == s.fields[k]))
  }

  /** The fold fails exactly when some listed field's rules throw. */
  lemma {:induction false} CommitAllThrows(schema: Schema, s: DirtyState, ps: seq<string>, data: Data, onlyDirty: bool)
    ensures CommitAll(schema, s, ps, data, onlyDirty).Ok? <==> forall k | k in ps :: FieldEntry(schema, k, data).Ok?
    decreases ps
  {
    if ps != [] {
      assert forall k | k in ps :: k == ps[0] || k in ps[1..];
      if FieldEntry(schema, ps[0], data).Ok? {
        CommitAllThrows(schema, Commit(schema, s, ps[0], data, onlyDirty).value, ps[1..], data, onlyDirty);
      } else {
        assert ps[0] in ps;
      }
    }
  }

  /** A commit never changes which fields would commit. */
  lemma CommitKeepsCommits(schema: Schema, s: DirtyState, p: string, data: Data, onlyDirty: bool)
    requires Commit(schema, s, p, data, onlyDirty).Ok?
    ensures forall k :: Commits(schema, Commit(schema, s, p, data, onlyDirty).value, k, onlyDirty) == Commits(schema, s, k, onlyDirty)
  {
  }

  /** One step of the fold: what holds after the rest also holds after the whole. */
  lemma CommittedStep(schema: Schema, ps: seq<string>, data: Data, s: DirtyState, next: DirtyState, onlyDirty: bool, r: DirtyState)
    requires ps != [] && Commit(schema, s, ps[0], data, onlyDirty) == Ok(next)
    requires CommittedFrom(schema, ps[1..], data, next, onlyDirty, r)
    ensures CommittedFrom(schema, ps, data, s, onlyDirty, r)
  {
    assert forall k | k in ps :: k == ps[0] || k in ps[1..];
    assert IsPrefix(s.keys, next.keys);
    CommittedStepUnlisted(schema, ps, data, s, next, onlyDirty, r);
    CommittedStepWritten(schema, ps, data, s, next, onlyDirty, r);
    CommittedStepSkipped(schema, ps, data, s, next, onlyDirty, r);
  }

  /** The step for the fields the whole list does not name. */
  lemma CommittedStepUnlisted(schema: Schema, ps: seq<string>, data: Data, s: DirtyState, next: DirtyState, onlyDirty: bool, r: DirtyState)
    requires ps != [] && Commit(schema, s, ps[0], data, onlyDirty) == Ok(next)
    requires CommittedFrom(schema, ps[1..], data, next, onlyDirty, r)
    ensures forall k | k in r.fields :: k in s.fields || k in ps
    ensures forall k | k in s.fields && k !in ps :: k in r.fields && r.fields[k] == s.fields[k]
  {
    assert forall k | k in ps[1..] :: k in ps;
  }

  /** The step for the listed fields that commit. */
  lemma CommittedStepWritten(schema: Schema, ps: seq<string>, data: Data, s: DirtyState, next: DirtyState, onlyDirty: bool, r: DirtyState)
    requires ps != [] && Commit(schema, s, ps[0], data, onlyDirty) == Ok(next)
    requires CommittedFrom(schema, ps[1..], data, next, onlyDirty, r)
    ensures forall k | k in ps && Commits(schema, s, k, onlyDirty) ::
      k in r.fields && r.fields[k] == Dirtied(FieldEntry(schema, k, data).value)
  {
    CommitKeepsCommits(schema, s, ps[0], data, onlyDirty);
    assert forall k | k in ps :: k == ps[0] || k in ps[1..];
  }

  /** The step for the listed fields that do not commit. */
  lemma CommittedStepSkipped(schema: Schema, ps: seq<string>, data: Data, s: DirtyState, next: DirtyState, onlyDirty: bool, r: DirtyState)
    requires ps != [] && Commit(schema, s, ps[0], data, onlyDirty) == Ok(next)
    requires CommittedFrom(schema, ps[1..], data, next, onlyDirty, r)
    ensures forall k | k in ps && !Commits(schema, s, k, onlyDirty) ::
      (k in r.fields <==> k in s.fields) && (k in s.fields ==> r.fields[k] == s.fields[k])
  {
    CommitKeepsCommits(schema, s, ps[0], data, onlyDirty);
    forall k | k in ps && !Commits(schema, s, k, onlyDirty)
      ensures (k in r.fields <==> k in s.fields) && (k in s.fields ==> r.fields[k] == s.fields[k])
    {
      assert k in next.fields <==> k in s.fields;
      assert k in s.fields ==> next.fields[k] == s.fields[k];
      if k !in ps[1..] {
        assert k == ps[0];
      }
    }
  }


  /** When it does not fail, the fold leaves exactly what `CommittedFrom` says. */
  lemma {:induction false} CommitAllSpec(schema: Schema, s: DirtyState, ps: seq<string>, data: Data, onlyDirty: bool)
    requires CommitAll(schema, s, ps, data, onlyDirty).Ok?
    ensures CommittedFrom(schema, ps, data, s, onlyDirty, CommitAll(schema, s, ps, data, onlyDirty).value)
    decreases ps
  {
    CommitAllThrows(schema, s, ps, data, onlyDirty);
    if ps != [] {
      var next := Commit(schema, s, ps[0], data, onlyDirty).value;
      CommitAllSpec(schema, next, ps[1..], data, onlyDirty);
      CommittedStep(schema, ps, data, s, next, onlyDirty, CommitAll(schema, s, ps, data, onlyDirty).value);
    }
  }

  // ---------------------------------------------------------------------------
  // Properties of the dirty-tracking policy

  /** Every entry is valid exactly when it has no errors, and no error is blank. */
  predicate ConsistentDirty(s: DirtyState) {
    Consistent(AsState(s))
  }

  /** No entry is dirty. */
  predicate AllClean(s: DirtyState) {
    forall k | k in s.fields :: !s.fields[k].dirty
  }

  /** Without its `dirty` flags, the initial dirty-aware state is the plain initial state. */
  lemma InitialAsState(schema: Schema)
    ensures AsState(CreateDirtyState(schema)) == CreateValidationState(schema)
  {
    RecordExt(AsState(CreateDirtyState(schema)), CreateValidationState(schema));
  }

  /** The initial state is clean, consistent, valid and reports no errors; a missing schema gives the empty state. */
  lemma InitialDirtyState(schema: Option<Schema>)
    ensures var s := CreateDirtyState(SchemaOrEmpty(schema));
      && AllClean(s) && ConsistentDirty(s) && CalculateIsValid(AsState(s)) && GatherValidationErrors(AsState(s)) == []
    ensures schema.None? ==> CreateDirtyState(SchemaOrEmpty(schema)).keys == []
  {
    InitialAsState(SchemaOrEmpty(schema));
    InitialState(SchemaOrEmpty(schema));
  }

  /** A commit turns no dirty entry clean and drops no field. */
  lemma CommitDirtyMonotone(schema: Schema, s: DirtyState, p: string, data: Data, onlyDirty: bool)
    requires Commit(schema, s, p, data, onlyDirty).Ok?
    ensures var r := Commit(schema, s, p, data, onlyDirty).value;
      forall k | k in s.fields :: k in r.fields && (s.fields[k].dirty ==> r.fields[k].dirty)
  {
  }

  /** The folds turn no dirty entry clean and drop no field. */
  lemma CommitAllDirtyMonotone(schema: Schema, s: DirtyState, ps: seq<string>, data: Data, onlyDirty: bool)
    requires CommitAll(schema, s, ps, data, onlyDirty).Ok?
    ensures var r := CommitAll(schema, s, ps, data, onlyDirty).value;
      forall k | k in s.fields :: k in r.fields && (s.fields[k].dirty ==> r.fields[k].dirty)
  {
    CommitAllSpec(schema, s, ps, data, onlyDirty);
  }

  /** `validateIfDirty` on a field that is not dirty (or not in the schema) writes nothing. */
  lemma CommitIfDirtyOnClean(schema: Schema, s: DirtyState, p: string, data: Data)
    requires p !in s.fields || !s.fields[p].dirty || p !in schema.fields
    requires FieldEntry(schema, p, data).Ok?
    ensures Commit(schema, s, p, data, true) == Ok(s)
  {
  }

  /** `validateAllIfDirty` on a state with no dirty entry writes nothing, whatever the data. */
  lemma {:induction false} CommitAllIfDirtyOnClean(schema: Schema, s: DirtyState, ps: seq<string>, data: Data)
    requires AllClean(s)
    requires forall k | k in ps :: FieldEntry(schema, k, data).Ok?
    ensures CommitAll(schema, s, ps, data, true) == Ok(s)
    decreases ps
  {
    if ps != [] {
      assert ps[0] in ps;
      CommitAllIfDirtyOnClean(schema, s, ps[1..], data);
    }
  }

  /** `validate` makes a schema field dirty with its new entry, and touches nothing else. */
  lemma CommitTouches(schema: Schema, s: DirtyState, p: string, data: Data)
    requires p in schema.fields && FieldEntry(schema, p, data).Ok?
    ensures var r := Commit(schema, s, p, data, false).value;
      && p in r.fields && r.fields[p] == Dirtied(FieldEntry(schema, p, data).value)
      && (forall k | k in s.fields && k != p :: k in r.fields && r.fields[k] == s.fields[k])
      && r.fields.Keys == s.fields.Keys + {p}
  {
  }

  /** Committing a consistent entry into a consistent state keeps it consistent. */
  lemma CommitConsistent(schema: Schema, s: DirtyState, p: string, data: Data, onlyDirty: bool)
    requires ConsistentDirty(s) && Commit(schema, s, p, data, onlyDirty).Ok?
    ensures ConsistentDirty(Commit(schema, s, p, data, onlyDirty).value)
  {
    FieldEntryConsistent(schema, p, data);
  }

  /** The folds keep a consistent state consistent. */
  lemma CommitAllConsistent(schema: Schema, s: DirtyState, ps: seq<string>, data: Data, onlyDirty: bool)
    requires ConsistentDirty(s) && CommitAll(schema, s, ps, data, onlyDirty).Ok?
    ensures ConsistentDirty(CommitAll(schema, s, ps, data, onlyDirty).value)
  {
    var r := CommitAll(schema, s, ps, data, onlyDirty).value;
    CommitAllSpec(schema, s, ps, data, onlyDirty);
    forall k | k in r.fields ensures ConsistentEntry(AsState(r).fields[k]) {
      if k in ps {
        FieldEntryConsistent(schema, k, data);
      }
      if k in s.fields {
        assert ConsistentEntry(AsState(s).fields[k]);
      }
    }
  }

  // ---------------------------------------------------------------------------
  // The facade

  class Validation {
    const schema: Schema
    var state: DirtyState

    /** `Validation(schema)`: an `undefined` schema gives the empty state. */
    constructor (schema: Option<Schema>)
      ensures this.schema == SchemaOrEmpty(schema)
      ensures state == CreateDirtyState(this.schema)
      ensures AllClean(state) && ConsistentDirty(state) && IsValid() && ValidationErrors() == []
    {
      this.schema := SchemaOrEmpty(schema);
      state := CreateDirtyState(SchemaOrEmpty(schema));
      new;
      InitialDirtyState(schema);
    }

    /** The `isValid` getter. */
    function IsValid(): (r: bool)
      reads this
      ensures r <==> forall k | k in state.fields :: state.fields[k].isValid
    {
      CalculateIsValid(AsState(state))
    }

    /** The `validationState` getter. */
    function ValidationState(): DirtyState
      reads this
    {
      state
    }

    /** The `validationErrors` getter: the first error of every field that has one, in key order. */
    function ValidationErrors(): (r: seq<string>)
      reads this
      ensures r == FirstErrors(state.keys, AsState(state))
      ensures ConsistentDirty(state) ==> (r == [] <==> IsValid())
    {
      if ConsistentDirty(state) then
        ErrorsIffInvalid(AsState(state));
        GatherValidationErrors(AsState(state))
      else
        GatherValidationErrors(AsState(state))
    }

    /** `getError(property)`. */
    function GetError(p: string): (r: string)
      reads this
      ensures r == if p in state.fields && state.fields[p].errors != [] then state.fields[p].errors[0] else ""
    {
      Reducer.GetError(p, AsState(state))
    }

    /** `getAllErrors(property)`. */
    function GetAllErrors(p: string): (r: seq<string>)
      reads this
      ensures r == if p in state.fields then state.fields[p].errors else []
    {
      Reducer.GetAllErrors(p, AsState(state))
    }

    /** `getFieldValid(property)`. */
    function GetFieldValid(p: string): (r: bool)
      reads this
      ensures r <==> p !in state.fields || state.fields[p].isValid
    {
      Reducer.GetFieldValid(p, AsState(state))
    }

    /** `setValidationState(s)`: replaces the whole state. */
    method SetValidationState(s: DirtyState)
      modifies this
      ensures state == s
    {
      state := s;
    }

    /** `resetValidationState()`: every field clean and valid again. */
    method ResetValidationState()
      modifies this
      ensures state == CreateDirtyState(schema)
      ensures AllClean(state) && IsValid() && ValidationErrors() == []
    {
      state := CreateDirtyState(schema);
      InitialDirtyState(Some(schema));
    }

    /**
     * `validate(property, data)`: a schema field gets its new entry and
     * becomes dirty; an unknown field is left alone. Returns whether the
     * field is valid under `data` (`true` for an unknown field).
     */
    method Validate(p: string, data: Data) returns (r: Result<bool>)
      modifies this
      ensures r.Ok? <==> FieldEntry(schema, p, data).Ok?
      ensures r.Thrown? ==> r.message == FieldEntry(schema, p, data).message && state == old(state)
      ensures r.Ok? ==> state == Commit(schema, old(state), p, data, false).value
      ensures r.Ok? ==> (r.value <==> FailingMessages(RulesOf(schema, p), data) == Ok([]))
      ensures r.Ok? && p in schema.fields ==> r.value == GetFieldValid(p) && state.fields[p].dirty
      ensures r.Ok? && p !in schema.fields ==> r.value && state == old(state)
      ensures ConsistentDirty(old(state)) ==> ConsistentDirty(state)
    {
      var next := Commit(schema, state, p, data, false);
      if next.Thrown? {
        return Thrown(next.message);
      }
      if ConsistentDirty(state) {
        CommitConsistent(schema, state, p, data, false);
      }
      state := next.value;
      FieldEntrySpec(schema, p, data);
      r := Ok(FieldEntry(schema, p, data).value.isValid);
    }

    /**
     * `validateIfDirty(property, data)`: evaluates the field and returns
     * whether it is valid under `data`, but commits only when its stored
     * entry is already dirty.
     */
    method ValidateIfDirty(p: string, data: Data) returns (r: Result<bool>)
      modifies this
      ensures r.Ok? <==> FieldEntry(schema, p, data).Ok?
      ensures r.Thrown? ==> r.message == FieldEntry(schema, p, data).message && state == old(state)
      ensures r.Ok? ==> state == Commit(schema, old(state), p, data, true).value
      ensures r.Ok? ==> (r.value <==> FailingMessages(RulesOf(schema, p), data) == Ok([]))
      ensures r.Ok? && (p !in old(state).fields || !old(state).fields[p].dirty) ==> state == old(state)
      ensures ConsistentDirty(old(state)) ==> ConsistentDirty(state)
    {
      var next := Commit(schema, state, p, data, true);
      if next.Thrown? {
        return Thrown(next.message);
      }
      if ConsistentDirty(state) {
        CommitConsistent(schema, state, p, data, true);
      }
      state := next.value;
      FieldEntrySpec(schema, p, data);
      r := Ok(FieldEntry(schema, p, data).value.isValid);
    }

    /**
     * `validateAll(data, props?)`: every listed schema field (all of them
     * by default) gets its new entry and becomes dirty; returns whether the
     * whole resulting state is valid.
     */
    method ValidateAll(data: Data, props: Option<seq<string>>) returns (r: Result<bool>)
      modifies this
      ensures var ps := PropsOrSchema(schema, props);
        && (r.Ok? <==> forall k | k in ps :: FieldEntry(schema, k, data).Ok?)
        && (r.Thrown? ==> state == old(state))
        && (r.Ok? ==> CommitAll(schema, old(state), ps, data, false) == Ok(state))
        && (r.Ok? ==> CommittedFrom(schema, ps, data, old(state), false, state))
        && (r.Ok? ==> r.value == IsValid())
      ensures ConsistentDirty(old(state)) ==> ConsistentDirty(state)
    {
      var ps := PropsOrSchema(schema, props);
      CommitAllThrows(schema, state, ps, data, false);
      var next := CommitAll(schema, state, ps, data, false);
      if next.Thrown? {
        return Thrown(next.message);
      }
      CommitAllSpec(schema, state, ps, data, false);
      if ConsistentDirty(state) {
        CommitAllConsistent(schema, state, ps, data, false);
      }
      state := next.value;
      r := Ok(CalculateIsValid(AsState(state)));
    }

    /**
     * `validateAllIfDirty(data, props?)`: evaluates every listed field but
     * commits only those whose stored entry is already dirty; returns
     * whether the whole resulting state is valid.
     */
    method ValidateAllIfDirty(data: Data, props: Option<seq<string>>) returns (r: Result<bool>)
      modifies this
      ensures var ps := PropsOrSchema(schema, props);
        && (r.Ok? <==> forall k | k in ps :: FieldEntry(schema, k, data).Ok?)
        && (r.Thrown? ==> state == old(state))
        && (r.Ok? ==> CommitAll(schema, old(state), ps, data, true) == Ok(state))
        && (r.Ok? ==> CommittedFrom(schema, ps, data, old(state), true, state))
        && (r.Ok? ==> r.value == IsValid())
      ensures r.Ok? && AllClean(old(state)) ==> state == old(state)
      ensures ConsistentDirty(old(state)) ==> ConsistentDirty(state)
    {
      var ps := PropsOrSchema(schema, props);
      CommitAllThrows(schema, state, ps, data, true);
      var next := CommitAll(schema, state, ps, data, true);
      if next.Thrown? {
        return Thrown(next.message);
      }
      CommitAllSpec(schema, state, ps, data, true);
      if AllClean(state) {
        CommitAllIfDirtyOnClean(schema, state, ps, data);
      }
      if ConsistentDirty(state) {
        CommitAllConsistent(schema, state, ps, data, true);
      }
      state := next.value;
      r := Ok(CalculateIsValid(AsState(state)));
    }

    /** `validateOnBlur(data)(event)`: `validate` on the event's field, its value spread over `data`. */
    method ValidateOnBlur(data: Data, event: Event) returns (r: Result<()>)
      modifies this
      ensures var p := EventName(event);
        var d := data + EventNameValue(event);
        && (r.Ok? <==> FieldEntry(schema, p, d).Ok?)
        && (r.Ok? ==> state == Commit(schema, old(state), p, d, false).value)
        && (r.Thrown? ==> state == old(state))
    {
      var valid := Validate(EventName(event), data + EventNameValue(event));
      r := if valid.Thrown? then Thrown(valid.message) else Ok(());
    }

    /**
     * `validateOnChange(onChange, data)(event)`: `validateIfDirty` on the
     * event's field, then the caller's handler, whose result is returned.
     */
    method ValidateOnChange<T>(onChange: Event -> T, data: Data, event: Event) returns (r: Result<T>)
      modifies this
      ensures var p := EventName(event);
        var d := data + EventNameValue(event);
        && (r.Ok? <==> FieldEntry(schema, p, d).Ok?)
        && (r.Ok? ==> r.value == onChange(event))
        && (r.Ok? ==> state == Commit(schema, old(state), p, d, true).value)
        && (r.Thrown? ==> state == old(state))
    {
      var valid := ValidateIfDirty(EventName(event), data + EventNameValue(event));
      r := if valid.Thrown? then Thrown(valid.message) else Ok(onChange(event));
    }
  }
}
