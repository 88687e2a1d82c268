# de-formed validation engine in Dafny

de-formed is a small form-validation library. A **schema** maps each field
name to an ordered list of **rules**. A rule is an `error` message plus a
`validation` predicate over the caller's data snapshot. The engine keeps a
**validation state**. It maps field names to entries `{isValid, errors}` and
keeps keys in insertion order.

The engine offers:

- pure reducers that build, evaluate and merge states;
- derived views: aggregate validity, the first-error list, and per-field getters;
- commit policies that decide when a recomputed state replaces the current one:
  - `validate` always commits;
  - `validateIfTrue` commits only when the field comes out valid;
  - `validateAll` and `validateAllIfTrue` do the same over a list of fields;
- two stateful facades that hold the current state in a mutable cell:
  - the plain one of src/example.ts;
  - the dirty-aware one of examples/vanilla.ts, whose entries also carry `dirty`.

The project is organised by the repository's files:

| module | file | models |
|---|---|---|
| `JsObject` | js_object.dfy | JavaScript plain objects with ordered keys: `{}`, `R.assoc`, spread / `R.mergeRight`, the key-building `reduce` |
| `Types` | types.dfy | src/types.ts: runtime values, data snapshots, rules, schemas, entries, states, events; `Result` for a computation that may throw |
| `Maybe` | maybe.dfy | src/maybe.ts: `Maybe.of`, `isNothing`, `isJust`, `map`, `join` |
| `Utilities` | utilities.dfy | src/utilities.ts: `stringIsNotEmpty` (over `String.prototype.trim`), `readValue`, `eventNameValue`; a string's `length` in UTF-16 code units |
| `AutoProps` | auto_props.dfy | src/auto-props.ts: `cond`, `pipe`, `typeOf`, `gt`, `lt`, `eq`, and the builders `required`, `matches`, `longerThan`, `shorterThan`, `min`, `max`, `is` |
| `Reducer` | reducer.dfy | the pure half of src/index.ts, with each `create*` commit policy as a next-state function |
| `Example` | example.dfy | src/example.ts: class `Validation`, whose `state` field is the `useCache` cell |
| `Vanilla` | vanilla.dfy | examples/vanilla.ts: the dirty-aware class `Validation` |
| `ValidationFunctions` | validation_functions.dfy | the older helpers of src/validation-functions.ts |
| `Scenarios` | scenarios.dfy | the schema and snapshots of src/__tests__/Validation.test.ts, and the outcomes it expects |

Rule predicates are Dafny function values returning `Result<bool>`. A
builder that throws (`matches` on a number, say) is `Thrown(message)`. The
error propagates through the engine: the first rule that throws aborts the
evaluation, and nothing is committed.

The facades are classes. Every operation that calls `setValidationState`
in the source assigns the `state` field. Each method's `ensures` ties the
new state to a `Reducer` or `Vanilla` next-state function of the old
state. The lemmas beside those functions prove what the operations promise:

- only the validated field changes;
- `validateIfTrue` and `validateAllIfTrue` never make a valid state invalid;
- every entry is valid exactly when it has no errors (an invariant each operation keeps);
- the error list is empty exactly when the state is valid.

## Model

| member | source | states |
|---|---|---|
| JsObject.Assoc | src/index.ts:141 | `{...o, [k]: v}` binds `k` to `v`; an existing key keeps its position, a new key goes last |
| JsObject.MergeRight | src/index.ts:162 | `R.mergeRight(a)(b)`: the bindings of `a` overridden by `b`; `a`'s keys first, then the keys only `b` has |
| JsObject.AssocAll | src/index.ts:99-103 | the key-building `reduce` appends each key once, in order, bound to the value, and keeps the accumulator's bindings |
| JsObject.MergeSingle | src/index.ts:161-162 | merging a one-key object equals assigning that key |
| JsObject.MergeExtension | src/index.ts:236-237 | merging a state that extends `a` in `a`'s key order gives that state back |
| JsObject.WithoutAppend | src/index.ts:231-234 | the "keys only `b` has" of a concatenation is the concatenation of the parts |
| Maybe.Of | src/maybe.ts:17-19 | wraps the value unchanged; Just exactly when it is present |
| Maybe.Map | src/maybe.ts:22-24 | Nothing passes through unchanged; Just gives `Maybe.of(fn(value))`, which may be Nothing |
| Maybe.Join | src/maybe.ts:26-28 | the held value on Just, the container itself on Nothing |
| Maybe.JoinOr | src/validation-functions.ts:166 | `m.isJust ? m.join() : fallback` gives the fallback exactly on Nothing |
| Maybe.MapIdentity | src/maybe.ts:22-24 | mapping the re-wrapping function is the identity |
| Maybe.MapNothingIgnoresFunction | src/maybe.ts:23 | on Nothing, `map` does not call or depend on `fn` |
| Maybe.MapComposition | src/maybe.ts:22-24 | two maps are the map of the composition when the first never yields `null`/`undefined` |
| Maybe.MapToNothingFallsBack | src/index.ts:211 | a chain whose last step yields `null` ends in Nothing, so the default wins |
| Maybe.JoinOf | src/maybe.ts:17-28 | `Maybe.of(x).join()` is `x` for a present `x` |
| Utilities.TrimStart | src/utilities.ts:8 | drops exactly the leading whitespace |
| Utilities.TrimEnd | src/utilities.ts:8 | drops exactly the trailing whitespace |
| Utilities.Trim | src/utilities.ts:8 | the result starts and ends with a non-whitespace character and is no longer than the input |
| Utilities.TrimIsMiddle | src/utilities.ts:8 | the result is a contiguous part `s[i..j]` of the input with only whitespace before `i` and after `j` |
| Utilities.TrimmedParts | src/utilities.ts:8 | cutting whitespace off the front and then off the back leaves such a part |
| Utilities.CodeUnits | src/auto-props.ts:77 | a character counts one UTF-16 code unit, or two above U+FFFF |
| Utilities.Utf16Length | src/auto-props.ts:77 | a string's `length` lies between its number of characters and twice that |
| Utilities.Utf16LengthBmp | src/auto-props.ts:77 | `length` equals the number of characters exactly when none is above U+FFFF |
| Utilities.TrimEmpty | src/utilities.ts:8 | the trimmed string is empty exactly when every character is whitespace |
| Utilities.StringIsNotEmpty | src/utilities.ts:7-9 | true exactly when some character is not whitespace, so `' '` is empty |
| Utilities.ReadValue | src/utilities.ts:17-19 | calls a function of no arguments, returns anything else unchanged |
| Utilities.ReadValueGetter | src/utilities.ts:17-19 | reading a getter of `x` is reading `x` |
| Utilities.EventNameValue | src/utilities.ts:30-39 | always exactly one key; the target's name when there is a target, else `{error: 'unable to parse values'}` |
| Utilities.CheckboxReadsChecked | src/utilities.ts:35 | a checkbox reports `checked` under its name and ignores `value` |
| Utilities.InputReadsValue | src/utilities.ts:36 | any other input reports `value` under its name and ignores `checked` |
| AutoProps.Cond | src/auto-props.ts:20-24 | no result exactly when no row's test holds; otherwise the apply of a row that holds with none before it |
| AutoProps.CondFirstMatch | src/auto-props.ts:20-24 | the first row that holds decides, whatever the later rows say |
| AutoProps.PipeAppend | src/auto-props.ts:16-19 | piping `f ++ g` is piping `g` after piping `f`, that is left to right |
| AutoProps.TypeOf | src/auto-props.ts:25 | `typeof` is `"string"` exactly for strings, `"number"` exactly for numbers, and never `"array"` |
| AutoProps.StrictEq | src/auto-props.ts:30 | `===` implies the same `typeof`; it is value equality on non-objects and identity on objects |
| AutoProps.StrictEqEquivalence | src/auto-props.ts:30 | `===` is reflexive, symmetric and transitive on the modelled values |
| AutoProps.ToNumber | src/auto-props.ts:107 | `Number` keeps numbers and maps `undefined` to `NaN` |
| AutoProps.CondCatchAll | src/auto-props.ts:52 | a table whose last row always holds never yields `undefined` |
| AutoProps.ErrorOr | src/auto-props.ts:46 | a given non-empty message wins; a missing or empty one gives the default |
| AutoProps.Build | src/auto-props.ts:43-47 | every builder returns `auto: true` and a rule that checks `data[prop]` |
| AutoProps.Required | src/auto-props.ts:43-55 | `required` gives `auto: true`, the message `<Label> is required.` or the given one, and checks `data[prop]` |
| AutoProps.RequiredSpec | src/auto-props.ts:43-55 | fails `null`, `undefined` and blank strings, passes everything else, never throws |
| AutoProps.Matches | src/auto-props.ts:57-67 | `matches` gives the message `<Label> is invalid.` or the given one |
| AutoProps.MatchesSpec | src/auto-props.ts:57-67 | tests strings against the expression; throws `matches must be used on a string but received <x>` on anything else |
| AutoProps.LongerThan | src/auto-props.ts:69-82 | `longerThan` gives the message `<Label> must be more than <len> characters.` or the given one |
| AutoProps.ShorterThan | src/auto-props.ts:84-97 | `shorterThan` gives the message `<Label> must be fewer than <len> characters.` or the given one |
| AutoProps.LengthSpec | src/auto-props.ts:69-97 | strict comparison of the trimmed length in UTF-16 code units (`> len`, `< len`); the array row never fires; every non-string throws |
| AutoProps.LengthRowsOnString | src/auto-props.ts:77 | on a string the first row decides, on the UTF-16 length of the trimmed string |
| AutoProps.LengthRowsOtherwise | src/auto-props.ts:78-79 | any other value falls through the `array` row to the thrown error |
| AutoProps.LengthOfAstral | src/auto-props.ts:69-97 | an emoji alone is longer than 1 and not shorter than 2, since it is two code units |
| AutoProps.Min | src/auto-props.ts:99-111 | `min` gives the message `<Label> must be greater than <value>.` or the given one |
| AutoProps.MinSpec | src/auto-props.ts:99-111 | a value `Number` can read passes exactly when it is at least `value`; any other value throws `min requires a number representation` |
| AutoProps.MaxAsWritten | src/auto-props.ts:113-124 | `max` as written: message `<Label> must be less than <value>.`, coerced row `gt(value - 1)` |
| AutoProps.Max | src/auto-props.ts:113-124 | `max` with both numeric rows testing the upper bound |
| AutoProps.MaxSpec | src/auto-props.ts:113-124 | under the corrected `max`, a value `Number` can read passes exactly when it is at most `value`; others throw `max requires a number representation` |
| AutoProps.MaxAsWrittenOnNumbers | src/auto-props.ts:119 | on numbers, `max` as written and as corrected agree: `n` passes exactly when `n <= value` |
| AutoProps.MaxAsWrittenPassesLargeString | src/auto-props.ts:120 | as written, `max(18)` passes the string `"100"` but fails the number 100; the corrected `max` fails both |
| AutoProps.Is | src/auto-props.ts:126-133 | `is` gives the message `<Label> must be <value>.` or the given one |
| AutoProps.IsSpec | src/auto-props.ts:126-133 | a function argument is applied as a predicate; a literal passes exactly the values `===` to it (equal non-objects, the same object); never throws |
| Reducer.IsPropertyValid | src/index.ts:51-57 | true exactly when the field is absent or its entry is valid |
| Reducer.ValidFrom | src/index.ts:68-70 | the `reduce` gives true exactly when the accumulator and every listed key are valid |
| Reducer.CalculateIsValid | src/index.ts:65-71 | true exactly when every entry is valid; the empty state is valid |
| Reducer.GatherFrom | src/index.ts:84-88 | the `reduce` appends the first errors of the keys, in key order, to the accumulator |
| Reducer.GatherValidationErrors | src/index.ts:79-89 | the first error of each entry that has one, in state-key order |
| Reducer.FirstErrorsAppend | src/index.ts:84-88 | the errors of a key list come out in key order: the list of a concatenation is the concatenation |
| Reducer.FirstErrorsMembers | src/index.ts:79-89 | at most one error per key, none empty (`''`), and an error is listed exactly when some key has it as its first error |
| Reducer.FirstErrorsNone | src/index.ts:79-89 | no error is listed exactly when every key's `getError` is `''` |
| Reducer.GetAllErrors | src/index.ts:281-290 | the field's errors, `[]` for a missing field |
| Reducer.GetError | src/index.ts:299-309 | the field's first error; `''` for a missing field or one with no errors |
| Reducer.GetFieldValid | src/index.ts:318-323 | the field's `isValid`, `true` for a missing field |
| Reducer.CreateValidationState | src/index.ts:96-104 | exactly the schema's keys, in schema order, each `{isValid: true, errors: []}` |
| Reducer.RulesOf | src/index.ts:136-137 | the field's rules, `[]` for a field the schema does not list |
| Reducer.UpdateProperty | src/index.ts:112-144 | throws exactly when the field's rules throw; otherwise the one-key object `{[property]: entry}` |
| Reducer.MapThenFilter | src/index.ts:138-139 | mapping each rule to its message or `''` and then dropping blank strings gives the failing messages |
| Reducer.FieldEntrySpec | src/index.ts:112-144 | the entry's errors are the failing messages of the rules, in order, blanks dropped; it is valid exactly when there are none |
| Reducer.UnknownFieldIsValid | src/index.ts:137 | a field absent from the schema yields `{isValid: true, errors: []}` |
| Reducer.FailingMessagesSound | src/index.ts:138-139 | at most one message per rule, and no reported message is blank |
| Reducer.FailingMessagesOrigin | src/index.ts:121-125 | each reported message is the `error` of a rule that does not hold |
| Reducer.FailingMessagesComplete | src/index.ts:121-125 | every rule that does not hold and has a non-blank message is reported |
| Reducer.FailingMessagesAppend | src/index.ts:138 | messages of earlier rules come before messages of later rules |
| Reducer.FieldEntryConsistent | src/index.ts:128-133 | every computed entry is valid exactly when it has no errors, and has no blank error |
| Reducer.InitialState | src/index.ts:96-104 | the initial state is consistent and valid, and lists no errors |
| Reducer.ErrorsIffInvalid | src/index.ts:79-89 | on a consistent state the error list is empty exactly when `calculateIsValid` holds, and a field has a first error exactly when it is invalid |
| Reducer.Validated | src/index.ts:160-163 | `mergeRight(state)(updateProperty(...))` throws when the rules throw, and otherwise is the state with the field's entry assigned |
| Reducer.ValidatedChangesOneField | src/index.ts:160-163 | only the validated field's entry changes; a new field is added last; every other entry and the key order stay |
| Reducer.ValidatedConsistent | src/index.ts:160-163 | merging a computed entry keeps a consistent state consistent |
| Reducer.ReduceUpdatesThrows | src/index.ts:231-236 | the reduction throws exactly when some listed field's rules throw |
| Reducer.ReduceUpdatesSpec | src/index.ts:231-236 | the reduction keeps the accumulator's key order and unlisted fields, and gives each listed field its new entry, or, for `validateAllIfTrue` and an invalid result, its old one |
| Reducer.ReducedStep | src/index.ts:231-236 | each fold step preserves the reduction's invariant |
| Reducer.ValidatedAll | src/index.ts:225-272 | the state `validateAll` / `validateAllIfTrue` commits: throws exactly when a listed field throws, and otherwise satisfies the reduction's invariant from the old state, with the old keys first and new ones in first-occurrence order |
| Reducer.PropsOrSchema | src/index.ts:230 | the given field list, or every schema key by default |
| Reducer.SchemaOrEmpty | src/index.ts:96-104 | a `null` or `undefined` schema reads as a schema with no fields |
| Reducer.DefaultProps | src/index.ts:230 | the given field list, or every schema key by default; without a list, a `null` schema throws |
| Reducer.ReduceUpdatesKeyOrder | src/index.ts:231-236 | the reduction keeps the accumulator's keys first, then appends each newly kept field once, in first-occurrence order |
| Reducer.AddedKeysStep | src/index.ts:231-236 | one reduction step appends the field's key exactly when it is new and kept |
| Reducer.ValidatedAllConsistent | src/index.ts:225-272 | validating a list of fields keeps a consistent state consistent |
| Reducer.ValidatedAllIfTrueKeepsValid | src/index.ts:253-272 | `validateAllIfTrue` never makes a valid state invalid, and never adds a failing field |
| Reducer.ValidatedAllVerdict | src/index.ts:225-242 | over the whole schema, `validateAll` reports valid exactly when every field's rules pass |
| Reducer.ReducedOverSchema | src/index.ts:225-242 | after a full `validateAll`, the state holds exactly the new entry of every schema field |
| ValidationFunctions.CreateValidationState | src/validation-functions.ts:35-42 | `{}` for a `null` or `undefined` schema; otherwise every schema key, in order, valid with no errors |
| ValidationFunctions.UpdatePropertyOnState | src/validation-functions.ts:62-79 | `{}` when the schema is missing or does not list the field; otherwise the same one-key object as src/index.ts |
| ValidationFunctions.UpdatePropertyOnStateSpec | src/validation-functions.ts:62-79 | a listed field's entry holds the failing messages in rule order, blanks dropped, and is valid exactly when there are none |
| ValidationFunctions.GetAllErrors | src/validation-functions.ts:160-168 | `[]` for a `null` state or a missing field, else the field's errors; an omitted state means the current one |
| ValidationFunctions.GetError | src/validation-functions.ts:171-180 | `''` for a `null` state, a missing field or no errors, else the first error |
| ValidationFunctions.GetFieldValid | src/validation-functions.ts:183-188 | `true` for a `null` state or a missing field, else the field's `isValid` |
| ValidationFunctions.GettersAgree | src/validation-functions.ts:160-188 | on a present state these getters answer as the src/index.ts ones |
| ValidationFunctions.CalculateIsValid | src/validation-functions.ts:191-195 | the AND of `isValid` over every key of the state, read through a getter when one is passed |
| ValidationFunctions.SlotValid | src/validation-functions.ts:30-33 | `isPropertyValid` is false only for an entry whose `isValid` is false; spread properties and missing keys read as valid |
| ValidationFunctions.ReduceValidListed | src/validation-functions.ts:145-150 | for a field the schema lists, one step throws exactly when its rules throw, and keeps every value reading valid |
| ValidationFunctions.ReduceValidSpec | src/validation-functions.ts:145-150 | one step throws exactly when the schema is missing, the field is not in it, or its rules throw, and keeps every value reading valid |
| ValidationFunctions.ReduceValidsSpec | src/validation-functions.ts:151-152 | the fold throws exactly when the schema is missing and the list is not empty, or a listed field is not in the schema or its rules throw; otherwise every value reads valid |
| ValidationFunctions.ValidateAllIfTrueVerdict | src/validation-functions.ts:138-157 | never reports invalid: it returns `true` unless it throws; it throws exactly when no list is given for a `null` or `undefined` schema, or a listed field is unknown (every one is, when the schema is missing) or its rules throw |
| Example.Validation.constructor | src/example.ts:33-37 | the cell starts at `createValidationState(schema)`: consistent, valid, no errors; a `null` schema gives the empty state |
| Example.Validation.IsValid | src/example.ts:100-103 | `calculateIsValid` of the current cell: every entry is valid |
| Example.Validation.ValidationErrors | src/example.ts:110-113 | the first errors of the current cell in key order; on a consistent cell, empty exactly when valid |
| Example.Validation.GetError | src/index.ts:299-309 | the first error of the field in the given or current state, `''` by default |
| Example.Validation.GetAllErrors | src/index.ts:281-290 | the errors of the field in the given or current state, `[]` by default |
| Example.Validation.GetFieldValid | src/index.ts:318-323 | the field's `isValid` in the given or current state, `true` by default |
| Example.Validation.SetValidationState | src/example.ts:23-31 | the cell now holds exactly the given state |
| Example.Validation.ResetValidationState | src/example.ts:39-41 | the cell is back at `createValidationState(schema)`: valid, no errors |
| Example.Validation.Validate | src/index.ts:154-167 | commits `mergeRight(state)(updateProperty(...))` and returns the field's new `isValid`; nothing is committed when the rules throw; consistency is kept |
| Example.Validation.ValidateIfTrue | src/index.ts:194-213 | commits only a valid result and otherwise leaves the cell alone; returns `true` whenever it does not throw |
| Example.Validation.ValidateAll | src/index.ts:225-242 | commits the merged re-evaluation of the listed fields (all by default) and returns `calculateIsValid` of the new cell; without a list, a `null` schema throws and commits nothing |
| Example.Validation.ValidateAllIfTrue | src/index.ts:253-272 | commits only the valid results; returns `calculateIsValid` of the new cell, which is `true` when the old cell was valid; without a list, a `null` schema throws and commits nothing |
| Example.Validation.ValidateOnBlur | src/index.ts:333-349 | `validate` on the event's field with the event's value spread over the data |
| Example.Validation.ValidateOnChange | src/index.ts:359-376 | `validateIfTrue` on the event's field, then returns `onChange(event)` unchanged |
| Vanilla.AsState | examples/vanilla.ts:132-145 | the getters see the same keys, in order, with `dirty` dropped |
| Vanilla.CreateDirtyState | __tests__/Validation.test.ts:79-90 | every schema key, in order, `{dirty: false, isValid: true, errors: []}` |
| Vanilla.Commit | __tests__/Validation.test.ts:190-204 | throws exactly when the rules throw; a committing field gets its new entry marked dirty; otherwise nothing changes |
| Vanilla.CommitAllThrows | __tests__/Validation.test.ts:232-271 | the fold throws exactly when some listed field's rules throw |
| Vanilla.CommitAllSpec | __tests__/Validation.test.ts:232-271 | listed fields that commit get their new, dirty entry; every other field is unchanged |
| Vanilla.CommitKeepsCommits | __tests__/Validation.test.ts:359-381 | a commit never changes which fields would commit |
| Vanilla.InitialAsState | examples/vanilla.ts:51-56 | without `dirty`, the initial state is the plain initial state |
| Vanilla.InitialDirtyState | __tests__/Validation.test.ts:79-94 | the initial state is clean, consistent and valid, with no errors; an undefined schema gives the empty state |
| Vanilla.CommitDirtyMonotone | __tests__/Validation.test.ts:359-381 | a commit makes no dirty entry clean and drops no field |
| Vanilla.CommitAllDirtyMonotone | __tests__/Validation.test.ts:232-271 | the folds make no dirty entry clean and drop no field |
| Vanilla.CommitIfDirtyOnClean | __tests__/Validation.test.ts:347-358 | `validateIfDirty` on a clean or unknown field writes nothing |
| Vanilla.CommitAllIfDirtyOnClean | __tests__/Validation.test.ts:286-290 | `validateAllIfDirty` on an all-clean state writes nothing, whatever the data |
| Vanilla.CommitTouches | __tests__/Validation.test.ts:190-204 | `validate` makes a schema field dirty with its new entry and touches nothing else |
| Vanilla.CommitConsistent | __tests__/Validation.test.ts:190-204 | a commit keeps a consistent state consistent |
| Vanilla.CommitAllConsistent | __tests__/Validation.test.ts:232-271 | the folds keep a consistent state consistent |
| Vanilla.Validation.constructor | examples/vanilla.ts:47-56 | the cell starts clean, consistent and valid with no errors; an undefined schema gives the empty state |
| Vanilla.Validation.IsValid | examples/vanilla.ts:132-135 | `calculateIsValid` of the current cell |
| Vanilla.Validation.ValidationErrors | examples/vanilla.ts:142-145 | the first errors of the current cell in key order; on a consistent cell, empty exactly when valid |
| Vanilla.Validation.GetError | examples/vanilla.ts:107 | the field's first error, `''` by default |
| Vanilla.Validation.GetAllErrors | examples/vanilla.ts:109-110 | the field's errors, `[]` by default |
| Vanilla.Validation.GetFieldValid | examples/vanilla.ts:112-113 | the field's `isValid`, `true` by default |
| Vanilla.Validation.SetValidationState | examples/vanilla.ts:35-45 | the cell now holds exactly the given state |
| Vanilla.Validation.ResetValidationState | examples/vanilla.ts:58-63 | the cell is back at the initial state: clean, valid, no errors |
| Vanilla.Validation.Validate | examples/vanilla.ts:65-70 | a schema field gets its new entry and becomes dirty; an unknown field is left alone and reports `true`; returns whether the rules pass |
| Vanilla.Validation.ValidateIfDirty | examples/vanilla.ts:86-91 | always evaluates and returns whether the rules pass; commits only onto an already dirty entry |
| Vanilla.Validation.ValidateAll | examples/vanilla.ts:72-77 | every listed schema field gets its new, dirty entry; returns `calculateIsValid` of the new cell |
| Vanilla.Validation.ValidateAllIfDirty | examples/vanilla.ts:79-84 | commits only the listed fields that are already dirty; on an all-clean cell nothing changes |
| Vanilla.Validation.ValidateOnBlur | examples/vanilla.ts:93-98 | `validate` on the event's field with the event's value spread over the data |
| Vanilla.Validation.ValidateOnChange | examples/vanilla.ts:100-105 | `validateIfDirty` on the event's field, then returns `onChange(event)` unchanged |
| Scenarios.TestSchema | src/__tests__/Validation.test.ts:12-43 | the test schema: `name` with three rules, `age` with one, in that order |
| Scenarios.FailingName | src/__tests__/Validation.test.ts:62-66 | under `failingState`, `name` fails only `Cannot be bob.` |
| Scenarios.FailingAge | src/__tests__/Validation.test.ts:62-66 | under `failingState`, `age` fails `Must be 18.` |
| Scenarios.FailingEntries | src/__tests__/Validation.test.ts:62-66 | the two entries `failingState` produces |
| Scenarios.FailingState | src/__tests__/Validation.test.ts:366-373 | `validateAll(failingState)` from a fresh state holds both failing entries, in schema order |
| Scenarios.FailingStateErrors | src/__tests__/Validation.test.ts:366-373 | `validateAll(failingState)` lists `['Cannot be bob.', 'Must be 18.']` and the state turns invalid |
| Scenarios.MaryName | src/__tests__/Validation.test.ts:212-225 | `{name: 'mary', dingo: true}` fails only `Must be dingo.` |
| Scenarios.ChuckName | src/__tests__/Validation.test.ts:323-337 | `{...defaultState, name: 'chuck', dingo: true}` fails only `Must be dingo.` |
| Scenarios.BlankDingoName | src/__tests__/Validation.test.ts:167-172 | `{name: '', dingo: true}` reports `['Name is required.', 'Must be dingo.']`, in rule order |
| Scenarios.InitialTestState | src/__tests__/Validation.test.ts:45-54 | a fresh state is `mockValidationState`: both fields valid, in schema order |
| Scenarios.ValidateMary | src/__tests__/Validation.test.ts:212-225 | `validate('name', mary)` on a fresh object returns `false`, `isValid` is false, and the state is `mockValidationState` with `name` invalid on `Must be dingo.` |
| Scenarios.ValidateIfTrueChuck | src/__tests__/Validation.test.ts:323-337 | `validateIfTrue('name', chuck)` returns `true`, `isValid` stays true, and the state stays `mockValidationState` |
| Scenarios.BogusSchema | src/__tests__/Validation.test.ts:85-87 | `Validation(null)` starts valid; `validateAll` with no field list then throws |
| Scenarios.ValidateAllFailing | src/__tests__/Validation.test.ts:366-373 | `validateAll(failingState)` returns `false` and `validationErrors` is `['Cannot be bob.', 'Must be 18.']` |

## Left out

- The yup adapter (the `{yup: true}` configuration of examples/vanilla.ts): a wrapper over a library whose source is not part of this model.
- The dirty-aware factories `createValidateIfDirty`, `createValidateAllIfDirty` and the object-argument `createValidationState` that examples/vanilla.ts imports: their source is not part of this model. The `Vanilla` module follows what __tests__/Validation.test.ts asserts, and makes these choices where the tests assert less:
  - `validate` reports `true` for a field the schema does not list (asserted); the model then writes nothing for it (a choice: the tests check only the result, while src/index.ts:137-141 would write a valid entry);
  - `validateIfDirty` evaluates and commits only onto a dirty entry (asserted); on a clean field it returns the evaluated validity (a choice: the tests check only that a boolean comes back);
  - `validateAll` skips unknown fields (a choice);
  - an undefined schema is the empty schema, also for the default field list of `validateAll` (a choice).
- Compiled output under dist/, the declaration files and src/__tests__/useValidation.test.ts: they are not the engine's source.
- `createValidate`, `createValidateIfTrue` and `createValidateAll` of src/validation-functions.ts: they pass the property name where a schema is expected, or merge a getter function as if it were a state, so they are not a working engine. `createValidateAllIfTrue` is modelled; the getter it merges adds no keys. `trace` is console output.
- Foreign functions are taken as their obvious meaning:
  - `.chain`, the lowercase `maybe`, `prop`, `getValue`, `compose` and `executeSideEffect` of src/validation-functions.ts and src/utilities.ts, which the repository does not show;
  - `pipe`, which src/index.ts:6 imports from src/utilities.ts although that file does not define it; it is taken as left-to-right composition;
  - Ramda's `R.path`, `R.prop`, `R.defaultTo`, `R.map`, `R.filter`, `R.reduce`, `R.assoc` and `R.mergeRight`.
- lodash `startCase`, `RegExp.prototype.test` and the string parsing of `Number()` are parameters (`startCase`, `regex`, `parse`), so message labels and the parsing itself are not modelled.
- AutoProps.ToNumber: numbers are integers, so floating-point values, `NaN` literals and `Infinity` are not modelled.
- A function-valued rule `error`: the engine only reads it as a string, so `error` is a string.
- A `null` or `undefined` data snapshot, for which `validate` returns the `Maybe` object instead of a boolean. The model always receives a snapshot.
- JsObject.Assoc: JavaScript lists integer-like keys first, in numeric order. The model keeps plain insertion order.
- Utilities.EventName: the key an event without a target is validated under is `"undefined"`, the text of `event.target.name` for such an event.
- AutoProps.LengthSpec: arrays are `Other` values whose `length` compares as `undefined`, because the `typeof 'array'` row of `longerThan`/`shorterThan` can never hold. Strings are sequences of Unicode scalar values, so a lone surrogate cannot occur in the model.
- AutoProps.TypeOf: every `Other` value reports `"object"`, functions included, where JavaScript says `"function"`; no builder tests for `"function"`, so no rule can tell.
- ValidationFunctions.ReduceValid: an invalid result spreads the stored entry's `isValid` and `errors` as top-level keys. The model keeps them as opaque slots that read as valid, and does not model their key order.
- React hooks, DOM event dispatch and the `onChange` handler's own effects: `onChange` is a function value whose result is returned.

## Findings

| source | as written | input that shows it | evidently intended | confidence | as-written member | corrected member |
|---|---|---|---|---|---|---|
| src/auto-props.ts:120 | the coerced-number row of `max(value)` tests `gt(value - 1)`, the lower bound copied from `min` | `max(18)` on the string `"100"` passes, while the number `100` fails | both numeric rows test `lt(value + 1)`, so a numeric string passes exactly when its number is at most `value` | not executed | AutoProps.MaxAsWrittenPassesLargeString | AutoProps.MaxSpec |

The utilities tests expect `eventNameValue` to throw on an event without a
`target`. The code at src/utilities.ts:38 returns
`{error: 'unable to parse values'}` instead. The model follows the code.
