/**
 * The shapes the validation engine works with: the caller's data snapshot,
 * rules, schemas and the validation state (src/types.ts).
 */
module Types {
  import opened JsObject

  datatype Option<T> = None | Some(value: T)

  /** A computation that either returns a value or throws an `Error` with a message. */
  datatype Result<T> = Ok(value: T) | Thrown(message: string)

  /**
   * A JavaScript runtime value as a rule sees it. Numbers are integers here;
   * `Other` stands for any object (arrays and functions included), which
   * compares by identity (`ref`) and prints as `text`.
   */
  datatype Value =
    | Undefined
    | Null
    | Bool(b: bool)
    | Num(n: int)
    | Str(s: string)
    | Other(ref: nat, text: string)

  /** The caller's data snapshot `S`: property name to value. */
  type Data = map<string, Value>

  /** `data[prop]`: a missing property reads as `undefined`. */
  function Get(d: Data, k: string): Value {
    if k in d then d[k] else Undefined
  }

  /**
   * One schema rule: the error message reported when `validation` does not
   * hold of the snapshot. A validation may throw.
   */
  datatype Rule = Rule(error: string, validation: Data -> Result<bool>)

  /** Field name to its rules, in declaration order. */
  type Schema = Record<string, seq<Rule>>

  /** `ValidationStateProperty`. */
  datatype Entry = Entry(isValid: bool, errors: seq<string>)

  /** `ValidationState`: field name to entry, in insertion order. */
  type State = Record<string, Entry>

  /** The part of a DOM event's `target` the engine reads; absent properties are `Undefined`. */
  datatype Target = Target(name: Value, kind: Value, value: Value, checked: Value)

  /** A change or blur event; `target` is `None` when the event has none. */
  datatype Event = Event(target: Option<Target>)
}
