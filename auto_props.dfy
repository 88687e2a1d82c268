/**
 * The rule builders of src/auto-props.ts. Each builder returns
 * `{auto: true, prop}`, where `prop(name)` is the schema rule for field
 * `name`: a default or supplied error message and a validation that
 * classifies `data[name]` with a `cond` table.
 *
 * Two foreign pieces are parameters: lodash `startCase` (the label in
 * default messages) and the string-to-number step of `Number()` (`parse`,
 * `None` standing for `NaN`). A regular expression is its `test` predicate.
 */
module AutoProps {
  import opened Types
  import opened Utilities

  // ---------------------------------------------------------------------------
  // Combinators

  /** One row of a `cond` table: a test, and the function applied to the argument when it holds. */
  datatype Row<!A, B> = Row(test: A -> bool, apply: A -> B)

  /**
   * `cond(rows)(arg)`: the result of the first row whose test holds of `arg`;
   * `None` (JavaScript `undefined`) when no row does.
   */
  function Cond<A, B>(rows: seq<Row<A, B>>, arg: A): (r: Option<B>)
    ensures r.None? <==> forall i | 0 <= i < |rows| :: !rows[i].test(arg)
    ensures r.Some? ==>
      exists i | 0 <= i < |rows| ::
        && rows[i].test(arg)
        && r.value == rows[i].apply(arg)
        && forall j | 0 <= j < i :: !rows[j].test(arg)
  {
    if rows == [] then None
    else if rows[0].test(arg) then Some(rows[0].apply(arg))
    else
      var r := Cond(rows[1..], arg);
      assert forall i | 1 <= i < |rows| :: rows[i] == rows[1..][i - 1];
      r
  }

  /** The first row that holds decides, whatever the later rows say. */
  lemma CondFirstMatch<A, B>(rows: seq<Row<A, B>>, arg: A, i: nat)
    requires i < |rows| && rows[i].test(arg)
    requires forall j | 0 <= j < i :: !rows[j].test(arg)
    ensures Cond(rows, arg) == Some(rows[i].apply(arg))
  {
    var r := Cond(rows, arg);
    var k :| 0 <= k < |rows| && rows[k].test(arg) && r.value == rows[k].apply(arg)
      && forall j | 0 <= j < k :: !rows[j].test(arg);
    assert k == i;
  }

  /** `pipe(...fns)(arg)`: applies the functions left to right. */
  function Pipe<A>(fns: seq<A -> A>, arg: A): A {
    if fns == [] then arg else Pipe(fns[1..], fns[0](arg))
  }

  /** Piping `f` then `g` is piping `g` over the result of piping `f`. */
  lemma {:induction false} PipeAppend<A>(f: seq<A -> A>, g: seq<A -> A>, arg: A)
    ensures Pipe(f + g, arg) == Pipe(g, Pipe(f, arg))
  {
    if f == [] {
      assert f + g == g;
    } else {
      assert (f + g)[1..] == f[1..] + g;
      PipeAppend(f[1..], g, f[0](arg));
    }
  }

  /**
   * `typeof value`; it never reports `"array"`. Every `Other` value reports
   * `"object"`, functions included (JavaScript says `"function"` for those);
   * no builder tests for `"function"`, so none can tell the difference.
   */
  function TypeOf(v: Value): (r: string)
    ensures r != "array"
    ensures r == "string" <==> v.Str?
    ensures r == "number" <==> v.Num?
  {
    match v
    case Undefined => "undefined"
    case Null => "object"
    case Bool(_) => "boolean"
    case Num(_) => "number"
    case Str(_) => "string"
    case Other(_, _) => "object"
  }

  /** `typeOf(type)`. */
  function IsType(t: string): Value -> bool {
    v => TypeOf(v) == t
  }

  /** `gt(testVal)` and `lt(testVal)` on numbers. */
  function Gt(testVal: int): int -> bool {
    x => x > testVal
  }

  function Lt(testVal: int): int -> bool {
    x => x < testVal
  }

  /** `a === b`: same type and value, objects by identity. */
  function StrictEq(a: Value, b: Value): (r: bool)
    ensures r ==> TypeOf(a) == TypeOf(b)
    ensures !a.Other? ==> (r <==> a == b)
    ensures a.Other? ==> (r <==> b.Other? && a.ref == b.ref)
  {
    match (a, b)
    case (Other(x, _), Other(y, _)) => x == y
    case (Other(_, _), _) => false
    case (_, Other(_, _)) => false
    case _ => a == b
  }

  /** `eq(a)`. */
  function Eq(a: Value): Value -> bool {
    b => StrictEq(a, b)
  }

  /** `===` is an equivalence relation on values. */
  lemma StrictEqEquivalence(a: Value, b: Value, c: Value)
    ensures StrictEq(a, a)
    ensures StrictEq(a, b) == StrictEq(b, a)
    ensures StrictEq(a, b) && StrictEq(b, c) ==> StrictEq(a, c)
  {
  }

  /**
   * `Number(v)` as an integer, `None` for `NaN`: `null` and booleans convert
   * to 0 and 1, `undefined` to `NaN`, and strings and objects through `parse`
   * of their text.
   */
  function ToNumber(v: Value, parse: string -> Option<int>): (r: Option<int>)
    ensures v.Num? ==> r == Some(v.n)
    ensures v.Undefined? ==> r.None?
  {
    match v
    case Undefined => None
    case Null => Some(0)
    case Bool(b) => Some(if b then 1 else 0)
    case Num(n) => Some(n)
    case Str(s) => parse(s)
    case Other(_, text) => parse(text)
  }

  /** A JavaScript comparison whose left side went through `Number`: `NaN` compares false. */
  function Compare(x: Option<int>, test: int -> bool): bool {
    x.Some? && test(x.value)
  }

  /** `err(error)(received)`: throws `${error} but received ${received}`. */
  function Err(error: string, received: Value): Result<bool> {
    Thrown(error + " but received " + ValueToString(received))
  }

  /** `value.trim()` where `value` may not be a string: calling it on anything else throws. */
  function TrimValue(v: Value): Result<string> {
    match v
    case Str(s) => Ok(Trim(s))
    case _ => Thrown("value.trim is not a function")
  }

  /**
   * `pipe(length, gt(len))` / `pipe(length, lt(len))` on a value that is not
   * known to be a string: reading `length` of `null`/`undefined` throws, and
   * a value with no `length` compares `undefined`, which is false. A string's
   * `length` counts UTF-16 code units.
   */
  function LengthTest(v: Value, test: int -> bool): Result<bool> {
    match v
    case Str(s) => Ok(test(Utf16Length(s)))
    case Undefined => Thrown("Cannot read properties of undefined (reading 'length')")
    case Null => Thrown("Cannot read properties of null (reading 'length')")
    case _ => Ok(false)
  }

  /** `cond(rows)(data[prop])` as a validation result: `undefined` (no row held) is falsy. */
  function CondCheck(rows: seq<Row<Value, Result<bool>>>, v: Value): Result<bool> {
    match Cond(rows, v)
    case Some(r) => r
    case None => Ok(false)
  }

  /** A table whose last row always holds never leaves the result `undefined`. */
  lemma CondCatchAll<B>(rows: seq<Row<Value, B>>, v: Value)
    requires rows != [] && rows[|rows| - 1].test(v)
    ensures Cond(rows, v).Some?
  {
  }

  // ---------------------------------------------------------------------------
  // Builders

  /** What every builder returns: `{auto: true, prop}`. */
  datatype AutoProp = AutoProp(auto: bool, prop: string -> Rule)

  /** `error || fallback`: a missing or empty message gives the default. */
  function ErrorOr(error: Option<string>, fallback: string): (r: string)
    ensures error.Some? && error.value != "" ==> r == error.value
    ensures error.None? || error.value == "" ==> r == fallback
  {
    if error.Some? && error.value != "" then error.value else fallback
  }

  /** The auto-prop whose rule for field `p` has message `message(p)` and checks `data[p]` with `check`. */
  function Build(message: string -> string, check: Value -> Result<bool>): (a: AutoProp)
    ensures a.auto
    ensures forall p :: a.prop(p).error == message(p)
    ensures forall p, d :: a.prop(p).validation(d) == check(Get(d, p))
  {
    AutoProp(true, p => Rule(message(p), d => check(Get(d, p))))
  }

  // required

  function RequiredRows(): seq<Row<Value, Result<bool>>> {
    [ Row(Eq(Null), (_: Value) => Ok(false)),
      Row(Eq(Undefined), (_: Value) => Ok(false)),
      Row(IsType("string"), (v: Value) => match TrimValue(v) case Ok(t) => Ok(t != "") case Thrown(m) => Thrown(m)),
      Row((_: Value) => true, (_: Value) => Ok(true)) ]
  }

  function RequiredCheck(v: Value): Result<bool> {
    CondCheck(RequiredRows(), v)
  }

  /** `required(error?)`. */
  function Required(error: Option<string>, startCase: string -> string): (a: AutoProp)
    ensures a.auto
    ensures forall p :: a.prop(p).error == ErrorOr(error, startCase(p) + " is required.")
    ensures forall p, d :: a.prop(p).validation(d) == RequiredCheck(Get(d, p))
  {
    Build(p => ErrorOr(error, startCase(p) + " is required."), RequiredCheck)
  }

  /** `required` fails `null`, `undefined` and blank strings, and passes everything else; it never throws. */
  lemma RequiredSpec(v: Value)
    ensures RequiredCheck(v) == Ok(
      match v
      case Null => false
      case Undefined => false
      case Str(s) => StringIsNotEmpty(s)
      case _ => true)
  {
    var rows := RequiredRows();
    match v
    case Null =>
      CondFirstMatch(rows, v, 0);
    case Undefined =>
      CondFirstMatch(rows, v, 1);
    case Str(s) =>
      CondFirstMatch(rows, v, 2);
    case _ =>
      CondFirstMatch(rows, v, 3);
  }

  // matches

  function MatchesRows(regex: string -> bool): seq<Row<Value, Result<bool>>> {
    [ Row(IsType("string"), (v: Value) => Ok(v.Str? && regex(v.s))),
      Row((_: Value) => true, (v: Value) => Err("matches must be used on a string", v)) ]
  }

  function MatchesCheck(regex: string -> bool, v: Value): Result<bool> {
    CondCheck(MatchesRows(regex), v)
  }

  /** `matches(regex, error?)`. */
  function Matches(regex: string -> bool, error: Option<string>, startCase: string -> string): (a: AutoProp)
    ensures a.auto
    ensures forall p :: a.prop(p).error == ErrorOr(error, startCase(p) + " is invalid.")
    ensures forall p, d :: a.prop(p).validation(d) == MatchesCheck(regex, Get(d, p))
  {
    Build(p => ErrorOr(error, startCase(p) + " is invalid."), v => MatchesCheck(regex, v))
  }

  /** `matches` tests strings against the expression and throws on anything else. */
  lemma MatchesSpec(regex: string -> bool, v: Value)
    ensures v.Str? ==> MatchesCheck(regex, v) == Ok(regex(v.s))
    ensures !v.Str? ==> MatchesCheck(regex, v) == Err("matches must be used on a string", v)
  {
    if v.Str? {
      CondFirstMatch(MatchesRows(regex), v, 0);
    } else {
      CondFirstMatch(MatchesRows(regex), v, 1);
    }
  }

  // longerThan / shorterThan

  function LengthRows(error: string, test: int -> bool): seq<Row<Value, Result<bool>>> {
    [ Row(IsType("string"), (v: Value) => match TrimValue(v) case Ok(t) => Ok(test(Utf16Length(t))) case Thrown(m) => Thrown(m)),
      Row(IsType("array"), (v: Value) => LengthTest(v, test)),
      Row((_: Value) => true, (v: Value) => Err(error, v)) ]
  }

  function LongerThanCheck(len: int, v: Value): Result<bool> {
    CondCheck(LengthRows("longerThan must be used on a string", Gt(len)), v)
  }

  function ShorterThanCheck(len: int, v: Value): Result<bool> {
    CondCheck(LengthRows("shorterThan must be used on a string", Lt(len)), v)
  }

  /** `longerThan(len, error?)`. */
  function LongerThan(len: int, error: Option<string>, startCase: string -> string): (a: AutoProp)
    ensures a.auto
    ensures forall p :: a.prop(p).error == ErrorOr(error, startCase(p) + " must be more than " + IntToString(len) + " characters.")
    ensures forall p, d :: a.prop(p).validation(d) == LongerThanCheck(len, Get(d, p))
  {
    Build(p => ErrorOr(error, startCase(p) + " must be more than " + IntToString(len) + " characters."),
          v => LongerThanCheck(len, v))
  }

  /** `shorterThan(len, error?)`. */
  function ShorterThan(len: int, error: Option<string>, startCase: string -> string): (a: AutoProp)
    ensures a.auto
    ensures forall p :: a.prop(p).error == ErrorOr(error, startCase(p) + " must be fewer than " + IntToString(len) + " characters.")
    ensures forall p, d :: a.prop(p).validation(d) == ShorterThanCheck(len, Get(d, p))
  {
    Build(p => ErrorOr(error, startCase(p) + " must be fewer than " + IntToString(len) + " characters."),
          v => ShorterThanCheck(len, v))
  }

  /**
   * The length of the trimmed string, in UTF-16 code units, is compared
   * strictly; the `array` row never applies; every non-string throws.
   */
  lemma LengthSpec(len: int, v: Value)
    ensures v.Str? ==> LongerThanCheck(len, v) == Ok(Utf16Length(Trim(v.s)) > len)
    ensures v.Str? ==> ShorterThanCheck(len, v) == Ok(Utf16Length(Trim(v.s)) < len)
    ensures !v.Str? ==> LongerThanCheck(len, v) == Err("longerThan must be used on a string", v)
    ensures !v.Str? ==> ShorterThanCheck(len, v) == Err("shorterThan must be used on a string", v)
  {
    var longer, shorter := "longerThan must be used on a string", "shorterThan must be used on a string";
    if v.Str? {
      var n := Utf16Length(Trim(v.s));
      LengthRowsOnString(longer, Gt(len), v.s);
      assert LongerThanCheck(len, v) == Ok(Gt(len)(n));
      LengthRowsOnString(shorter, Lt(len), v.s);
      assert ShorterThanCheck(len, v) == Ok(Lt(len)(n));
    } else {
      LengthRowsOtherwise(longer, Gt(len), v);
      LengthRowsOtherwise(shorter, Lt(len), v);
    }
  }

  /** On a string the first row decides, on its trimmed UTF-16 length. */
  lemma LengthRowsOnString(error: string, test: int -> bool, s: string)
    ensures CondCheck(LengthRows(error, test), Str(s)) == Ok(test(Utf16Length(Trim(s))))
  {
    CondFirstMatch(LengthRows(error, test), Str(s), 0);
    assert TrimValue(Str(s)) == Ok(Trim(s));
  }

  /** Anything else falls through the `array` row to the error. */
  lemma LengthRowsOtherwise(error: string, test: int -> bool, v: Value)
    requires !v.Str?
    ensures CondCheck(LengthRows(error, test), v) == Err(error, v)
  {
    var rows := LengthRows(error, test);
    assert !rows[0].test(v) && !rows[1].test(v);
    CondFirstMatch(rows, v, 2);
  }

  /**
   * A character above U+FFFF is two code units long: an emoji alone is
   * longer than 1 and not shorter than 2.
   */
  lemma LengthOfAstral()
    ensures LongerThanCheck(1, Str("\U{1F600}")) == Ok(true)
    ensures ShorterThanCheck(2, Str("\U{1F600}")) == Ok(false)
  {
    var s := "\U{1F600}";
    assert !IsWhitespace(s[0]);
    assert TrimStart(s) == s && TrimEnd(s) == s;
    assert Utf16Length(s) == 2 by {
      assert s[1..] == [];
    }
    LengthSpec(1, Str(s));
    LengthSpec(2, Str(s));
  }

  // min / max

  /** The rows of a numeric bound: `typeof` number, then anything `Number` converts, then a throw. */
  function NumberRows(error: string, numberTest: int -> bool, coercedTest: int -> bool, parse: string -> Option<int>)
    : seq<Row<Value, Result<bool>>>
  {
    [ Row(IsType("number"), (v: Value) => Ok(Compare(ToNumber(v, parse), numberTest))),
      Row((v: Value) => ToNumber(v, parse).Some?, (v: Value) => Ok(Compare(ToNumber(v, parse), coercedTest))),
      Row((_: Value) => true, (v: Value) => Err(error, v)) ]
  }

  function MinCheck(value: int, parse: string -> Option<int>, v: Value): Result<bool> {
    CondCheck(NumberRows("min requires a number representation", Gt(value - 1), Gt(value - 1), parse), v)
  }

  /** The bound as written: its coerced row repeats `min`'s lower bound `gt(value - 1)`. */
  function MaxCheckAsWritten(value: int, parse: string -> Option<int>, v: Value): Result<bool> {
    CondCheck(NumberRows("max requires a number representation", Lt(value + 1), Gt(value - 1), parse), v)
  }

  /** The bound as intended: both numeric rows test `lt(value + 1)`. */
  function MaxCheck(value: int, parse: string -> Option<int>, v: Value): Result<bool> {
    CondCheck(NumberRows("max requires a number representation", Lt(value + 1), Lt(value + 1), parse), v)
  }

  /** `min(value, error?)`. */
  function Min(value: int, error: Option<string>, startCase: string -> string, parse: string -> Option<int>)
    : (a: AutoProp)
    ensures a.auto
    ensures forall p :: a.prop(p).error == ErrorOr(error, startCase(p) + " must be greater than " + IntToString(value) + ".")
    ensures forall p, d :: a.prop(p).validation(d) == MinCheck(value, parse, Get(d, p))
  {
    Build(p => ErrorOr(error, startCase(p) + " must be greater than " + IntToString(value) + "."),
          v => MinCheck(value, parse, v))
  }

  /** `max(value, error?)` exactly as written. */
  function MaxAsWritten(value: int, error: Option<string>, startCase: string -> string, parse: string -> Option<int>)
    : (a: AutoProp)
    ensures a.auto
    ensures forall p :: a.prop(p).error == ErrorOr(error, startCase(p) + " must be less than " + IntToString(value) + ".")
    ensures forall p, d :: a.prop(p).validation(d) == MaxCheckAsWritten(value, parse, Get(d, p))
  {
    Build(p => ErrorOr(error, startCase(p) + " must be less than " + IntToString(value) + "."),
          v => MaxCheckAsWritten(value, parse, v))
  }

  /** `max(value, error?)` with its coerced row corrected to the upper bound. */
  function Max(value: int, error: Option<string>, startCase: string -> string, parse: string -> Option<int>)
    : (a: AutoProp)
    ensures a.auto
    ensures forall p :: a.prop(p).error == ErrorOr(error, startCase(p) + " must be less than " + IntToString(value) + ".")
    ensures forall p, d :: a.prop(p).validation(d) == MaxCheck(value, parse, Get(d, p))
  {
    Build(p => ErrorOr(error, startCase(p) + " must be less than " + IntToString(value) + "."),
          v => MaxCheck(value, parse, v))
  }

  /** A value `Number` can read passes `min(value)` iff it is at least `value`; any other value throws. */
  lemma MinSpec(value: int, parse: string -> Option<int>, v: Value)
    ensures ToNumber(v, parse).Some? ==> MinCheck(value, parse, v) == Ok(ToNumber(v, parse).value >= value)
    ensures ToNumber(v, parse).None? ==> MinCheck(value, parse, v) == Err("min requires a number representation", v)
  {
    var rows := NumberRows("min requires a number representation", Gt(value - 1), Gt(value - 1), parse);
    if v.Num? {
      CondFirstMatch(rows, v, 0);
    } else if ToNumber(v, parse).Some? {
      CondFirstMatch(rows, v, 1);
    } else {
      CondFirstMatch(rows, v, 2);
    }
  }

  /** A value `Number` can read passes the corrected `max(value)` iff it is at most `value`; any other value throws. */
  lemma MaxSpec(value: int, parse: string -> Option<int>, v: Value)
    ensures ToNumber(v, parse).Some? ==> MaxCheck(value, parse, v) == Ok(ToNumber(v, parse).value <= value)
    ensures ToNumber(v, parse).None? ==> MaxCheck(value, parse, v) == Err("max requires a number representation", v)
  {
    var rows := NumberRows("max requires a number representation", Lt(value + 1), Lt(value + 1), parse);
    if v.Num? {
      CondFirstMatch(rows, v, 0);
    } else if ToNumber(v, parse).Some? {
      CondFirstMatch(rows, v, 1);
    } else {
      CondFirstMatch(rows, v, 2);
    }
  }

  /** The two versions of `max` agree on numbers. */
  lemma MaxAsWrittenOnNumbers(value: int, parse: string -> Option<int>, n: int)
    ensures MaxCheckAsWritten(value, parse, Num(n)) == MaxCheck(value, parse, Num(n)) == Ok(n <= value)
  {
    CondFirstMatch(NumberRows("max requires a number representation", Lt(value + 1), Gt(value - 1), parse), Num(n), 0);
    CondFirstMatch(NumberRows("max requires a number representation", Lt(value + 1), Lt(value + 1), parse), Num(n), 0);
  }

  /**
   * As written, `max(18)` passes the string `"100"` (read as 100) although it
   * fails the number 100: the coerced row tests a lower bound.
   */
  lemma MaxAsWrittenPassesLargeString(parse: string -> Option<int>)
    requires parse("100") == Some(100)
    ensures MaxCheckAsWritten(18, parse, Str("100")) == Ok(true)
    ensures MaxCheckAsWritten(18, parse, Num(100)) == Ok(false)
    ensures MaxCheck(18, parse, Str("100")) == Ok(false)
  {
    CondFirstMatch(NumberRows("max requires a number representation", Lt(19), Gt(17), parse), Str("100"), 1);
    MaxAsWrittenOnNumbers(18, parse, 100);
    MaxSpec(18, parse, Str("100"));
  }

  // is

  /** The argument of `is`: a predicate (with its source text) or a literal compared with `===`. */
  datatype IsArg = Predicate(f: Value -> bool, text: string) | Literal(v: Value)

  function IsArgText(arg: IsArg): string {
    match arg
    case Predicate(_, text) => text
    case Literal(v) => ValueToString(v)
  }

  function IsCheck(arg: IsArg, v: Value): Result<bool> {
    match arg
    case Predicate(f, _) => Ok(f(v))
    case Literal(expected) => Ok(StrictEq(v, expected))
  }

  /** `is(value, error?)`. */
  function Is(arg: IsArg, error: Option<string>, startCase: string -> string): (a: AutoProp)
    ensures a.auto
    ensures forall p :: a.prop(p).error == ErrorOr(error, startCase(p) + " must be " + IsArgText(arg) + ".")
    ensures forall p, d :: a.prop(p).validation(d) == IsCheck(arg, Get(d, p))
  {
    Build(p => ErrorOr(error, startCase(p) + " must be " + IsArgText(arg) + "."), v => IsCheck(arg, v))
  }

  /** `is` applies a predicate, and otherwise passes exactly the values `===` the literal; it never throws. */
  lemma IsSpec(arg: IsArg, v: Value)
    ensures arg.Predicate? ==> IsCheck(arg, v) == Ok(arg.f(v))
    ensures arg.Literal? && !v.Other? ==> IsCheck(arg, v) == Ok(v == arg.v)
    ensures arg.Literal? && v.Other? ==> IsCheck(arg, v) == Ok(arg.v.Other? && arg.v.ref == v.ref)
    ensures IsCheck(arg, v).Ok?
  {
  }
}
