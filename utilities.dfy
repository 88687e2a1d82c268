/**
 * The small helpers of src/utilities.ts: the blank-string test the engine
 * filters error messages with, `readValue`, and the reading of a change
 * event into a one-key object. Also the JavaScript string conversions the
 * engine relies on (`String.prototype.trim`, template-literal `${x}`).
 */
module Utilities {
  import opened Types

  /**
   * The characters `String.prototype.trim` removes: the ECMAScript
   * WhiteSpace and LineTerminator code points.
   */
  predicate IsWhitespace(c: char) {
    || c == '\t' || c == '\n' || c == '\U{000B}' || c == '\U{000C}' || c == '\r' || c == ' '
    || c == '\U{00A0}' || c == '\U{1680}' || ('\U{2000}' <= c <= '\U{200A}')
    || c == '\U{2028}' || c == '\U{2029}' || c == '\U{202F}' || c == '\U{205F}'
    || c == '\U{3000}' || c == '\U{FEFF}'
  }

  /** Drops the leading whitespace of `s`. */
  function TrimStart(s: string): (r: string)
    ensures |r| <= |s| && r == s[|s| - |r|..]
    ensures forall k | 0 <= k < |s| - |r| :: IsWhitespace(s[k])
    ensures r != [] ==> !IsWhitespace(r[0])
  {
    if s == [] || !IsWhitespace(s[0]) then s else TrimStart(s[1..])
  }

  /** Drops the trailing whitespace of `s`. */
  function TrimEnd(s: string): (r: string)
    ensures |r| <= |s| && r == s[..|r|]
    ensures forall k | |r| <= k < |s| :: IsWhitespace(s[k])
    ensures r != [] ==> !IsWhitespace(r[|r| - 1])
  {
    if s == [] || !IsWhitespace(s[|s| - 1]) then s else TrimEnd(s[..|s| - 1])
  }

  /** `r` is the part `s[i..j]` of `s`, and everything of `s` outside it is whitespace. */
  predicate TrimmedTo(s: string, i: int, j: int, r: string) {
    && 0 <= i <= j <= |s|
    && r == s[i..j]
    && (forall k | 0 <= k < i :: IsWhitespace(s[k]))
    && (forall k | j <= k < |s| :: IsWhitespace(s[k]))
  }

  /**
   * `s.trim()`: `s` with its leading and trailing whitespace removed, that
   * is the part of `s` that starts and ends with a non-whitespace character
   * and has only whitespace around it (`TrimIsMiddle`).
   */
  function Trim(s: string): (r: string)
    ensures r != [] ==> !IsWhitespace(r[0]) && !IsWhitespace(r[|r| - 1])
    ensures |r| <= |s|
  {
    TrimEnd(TrimStart(s))
  }

  /** What `s.trim()` keeps is a part of `s` with only whitespace around it. */
  lemma TrimIsMiddle(s: string)
    ensures exists i, j :: TrimmedTo(s, i, j, Trim(s))
  {
    var t := TrimStart(s);
    var u := TrimEnd(t);
    TrimmedParts(s, t, u);
    assert TrimmedTo(s, |s| - |t|, |s| - |t| + |u|, Trim(s));
  }

  /** A whitespace-free start `u` of a suffix `t` of `s`, both cut off at whitespace only, is what trimming keeps. */
  lemma TrimmedParts(s: string, t: string, u: string)
    requires |t| <= |s| && t == s[|s| - |t|..]
    requires forall k | 0 <= k < |s| - |t| :: IsWhitespace(s[k])
    requires |u| <= |t| && u == t[..|u|]
    requires forall k | |u| <= k < |t| :: IsWhitespace(t[k])
    ensures TrimmedTo(s, |s| - |t|, |s| - |t| + |u|, u)
  {
    var i := |s| - |t|;
    forall k | i + |u| <= k < |s| ensures IsWhitespace(s[k]) {
      assert s[k] == t[k - i];
    }
  }

  /** The number of UTF-16 code units of one character: two for a code point above U+FFFF. */
  function CodeUnits(c: char): (n: nat)
    ensures n == 1 || n == 2
    ensures n == 2 <==> c as int > 0xFFFF
  {
    if c as int > 0xFFFF then 2 else 1
  }

  /**
   * `s.length`: JavaScript strings count UTF-16 code units, so each
   * character above U+FFFF counts twice.
   */
  function Utf16Length(s: string): (n: nat)
    ensures |s| <= n <= 2 * |s|
  {
    if s == [] then 0 else CodeUnits(s[0]) + Utf16Length(s[1..])
  }

  /** The UTF-16 length equals the number of characters exactly when none is above U+FFFF. */
  lemma {:induction false} Utf16LengthBmp(s: string)
    ensures Utf16Length(s) == |s| <==> forall k | 0 <= k < |s| :: s[k] as int <= 0xFFFF
  {
    if s != [] {
      Utf16LengthBmp(s[1..]);
      assert forall k | 1 <= k < |s| :: s[k] == s[1..][k - 1];
    }
  }

  /** The trimmed string is empty exactly when every character is whitespace. */
  lemma TrimEmpty(s: string)
    ensures Trim(s) == [] <==> forall k | 0 <= k < |s| :: IsWhitespace(s[k])
  {
    var t := TrimStart(s);
    if Trim(s) != [] {
      assert !IsWhitespace(s[|s| - |t|]);
    }
  }

  /** `stringIsNotEmpty(str)`: `str.trim().length > 0`. */
  function StringIsNotEmpty(str: string): (r: bool)
    ensures r <==> exists k | 0 <= k < |str| :: !IsWhitespace(str[k])
    ensures r ==> str != []
  {
    TrimEmpty(str);
    |Trim(str)| > 0
  }

  /** An argument `readValue` accepts: a plain value, or a function of no arguments. */
  datatype Readable<T> = Plain(v: T) | Thunk(f: () -> T)

  /** `readValue(value)`: calls a function with no arguments, returns anything else as it is. */
  function ReadValue<T>(value: Readable<T>): (r: T)
    ensures value.Plain? ==> r == value.v
    ensures value.Thunk? ==> r == value.f()
  {
    match value
    case Plain(v) => v
    case Thunk(f) => f()
  }

  /** Reading a getter that returns `x` gives the same as reading `x` itself. */
  lemma ReadValueGetter<T>(x: T)
    ensures ReadValue(Thunk(() => x)) == ReadValue(Plain(x)) == x
  {
  }

  /** The decimal digits of a natural number. */
  function NatToString(n: nat): (r: string)
    ensures r != []
    decreases n
  {
    var d := ['0', '1', '2', '3', '4', '5', '6', '7', '8', '9'][n % 10];
    if n < 10 then [d] else NatToString(n / 10) + [d]
  }

  /** `String(n)` for an integer. */
  function IntToString(n: int): string {
    if n < 0 then "-" + NatToString(-n) else NatToString(n)
  }

  /** `String(v)`, which is also what `${v}` inserts into a template literal. */
  function ValueToString(v: Value): string {
    match v
    case Undefined => "undefined"
    case Null => "null"
    case Bool(b) => if b then "true" else "false"
    case Num(n) => IntToString(n)
    case Str(s) => s
    case Other(_, text) => text
  }

  /** The property key a value names when used as `{[v]: ...}` or `obj[v]`. */
  function PropertyKey(v: Value): string {
    ValueToString(v)
  }

  /** `event.target.name` as a property key: `"undefined"` when the event has no target. */
  function EventName(event: Event): string {
    match event.target
    case None => PropertyKey(Undefined)
    case Some(t) => PropertyKey(t.name)
  }

  /**
   * `eventNameValue(event)`: with a target, `{[name]: checked}` for a
   * checkbox and `{[name]: value}` otherwise; without one,
   * `{error: 'unable to parse values'}`.
   */
  function EventNameValue(event: Event): (r: Data)
    ensures |r.Keys| == 1
    ensures event.target.Some? ==> EventName(event) in r
    ensures event.target.None? ==> r == map["error" := Str("unable to parse values")]
  {
    match event.target
    case None => map["error" := Str("unable to parse values")]
    case Some(t) =>
      var key := PropertyKey(t.name);
      assert map[key := Undefined].Keys == {key};
      if t.kind == Str("checkbox") then map[key := t.checked] else map[key := t.value]
  }

  /** A checkbox reports its `checked` flag and ignores its `value`. */
  lemma CheckboxReadsChecked(t: Target)
    requires t.kind == Str("checkbox")
    ensures EventNameValue(Event(Some(t))) == map[PropertyKey(t.name) := t.checked]
    ensures forall v :: EventNameValue(Event(Some(t.(value := v)))) == EventNameValue(Event(Some(t)))
  {
  }

  /** Any other input reports its `value` and ignores `checked`. */
  lemma InputReadsValue(t: Target)
    requires t.kind != Str("checkbox")
    ensures EventNameValue(Event(Some(t))) == map[PropertyKey(t.name) := t.value]
    ensures forall c :: EventNameValue(Event(Some(t.(checked := c)))) == EventNameValue(Event(Some(t)))
  {
  }
}
