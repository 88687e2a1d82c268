/**
 * The `Maybe` container of src/maybe.ts: a value that may be `null` or
 * `undefined`, with `map` skipping the function on those two and `join`
 * unwrapping a present value.
 */
module Maybe {

  /** A JavaScript value of type `T`, or `null`, or `undefined`. */
  datatype Nullable<T> = NullValue | UndefinedValue | Present(get: T)

  /** A `Maybe` instance; its `$value` is set once, by the constructor. */
  datatype Maybe<T> = Maybe(value: Nullable<T>) {
    /** The `isNothing` getter. */
    predicate IsNothing() {
      value.NullValue? || value.UndefinedValue?
    }

    /** The `isJust` getter. */
    predicate IsJust() {
      !IsNothing()
    }
  }

  /** What `join` returns: the held value, or the `Maybe` itself when it holds nothing. */
  datatype Joined<T> = Unwrapped(v: T) | Container(m: Maybe<T>)

  /** `Maybe.of(x)`: wraps `x` as it is, `null` and `undefined` included. */
  function Of<T>(x: Nullable<T>): (m: Maybe<T>)
    ensures m.value == x
    ensures m.IsJust() <==> x.Present?
  {
    Maybe(x)
  }

  /**
   * `m.map(fn)`. On Nothing the result is the same instance (the same
   * `null` or `undefined`) and `fn` is not called; on Just it is
   * `Maybe.of(fn($value))`, which is Nothing when `fn` yields `null` or
   * `undefined`.
   */
  function Map<T, U>(m: Maybe<T>, f: T -> Nullable<U>): (r: Maybe<U>)
    ensures m.value.NullValue? ==> r.value.NullValue?
    ensures m.value.UndefinedValue? ==> r.value.UndefinedValue?
    ensures m.value.Present? ==> r.value == f(m.value.get)
    ensures r.IsJust() ==> m.IsJust()
  {
    match m.value
    case NullValue => Maybe(NullValue)
    case UndefinedValue => Maybe(UndefinedValue)
    case Present(x) => Of(f(x))
  }

  /** `m.join()`: the held value on Just, the container itself on Nothing. */
  function Join<T>(m: Maybe<T>): (r: Joined<T>)
    ensures m.IsJust() <==> r.Unwrapped?
    ensures m.IsJust() ==> r.v == m.value.get
    ensures m.IsNothing() ==> r.m == m
  {
    if m.IsNothing() then Container(m) else Unwrapped(m.value.get)
  }

  /**
   * The idiom `m.isJust ? m.join() : fallback` the engine uses for its
   * defaults.
   */
  function JoinOr<T>(m: Maybe<T>, fallback: T): (r: T)
    ensures m.IsNothing() ==> r == fallback
    ensures m.IsJust() ==> Join(m) == Unwrapped(r)
  {
    if m.IsJust() then m.value.get else fallback
  }

  /** Mapping the function that re-wraps its argument gives back the same container. */
  lemma MapIdentity<T>(m: Maybe<T>)
    ensures Map(m, (x: T) => Present(x)) == m
  {
  }

  /** On Nothing, `map` does not depend on the function at all. */
  lemma MapNothingIgnoresFunction<T, U>(m: Maybe<T>, f: T -> Nullable<U>, g: T -> Nullable<U>)
    requires m.IsNothing()
    ensures Map(m, f) == Map(m, g)
  {
  }

  /**
   * Mapping twice is mapping the composition, as long as the first function
   * never yields `null` or `undefined`.
   */
  lemma MapComposition<T, U, W>(m: Maybe<T>, f: T -> Nullable<U>, g: U -> Nullable<W>)
    requires forall x :: f(x).Present?
    ensures Map(Map(m, f), g) == Map(m, (x: T) => if f(x).Present? then g(f(x).get) else NullValue)
  {
  }

  /** A chain whose last step yields `null` or `undefined` ends in Nothing, so the default wins. */
  lemma MapToNothingFallsBack<T, U>(m: Maybe<T>, f: T -> Nullable<U>, fallback: U)
    requires forall x :: !f(x).Present?
    ensures JoinOr(Map(m, f), fallback) == fallback
  {
  }

  /** `Maybe.of(x).join()` gives back `x` whenever `x` is present. */
  lemma JoinOf<T>(x: T)
    ensures Join(Of(Present(x))) == Unwrapped(x)
  {
  }
}
