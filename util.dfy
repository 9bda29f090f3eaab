/** Small shared datatypes: an optional value and a success-or-error result. */
module Util {

  datatype Option<T> = None | Some(value: T)

  /** A computation that either yields a value or stops with an error,
      standing for the C code's `error(...)` calls, which abort the run. */
  datatype Result<T, E> = Ok(value: T) | Err(error: E)

  /** Sum of a sequence of reals. */
  function SumReal(s: seq<real>): real
  {
    if s == [] then 0.0 else SumReal(s[..|s| - 1]) + s[|s| - 1]
  }

  /** Sum of a sequence of integers. */
  function SumInt(s: seq<int>): int
  {
    if s == [] then 0 else SumInt(s[..|s| - 1]) + s[|s| - 1]
  }

  function MaxInt(a: int, b: int): int { if a > b then a else b }
  function MinReal(a: real, b: real): real { if a < b then a else b }
  function MaxReal(a: real, b: real): real { if a > b then a else b }

  /** `a * b`, as `a` additions of `b`: counters that grow by a fixed step
      per loop pass are stated with it, which keeps products out of loop
      invariants. */
  function Times(a: nat, b: nat): nat
  {
    if a == 0 then 0 else Times(a - 1, b) + b
  }

  /** `Times` is the product. */
  lemma {:induction false} TimesIsProduct(a: nat, b: nat)
    ensures Times(a, b) == a * b
  {
    if a > 0 {
      TimesIsProduct(a - 1, b);
    }
  }

  /** A product of naturals is a natural. */
  lemma ProductNonNeg(a: nat, b: nat)
    ensures 0 <= a * b
  {
  }

  /** Multiplying by one changes nothing. */
  lemma TimesOne(a: int, b: int)
    requires b == 1
    ensures a * b == a
  {
  }

  /** Concatenation regroups freely. */
  lemma ConcatAssoc<T>(a: seq<T>, b: seq<T>, c: seq<T>)
    ensures a + b + c == a + (b + c)
  {
  }
}
