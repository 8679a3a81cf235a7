/** Types and arithmetic shared by the models. */
module Common {
  datatype Option<+T> = None | Some(value: T)

  datatype Result<+T, +E> = Ok(value: T) | Err(error: E)

  /** Nanoseconds in a millisecond. */
  const MS: nat := 1_000_000

  function Abs(x: real): real { if x < 0.0 then -x else x }

  function RMax(a: real, b: real): real { if a < b then b else a }

  const U64_MAX: nat := 0xFFFF_FFFF_FFFF_FFFF

  /** Rust's saturating_sub on unsigned integers. */
  function SatSub(a: nat, b: nat): nat { if a < b then 0 else a - b }

  /** The last n elements, or all of them. */
  function LastN<T>(s: seq<T>, n: nat): seq<T> {
    if |s| <= n then s else s[|s| - n..]
  }

  /** Evicting the front of a full ring before appending keeps the last n elements. */
  lemma SlideWindow<T>(s: seq<T>, x: T, n: nat)
    requires n > 0
    ensures LastN(s + [x], n) == (if |LastN(s, n)| >= n then LastN(s, n)[1..] else LastN(s, n)) + [x]
  {
  }
}
