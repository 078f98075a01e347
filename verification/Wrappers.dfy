/** The failure-carrying values shared by the models. */
module Wrappers {
  datatype Option<+T> = None | Some(value: T)

  datatype Result<+T, +E> = Ok(value: T) | Err(error: E)

  newtype byte = x: int | 0 <= x < 256

  function Max(a: int, b: int): int {
    if a < b then b else a
  }

  function Min(a: int, b: int): int {
    if a < b then a else b
  }

  lemma SharedPrefix<T>(x: seq<T>, a: seq<T>, b: seq<T>)
    ensures x + a <= x + b <==> a <= b
  {
    if a <= b {
      assert x + b == x + a + b[|a|..];
    }
    if x + a <= x + b {
      assert b == (x + b)[|x|..] && a == (x + b)[|x|..|x + a|];
    }
  }
}
