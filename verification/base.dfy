/** Small shared vocabulary: optional values and the outcome of a call that may be refused. */
module Base {

  datatype Option<+T> = None | Some(value: T)

  datatype Result<+T, +E> = Ok(value: T) | Err(error: E)

  function Min(a: int, b: int): int {
    if a <= b then a else b
  }

  function Abs(a: int): nat {
    if a < 0 then -a else a
  }

  /** Appending a nonempty sequence is appending its front and then its last element. */
  lemma AppendLast<T>(a: seq<T>, b: seq<T>)
    requires b != []
    ensures var front, last := b[..|b| - 1], b[|b| - 1];
      b == front + [last] && a + b == (a + front) + [last]
  {
  }

  lemma TakeNext<T>(s: seq<T>, k: nat)
    requires k < |s|
    ensures s[..k + 1] == s[..k] + [s[k]]
  {
  }

  lemma TakeAll<T>(s: seq<T>)
    ensures s[..0] == [] && s[..|s|] == s
  {
  }
}
