/** Result types and arithmetic shared by the modules of this project. */
module Common {

  datatype Option<+T> = None | Some(value: T)

  /** `Failure` stands for an exception that aborts the original program. */
  datatype Result<+T> = Success(value: T) | Failure

  function Pow2(n: nat): nat {
    if n == 0 then 1 else 2 * Pow2(n - 1)
  }

  lemma ProductGap(a: nat, b: nat, w: nat)
    requires a < b
    ensures a * w + w <= b * w
  {
    assert (b - a - 1) * w >= 0;
    assert b * w == (b - a - 1) * w + (a + 1) * w;
  }
}
