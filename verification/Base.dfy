/** Definitions shared by the models: unsigned 32-bit values, bytes, optional values and sequences. */
module Base {
  const U32 := 0x1_0000_0000

  type byte = x: int | 0 <= x < 256
  type uint32 = x: int | 0 <= x < U32

  datatype Option<+T> = None | Some(value: T)

  /** Reduction of an intermediate result to an unsigned 32-bit value. */
  function Wrap(x: int): uint32 {
    x % U32
  }

  function Min(a: int, b: int): int {
    if a <= b then a else b
  }

  ghost predicate Distinct<T>(s: seq<T>) {
    forall i, j :: 0 <= i < j < |s| ==> s[i] != s[j]
  }

  /** The sequence with x put in at position k. */
  function Insert<T>(s: seq<T>, k: nat, x: T): (t: seq<T>)
    requires k <= |s|
    ensures |t| == |s| + 1
  {
    s[..k] + [x] + s[k..]
  }

  function Without<T>(s: seq<T>, k: nat): (t: seq<T>)
    requires k < |s|
    ensures |t| == |s| - 1
  {
    s[..k] + s[k + 1..]
  }

  /** What holds at the start of a run and is kept by each of its n steps holds at its end. */
  lemma {:induction false} AlongRun(p: int -> bool, n: nat)
    requires p(0) && forall i :: 0 <= i < n && p(i) ==> p(i + 1)
    ensures p(n)
  {
    if n > 0 {
      AlongRun(p, n - 1);
    }
  }
}
