/** Small types shared by the other modules. */
module Common {
  datatype Option<+T> = None | Some(value: T)

  datatype Result<+T, +E> = Ok(value: T) | Err(error: E)
  {
    predicate IsFailure() { Err? }

    function PropagateFailure<U>(): Result<U, E>
      requires Err?
    {
      Err(error)
    }

    function Extract(): T
      requires Ok?
    {
      value
    }
  }

  function Min(a: int, b: int): int { if a < b then a else b }

  function Max(a: int, b: int): int { if a < b then b else a }

  /** Nanoseconds in a second. */
  const SECOND := 1_000_000_000

  function Pow2(n: nat): (p: nat)
    ensures p > 0
  {
    if n == 0 then 1 else 2 * Pow2(n - 1)
  }

  lemma {:induction false} Pow2Grows(k: nat, n: nat)
    requires k <= n
    ensures Pow2(k) <= Pow2(n)
  {
    if k < n { Pow2Grows(k, n - 1); }
  }

  lemma SubsetCard<T>(a: set<T>, b: set<T>)
    requires a <= b
    ensures |a| <= |b|
  {
    assert b == a + (b - a);
  }

  /** A map with one key removed. */
  function Without<K, V>(m: map<K, V>, k: K): map<K, V> {
    map l | l in m && l != k :: m[l]
  }

  lemma WithoutCard<K, V>(m: map<K, V>, k: K)
    ensures |Without(m, k)| == if k in m then |m| - 1 else |m|
  {
    var r := Without(m, k);
    assert m.Keys == if k in m then r.Keys + {k} else r.Keys;
    assert |r.Keys| == |r| && |m.Keys| == |m|;
  }
}
