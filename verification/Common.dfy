/** Types and facts that several of the models share. */
module Common {

  datatype Option<T> = None | Some(value: T)

  type Positive = n: nat | n > 0 witness 1

  type Address = nat

  const TWO_64: int := 0x1_0000_0000_0000_0000

  type Uint64 = n: nat | n < TWO_64

  /** What a 64-bit word holds of a number. */
  function Wrap(n: int): (r: Uint64) {
    n % TWO_64
  }

  function Add64(a: nat, b: nat): (r: Uint64) {
    Wrap(a + b)
  }

  function Sub64(a: nat, b: nat): (r: Uint64) {
    Wrap(a - b)
  }

  function Min(a: nat, b: nat): (r: nat) {
    if a <= b then a else b
  }

  lemma MergeStep<K, V>(m: map<K, V>, r: map<K, V>, k: K, v: V)
    ensures (m + r)[k := v] == m + r[k := v]
  {
  }

  lemma MergeAssociates<K, V>(a: map<K, V>, b: map<K, V>, c: map<K, V>)
    ensures a + b + c == a + (b + c) && (c == map[] ==> b + c == b)
  {
  }
}
