/** What every component shares: bytes, machine-word bounds, the two failure datatypes and a few facts about
    remainders, sequences and maps. */
module Basics {

  /** One byte of a buffer. */
  type Byte = b: int | 0 <= b < 256

  const TWO32: int := 0x1_0000_0000
  const TWO63: int := 0x8000_0000_0000_0000
  const TWO64: int := 0x1_0000_0000_0000_0000

  /** A 32-byte identifier or hash. */
  type Id32 = s: seq<Byte> | |s| == 32 witness ZERO_ID

  const ZERO_ID: seq<Byte> :=
    [0, 0, 0, 0, 0, 0, 0, 0, 0, 0, 0, 0, 0, 0, 0, 0, 0, 0, 0, 0, 0, 0, 0, 0, 0, 0, 0, 0, 0, 0, 0, 0]

  datatype Option<+T> = None | Some(value: T)

  datatype Result<+T, +E> = Ok(value: T) | Err(error: E)

  // ----- Facts about remainders, sequences and maps -----

  lemma InModulus(n: int, m: int)
    requires 0 <= n < m
    ensures n % m == n
  {
  }

  lemma Regroup<T>(a: seq<T>, b: seq<T>, c: seq<T>)
    ensures (a + b) + c == a + (b + c)
  {
  }

  lemma NothingAdded<T>(a: seq<T>)
    ensures a + [] == a
  {
  }

  /** Some key of least rank: `iter().min_by_key(...)`. */
  method LeastKey<K(==), V>(m: map<K, V>, rank: V -> nat) returns (k: K)
    requires m != map[]
    ensures k in m && forall j :: j in m ==> rank(m[k]) <= rank(m[j])
  {
    var seen: set<K> := {};
    var first :| first in m;
    k := first;
    while seen != m.Keys
      invariant seen <= m.Keys && k in m
      invariant forall j :: j in seen ==> rank(m[k]) <= rank(m[j])
      decreases m.Keys - seen
    {
      assert !(m.Keys <= seen);
      var j :| j in m.Keys && j !in seen;
      if rank(m[j]) < rank(m[k]) { k := j; }
      seen := seen + {j};
    }
  }
}
