/** How the registry's parallel arrays grow: from nothing to INIT_CLIENTS
    slots on the first insert, then doubling whenever they are full. */
module Growth {

  const INIT_CLIENTS: nat := 2

  /** The capacity after an insert into a registry of `count` clients whose
      arrays hold `cap` slots. */
  function Grown(cap: nat, count: nat): (c: nat)
    ensures cap <= c
    ensures count <= cap ==> count < c
  {
    if count >= cap then (if cap > 0 then 2 * cap else INIT_CLIENTS) else cap
  }

  predicate IsPowerOfTwo(c: nat)
    decreases c
  {
    c == 1 || (c >= 2 && c % 2 == 0 && IsPowerOfTwo(c / 2))
  }

  /** The capacity a registry holding `n` clients has: 0, 2, 2, 4, 4, 8, 8,
      8, 8, 16, ... (CapacityIsLeastPowerOfTwo says what that is). */
  function CapacityFor(n: nat): (c: nat)
    ensures n <= c
    decreases n
  {
    if n == 0 then 0
    else if n <= INIT_CLIENTS then INIT_CLIENTS
    else 2 * CapacityFor((n + 1) / 2)
  }

  /** CapacityFor(n) is 0 for an empty registry and otherwise the least power
      of two that holds n clients and is at least INIT_CLIENTS. */
  lemma {:induction false} CapacityIsLeastPowerOfTwo(n: nat)
    ensures CapacityFor(n) == 0 <==> n == 0
    ensures n > 0 ==> INIT_CLIENTS <= CapacityFor(n) && IsPowerOfTwo(CapacityFor(n))
    ensures n > INIT_CLIENTS ==> CapacityFor(n) / 2 < n
    decreases n
  {
    if n > INIT_CLIENTS {
      var m := (n + 1) / 2;
      CapacityIsLeastPowerOfTwo(m);
      assert CapacityFor(n) / 2 == CapacityFor(m);
    }
  }

  /** The code's growth rule, applied at every insert, keeps the capacity at
      CapacityFor(count). */
  lemma {:induction false} GrowthRule(n: nat)
    ensures CapacityFor(n + 1) == Grown(CapacityFor(n), n)
  {
    if n <= INIT_CLIENTS {
    } else if n % 2 == 1 {
      assert (n + 2) / 2 == (n + 1) / 2;
    } else {
      var k := n / 2;
      assert (n + 1) / 2 == k && (n + 2) / 2 == k + 1;
      GrowthRule(k);
    }
  }

  /** realloc: a larger array that starts with the old contents. */
  method Realloc<T(0)>(a: array<T>, n: nat) returns (b: array<T>)
    requires a.Length <= n
    ensures fresh(b) && b.Length == n
    ensures forall i :: 0 <= i < a.Length ==> b[i] == a[i]
  {
    b := new T[n];
    var i := 0;
    while i < a.Length
      invariant 0 <= i <= a.Length
      invariant forall k :: 0 <= k < i ==> b[k] == a[k]
    {
      b[i] := a[i];
      i := i + 1;
    }
  }
}
