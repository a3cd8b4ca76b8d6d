/** The C library's block operations on a buffer that is updated in place. */
module Memory {
  /** Overlapping ranges are allowed: every element is read before any is written. */
  method Memmove<T>(a: array<T>, dst: nat, src: nat, n: nat)
    requires dst + n <= a.Length && src + n <= a.Length
    modifies a
    ensures forall k :: dst <= k < dst + n ==> a[k] == old(a[k - dst + src])
    ensures forall k :: 0 <= k < a.Length && !(dst <= k < dst + n) ==> a[k] == old(a[k])
  {
    forall k | dst <= k < dst + n {
      a[k] := a[k - dst + src];
    }
  }

  method Memset<T>(a: array<T>, dst: nat, value: T, n: nat)
    requires dst + n <= a.Length
    modifies a
    ensures forall k :: dst <= k < dst + n ==> a[k] == value
    ensures forall k :: 0 <= k < a.Length && !(dst <= k < dst + n) ==> a[k] == old(a[k])
  {
    forall k | dst <= k < dst + n {
      a[k] := value;
    }
  }
}
