/** "Exactly one element carries the `active` class": boolean flags, a count
    of the set ones, and the flag pattern with a single flag set. */
module Counting {

  function CountTrue(s: seq<bool>): nat {
    if s == [] then 0 else (if s[0] then 1 else 0) + CountTrue(s[1..])
  }

  /** `n` flags, set exactly at position `k` (none set when `k` is out of range). */
  function OneHot(n: nat, k: int): (s: seq<bool>)
    ensures |s| == n
    ensures forall i :: 0 <= i < n ==> s[i] == (i == k)
  {
    seq(n, i => i == k)
  }

  lemma {:induction false} CountOneHot(n: nat, k: int)
    ensures CountTrue(OneHot(n, k)) == if 0 <= k < n then 1 else 0
  {
    if n > 0 {
      assert OneHot(n, k)[1..] == OneHot(n - 1, k - 1);
      CountOneHot(n - 1, k - 1);
    }
  }
}
