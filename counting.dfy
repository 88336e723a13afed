/** Counting the cards that carry a flag (for instance, the matched ones). */
module Counting {

  /** How many entries of `m` are true. */
  function CountTrue(m: seq<bool>): (n: nat)
    ensures n <= |m|
  {
    if m == [] then 0 else (if m[0] then 1 else 0) + CountTrue(m[1..])
  }

  /** Setting one flag changes the count by the difference at that position only. */
  lemma {:induction false} CountUpdate(m: seq<bool>, k: nat, b: bool)
    requires k < |m|
    ensures CountTrue(m[k := b]) == CountTrue(m) - (if m[k] then 1 else 0) + (if b then 1 else 0)
    decreases k
  {
    if k == 0 {
      assert m[k := b][1..] == m[1..];
    } else {
      assert m[k := b][1..] == m[1..][k - 1 := b];
      CountUpdate(m[1..], k - 1, b);
    }
  }

  /** A false entry keeps the count below the length. */
  lemma {:induction false} CountMissing(m: seq<bool>, k: nat)
    requires k < |m| && !m[k]
    ensures CountTrue(m) < |m|
  {
    CountUpdate(m, k, true);
  }

  /** No entry set, no count. */
  lemma {:induction false} CountNone(n: nat)
    ensures CountTrue(seq(n, _ => false)) == 0
  {
    if n > 0 {
      assert seq(n, _ => false)[1..] == seq(n - 1, _ => false);
      CountNone(n - 1);
    }
  }
}
