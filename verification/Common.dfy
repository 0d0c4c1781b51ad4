/** What several of the modules need. */
module Common {

  datatype Option<T> = None | Some(value: T)

  ghost predicate Distinct<T>(xs: seq<T>) {
    forall i, j | 0 <= i < j < |xs| :: xs[i] != xs[j]
  }

  /** Distinct numbers below n are at most n. */
  lemma {:induction false} PigeonHole(xs: seq<nat>, n: nat)
    requires Distinct(xs) && forall i | 0 <= i < |xs| :: xs[i] < n
    ensures |xs| <= n
  {
    if xs != [] {
      assert xs[0] < n;
      if i :| 0 <= i < |xs| && xs[i] == n - 1 {
        PigeonHole(xs[..i] + xs[i + 1..], n - 1);
      } else {
        PigeonHole(xs, n - 1);
      }
    }
  }

  lemma SliceOfSlice<T>(s: seq<T>, a: nat, b: nat, i: nat, j: nat)
    requires a <= b <= |s| && i <= j <= b - a
    ensures s[a..b][i..j] == s[a + i..a + j]
  {
    var x, y := s[a..b][i..j], s[a + i..a + j];
    assert |x| == |y| && forall k | 0 <= k < |x| :: x[k] == s[a + i + k] && y[k] == s[a + i + k];
  }

  lemma Regroup<T>(a: seq<T>, b: seq<T>, c: seq<T>)
    ensures a + (b + c) == a + b + c
  {
  }
}
