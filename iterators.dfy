/**
 * The meaning of the iterator adaptors the library is built from
 * (`chunks_exact`, `skip`/`step_by`, `skip`, `rev`, `concat`,
 * `all_equal`), stated on sequences, plus `Take`, which only the corrected
 * upper-triangular test uses.
 */
module Iterators {
  import opened Indexing

  /** `s.chunks_exact(k)`: consecutive slices of exactly k items; a shorter tail is dropped. */
  function ChunksExact<T>(s: seq<T>, k: nat): (r: seq<seq<T>>)
    requires k > 0
    decreases |s|
  {
    if |s| < k then [] else [s[..k]] + ChunksExact(s[k..], k)
  }

  /** `s.iter().step_by(k)`: the first item, then every k-th item after it. */
  function StepBy<T>(s: seq<T>, k: nat): (r: seq<T>)
    requires k > 0
    decreases |s|
  {
    if |s| == 0 then [] else [s[0]] + (if |s| <= k then [] else StepBy(s[k..], k))
  }

  /** `s.iter().skip(n)`: everything after the first n items. */
  function Skip<T>(s: seq<T>, n: nat): (r: seq<T>)
  {
    if n < |s| then s[n..] else []
  }

  /**
   * The first n items, or all of them when there are fewer. The library does
   * not call `take`; this helper states the corrected upper-triangular test.
   */
  function Take<T>(s: seq<T>, n: nat): (r: seq<T>)
  {
    if n < |s| then s[..n] else s
  }

  /** `s.iter().rev()`: the items in the opposite order. */
  function Reverse<T>(s: seq<T>): (r: seq<T>)
  {
    seq(|s|, i requires 0 <= i < |s| => s[|s| - 1 - i])
  }

  /** `rows.concat()`: the rows joined end to end. */
  function Concat<T>(rows: seq<seq<T>>): (r: seq<T>)
  {
    if |rows| == 0 then [] else rows[0] + Concat(rows[1..])
  }

  /** Itertools `all_equal`: no two items differ (so true of the empty sequence). */
  predicate AllEqual<T(==)>(s: seq<T>)
  {
    forall i, j | 0 <= i < |s| && 0 <= j < |s| :: s[i] == s[j]
  }

  /** `.all(|item| item == &0.0)`. */
  predicate AllZero(s: seq<real>)
  {
    forall k | 0 <= k < |s| :: s[k] == 0.0
  }

  /** Cutting n * k items into chunks of k gives n chunks of k items each. */
  lemma {:induction false} ChunksExactLength<T>(s: seq<T>, k: nat, n: nat)
    requires k > 0 && |s| == n * k
    ensures |ChunksExact(s, k)| == n
    ensures forall i | 0 <= i < n :: |ChunksExact(s, k)[i]| == k
  {
    if n > 0 {
      MulMonotone(1, n, k);
      MulPred(n, k);
      ChunksExactLength(s[k..], k, n - 1);
      assert ChunksExact(s, k) == [s[..k]] + ChunksExact(s[k..], k);
    }
  }

  /** Item j of chunk i is item Flat(i, j, n, k) of the n * k items. */
  lemma {:induction false} ChunksExactItem<T>(s: seq<T>, k: nat, n: nat, i: nat, j: nat)
    requires k > 0 && |s| == n * k && i < n && j < k
    ensures |ChunksExact(s, k)| == n && |ChunksExact(s, k)[i]| == k
    ensures ChunksExact(s, k)[i][j] == s[Flat(i, j, n, k)]
  {
    ChunksExactLength(s, k, n);
    MulMonotone(1, n, k);
    var chunks := ChunksExact(s, k);
    assert chunks == [s[..k]] + ChunksExact(s[k..], k);
    if i == 0 {
      assert Flat(i, j, n, k) == j;
    } else {
      MulPred(n, k);
      ChunksExactItem(s[k..], k, n - 1, i - 1, j);
      FlatNextRow(i, j, n, k);
      assert chunks[i] == ChunksExact(s[k..], k)[i - 1];
    }
  }

  /** Cutting n * k items into chunks of k gives n chunks, chunk i holding row i of the layout. */
  lemma ChunksExactOfMultiple<T>(s: seq<T>, k: nat, n: nat)
    requires k > 0 && |s| == n * k
    ensures |ChunksExact(s, k)| == n
    ensures forall i | 0 <= i < n :: |ChunksExact(s, k)[i]| == k
    ensures forall i, j | 0 <= i < n && 0 <= j < k :: ChunksExact(s, k)[i][j] == s[Flat(i, j, n, k)]
  {
    ChunksExactLength(s, k, n);
    forall i, j | 0 <= i < n && 0 <= j < k ensures ChunksExact(s, k)[i][j] == s[Flat(i, j, n, k)] {
      ChunksExactItem(s, k, n, i, j);
    }
  }

  /** Stepping by k from offset c < k first visits item c, then steps on from the next k items. */
  lemma StepByTail<T>(s: seq<T>, k: nat, c: nat)
    requires c < k && k + c < |s|
    ensures StepBy(s[c..], k) == [s[c]] + StepBy(s[k..][c..], k)
  {
    assert s[c..][k..] == s[k..][c..];
  }

  /** Starting at offset c < k of n * k items and stepping by k visits n items. */
  lemma {:induction false} StepByLength<T>(s: seq<T>, k: nat, n: nat, c: nat)
    requires c < k <= |s| && |s| == n * k
    ensures |StepBy(s[c..], k)| == n
  {
    if n == 1 {
      assert |s[c..]| <= k;
    } else {
      MulPred(n, k);
      MulMonotone(1, n - 1, k);
      StepByLength(s[k..], k, n - 1, c);
      StepByTail(s, k, c);
    }
  }

  /** Step t from offset c lands on item Flat(t, c, n, k): entry (t, c) of the layout. */
  lemma {:induction false} StepByItem<T>(s: seq<T>, k: nat, n: nat, c: nat, t: nat)
    requires c < k <= |s| && |s| == n * k && t < n
    ensures |StepBy(s[c..], k)| == n
    ensures StepBy(s[c..], k)[t] == s[Flat(t, c, n, k)]
  {
    StepByLength(s, k, n, c);
    if t == 0 {
      assert Flat(t, c, n, k) == c;
    } else {
      MulPred(n, k);
      MulMonotone(1, n - 1, k);
      var rest := s[k..];
      StepByItem(rest, k, n - 1, c, t - 1);
      StepByTail(s, k, c);
      FlatNextRow(t, c, n, k);
      assert StepBy(s[c..], k)[t] == rest[Flat(t - 1, c, n - 1, k)];
    }
  }

  /**
   * Starting at offset c < k of n * k items and stepping by k visits n
   * items: column c of the n-by-k layout.
   */
  lemma StepByColumn<T>(s: seq<T>, k: nat, n: nat, c: nat)
    requires c < k <= |s| && |s| == n * k
    ensures |StepBy(s[c..], k)| == n
    ensures forall t | 0 <= t < n :: StepBy(s[c..], k)[t] == s[Flat(t, c, n, k)]
  {
    StepByLength(s, k, n, c);
    forall t | 0 <= t < n ensures StepBy(s[c..], k)[t] == s[Flat(t, c, n, k)] {
      StepByItem(s, k, n, c, t);
    }
  }

  /** Joining rows of k items each gives |rows| * k items. */
  lemma {:induction false} ConcatLength<T>(rows: seq<seq<T>>, k: nat)
    requires forall i | 0 <= i < |rows| :: |rows[i]| == k
    ensures |Concat(rows)| == |rows| * k
  {
    if |rows| > 0 {
      ConcatLength(rows[1..], k);
      MulPred(|rows|, k);
    }
  }

  /** Item j of row i sits at position Flat(i, j, |rows|, k) of the joined rows. */
  lemma {:induction false} ConcatItem<T>(rows: seq<seq<T>>, k: nat, i: nat, j: nat)
    requires forall r | 0 <= r < |rows| :: |rows[r]| == k
    requires i < |rows| && j < k
    ensures |Concat(rows)| == |rows| * k
    ensures Concat(rows)[Flat(i, j, |rows|, k)] == rows[i][j]
  {
    ConcatLength(rows, k);
    ConcatLength(rows[1..], k);
    if i == 0 {
      assert Flat(i, j, |rows|, k) == j;
    } else {
      ConcatItem(rows[1..], k, i - 1, j);
      FlatNextRow(i, j, |rows|, k);
      assert rows[1..][i - 1] == rows[i];
    }
  }

  /** Joining n rows of k items lays row i out at positions Flat(i, _, n, k). */
  lemma ConcatOfUniform<T>(rows: seq<seq<T>>, k: nat)
    requires forall i | 0 <= i < |rows| :: |rows[i]| == k
    ensures |Concat(rows)| == |rows| * k
    ensures forall i, j | 0 <= i < |rows| && 0 <= j < k :: Concat(rows)[Flat(i, j, |rows|, k)] == rows[i][j]
  {
    ConcatLength(rows, k);
    forall i, j | 0 <= i < |rows| && 0 <= j < k ensures Concat(rows)[Flat(i, j, |rows|, k)] == rows[i][j] {
      ConcatItem(rows, k, i, j);
    }
  }
}
