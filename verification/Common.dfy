/** Small value types and sequence functions shared by the other modules. */
module Common {
  datatype Option<+T> = None | Some(value: T)

  /** How a write ends: done, done but reported as failed, or not done. */
  datatype Effect = Done | DoneUnnoticed | NotDone

  function Max(a: int, b: int): int {
    if a > b then a else b
  }

  predicate Ascending(ts: seq<int>) {
    forall i, j | 0 <= i < j < |ts| :: ts[i] <= ts[j]
  }

  predicate Distinct<T(==)>(s: seq<T>) {
    forall i, j | 0 <= i < j < |s| :: s[i] != s[j]
  }

  lemma DistinctTail<T>(s: seq<T>)
    requires Distinct(s) && s != []
    ensures Distinct(s[1..]) && s[0] !in s[1..] && forall x <- s[1..] :: x in s
  {
  }

  lemma DistinctConcat<T>(a: seq<T>, b: seq<T>)
    requires Distinct(a) && Distinct(b) && forall x <- a :: x !in b
    ensures Distinct(a + b)
  {
    forall i, j | 0 <= i < j < |a + b| ensures (a + b)[i] != (a + b)[j] {
      if i < |a| <= j {
        assert a[i] in a && b[j - |a|] in b;
      }
    }
  }

  function Repeat<T>(x: T, n: nat): (s: seq<T>)
    ensures |s| == n && forall i | 0 <= i < n :: s[i] == x
  {
    seq(n, i => x)
  }

  lemma RepeatSnoc<T>(a: seq<T>, x: T, n: nat)
    requires n > 0
    ensures a + Repeat(x, n) == (a + Repeat(x, n - 1)) + [x]
  {
  }

  lemma Regroup<T>(a: seq<T>, b: seq<T>, c: seq<T>)
    ensures a + (b + c) == (a + b) + c
  {
  }

  /** Concatenation in front of a non-empty sequence, seen from its first element. */
  lemma FromTheFront<T>(a: seq<T>, b: seq<T>)
    requires a != []
    ensures (a + b)[0] == a[0] && (a + b)[1..] == a[1..] + b
  {
  }

  /** How many numbers lie in the half-open interval (lo, hi]. */
  function CountIn(ts: seq<int>, lo: int, hi: int): nat {
    if ts == [] then 0
    else CountIn(ts[..|ts| - 1], lo, hi) + if lo < ts[|ts| - 1] <= hi then 1 else 0
  }

  lemma CountSnoc(ts: seq<int>, x: int, lo: int, hi: int)
    ensures CountIn(ts + [x], lo, hi) == CountIn(ts, lo, hi) + if lo < x <= hi then 1 else 0
  {
    assert (ts + [x])[..|ts|] == ts;
  }

  /** The numbers of an ascending sequence that lie in an interval are one block of it. */
  lemma {:induction false} CountIsABlock(ts: seq<int>, lo: int, hi: int) returns (a: nat)
    requires Ascending(ts)
    ensures a + CountIn(ts, lo, hi) <= |ts|
    ensures forall i | 0 <= i < |ts| :: lo < ts[i] <= hi <==> a <= i < a + CountIn(ts, lo, hi)
  {
    if ts == [] {
      a := 0;
    } else {
      var front := ts[..|ts| - 1];
      var n := CountIn(front, lo, hi);
      a := CountIsABlock(front, lo, hi);
      if n == 0 {
        a := |front|;
      } else if lo < ts[|front|] <= hi && a + n < |front| {
        assert ts[a] <= ts[a + n] <= ts[|front|];
      }
      assert forall i | 0 <= i < |front| :: front[i] == ts[i];
    }
  }
}
