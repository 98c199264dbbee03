/** Option and Result in the shape of the original's `Option<T>` and
    `Result<T, CoreError>`, and the sequence facts the byte layouts share. */
module Prelude {

  datatype Option<+T> = None | Some(value: T)

  /** Why an operation fails.  `Panic` stands for an index or arithmetic check
      that aborts the original instead of returning an error. */
  datatype Error = DbFormat | OutOfRange | Codec | Truncated | Panic

  datatype Result<+T> = Ok(value: T) | Err(error: Error)

  /** A slice of a part of `s` is a slice of `s`. */
  lemma {:induction false} SubSlice<T>(s: seq<T>, at: nat, part: seq<T>, i: nat, j: nat)
    requires at + |part| <= |s| && s[at..at + |part|] == part
    requires i <= j <= |part|
    ensures s[at + i..at + j] == part[i..j]
  {
    forall k | 0 <= k < |part| ensures s[at + k] == part[k] {
      assert s[at..at + |part|][k] == s[at + k];
    }
  }

  /** The two halves of what a buffer holds at `at`. */
  lemma {:induction false} Halves<T>(s: seq<T>, at: nat, a: seq<T>, b: seq<T>)
    requires at + |a| + |b| <= |s| && s[at..at + |a| + |b|] == a + b
    ensures s[at..at + |a|] == a
    ensures s[at + |a|..at + |a| + |b|] == b
  {
    SubSlice(s, at, a + b, 0, |a|);
    SubSlice(s, at, a + b, |a|, |a| + |b|);
  }

  /** The four parts of what a buffer holds at `at`. */
  lemma {:induction false} Quarters<T>(s: seq<T>, at: nat, a: seq<T>, b: seq<T>, c: seq<T>, d: seq<T>)
    requires at + |a + b + c + d| <= |s| && s[at..at + |a + b + c + d|] == a + b + c + d
    ensures s[at..at + |a|] == a
    ensures s[at + |a|..at + |a + b|] == b
    ensures s[at + |a + b|..at + |a + b + c|] == c
    ensures s[at + |a + b + c|..at + |a + b + c + d|] == d
  {
    Halves(s, at, a + b + c, d);
    Halves(s, at, a + b, c);
    Halves(s, at, a, b);
  }

  lemma {:induction false} SplitLast<T>(s: seq<T>)
    requires s != []
    ensures s == s[..|s| - 1] + [s[|s| - 1]]
  {
  }

  lemma {:induction false} NextPrefix<T>(s: seq<T>, i: nat)
    requires i < |s|
    ensures s[..i + 1] == s[..i] + [s[i]]
  {
  }

  lemma {:induction false} SubsetSize<T>(a: set<T>, b: set<T>)
    requires a <= b
    ensures |a| <= |b| && (|a| == |b| ==> a == b)
  {
    assert b == a + (b - a) && |b| == |a| + |b - a|;
  }

  /** The first `k` elements, or all of them when there are fewer. */
  function Take<T>(s: seq<T>, k: nat): (r: seq<T>)
    ensures |r| == if k < |s| then k else |s|
    ensures r <= s
  {
    if k < |s| then s[..k] else s
  }

  /** A `limit` as a bound on a count: absent means unbounded. */
  function Cap<T>(s: seq<T>, limit: Option<nat>): (r: seq<T>)
    ensures r <= s
  {
    match limit
    case None => s
    case Some(k) => Take(s, k)
  }

  /** True of the lists that docids form: each element above the one before. */
  ghost predicate Ascending(s: seq<nat>) {
    forall i, j :: 0 <= i < j < |s| ==> s[i] < s[j]
  }

  /** An ascending list is determined by the set of its elements. */
  lemma {:induction false} AscendingUnique(a: seq<nat>, b: seq<nat>)
    requires Ascending(a) && Ascending(b)
    requires forall x :: x in a <==> x in b
    ensures a == b
    decreases |a|
  {
    assert (a != [] ==> a[0] in a) && (b != [] ==> b[0] in b);
    if a != [] && b != [] {
      var i :| 0 <= i < |b| && b[i] == a[0];
      var j :| 0 <= j < |a| && a[j] == b[0];
      assert a[0] == b[0];
      assert a == [a[0]] + a[1..] && b == [b[0]] + b[1..];
      forall x ensures x in a[1..] <==> x in b[1..] {
        if x in a[1..] { assert x in a && x != a[0]; assert x in b; }
        if x in b[1..] { assert x in b && x != b[0]; assert x in a; }
      }
      AscendingUnique(a[1..], b[1..]);
    }
  }
}
