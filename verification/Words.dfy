/** Machine words, error codes and small sequence facts shared by every module. */
module Words {

  /** A C `__u32`. */
  type u32 = x: int | 0 <= x < 0x1_0000_0000

  /** The errno values that the modelled functions return negated. */
  datatype Errno = EINVAL | ENOENT | EEXIST | ENOMEM | ELOOP

  /** A C `int` result: zero, or a negated errno. */
  datatype Status = Ok | Err(errno: Errno)

  datatype Option<+T> = None | Some(value: T)

  /** No value occurs twice in `s`. */
  ghost predicate Distinct<T>(s: seq<T>) {
    forall i, j :: 0 <= i < j < |s| ==> s[i] != s[j]
  }

  /** The integers below `n`, as a set. */
  function Below(n: nat): (r: set<int>)
    ensures |r| == n
    ensures forall x :: x in r <==> 0 <= x < n
  {
    if n == 0 then {}
    else
      var r := Below(n - 1) + {n - 1};
      assert |Below(n - 1)| == n - 1 && n - 1 !in Below(n - 1);
      r
  }

  /** The elements of a duplicate-free sequence form a set of the same size. */
  lemma {:induction false} DistinctCount(s: seq<int>)
    requires Distinct(s)
    ensures |set x | x in s| == |s|
  {
    if s == [] {
      assert (set x | x in s) == {};
    } else {
      var t := s[..|s| - 1];
      var last := s[|s| - 1];
      DistinctCount(t);
      assert s == t + [last];
      assert (set x | x in s) == (set x | x in t) + {last};
      assert last !in t;
    }
  }

  /** Pigeonhole: n distinct values below n are all the values below n. */
  lemma DistinctBelowIsOnto(s: seq<int>, n: nat)
    requires |s| == n && Distinct(s)
    requires forall i :: 0 <= i < n ==> 0 <= s[i] < n
    ensures forall x :: 0 <= x < n ==> x in s
  {
    DistinctCount(s);
    var r := set x | x in s;
    assert r <= Below(n);
    if r != Below(n) {
      assert r < Below(n);
      SubsetCount(r, Below(n));
    }
    forall x | 0 <= x < n
      ensures x in s
    {
      assert x in Below(n);
    }
  }

  lemma SubsetCount<T>(a: set<T>, b: set<T>)
    requires a < b
    ensures |a| < |b|
  {
    var rest := b - a;
    assert b == a + rest && rest != {};
    assert |b| == |a| + |rest|;
  }

  lemma SplitAt<T>(s: seq<T>, i: nat)
    requires i < |s|
    ensures s == (s[..i] + [s[i]]) + s[i + 1..]
  {
  }

  lemma SliceOfPrefix<T>(s: seq<T>, a: nat, b: nat, end: nat)
    requires a <= b <= end <= |s|
    ensures s[..end][a..b] == s[a..b]
  {
  }

  lemma TakeSnoc<T>(pre: seq<T>, s: seq<T>, i: nat)
    requires i < |s|
    ensures s[..i + 1] == s[..i] + [s[i]]
    ensures pre + s[..i + 1] == (pre + s[..i]) + [s[i]]
  {
  }
}
