/** `Array.prototype.filter` over sequences, and what it guarantees: the kept elements
    are exactly those that pass the test, with their multiplicities, in their original order. */
module Lists {

  /** `s.filter(keep)`: the elements of `s` that pass `keep`, left to right. */
  function KeepWhere<T>(s: seq<T>, keep: T -> bool): (r: seq<T>)
    ensures |r| <= |s|
    ensures forall k :: 0 <= k < |r| ==> keep(r[k]) && r[k] in s
  {
    if s == [] then [] else (if keep(s[0]) then [s[0]] else []) + KeepWhere(s[1..], keep)
  }

  /** `a` is obtained from `b` by deleting elements, without reordering the rest. */
  ghost predicate IsSubsequence<T>(a: seq<T>, b: seq<T>)
    decreases |b|
  {
    a == [] || (b != [] && ((a[0] == b[0] && IsSubsequence(a[1..], b[1..])) || IsSubsequence(a, b[1..])))
  }

  /** No two elements of `s` share a key. */
  ghost predicate DistinctKeys<T, K>(s: seq<T>, key: T -> K) {
    forall i, j :: 0 <= i < j < |s| ==> key(s[i]) != key(s[j])
  }

  /** Filtering keeps the order of what it keeps. */
  lemma {:induction false} KeepWhereIsSubsequence<T>(s: seq<T>, keep: T -> bool)
    ensures IsSubsequence(KeepWhere(s, keep), s)
  {
    if s != [] {
      KeepWhereIsSubsequence(s[1..], keep);
      var rest := KeepWhere(s[1..], keep);
      if keep(s[0]) {
        assert KeepWhere(s, keep) == [s[0]] + rest;
        assert ([s[0]] + rest)[1..] == rest;
      } else {
        assert KeepWhere(s, keep) == rest;
      }
    }
  }

  /** Filtering keeps every passing element as often as it occurs, and nothing else. */
  lemma {:induction false} KeepWhereMultiplicity<T>(s: seq<T>, keep: T -> bool)
    ensures forall x :: multiset(KeepWhere(s, keep))[x] == if keep(x) then multiset(s)[x] else 0
  {
    if s != [] {
      KeepWhereMultiplicity(s[1..], keep);
      assert s == [s[0]] + s[1..];
      assert multiset(s) == multiset{s[0]} + multiset(s[1..]);
    }
  }

  /** Membership form of the above. */
  lemma KeepWhereMembers<T>(s: seq<T>, keep: T -> bool)
    ensures forall x :: x in KeepWhere(s, keep) <==> x in s && keep(x)
  {
    KeepWhereMultiplicity(s, keep);
    forall x ensures x in KeepWhere(s, keep) <==> x in s && keep(x) {
      assert x in KeepWhere(s, keep) <==> x in multiset(KeepWhere(s, keep));
      assert x in s <==> x in multiset(s);
    }
  }

  /** Filtering changes nothing exactly when every element passes. */
  lemma {:induction false} KeepWhereAll<T>(s: seq<T>, keep: T -> bool)
    ensures KeepWhere(s, keep) == s <==> forall k :: 0 <= k < |s| ==> keep(s[k])
    ensures |KeepWhere(s, keep)| == |s| <==> KeepWhere(s, keep) == s
  {
    if s != [] {
      KeepWhereAll(s[1..], keep);
      if keep(s[0]) {
        assert KeepWhere(s, keep) == [s[0]] + KeepWhere(s[1..], keep);
        if forall k :: 0 <= k < |s| - 1 ==> keep(s[1..][k]) {
          assert s == [s[0]] + s[1..];
        } else {
          var k :| 0 <= k < |s| - 1 && !keep(s[1..][k]);
          assert !keep(s[k + 1]);
        }
      }
    }
  }

  /** Filtering twice by the same test is filtering once. */
  lemma KeepWhereIdempotent<T>(s: seq<T>, keep: T -> bool)
    ensures KeepWhere(KeepWhere(s, keep), keep) == KeepWhere(s, keep)
  {
    KeepWhereAll(KeepWhere(s, keep), keep);
  }

  /** Two tests that agree everywhere filter alike. */
  lemma {:induction false} KeepWhereExtensional<T>(s: seq<T>, p: T -> bool, q: T -> bool)
    requires forall x :: p(x) == q(x)
    ensures KeepWhere(s, p) == KeepWhere(s, q)
  {
    if s != [] {
      KeepWhereExtensional(s[1..], p, q);
    }
  }

  /** A test and its negation split a sequence: every element lands on exactly one side. */
  lemma {:induction false} KeepWherePartition<T>(s: seq<T>, p: T -> bool, q: T -> bool)
    requires forall x :: q(x) == !p(x)
    ensures multiset(KeepWhere(s, p)) + multiset(KeepWhere(s, q)) == multiset(s)
    ensures |KeepWhere(s, p)| + |KeepWhere(s, q)| == |s|
  {
    if s != [] {
      KeepWherePartition(s[1..], p, q);
      assert s == [s[0]] + s[1..];
      assert multiset(s) == multiset{s[0]} + multiset(s[1..]);
    }
  }

  /** Filtering cannot create a clash of keys. */
  lemma {:induction false} KeepWhereKeepsDistinctKeys<T, K>(s: seq<T>, keep: T -> bool, key: T -> K)
    requires DistinctKeys(s, key)
    ensures DistinctKeys(KeepWhere(s, keep), key)
  {
    if s != [] {
      var rest := KeepWhere(s[1..], keep);
      assert DistinctKeys(s[1..], key) by {
        forall i, j | 0 <= i < j < |s| - 1 ensures key(s[1..][i]) != key(s[1..][j]) {
          assert s[1..][i] == s[i + 1] && s[1..][j] == s[j + 1];
        }
      }
      KeepWhereKeepsDistinctKeys(s[1..], keep, key);
      if keep(s[0]) {
        var r := [s[0]] + rest;
        assert KeepWhere(s, keep) == r;
        forall i, j | 0 <= i < j < |r| ensures key(r[i]) != key(r[j]) {
          if i == 0 {
            var x := rest[j - 1];
            assert x in s[1..];
            var m :| 0 <= m < |s| - 1 && s[1..][m] == x;
            assert s[m + 1] == r[j];
          } else {
            assert r[i] == rest[i - 1] && r[j] == rest[j - 1];
          }
        }
      }
    }
  }
}
