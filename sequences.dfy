/** The two array operations the key-state store applies to its histories:
    keeping the entries newer than a cutoff (`history.filter(r => r.timestamp > cutoff)`)
    and listing distinct values in first-occurrence order (`[...new Set(values)]`). */
module Sequences {

  /** The set of values occurring in `s`. */
  function Elements<T>(s: seq<T>): set<T>
  {
    set x | x in s
  }

  predicate NoDuplicates<T(==)>(s: seq<T>)
  {
    forall i, j :: 0 <= i < j < |s| ==> s[i] != s[j]
  }

  /** The entries are in non-decreasing order of their stamps. */
  predicate NonDecreasing<T>(s: seq<T>, stamp: T -> int)
  {
    forall i, j :: 0 <= i < j < |s| ==> stamp(s[i]) <= stamp(s[j])
  }

  /** `s.filter(x => stamp(x) > cutoff)`: exactly the entries stamped after the cutoff. */
  function KeepNewer<T(!new)>(s: seq<T>, stamp: T -> int, cutoff: int): (r: seq<T>)
    ensures |r| <= |s|
    ensures forall x :: x in r <==> x in s && stamp(x) > cutoff
  {
    if s == [] then []
    else (if stamp(s[0]) > cutoff then [s[0]] else []) + KeepNewer(s[1..], stamp, cutoff)
  }

  /** Filtering distributes over concatenation, so the kept entries stay in their
      original relative order. */
  lemma {:induction false} KeepNewerAppend<T(!new)>(a: seq<T>, b: seq<T>, stamp: T -> int, cutoff: int)
    ensures KeepNewer(a + b, stamp, cutoff) == KeepNewer(a, stamp, cutoff) + KeepNewer(b, stamp, cutoff)
  {
    if a == [] {
      assert a + b == b;
    } else {
      assert (a + b)[1..] == a[1..] + b;
      KeepNewerAppend(a[1..], b, stamp, cutoff);
    }
  }

  /** When every entry is newer than the cutoff, filtering keeps the sequence as it is. */
  lemma {:induction false} KeepNewerAllRecent<T(!new)>(s: seq<T>, stamp: T -> int, cutoff: int)
    requires forall x :: x in s ==> stamp(x) > cutoff
    ensures KeepNewer(s, stamp, cutoff) == s
  {
    if s != [] {
      assert s[0] in s;
      forall x | x in s[1..] ensures stamp(x) > cutoff {
        assert x in s;
      }
      KeepNewerAllRecent(s[1..], stamp, cutoff);
    }
  }

  /** When no entry is newer than the cutoff, filtering leaves nothing. */
  lemma {:induction false} KeepNewerAllStale<T(!new)>(s: seq<T>, stamp: T -> int, cutoff: int)
    requires forall x :: x in s ==> stamp(x) <= cutoff
    ensures KeepNewer(s, stamp, cutoff) == []
  {
    if s != [] {
      assert s[0] in s;
      forall x | x in s[1..] ensures stamp(x) <= cutoff {
        assert x in s;
      }
      KeepNewerAllStale(s[1..], stamp, cutoff);
    }
  }

  /** Filtering twice with the same cutoff is filtering once. */
  lemma KeepNewerIdempotent<T(!new)>(s: seq<T>, stamp: T -> int, cutoff: int)
    ensures KeepNewer(KeepNewer(s, stamp, cutoff), stamp, cutoff) == KeepNewer(s, stamp, cutoff)
  {
    KeepNewerAllRecent(KeepNewer(s, stamp, cutoff), stamp, cutoff);
  }

  /** A sequence with a head is ordered exactly when its tail is ordered and no entry of
      the tail is stamped before the head. */
  lemma NonDecreasingCons<T>(x: T, t: seq<T>, stamp: T -> int)
    ensures NonDecreasing([x] + t, stamp)
        <==> NonDecreasing(t, stamp) && forall y :: y in t ==> stamp(x) <= stamp(y)
  {
    var s := [x] + t;
    if NonDecreasing(s, stamp) {
      forall i, j | 0 <= i < j < |t| ensures stamp(t[i]) <= stamp(t[j]) {
        assert t[i] == s[i + 1] && t[j] == s[j + 1];
      }
      forall y | y in t ensures stamp(x) <= stamp(y) {
        var k :| 0 <= k < |t| && t[k] == y;
        assert s[0] == x && s[k + 1] == y;
      }
    }
    if NonDecreasing(t, stamp) && forall y :: y in t ==> stamp(x) <= stamp(y) {
      forall i, j | 0 <= i < j < |s| ensures stamp(s[i]) <= stamp(s[j]) {
        assert s[j] == t[j - 1];
        if i > 0 {
          assert s[i] == t[i - 1];
        }
      }
    }
  }

  /** Filtering a chronologically ordered history leaves it ordered. */
  lemma {:induction false} KeepNewerNonDecreasing<T(!new)>(s: seq<T>, stamp: T -> int, cutoff: int)
    requires NonDecreasing(s, stamp)
    ensures NonDecreasing(KeepNewer(s, stamp, cutoff), stamp)
  {
    if s != [] {
      var rest := KeepNewer(s[1..], stamp, cutoff);
      assert s == [s[0]] + s[1..];
      NonDecreasingCons(s[0], s[1..], stamp);
      KeepNewerNonDecreasing(s[1..], stamp, cutoff);
      NonDecreasingCons(s[0], rest, stamp);
    }
  }

  /** `[...new Set(s)]`: the distinct values of `s`, each once, in the order in which
      they first occur (a `Set` iterates in insertion order and ignores re-insertion). */
  function Distinct<T(==,!new)>(s: seq<T>): (r: seq<T>)
    ensures forall x :: x in r <==> x in s
    ensures NoDuplicates(r)
    ensures |r| <= |s|
  {
    if s == [] then []
    else
      var seen := Distinct(s[..|s| - 1]);
      var x := s[|s| - 1];
      if x in seen then seen else seen + [x]
  }

  /** The position at which `x` first occurs in `s`. */
  function FirstIndex<T(==)>(s: seq<T>, x: T): (i: nat)
    requires x in s
    ensures i < |s| && s[i] == x && x !in s[..i]
  {
    if s[0] == x then 0 else 1 + FirstIndex(s[1..], x)
  }

  /** A first occurrence of `x` is unchanged by appending to the sequence. */
  lemma FirstIndexAppend<T>(s: seq<T>, y: T, x: T)
    requires x in s
    ensures FirstIndex(s + [y], x) == FirstIndex(s, x)
  {
    var i, j := FirstIndex(s + [y], x), FirstIndex(s, x);
    assert (s + [y])[j] == x;
  }

  /** The distinct values are listed in the order of their first occurrences in `s`. */
  lemma {:induction false} DistinctFirstOccurrenceOrder<T(!new)>(s: seq<T>)
    ensures forall i, j :: 0 <= i < j < |Distinct(s)| ==>
      FirstIndex(s, Distinct(s)[i]) < FirstIndex(s, Distinct(s)[j])
  {
    if s != [] {
      var p, y := s[..|s| - 1], s[|s| - 1];
      assert s == p + [y];
      var seen := Distinct(p);
      DistinctFirstOccurrenceOrder(p);
      forall x | x in p ensures FirstIndex(s, x) == FirstIndex(p, x) {
        FirstIndexAppend(p, y, x);
      }
      var d := Distinct(s);
      forall i, j | 0 <= i < j < |d| ensures FirstIndex(s, d[i]) < FirstIndex(s, d[j]) {
        assert d[i] == seen[i];
        assert seen[i] in p;
        if j < |seen| {
          assert d[j] == seen[j];
          assert seen[j] in p;
        } else {
          assert d[j] == y && y !in p;
          assert FirstIndex(s, y) == |p|;
        }
      }
    }
  }

  /** The number of distinct values is the size of the set of values. */
  lemma {:induction false} DistinctCount<T(!new)>(s: seq<T>)
    ensures |Distinct(s)| == |Elements(s)|
  {
    if s != [] {
      var p, y := s[..|s| - 1], s[|s| - 1];
      assert s == p + [y];
      DistinctCount(p);
      assert Elements(s) == Elements(p) + {y};
      if y !in p {
        assert y !in Elements(p);
      } else {
        assert y in Elements(p);
        assert Elements(s) == Elements(p);
      }
    }
  }
}
