/** Generic sums and filters over sequences, and the facts about them that
    the ledger arithmetic relies on. */
module Seqs {

  import opened Wrappers

  /** The sum of f over s, accumulated left to right as a forEach loop does. */
  function Sum<T>(f: T -> int, s: seq<T>): int
  {
    if s == [] then 0 else Sum(f, s[..|s| - 1]) + f(s[|s| - 1])
  }

  /** The elements of s that satisfy p, in their original order. */
  function Filter<T(==,!new)>(p: T -> bool, s: seq<T>): (r: seq<T>)
    ensures |r| <= |s|
    ensures forall x :: x in r <==> x in s && p(x)
  {
    if s == [] then []
    else
      assert s == s[..|s| - 1] + [s[|s| - 1]];
      Filter(p, s[..|s| - 1]) + (if p(s[|s| - 1]) then [s[|s| - 1]] else [])
  }

  /** s with its order reversed. */
  function Reverse<T>(s: seq<T>): (r: seq<T>)
    ensures |r| == |s|
    ensures forall k :: 0 <= k < |s| ==> r[k] == s[|s| - 1 - k]
  {
    if s == [] then [] else [s[|s| - 1]] + Reverse(s[..|s| - 1])
  }

  /** The index of the first element of s satisfying p, if any: what
      Array.prototype.find and a findOne query return. */
  function FindIndex<T>(p: T -> bool, s: seq<T>): (r: Option<nat>)
    ensures r.Some? ==> r.value < |s| && p(s[r.value])
    ensures r.Some? ==> forall k :: 0 <= k < r.value ==> !p(s[k])
    ensures r.None? <==> forall k :: 0 <= k < |s| ==> !p(s[k])
  {
    if s == [] then None
    else if p(s[0]) then Some(0)
    else match FindIndex(p, s[1..])
      case None => None
      case Some(k) => Some(k + 1)
  }

  predicate NoDuplicates<T(==)>(s: seq<T>)
  {
    forall i, j :: 0 <= i < j < |s| ==> s[i] != s[j]
  }

  lemma SumSingle<T>(f: T -> int, x: T)
    ensures Sum(f, [x]) == f(x)
  {
    assert [x][..0] == [];
  }

  lemma {:induction false} SumAppend<T>(f: T -> int, a: seq<T>, b: seq<T>)
    ensures Sum(f, a + b) == Sum(f, a) + Sum(f, b)
    decreases |b|
  {
    if b == [] {
      assert a + b == a;
    } else {
      assert (a + b)[..|a + b| - 1] == a + b[..|b| - 1];
      SumAppend(f, a, b[..|b| - 1]);
    }
  }

  /** A sum depends only on the multiset of its terms, not on their order. */
  lemma {:induction false} SumPermutation<T>(f: T -> int, a: seq<T>, b: seq<T>)
    requires multiset(a) == multiset(b)
    ensures Sum(f, a) == Sum(f, b)
    decreases |a|
  {
    if a == [] {
      assert |b| == |multiset(b)| == 0;
    } else {
      var x := a[|a| - 1];
      var rest := a[..|a| - 1];
      assert a == rest + [x];
      assert x in multiset(b);
      var k :| 0 <= k < |b| && b[k] == x;
      var others := b[..k] + b[k + 1..];
      assert b == b[..k] + [x] + b[k + 1..];
      assert multiset(b) == multiset(b[..k]) + multiset{x} + multiset(b[k + 1..]);
      assert multiset(others) == multiset(b[..k]) + multiset(b[k + 1..]);
      assert multiset(a) == multiset(rest) + multiset{x};
      assert multiset(rest) == multiset(a) - multiset{x} == multiset(others);
      SumPermutation(f, rest, others);
      SumAppend(f, b[..k] + [x], b[k + 1..]);
      SumAppend(f, b[..k], [x]);
      SumAppend(f, b[..k], b[k + 1..]);
      SumSingle(f, x);
    }
  }

  lemma {:induction false} FilterAppend<T(!new)>(p: T -> bool, a: seq<T>, b: seq<T>)
    ensures Filter(p, a + b) == Filter(p, a) + Filter(p, b)
    decreases |b|
  {
    if b == [] {
      assert a + b == a;
    } else {
      assert (a + b)[..|a + b| - 1] == a + b[..|b| - 1];
      FilterAppend(p, a, b[..|b| - 1]);
    }
  }

  /** Filtering by a predicate no element meets leaves nothing. */
  lemma {:induction false} FilterNone<T(!new)>(p: T -> bool, s: seq<T>)
    requires forall k :: 0 <= k < |s| ==> !p(s[k])
    ensures Filter(p, s) == []
    decreases |s|
  {
    if s != [] {
      FilterNone(p, s[..|s| - 1]);
    }
  }

  lemma {:induction false} ReversePermutation<T>(s: seq<T>)
    ensures multiset(Reverse(s)) == multiset(s)
    decreases |s|
  {
    if s != [] {
      ReversePermutation(s[..|s| - 1]);
      assert s == s[..|s| - 1] + [s[|s| - 1]];
    }
  }

  /** s is in nondecreasing order of key. */
  predicate Ascending<T>(key: T -> int, s: seq<T>)
  {
    forall i, j :: 0 <= i < j < |s| ==> key(s[i]) <= key(s[j])
  }

  /** s is in nonincreasing order of key. */
  predicate Descending<T>(key: T -> int, s: seq<T>)
  {
    forall i, j :: 0 <= i < j < |s| ==> key(s[i]) >= key(s[j])
  }

  lemma {:induction false} FilterAscending<T(!new)>(p: T -> bool, key: T -> int, s: seq<T>)
    requires Ascending(key, s)
    ensures Ascending(key, Filter(p, s))
    decreases |s|
  {
    if s != [] {
      var rest, last := s[..|s| - 1], s[|s| - 1];
      assert Ascending(key, rest);
      FilterAscending(p, key, rest);
      var fr := Filter(p, rest);
      if p(last) {
        forall k | 0 <= k < |fr| ensures key(fr[k]) <= key(last) {
          assert fr[k] in rest;
          var m :| 0 <= m < |rest| && rest[m] == fr[k];
          assert s[m] == rest[m];
        }
        var r := fr + [last];
        forall i, j | 0 <= i < j < |r| ensures key(r[i]) <= key(r[j]) {
          if j == |fr| {
            assert r[i] == fr[i] && r[j] == last;
          } else {
            assert r[i] == fr[i] && r[j] == fr[j];
          }
        }
      }
    }
  }

  lemma ReverseDescending<T>(key: T -> int, s: seq<T>)
    requires Ascending(key, s)
    ensures Descending(key, Reverse(s))
  {
    var r := Reverse(s);
    forall i, j | 0 <= i < j < |r| ensures key(r[i]) >= key(r[j]) {
      assert r[i] == s[|s| - 1 - i] && r[j] == s[|s| - 1 - j];
    }
  }

  /** No two elements of s share a key. */
  predicate UniqueBy<T, K(==)>(key: T -> K, s: seq<T>)
  {
    forall i, j :: 0 <= i < j < |s| ==> key(s[i]) != key(s[j])
  }

  /** Appending an element whose key is new keeps the keys unique. */
  lemma UniqueByAppend<T, K>(key: T -> K, s: seq<T>, x: T)
    requires UniqueBy(key, s)
    requires forall y :: y in s ==> key(y) != key(x)
    ensures UniqueBy(key, s + [x])
  {
    var r := s + [x];
    forall i, j | 0 <= i < j < |r| ensures key(r[i]) != key(r[j]) {
      assert r[i] == s[i] && s[i] in s;
      if j < |s| {
        assert r[j] == s[j];
      }
    }
  }

  function Keys<T, K>(key: T -> K, s: seq<T>): (r: seq<K>)
    ensures |r| == |s| && forall k :: 0 <= k < |s| ==> r[k] == key(s[k])
  {
    seq(|s|, k requires 0 <= k < |s| => key(s[k]))
  }

  lemma {:induction false} FilterUnique<T(!new), K>(p: T -> bool, key: T -> K, s: seq<T>)
    requires UniqueBy(key, s)
    ensures UniqueBy(key, Filter(p, s))
    decreases |s|
  {
    if s != [] {
      var rest, last := s[..|s| - 1], s[|s| - 1];
      assert UniqueBy(key, rest);
      FilterUnique(p, key, rest);
      var fr := Filter(p, rest);
      if p(last) {
        forall k | 0 <= k < |fr| ensures key(fr[k]) != key(last) {
          assert fr[k] in rest;
          var m :| 0 <= m < |rest| && rest[m] == fr[k];
          assert s[m] == rest[m];
        }
        var r := fr + [last];
        forall i, j | 0 <= i < j < |r| ensures key(r[i]) != key(r[j]) {
          if j == |fr| {
            assert r[i] == fr[i] && r[j] == last;
          } else {
            assert r[i] == fr[i] && r[j] == fr[j];
          }
        }
      }
    }
  }

  /** The keys of the elements of s. */
  ghost function KeySet<T, K>(key: T -> K, s: seq<T>): set<K>
  {
    set x | x in s :: key(x)
  }

  /** The elements of s. */
  ghost function Elements<T>(s: seq<T>): set<T>
  {
    set x | x in s
  }

  /** Elements with distinct keys have as many keys as elements. */
  lemma {:induction false} UniqueKeysCount<T, K(!new)>(key: T -> K, s: seq<T>)
    requires UniqueBy(key, s)
    ensures |KeySet(key, s)| == |s|
    decreases |s|
  {
    if s != [] {
      var rest, last := s[..|s| - 1], s[|s| - 1];
      assert UniqueBy(key, rest);
      UniqueKeysCount(key, rest);
      assert s == rest + [last];
      var a := KeySet(key, rest);
      assert KeySet(key, s) == a + {key(last)};
    }
  }

  /** A sequence has at most as many distinct elements as positions, and
      exactly as many when no element repeats. */
  lemma {:induction false} DistinctCount<T(!new)>(s: seq<T>)
    ensures |Elements(s)| <= |s|
    ensures |Elements(s)| == |s| <==> NoDuplicates(s)
    decreases |s|
  {
    if s != [] {
      var rest, last := s[..|s| - 1], s[|s| - 1];
      DistinctCount(rest);
      assert s == rest + [last];
      var a := Elements(rest);
      assert Elements(s) == a + {last};
      if last in a {
        var m :| 0 <= m < |rest| && rest[m] == last;
        assert s[m] == s[|s| - 1];
      } else {
        if NoDuplicates(rest) {
          forall i, j | 0 <= i < j < |s| ensures s[i] != s[j] {
            if j == |s| - 1 {
              assert s[i] == rest[i];
            } else {
              assert s[i] == rest[i] && s[j] == rest[j];
            }
          }
        }
        if NoDuplicates(s) {
          assert NoDuplicates(rest) by {
            forall i, j | 0 <= i < j < |rest| ensures rest[i] != rest[j] {
              assert s[i] == rest[i] && s[j] == rest[j];
            }
          }
        }
      }
    }
  }

  /** A subset is no larger, and a subset as large is the whole set. */
  lemma SubsetCount<T>(a: set<T>, b: set<T>)
    requires a <= b
    ensures |a| <= |b|
    ensures |a| == |b| ==> a == b
  {
    var d := b - a;
    assert b == a + d && a * d == {};
    if |a| == |b| {
      assert |d| == 0;
    }
  }
}
