/** Small shared vocabulary: optional values and ordering of query results (SQL ORDER BY). */
module Common {

  /** A nullable column or an absent row. */
  datatype Option<T> = None | Some(value: T)

  /** `s` is ordered ascending (non-strictly) by `key`. */
  predicate SortedBy<T>(s: seq<T>, key: T -> int)
  {
    forall i, j :: 0 <= i < j < |s| ==> key(s[i]) <= key(s[j])
  }

  /** Prepending an element no larger than the head keeps a sequence ordered. */
  lemma {:induction false} SortedCons<T>(a: T, s: seq<T>, key: T -> int)
    requires SortedBy(s, key)
    requires s != [] ==> key(a) <= key(s[0])
    ensures SortedBy([a] + s, key)
  {
    var r := [a] + s;
    forall i, j | 0 <= i < j < |r| ensures key(r[i]) <= key(r[j]) {
      if i == 0 && j > 1 {
        assert key(s[0]) <= key(s[j - 1]);
      }
    }
  }

  /** Inserts `x` into the ordered sequence `s`, after every element whose key is not larger. */
  function InsertBy<T>(x: T, s: seq<T>, key: T -> int): (r: seq<T>)
    requires SortedBy(s, key)
    ensures |r| == |s| + 1
    ensures r[0] == x || (s != [] && r[0] == s[0])
    ensures multiset(r) == multiset(s) + multiset{x}
    ensures SortedBy(r, key)
  {
    if s == [] then [x]
    else if key(x) < key(s[0]) then
      SortedCons(x, s, key);
      [x] + s
    else
      assert s == [s[0]] + s[1..];
      var rest := InsertBy(x, s[1..], key);
      SortedCons(s[0], rest, key);
      [s[0]] + rest
  }

  /** The rows of `s` in ascending order of `key`: the result of `ORDER BY key`. */
  function SortBy<T>(s: seq<T>, key: T -> int): (r: seq<T>)
    ensures |r| == |s|
    ensures multiset(r) == multiset(s)
    ensures SortedBy(r, key)
  {
    if s == [] then []
    else
      assert s == [s[0]] + s[1..];
      InsertBy(s[0], SortBy(s[1..], key), key)
  }

  /** The elements of `s` that satisfy `p`, in their original order. */
  function Filter<T(!new)>(s: seq<T>, p: T -> bool): (r: seq<T>)
    ensures |r| <= |s|
    ensures forall x :: x in r <==> x in s && p(x)
  {
    if s == [] then []
    else
      assert s == [s[0]] + s[1..];
      (if p(s[0]) then [s[0]] else []) + Filter(s[1..], p)
  }

  /** Filtering keeps every element that satisfies `p` as many times as `s` holds it, and drops the others. */
  lemma {:induction false} FilterCounts<T(!new)>(s: seq<T>, p: T -> bool)
    ensures forall x :: multiset(Filter(s, p))[x] == if p(x) then multiset(s)[x] else 0
  {
    if s != [] {
      FilterCounts(s[1..], p);
      assert s == [s[0]] + s[1..];
      assert multiset(s) == multiset{s[0]} + multiset(s[1..]);
      var head := if p(s[0]) then [s[0]] else [];
      assert Filter(s, p) == head + Filter(s[1..], p);
      assert multiset(Filter(s, p)) == multiset(head) + multiset(Filter(s[1..], p));
    }
  }

  /** The number of distinct elements of `s` is at most its length. */
  lemma {:induction false} DistinctElementsBound<T>(s: seq<T>)
    ensures |set x | x in s| <= |s|
  {
    if s != [] {
      DistinctElementsBound(s[1..]);
      assert (set x | x in s) == (set x | x in s[1..]) + {s[0]} by {
        assert s == [s[0]] + s[1..];
      }
    }
  }

  /** No two positions of `s` share a key (a primary key column). */
  predicate DistinctKeys<T>(s: seq<T>, key: T -> int)
  {
    forall i, j :: 0 <= i < j < |s| ==> key(s[i]) != key(s[j])
  }

  /** Filtering keeps keys distinct. */
  lemma {:induction false} FilterKeepsDistinct<T(!new)>(s: seq<T>, p: T -> bool, key: T -> int)
    requires DistinctKeys(s, key)
    ensures DistinctKeys(Filter(s, p), key)
  {
    if s != [] {
      var rest := s[1..];
      assert s == [s[0]] + rest;
      FilterKeepsDistinct(rest, p, key);
      var fr := Filter(rest, p);
      forall y | y in fr ensures key(y) != key(s[0]) {
        var k :| 0 <= k < |rest| && rest[k] == y;
        assert s[k + 1] == y;
      }
      if p(s[0]) {
        assert Filter(s, p) == [s[0]] + fr;
        ConsKeepsDistinct(s[0], fr, key);
      } else {
        assert Filter(s, p) == fr;
      }
    }
  }

  /** Prepending an element whose key no element has keeps keys distinct. */
  lemma {:induction false} ConsKeepsDistinct<T>(a: T, t: seq<T>, key: T -> int)
    requires DistinctKeys(t, key)
    requires forall y :: y in t ==> key(y) != key(a)
    ensures DistinctKeys([a] + t, key)
  {
    var s := [a] + t;
    forall i, j | 0 <= i < j < |s| ensures key(s[i]) != key(s[j]) {
      assert s[j] == t[j - 1] && s[j] in t;
      if i > 0 {
        assert s[i] == t[i - 1];
      }
    }
  }

  /** A value counted once in `s` sits at one position only. */
  lemma {:induction false} CountedOnceAtOnePosition<T>(s: seq<T>, i: nat, j: nat)
    requires i < j < |s| && multiset(s)[s[i]] <= 1
    ensures s[i] != s[j]
  {
    assert s == s[..j] + s[j..];
    assert s[i] in s[..j] && s[j] in s[j..];
  }

  /** In a sequence with distinct keys every value occurs at most once. */
  lemma {:induction false} DistinctCountedOnce<T>(s: seq<T>, key: T -> int, v: T)
    requires DistinctKeys(s, key)
    ensures multiset(s)[v] <= 1
  {
    if s != [] {
      var rest := s[1..];
      assert s == [s[0]] + rest;
      DistinctCountedOnce(rest, key, v);
      if s[0] == v {
        forall k | 0 <= k < |rest| ensures rest[k] != v {
          assert rest[k] == s[k + 1];
        }
        assert v !in rest;
      }
    }
  }

  /** A permutation of a sequence with distinct keys has distinct keys. */
  lemma {:induction false} PermutationKeepsDistinct<T>(s: seq<T>, r: seq<T>, key: T -> int)
    requires DistinctKeys(s, key) && multiset(r) == multiset(s)
    ensures DistinctKeys(r, key)
  {
    forall i, j | 0 <= i < j < |r| ensures key(r[i]) != key(r[j]) {
      DistinctCountedOnce(s, key, r[i]);
      CountedOnceAtOnePosition(r, i, j);
      assert r[i] in multiset(s) && r[j] in multiset(s);
      var a :| 0 <= a < |s| && s[a] == r[i];
      var b :| 0 <= b < |s| && s[b] == r[j];
    }
  }

  /**
   * In an ordered sequence with distinct keys the head has the least key, and the tail holds
   * exactly the other elements.
   */
  lemma {:induction false} AfterHead<T>(s: seq<T>, key: T -> int)
    requires SortedBy(s, key) && DistinctKeys(s, key) && s != []
    ensures forall x :: x in s[1..] <==> x in s && x != s[0]
    ensures forall x :: x in s && x != s[0] ==> key(s[0]) < key(x)
  {
    forall x | x in s && x != s[0] ensures x in s[1..] && key(s[0]) < key(x) {
      var j :| 0 <= j < |s| && s[j] == x;
      assert s[1..][j - 1] == x;
      assert key(s[0]) != key(s[j]);
    }
    forall x | x in s[1..] ensures x in s && x != s[0] {
      var i :| 0 <= i < |s| - 1 && s[1..][i] == x;
      assert s[i + 1] == x;
      assert key(s[0]) != key(s[i + 1]);
    }
  }

  /** Two sequences ordered by `key` with distinct keys and the same elements are equal. */
  lemma {:induction false} OrderedUnique<T>(u: seq<T>, v: seq<T>, key: T -> int)
    requires SortedBy(u, key) && DistinctKeys(u, key)
    requires SortedBy(v, key) && DistinctKeys(v, key)
    requires forall x :: x in u <==> x in v
    ensures u == v
    decreases |u|
  {
    assert |u| == 0 || u[0] in v;
    assert |v| == 0 || v[0] in u;
    if u != [] && v != [] {
      AfterHead(u, key);
      AfterHead(v, key);
      assert u[0] == v[0];
      SuffixKeepsOrder(u, 1, key);
      SuffixKeepsOrder(v, 1, key);
      OrderedUnique(u[1..], v[1..], key);
      assert u == [u[0]] + u[1..] && v == [v[0]] + v[1..];
    }
  }

  /** A suffix of an ordered sequence with distinct keys is one too. */
  lemma {:induction false} SuffixKeepsOrder<T>(s: seq<T>, k: nat, key: T -> int)
    requires SortedBy(s, key) && DistinctKeys(s, key) && k <= |s|
    ensures SortedBy(s[k..], key) && DistinctKeys(s[k..], key)
  {
    var t := s[k..];
    forall i, j | 0 <= i < j < |t| ensures key(t[i]) <= key(t[j]) && key(t[i]) != key(t[j]) {
      assert t[i] == s[k + i] && t[j] == s[k + j];
    }
  }

  /**
   * In an ordered sequence with distinct keys, the elements whose key exceeds the key at
   * position `k - 1` are exactly those from position `k` on.
   */
  lemma {:induction false} AboveKeyIsSuffix<T>(s: seq<T>, k: nat, key: T -> int)
    requires SortedBy(s, key) && DistinctKeys(s, key) && 0 < k <= |s|
    ensures forall x :: x in s && key(x) > key(s[k - 1]) <==> x in s[k..]
  {
    forall x ensures x in s && key(x) > key(s[k - 1]) <==> x in s[k..] {
      if x in s[k..] {
        var j :| k <= j < |s| && s[j] == x;
        assert s[j] == s[k..][j - k];
        assert key(s[k - 1]) != key(s[j]);
      }
      if x in s && key(x) > key(s[k - 1]) {
        var j :| 0 <= j < |s| && s[j] == x;
        assert j >= k;
        assert s[k..][j - k] == x;
      }
    }
  }

  /** The sequences of `xss` joined in order. */
  function Flatten<T>(xss: seq<seq<T>>): seq<T>
  {
    if xss == [] then [] else Flatten(xss[..|xss| - 1]) + xss[|xss| - 1]
  }

  /** The smaller of two integers (`Math.min`). */
  function Min(a: int, b: int): (m: int)
    ensures m <= a && m <= b && (m == a || m == b)
  {
    if a <= b then a else b
  }
}
