/** Small datatypes and sequence helpers shared by the models. */
module Basics {

  datatype Option<+T> = None | Some(value: T)

  /** Client addresses, by family and numeric value. */
  datatype IpAddr = V4(bits: nat) | V6(bits: nat)

  const U32: nat := 0x1_0000_0000
  const U64: nat := 0x1_0000_0000_0000_0000

  function Get<K, V>(m: map<K, V>, k: K): Option<V> {
    if k in m then Some(m[k]) else None
  }

  function Min(a: nat, b: nat): nat {
    if a < b then a else b
  }

  /** A subset is no larger than the set that holds it. */
  lemma SubsetSize<T>(a: set<T>, b: set<T>)
    requires a <= b
    ensures |a| <= |b|
  {
    assert b == a + (b - a);
  }

  /** Two subsets that are together larger than the whole share an element. */
  lemma QuorumsMeet<T>(whole: set<T>, p: set<T>, q: set<T>) returns (x: T)
    requires p <= whole && q <= whole
    requires |p| + |q| > |whole|
    ensures x in p && x in q
  {
    SubsetSize(p + q, whole);
    assert |p * q| > 0;
    x :| x in p * q;
  }

  /** A set of at least `k` elements has a subset of exactly `k`. */
  lemma {:induction false} SubsetOfSize<T>(s: set<T>, k: nat) returns (r: set<T>)
    requires k <= |s|
    ensures r <= s && |r| == k
    decreases |s| - k
  {
    if k == |s| {
      r := s;
    } else {
      var x :| x in s;
      assert |s - {x}| == |s| - 1;
      r := SubsetOfSize(s - {x}, k);
    }
  }

  ghost predicate NoDup<T>(s: seq<T>) {
    forall i, j :: 0 <= i < j < |s| ==> s[i] != s[j]
  }

  lemma {:induction false} NoDupCount<T>(s: seq<T>, x: T)
    requires NoDup(s)
    ensures multiset(s)[x] <= 1
    decreases |s|
  {
    if s != [] {
      assert s == [s[0]] + s[1..];
      NoDupCount(s[1..], x);
      if x == s[0] { assert x !in s[1..]; }
    }
  }

  lemma TwiceInSeq<T>(s: seq<T>, i: nat, j: nat)
    requires i < j < |s| && s[i] == s[j]
    ensures multiset(s)[s[i]] >= 2
  {
    assert s == s[..i] + [s[i]] + s[i + 1..j] + [s[j]] + s[j + 1..];
  }

  /** Reordering introduces no duplicates. */
  lemma NoDupPermuted<T>(s: seq<T>, t: seq<T>)
    requires NoDup(s) && multiset(s) == multiset(t)
    ensures NoDup(t)
  {
    forall i, j | 0 <= i < j < |t| ensures t[i] != t[j] {
      NoDupCount(s, t[i]);
      if t[i] == t[j] { TwiceInSeq(t, i, j); }
    }
  }

  lemma InsertCounts<T>(s: seq<T>, k: nat, x: T)
    requires k <= |s|
    ensures multiset(s[..k] + [x] + s[k..]) == multiset(s) + multiset{x}
  {
    var a, b := s[..k], s[k..];
    assert s == a + b;
    assert multiset(a + [x] + b) == multiset(a) + multiset{x} + multiset(b);
  }
}
