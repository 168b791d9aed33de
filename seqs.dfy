/** `Array.prototype.filter` on sequences, and the facts the pages rely on. */
module Seqs {
  /** The elements of s that satisfy p, in their order. */
  function Filter<T>(s: seq<T>, p: T -> bool): (r: seq<T>)
    ensures |r| <= |s|
    ensures forall i :: 0 <= i < |r| ==> p(r[i])
    decreases |s|
  {
    if s == [] then []
    else Filter(s[..|s| - 1], p) + (if p(s[|s| - 1]) then [s[|s| - 1]] else [])
  }

  /** The filter keeps exactly the elements of s that satisfy p. */
  lemma {:induction false} FilterMembers<T>(s: seq<T>, p: T -> bool)
    ensures forall i :: 0 <= i < |Filter(s, p)| ==> Filter(s, p)[i] in s
    ensures forall i :: 0 <= i < |s| && p(s[i]) ==> s[i] in Filter(s, p)
    decreases |s|
  {
    if s != [] {
      var prefix := s[..|s| - 1];
      FilterMembers(prefix, p);
      forall i | 0 <= i < |prefix| ensures prefix[i] == s[i] { }
    }
  }

  /** Filtering distributes over concatenation: the order of the kept elements is that of s. */
  lemma {:induction false} FilterConcat<T>(a: seq<T>, b: seq<T>, p: T -> bool)
    ensures Filter(a + b, p) == Filter(a, p) + Filter(b, p)
    decreases |b|
  {
    if b == [] {
      assert a + b == a;
    } else {
      var b' := b[..|b| - 1];
      assert (a + b)[..|a + b| - 1] == a + b';
      FilterConcat(a, b', p);
    }
  }

  /** Two complementary filters split s: every element goes to exactly one side, as often as in s. */
  lemma {:induction false} FilterPartition<T>(s: seq<T>, p: T -> bool, q: T -> bool)
    requires forall i :: 0 <= i < |s| ==> p(s[i]) != q(s[i])
    ensures multiset(Filter(s, p)) + multiset(Filter(s, q)) == multiset(s)
    decreases |s|
  {
    if s != [] {
      var prefix, x := s[..|s| - 1], s[|s| - 1];
      assert s == prefix + [x];
      forall i | 0 <= i < |prefix| ensures p(prefix[i]) != q(prefix[i]) { assert prefix[i] == s[i]; }
      FilterPartition(prefix, p, q);
      PartitionStep(prefix, x, p, q);
    }
  }

  lemma PartitionStep<T>(prefix: seq<T>, x: T, p: T -> bool, q: T -> bool)
    requires p(x) != q(x)
    requires multiset(Filter(prefix, p)) + multiset(Filter(prefix, q)) == multiset(prefix)
    ensures multiset(Filter(prefix + [x], p)) + multiset(Filter(prefix + [x], q)) == multiset(prefix + [x])
  {
    var s := prefix + [x];
    assert s[..|s| - 1] == prefix;
    var fp, fq := Filter(prefix, p), Filter(prefix, q);
    assert multiset(s) == multiset(prefix) + multiset{x};
    if p(x) {
      assert Filter(s, p) == fp + [x];
      assert Filter(s, q) == fq;
      assert multiset(fp + [x]) == multiset(fp) + multiset{x};
    } else {
      assert Filter(s, p) == fp;
      assert Filter(s, q) == fq + [x];
      assert multiset(fq + [x]) == multiset(fq) + multiset{x};
    }
  }

  /** Filtering a sequence every element of which passes changes nothing. */
  lemma {:induction false} FilterAll<T>(s: seq<T>, p: T -> bool)
    requires forall i :: 0 <= i < |s| ==> p(s[i])
    ensures Filter(s, p) == s
    decreases |s|
  {
    if s != [] {
      FilterAll(s[..|s| - 1], p);
      assert s == s[..|s| - 1] + [s[|s| - 1]];
    }
  }

  /** A stronger condition keeps no more elements than a weaker one. */
  lemma {:induction false} FilterStronger<T>(s: seq<T>, p: T -> bool, q: T -> bool)
    requires forall x :: p(x) ==> q(x)
    ensures |Filter(s, p)| <= |Filter(s, q)|
    decreases |s|
  {
    if s != [] {
      FilterStronger(s[..|s| - 1], p, q);
    }
  }
}
