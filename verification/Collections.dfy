/** Stable filters over sequences, and order-independent totals over maps. */
module Collections {

  // ---- filters ----

  function Filter<T>(s: seq<T>, p: T -> bool): (r: seq<T>)
    ensures |r| <= |s|
  {
    if s == [] then []
    else if p(s[0]) then [s[0]] + Filter(s[1..], p)
    else Filter(s[1..], p)
  }

  lemma {:induction false} FilterMembers<T>(s: seq<T>, p: T -> bool)
    ensures forall x <- Filter(s, p) :: x in s && p(x)
    ensures forall x <- s :: p(x) ==> x in Filter(s, p)
  {
    if s != [] {
      FilterMembers(s[1..], p);
    }
  }

  lemma {:induction false} FilterConcat<T>(a: seq<T>, b: seq<T>, p: T -> bool)
    ensures Filter(a + b, p) == Filter(a, p) + Filter(b, p)
  {
    if a == [] {
      assert a + b == b;
    } else {
      assert (a + b)[1..] == a[1..] + b;
      FilterConcat(a[1..], b, p);
    }
  }

  lemma FilterSnoc<T>(a: seq<T>, x: T, p: T -> bool)
    ensures Filter(a + [x], p) == if p(x) then Filter(a, p) + [x] else Filter(a, p)
  {
    FilterConcat(a, [x], p);
    assert Filter([x], p) == if p(x) then [x] else [];
  }

  lemma {:induction false} FilterAll<T>(s: seq<T>, p: T -> bool)
    requires forall x <- s :: p(x)
    ensures Filter(s, p) == s
  {
    if s != [] {
      FilterAll(s[1..], p);
    }
  }

  lemma {:induction false} FilterNone<T>(s: seq<T>, p: T -> bool)
    requires forall x <- s :: !p(x)
    ensures Filter(s, p) == []
  {
    if s != [] {
      FilterNone(s[1..], p);
    }
  }

  /** A filter may be preceded by a weaker one. */
  lemma {:induction false} FilterWeaker<T>(s: seq<T>, p: T -> bool, q: T -> bool)
    requires forall x <- s :: q(x) ==> p(x)
    ensures Filter(Filter(s, p), q) == Filter(s, q)
  {
    if s != [] {
      FilterWeaker(s[1..], p, q);
      if p(s[0]) {
        assert Filter(s, p)[1..] == Filter(s[1..], p);
      }
    }
  }

  lemma {:induction false} FilterSame<T>(s: seq<T>, p: T -> bool, q: T -> bool)
    requires forall x <- s :: p(x) == q(x)
    ensures Filter(s, p) == Filter(s, q)
  {
    if s != [] {
      FilterSame(s[1..], p, q);
    }
  }

  /** What a filter keeps and what its complement keeps make up the whole. */
  lemma {:induction false} FilterSplits<T>(s: seq<T>, p: T -> bool, q: T -> bool)
    requires forall x <- s :: q(x) == !p(x)
    ensures multiset(s) == multiset(Filter(s, p)) + multiset(Filter(s, q))
  {
    if s != [] {
      FilterSplits(s[1..], p, q);
      assert s == [s[0]] + s[1..];
    }
  }

  // ---- subsequences ----

  /** `a` is obtained from `b` by dropping elements, order kept. */
  ghost predicate Subseq<T(!new)>(a: seq<T>, b: seq<T>)
    decreases |b|
  {
    if a == [] then true
    else if b == [] then false
    else (a[0] == b[0] && Subseq(a[1..], b[1..])) || Subseq(a, b[1..])
  }

  lemma {:induction false} SubseqRefl<T(!new)>(a: seq<T>)
    ensures Subseq(a, a)
  {
    if a != [] {
      SubseqRefl(a[1..]);
    }
  }

  lemma {:induction false} SubseqTrans<T(!new)>(a: seq<T>, b: seq<T>, c: seq<T>)
    requires Subseq(a, b) && Subseq(b, c)
    ensures Subseq(a, c)
    decreases |c|
  {
    if a == [] {
    } else if Subseq(b, c[1..]) {
      SubseqTrans(a, b, c[1..]);
    } else if a[0] == b[0] && Subseq(a[1..], b[1..]) {
      SubseqTrans(a[1..], b[1..], c[1..]);
    } else {
      SubseqTrans(a, b[1..], c[1..]);
    }
  }

  lemma {:induction false} SubseqConcat<T(!new)>(a: seq<T>, b: seq<T>, c: seq<T>, d: seq<T>)
    requires Subseq(a, b) && Subseq(c, d)
    ensures Subseq(a + c, b + d)
    decreases |b|
  {
    if b == [] {
      assert a + c == c && b + d == d;
    } else {
      assert (b + d)[1..] == b[1..] + d;
      if a == [] {
        SubseqConcat(a, b[1..], c, d);
      } else if a[0] == b[0] && Subseq(a[1..], b[1..]) {
        SubseqConcat(a[1..], b[1..], c, d);
        assert (a + c)[1..] == a[1..] + c;
      } else {
        SubseqConcat(a, b[1..], c, d);
      }
    }
  }

  lemma {:induction false} FilterSubseq<T(!new)>(s: seq<T>, p: T -> bool)
    ensures Subseq(Filter(s, p), s)
  {
    if s != [] {
      FilterSubseq(s[1..], p);
      if p(s[0]) {
        assert Filter(s, p)[1..] == Filter(s[1..], p);
      } else if Filter(s, p) != [] {
        assert Subseq(Filter(s, p), s[1..]);
      }
    }
  }

  // ---- totals over maps ----

  lemma MapOverwrite<K, V>(m: map<K, V>, k: K, x: V, y: V)
    ensures m[k := x][k := y] == m[k := y]
  {
  }

  lemma MapRemove<K, V>(m: map<K, V>, k: K)
    requires k in m
    ensures (m - {k}).Keys == m.Keys - {k} && |m - {k}| == |m| - 1
  {
    assert (m - {k}).Keys == m.Keys - {k};
  }

  /** The sum of `w` over the values of `m`; `TotalRemove` shows that the order does not matter. */
  ghost function Total<K, V>(m: map<K, V>, w: V -> int): int
    decreases |m|
  {
    if m == map[] then 0
    else
      var k :| k in m;
      assert (m - {k}).Keys == m.Keys - {k};
      w(m[k]) + Total(m - {k}, w)
  }

  lemma {:induction false} TotalRemove<K, V>(m: map<K, V>, k: K, w: V -> int)
    requires k in m
    ensures Total(m, w) == w(m[k]) + Total(m - {k}, w)
    decreases |m|
  {
    var j :| j in m && Total(m, w) == w(m[j]) + Total(m - {j}, w);
    assert (m - {j}).Keys == m.Keys - {j};
    if j != k {
      TotalRemove(m - {j}, k, w);
      assert (m - {k}).Keys == m.Keys - {k};
      TotalRemove(m - {k}, j, w);
      assert m - {j} - {k} == m - {k} - {j};
    }
  }

  lemma TotalUpdate<K, V>(m: map<K, V>, k: K, v: V, w: V -> int)
    ensures Total(m[k := v], w) == Total(m, w) - (if k in m then w(m[k]) else 0) + w(v)
  {
    TotalRemove(m[k := v], k, w);
    if k in m {
      TotalRemove(m, k, w);
      assert m[k := v] - {k} == m - {k};
    } else {
      assert m[k := v] - {k} == m;
    }
  }

  /** Fewer entries of smaller weight have a smaller total. */
  lemma {:induction false} TotalLe<K, V>(m: map<K, V>, n: map<K, V>, w: V -> int, u: V -> int)
    requires m.Keys <= n.Keys
    requires forall k <- n :: 0 <= u(n[k]) && (k in m ==> w(m[k]) <= u(n[k]))
    ensures Total(m, w) <= Total(n, u)
    decreases |n|
  {
    if n != map[] {
      var k :| k in n;
      TotalRemove(n, k, u);
      assert (n - {k}).Keys == n.Keys - {k};
      assert (m - {k}).Keys == m.Keys - {k};
      TotalLe(m - {k}, n - {k}, w, u);
      if k in m {
        TotalRemove(m, k, w);
      } else {
        assert m - {k} == m;
      }
    } else {
      assert m == map[];
    }
  }

  /** Entries of equal weight have the same total. */
  lemma {:induction false} TotalSame<K, V>(m: map<K, V>, n: map<K, V>, w: V -> int)
    requires m.Keys == n.Keys
    requires forall k <- n :: w(n[k]) == w(m[k])
    ensures Total(m, w) == Total(n, w)
    decreases |m|
  {
    if m == map[] {
      assert n == map[];
    } else {
      var k :| k in m;
      MapRemove(m, k);
      MapRemove(n, k);
      TotalRemove(m, k, w);
      TotalRemove(n, k, w);
      TotalSame(m - {k}, n - {k}, w);
    }
  }

  lemma {:induction false} TotalSameWeight<K, V>(m: map<K, V>, w: V -> int, u: V -> int)
    requires forall k <- m :: w(m[k]) == u(m[k])
    ensures Total(m, w) == Total(m, u)
    decreases |m|
  {
    if m != map[] {
      var k :| k in m;
      MapRemove(m, k);
      TotalRemove(m, k, w);
      TotalRemove(m, k, u);
      TotalSameWeight(m - {k}, w, u);
    }
  }

  /** A total of ones is a count. */
  lemma {:induction false} TotalCounts<K, V>(m: map<K, V>, w: V -> int, chosen: set<K>)
    requires chosen <= m.Keys && forall k <- m :: w(m[k]) == if k in chosen then 1 else 0
    ensures Total(m, w) == |chosen|
    decreases |m|
  {
    if m == map[] {
      assert chosen == {};
    } else {
      var k :| k in m;
      MapRemove(m, k);
      TotalRemove(m, k, w);
      TotalCounts(m - {k}, w, chosen - {k});
    }
  }
}
