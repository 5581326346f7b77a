/** Small facts about collections that several modules use. */
module Basics {
  datatype Option<+T> = None | Some(value: T)

  lemma Assoc<T>(a: seq<T>, b: seq<T>, c: seq<T>)
    ensures a + b + c == a + (b + c)
  {
  }

  lemma PrefixOfPrefix<T>(a: seq<T>, b: seq<T>, c: seq<T>)
    requires a <= b && b <= c
    ensures a <= c
  {
  }

  lemma Pick<T>(s: set<T>) returns (x: T)
    requires s != {}
    ensures x in s
  {
    x :| x in s;
  }

  // ------------------------------------------------- the pigeonhole principle

  lemma {:induction false} InjectionFits<A, B>(s: set<A>, f: A --> B, all: set<B>)
    requires forall a | a in s :: f.requires(a) && f(a) in all
    requires forall a, b | a in s && b in s && a != b :: f(a) != f(b)
    ensures |s| <= |all|
  {
    if s != {} {
      var a := Pick(s);
      InjectionFits(s - {a}, f, all - {f(a)});
    }
  }

  function Indices(n: nat): (r: set<int>)
    ensures |r| == n && forall i :: i in r <==> 0 <= i < n
  {
    if n == 0 then {} else Indices(n - 1) + {n - 1}
  }

  predicate NoRepeats<T(==)>(s: seq<T>) {
    forall a, b | 0 <= a < b < |s| :: s[a] != s[b]
  }

  lemma DistinctFits<T>(s: seq<T>, all: set<T>)
    requires NoRepeats(s) && forall k | 0 <= k < |s| :: s[k] in all
    ensures |s| <= |all|
  {
    InjectionFits(Indices(|s|), i requires 0 <= i < |s| => s[i], all);
  }

  lemma {:induction false} MembersFit<T>(s: seq<T>)
    ensures |set x | x in s| <= |s|
  {
    if s != [] {
      MembersFit(s[1..]);
      assert (set x | x in s) == {s[0]} + (set x | x in s[1..]);
    }
  }

  // -------------------------------------------------------------- division

  lemma MulOrder(a: int, b: int, d: int)
    requires d >= 1 && a >= b + 1
    ensures a * d >= b * d + d
  {
    assert a * d - b * d - d == (a - b - 1) * d;
    assert (a - b - 1) * d >= 0;
  }

  lemma MulMonotone(a: int, b: int, d: int)
    requires d >= 0
    ensures a >= b ==> a * d >= b * d
  {
    if a >= b {
      assert (a - b) * d >= 0;
      assert a * d - b * d == (a - b) * d;
    }
  }

  lemma QuotientIs(n: int, d: int, q: int, r: int)
    requires d >= 1 && 0 <= r < d && n == q * d + r
    ensures n / d == q
  {
    var p := n / d;
    if p < q {
      MulOrder(q, p, d);
    } else if q < p {
      MulOrder(p, q, d);
    }
  }

  /** A number in block i of k blocks of `len` is among the first k * len. */
  lemma InBlock(i: int, k: int, len: int, n: int)
    requires 0 <= i < k && len >= 1 && i * len <= n < i * len + len
    ensures 0 <= n < k * len
  {
    MulMonotone(i, 0, len);
    MulOrder(k, i, len);
  }

  lemma BlockOf(n: int, k: int, len: int) returns (i: int)
    requires len >= 1 && 0 <= n < k * len
    ensures 0 <= i < k && i * len <= n < i * len + len
  {
    i := n / len;
    assert i * len <= n < i * len + len;
    MulMonotone(i, k, len);
  }
}
