/** Folds and filters over sequences, written on prefixes so that they match
    loops that run from left to right. */
module Sequences {
  import opened Products

  lemma {:induction false} Reassociate<T>(a: seq<T>, b: seq<T>, c: seq<T>)
    ensures a + b + c == a + (b + c)
  {}

  /** The elements of `s` satisfying `p`, in order. */
  function Filter<T(!new)>(p: T -> bool, s: seq<T>): (r: seq<T>)
    ensures forall x :: x in r <==> x in s && p(x)
  {
    if s == [] then [] else
    var rest := Filter(p, s[..|s| - 1]);
    var last := s[|s| - 1];
    assert s == s[..|s| - 1] + [last];
    if p(last) then rest + [last] else rest
  }

  lemma {:induction false} FilterConcat<T(!new)>(p: T -> bool, a: seq<T>, b: seq<T>)
    ensures Filter(p, a + b) == Filter(p, a) + Filter(p, b)
  {
    if b == [] {
      assert a + b == a;
    } else {
      var c, x := b[..|b| - 1], b[|b| - 1];
      FilterConcat(p, a, c);
      assert (a + b)[..|a + b| - 1] == a + c && (a + b)[|a + b| - 1] == x;
    }
  }

  /** An element that passes stands between what passes before it and what passes after it. */
  lemma {:induction false} FilterAround<T(!new)>(p: T -> bool, a: seq<T>, x: T, c: seq<T>)
    requires p(x)
    ensures Filter(p, a + [x] + c) == Filter(p, a) + [x] + Filter(p, c)
    ensures Filter(p, a + c) == Filter(p, a) + Filter(p, c)
  {
    FilterConcat(p, a + [x], c);
    FilterConcat(p, a, c);
    assert (a + [x])[..|a|] == a;
  }

  lemma {:induction false} FilterSplitLength<T(!new)>(p: T -> bool, q: T -> bool, s: seq<T>)
    requires forall x :: x in s ==> p(x) != q(x)
    ensures |Filter(p, s)| + |Filter(q, s)| == |s|
  {
    if s != [] {
      assert s == s[..|s| - 1] + [s[|s| - 1]];
      FilterSplitLength(p, q, s[..|s| - 1]);
    }
  }

  lemma {:induction false} FilterCongruence<T(!new)>(p: T -> bool, q: T -> bool, s: seq<T>)
    requires forall x :: x in s ==> p(x) == q(x)
    ensures Filter(p, s) == Filter(q, s)
  {
    if s != [] {
      assert s == s[..|s| - 1] + [s[|s| - 1]];
      FilterCongruence(p, q, s[..|s| - 1]);
    }
  }

  lemma {:induction false} FilterNone<T(!new)>(p: T -> bool, s: seq<T>)
    requires forall x :: x in s ==> !p(x)
    ensures Filter(p, s) == []
  {
    if s != [] {
      assert s == s[..|s| - 1] + [s[|s| - 1]];
      FilterNone(p, s[..|s| - 1]);
    }
  }

  lemma {:induction false} FilterAll<T(!new)>(p: T -> bool, s: seq<T>)
    requires forall x :: x in s ==> p(x)
    ensures Filter(p, s) == s
  {
    if s != [] {
      assert s == s[..|s| - 1] + [s[|s| - 1]];
      FilterAll(p, s[..|s| - 1]);
    }
  }

  /** The sum of the weights of the elements of `s`. */
  function SumBy<T>(w: T -> real, s: seq<T>): real {
    if s == [] then 0.0 else SumBy(w, s[..|s| - 1]) + w(s[|s| - 1])
  }

  lemma {:induction false} SumByConcat<T>(w: T -> real, a: seq<T>, b: seq<T>)
    ensures SumBy(w, a + b) == SumBy(w, a) + SumBy(w, b)
  {
    if b == [] {
      assert a + b == a;
    } else {
      SumByConcat(w, a, b[..|b| - 1]);
      assert (a + b)[..|a + b| - 1] == a + b[..|b| - 1];
    }
  }

  lemma {:induction false} SumByInsert<T>(w: T -> real, a: seq<T>, x: T, c: seq<T>)
    ensures SumBy(w, a + [x] + c) == SumBy(w, a + c) + w(x)
  {
    SumByConcat(w, a + [x], c);
    SumByConcat(w, a, c);
    assert (a + [x])[..|a|] == a;
  }

  /** Where a permutation keeps the last element, and what is left of it. */
  lemma {:induction false} FindLast<T>(a: seq<T>, b: seq<T>) returns (k: nat)
    requires multiset(a) == multiset(b) && a != []
    ensures k < |b| && b[k] == a[|a| - 1]
    ensures multiset(b[..k] + b[k + 1..]) == multiset(a[..|a| - 1])
    ensures b == b[..k] + [b[k]] + b[k + 1..]
  {
    k := PositionOf(a[|a| - 1], b, a);
    WithoutOne(b, k);
    WithoutLast(a);
  }

  lemma {:induction false} WithoutLast<T>(a: seq<T>)
    requires a != []
    ensures multiset(a[..|a| - 1]) == multiset(a) - multiset{a[|a| - 1]}
  {
    assert a == a[..|a| - 1] + [a[|a| - 1]];
    assert multiset(a) == multiset(a[..|a| - 1]) + multiset{a[|a| - 1]};
  }

  lemma {:induction false} PositionOf<T>(x: T, b: seq<T>, a: seq<T>) returns (k: nat)
    requires x in a && multiset(a) <= multiset(b)
    ensures k < |b| && b[k] == x
  {
    assert x in multiset(a);
    assert x in b;
    k :| 0 <= k < |b| && b[k] == x;
  }

  lemma {:induction false} WithoutOne<T>(b: seq<T>, k: nat)
    requires k < |b|
    ensures b == b[..k] + [b[k]] + b[k + 1..]
    ensures multiset(b[..k] + b[k + 1..]) == multiset(b) - multiset{b[k]}
  {
    assert b == b[..k] + [b[k]] + b[k + 1..];
    assert multiset(b) == multiset(b[..k]) + multiset{b[k]} + multiset(b[k + 1..]);
  }

  /** A sum does not depend on the order of its terms. */
  lemma {:induction false} SumByPermutation<T>(w: T -> real, a: seq<T>, b: seq<T>)
    requires multiset(a) == multiset(b)
    ensures SumBy(w, a) == SumBy(w, b)
    decreases |a|
  {
    if a == [] {
      assert |multiset(b)| == 0;
    } else {
      var k := FindLast(a, b);
      SumByPermutation(w, a[..|a| - 1], b[..k] + b[k + 1..]);
      SumByConcat(w, b[..k], b[k + 1..]);
      SumByConcat(w, b[..k], [b[k]]);
      SumByConcat(w, b[..k] + [b[k]], b[k + 1..]);
    }
  }

  /** What is left of `whole` when the elements of `part` are taken out. */
  lemma {:induction false} Complement<T>(part: seq<T>, whole: seq<T>) returns (rest: seq<T>)
    requires multiset(part) <= multiset(whole)
    ensures multiset(part + rest) == multiset(whole)
  {
    if part == [] {
      rest := whole;
      assert part + rest == whole;
    } else {
      var d, x := part[..|part| - 1], part[|part| - 1];
      assert part == d + [x];
      var others := TakeOut(d, x, whole);
      rest := Complement(d, others);
      SwapIn(d, x, rest, others, whole);
    }
  }

  lemma {:induction false} TakeOut<T>(d: seq<T>, x: T, whole: seq<T>) returns (others: seq<T>)
    requires multiset(d + [x]) <= multiset(whole)
    ensures multiset(others) == multiset(whole) - multiset{x}
    ensures x in whole && multiset(d) <= multiset(others)
  {
    var k := PositionOf(x, whole, d + [x]);
    WithoutOne(whole, k);
    others := whole[..k] + whole[k + 1..];
  }

  lemma {:induction false} SwapIn<T>(d: seq<T>, x: T, rest: seq<T>, others: seq<T>, whole: seq<T>)
    requires multiset(d + rest) == multiset(others) == multiset(whole) - multiset{x} && x in whole
    ensures multiset(d + [x] + rest) == multiset(whole)
  {
    assert multiset(d + [x] + rest) == multiset(d + rest) + multiset{x};
  }

  /** A part of non-negative terms adds up to no more than the whole. */
  lemma {:induction false} SumByPart<T>(w: T -> real, part: seq<T>, whole: seq<T>)
    requires multiset(part) <= multiset(whole) && forall x :: x in whole ==> w(x) >= 0.0
    ensures SumBy(w, part) <= SumBy(w, whole)
  {
    var rest := Complement(part, whole);
    SumByPermutation(w, part + rest, whole);
    SumByConcat(w, part, rest);
    forall x | x in rest ensures w(x) >= 0.0 {
      assert x in multiset(part + rest);
    }
    SumNonNegative(w, rest);
  }

  lemma {:induction false} SumNonNegative<T>(w: T -> real, s: seq<T>)
    requires forall x :: x in s ==> w(x) >= 0.0
    ensures SumBy(w, s) >= 0.0
  {
    if s != [] {
      assert s == s[..|s| - 1] + [s[|s| - 1]];
      SumNonNegative(w, s[..|s| - 1]);
    }
  }

  lemma {:induction false} SumByCongruence<T>(w: T -> real, v: T -> real, s: seq<T>)
    requires forall x :: x in s ==> w(x) == v(x)
    ensures SumBy(w, s) == SumBy(v, s)
  {
    if s != [] {
      assert s == s[..|s| - 1] + [s[|s| - 1]];
      SumByCongruence(w, v, s[..|s| - 1]);
    }
  }

  /** If every weight is the sum of two others, so is the total. */
  lemma {:induction false} SumByPlus<T>(w: T -> real, u: T -> real, v: T -> real, s: seq<T>)
    requires forall x :: x in s ==> w(x) == u(x) + v(x)
    ensures SumBy(w, s) == SumBy(u, s) + SumBy(v, s)
  {
    if s != [] {
      assert s == s[..|s| - 1] + [s[|s| - 1]];
      SumByPlus(w, u, v, s[..|s| - 1]);
    }
  }

  lemma {:induction false} SumByScale<T>(c: real, w: T -> real, v: T -> real, s: seq<T>)
    requires forall x :: x in s ==> v(x) == Times(c, w(x))
    ensures SumBy(v, s) == Times(c, SumBy(w, s))
  {
    if s != [] {
      var rest, last := s[..|s| - 1], s[|s| - 1];
      assert s == rest + [last];
      SumByScale(c, w, v, rest);
      TimesDistributes(c, SumBy(w, rest), w(last));
    }
  }

  lemma {:induction false} SumByMonotone<T>(w: T -> real, v: T -> real, s: seq<T>)
    requires forall x :: x in s ==> w(x) <= v(x)
    ensures SumBy(w, s) <= SumBy(v, s)
    ensures (exists x :: x in s && w(x) < v(x)) ==> SumBy(w, s) < SumBy(v, s)
  {
    if s != [] {
      assert s == s[..|s| - 1] + [s[|s| - 1]];
      SumByMonotone(w, v, s[..|s| - 1]);
    }
  }

  lemma {:induction false} SumByZero<T>(w: T -> real, s: seq<T>)
    requires forall x :: x in s ==> w(x) == 0.0
    ensures SumBy(w, s) == 0.0
  {
    if s != [] {
      assert s == s[..|s| - 1] + [s[|s| - 1]];
      SumByZero(w, s[..|s| - 1]);
    }
  }
}
