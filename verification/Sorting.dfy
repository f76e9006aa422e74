/** The stable sort that Python's `sorted` and `list.sort` promise: ordered, and
    elements that tie keep the order they had. */
module Sorting {

  predicate SortedBy<T>(key: T -> int, s: seq<T>) {
    forall i, j :: 0 <= i < j < |s| ==> key(s[i]) <= key(s[j])
  }

  /** The elements of `s` that tie with `z`, in the order they have in `s`. */
  function Ties<T>(key: T -> int, z: T, s: seq<T>): seq<T> {
    if s == [] then []
    else if key(z) == key(s[0]) then [s[0]] + Ties(key, z, s[1..])
    else Ties(key, z, s[1..])
  }

  function Insert<T>(key: T -> int, x: T, s: seq<T>): seq<T> {
    if s == [] then [x]
    else if key(x) <= key(s[0]) then [x] + s
    else [s[0]] + Insert(key, x, s[1..])
  }

  function StableSort<T>(key: T -> int, s: seq<T>): seq<T> {
    if s == [] then [] else Insert(key, s[0], StableSort(key, s[1..]))
  }

  lemma {:induction false} InsertPermutes<T>(key: T -> int, x: T, s: seq<T>)
    ensures multiset(Insert(key, x, s)) == multiset{x} + multiset(s)
  {
    if s == [] || key(x) <= key(s[0]) {
    } else {
      InsertPermutes(key, x, s[1..]);
      assert s == [s[0]] + s[1..];
    }
  }

  lemma {:induction false} StableSortPermutes<T>(key: T -> int, s: seq<T>)
    ensures multiset(StableSort(key, s)) == multiset(s)
    ensures |StableSort(key, s)| == |s|
    ensures forall x :: x in StableSort(key, s) <==> x in s
  {
    if s != [] {
      StableSortPermutes(key, s[1..]);
      InsertPermutes(key, s[0], StableSort(key, s[1..]));
      assert s == [s[0]] + s[1..];
    }
    SameElements(StableSort(key, s), s);
  }

  lemma {:induction false} SameElements<T>(a: seq<T>, b: seq<T>)
    requires multiset(a) == multiset(b)
    ensures |a| == |b|
    ensures forall x :: x in a <==> x in b
  {
    assert |a| == |multiset(a)|;
    assert forall x :: x in a <==> x in multiset(a);
    assert forall x :: x in b <==> x in multiset(b);
  }

  /** Inserting splits an ordered sequence at the first element that does not come before `x`. */
  lemma {:induction false} InsertSplits<T(!new)>(key: T -> int, x: T, s: seq<T>) returns (k: nat)
    requires SortedBy(key, s)
    ensures k <= |s| && Insert(key, x, s) == s[..k] + [x] + s[k..]
    ensures forall i :: 0 <= i < k ==> key(s[i]) < key(x)
    ensures forall i :: k <= i < |s| ==> key(x) <= key(s[i])
  {
    if s == [] || key(x) <= key(s[0]) {
      k := 0;
    } else {
      var j := InsertSplits(key, x, s[1..]);
      k := j + 1;
      assert s[..k] == [s[0]] + s[1..][..j];
      assert s[k..] == s[1..][j..];
    }
  }

  lemma {:induction false} InsertSorted<T(!new)>(key: T -> int, x: T, s: seq<T>)
    requires SortedBy(key, s)
    ensures SortedBy(key, Insert(key, x, s))
  {
    var k := InsertSplits(key, x, s);
  }

  lemma {:induction false} InsertKeepsTies<T(!new)>(key: T -> int, x: T, s: seq<T>, z: T)
    ensures Ties(key, z, Insert(key, x, s)) == Ties(key, z, [x]) + Ties(key, z, s)
  {
    if s == [] {
    } else if key(x) <= key(s[0]) {
      assert ([x] + s)[1..] == s;
    } else {
      InsertKeepsTies(key, x, s[1..], z);
      assert ([s[0]] + Insert(key, x, s[1..]))[1..] == Insert(key, x, s[1..]);
    }
  }

  /** What `sorted(xs, key=...)` delivers, besides a permutation of its argument. */
  lemma {:induction false} StableSortSpec<T(!new)>(key: T -> int, s: seq<T>)
    ensures SortedBy(key, StableSort(key, s))
    ensures forall z :: Ties(key, z, StableSort(key, s)) == Ties(key, z, s)
  {
    if s != [] {
      var rest := StableSort(key, s[1..]);
      StableSortSpec(key, s[1..]);
      InsertSorted(key, s[0], rest);
      forall z
        ensures Ties(key, z, Insert(key, s[0], rest)) == Ties(key, z, s)
      {
        InsertKeepsTies(key, s[0], rest, z);
      }
    }
  }

  ghost predicate SameTies<T(!new)>(key: T -> int, a: seq<T>, b: seq<T>) {
    forall z :: Ties(key, z, a) == Ties(key, z, b)
  }

  lemma {:induction false} TiesMember<T(!new)>(key: T -> int, z: T, s: seq<T>)
    ensures forall y :: y in Ties(key, z, s) <==> y in s && key(z) == key(y)
  {
    if s != [] {
      TiesMember(key, z, s[1..]);
      assert s == [s[0]] + s[1..];
    }
  }

  lemma {:induction false} SameHead<T(!new)>(key: T -> int, a: seq<T>, b: seq<T>)
    requires SortedBy(key, a) && SortedBy(key, b)
    requires SameTies(key, a, b) && a != []
    ensures b != [] && a[0] == b[0]
  {
    TiesMember(key, a[0], a);
    TiesMember(key, a[0], b);
    assert a[0] in Ties(key, a[0], a);
    TiesMember(key, b[0], b);
    TiesMember(key, b[0], a);
    assert b[0] in Ties(key, b[0], b);
    assert key(b[0]) == key(a[0]);
    assert Ties(key, a[0], a)[0] == a[0] && Ties(key, a[0], b)[0] == b[0];
  }

  /** An ordered sequence is determined by the order within each group of ties. */
  lemma {:induction false} SortedUnique<T(!new)>(key: T -> int, a: seq<T>, b: seq<T>)
    requires SortedBy(key, a) && SortedBy(key, b)
    requires SameTies(key, a, b)
    ensures a == b
    decreases |a|
  {
    if a != [] {
      SameHead(key, a, b);
      forall z
        ensures Ties(key, z, a[1..]) == Ties(key, z, b[1..])
      {
        var h := if key(z) == key(a[0]) then 1 else 0;
        assert Ties(key, z, a[1..]) == Ties(key, z, a)[h..];
        assert Ties(key, z, b[1..]) == Ties(key, z, b)[h..];
      }
      SortedUnique(key, a[1..], b[1..]);
      assert a == [a[0]] + a[1..] && b == [b[0]] + b[1..];
    } else if b != [] {
      SameHead(key, b, a);
    }
  }

  /** Sorting forgets every reordering that keeps tied elements in relative order. */
  lemma {:induction false} StableSortDetermined<T(!new)>(key: T -> int, a: seq<T>, b: seq<T>)
    requires SameTies(key, a, b)
    ensures StableSort(key, a) == StableSort(key, b)
  {
    StableSortSpec(key, a);
    StableSortSpec(key, b);
    SortedUnique(key, StableSort(key, a), StableSort(key, b));
  }

  lemma {:induction false} StableSortOfSorted<T(!new)>(key: T -> int, a: seq<T>)
    requires SortedBy(key, a)
    ensures StableSort(key, a) == a
  {
    StableSortSpec(key, a);
    SortedUnique(key, StableSort(key, a), a);
  }

  lemma {:induction false} TiesConcat<T(!new)>(key: T -> int, z: T, a: seq<T>, b: seq<T>)
    ensures Ties(key, z, a + b) == Ties(key, z, a) + Ties(key, z, b)
  {
    if a == [] {
      assert a + b == b;
    } else {
      TiesConcat(key, z, a[1..], b);
      assert (a + b)[1..] == a[1..] + b;
    }
  }

  lemma {:induction false} TiesOfDistinct<T(!new)>(key: T -> int, z: T, a: seq<T>)
    requires forall i, j :: 0 <= i < j < |a| ==> key(a[i]) != key(a[j])
    ensures |Ties(key, z, a)| <= 1
  {
    if a != [] {
      TiesOfDistinct(key, z, a[1..]);
      TiesMember(key, z, a[1..]);
      var t := Ties(key, z, a[1..]);
      assert t != [] ==> t[0] in t && key(t[0]) != key(a[0]);
    }
  }

  lemma {:induction false} SameSingleton<T>(a: seq<T>, b: seq<T>)
    requires |a| <= 1 && |b| <= 1
    requires forall y :: y in a ==> y in b
    requires forall y :: y in b ==> y in a
    ensures a == b
  {
    assert a != [] ==> a[0] in b;
    assert b != [] ==> b[0] in a;
  }

  /** If no two elements tie, every reordering sorts to the same sequence. */
  lemma {:induction false} NoTiesDetermined<T(!new)>(key: T -> int, a: seq<T>, b: seq<T>)
    requires multiset(a) == multiset(b)
    requires forall i, j :: 0 <= i < j < |a| ==> key(a[i]) != key(a[j])
    ensures StableSort(key, a) == StableSort(key, b)
  {
    SameElements(a, b);
    DistinctPermuted(key, a, b);
    forall z ensures Ties(key, z, a) == Ties(key, z, b) {
      TiesOfDistinct(key, z, a);
      TiesOfDistinct(key, z, b);
      TiesMember(key, z, a);
      TiesMember(key, z, b);
      SameSingleton(Ties(key, z, a), Ties(key, z, b));
    }
    StableSortDetermined(key, a, b);
  }

  lemma {:induction false} DistinctPermuted<T>(key: T -> int, a: seq<T>, b: seq<T>)
    requires multiset(a) == multiset(b)
    requires forall i, j :: 0 <= i < j < |a| ==> key(a[i]) != key(a[j])
    ensures forall i, j :: 0 <= i < j < |b| ==> key(b[i]) != key(b[j])
  {
    SameElements(a, b);
    forall i, j | 0 <= i < j < |b|
      ensures key(b[i]) != key(b[j])
    {
      var m := IndexOf(a, b[i]);
      var n := IndexOf(a, b[j]);
      if m == n {
        TwoCopies(b, i, j);
        OneCopy(key, a, m);
      }
    }
  }

  lemma {:induction false} IndexOf<T>(a: seq<T>, x: T) returns (k: nat)
    requires x in a
    ensures k < |a| && a[k] == x
  {
    k :| 0 <= k < |a| && a[k] == x;
  }

  lemma {:induction false} TwoCopies<T>(b: seq<T>, i: nat, j: nat)
    requires i < j < |b| && b[i] == b[j]
    ensures multiset(b)[b[i]] >= 2
  {
    assert b == b[..i] + [b[i]] + b[i + 1..j] + [b[j]] + b[j + 1..];
  }

  lemma {:induction false} OneCopy<T>(key: T -> int, a: seq<T>, m: nat)
    requires m < |a|
    requires forall i, j :: 0 <= i < j < |a| ==> key(a[i]) != key(a[j])
    ensures multiset(a)[a[m]] == 1
  {
    assert a == a[..m] + [a[m]] + a[m + 1..];
    assert a[m] !in a[..m] && a[m] !in a[m + 1..];
    assert multiset(a)[a[m]] == multiset(a[..m])[a[m]] + 1 + multiset(a[m + 1..])[a[m]];
  }

  lemma {:induction false} TiesAround<T(!new)>(key: T -> int, z: T, a: seq<T>, x: T, c: seq<T>)
    ensures Ties(key, z, a + [x] + c) == Ties(key, z, a) + Ties(key, z, [x]) + Ties(key, z, c)
    ensures Ties(key, z, a + c) == Ties(key, z, a) + Ties(key, z, c)
  {
    TiesConcat(key, z, a + [x], c);
    TiesConcat(key, z, a, [x]);
    TiesConcat(key, z, a, c);
  }

  /** The h-th of the elements that tie with `x` can be taken out of both sides. */
  lemma {:induction false} TiesWithout<T(!new)>(key: T -> int, z: T, x: T, a: seq<T>, c: seq<T>, p: seq<T>, q: seq<T>)
    requires Ties(key, z, a + [x] + c) == Ties(key, z, p + [x] + q)
    requires |Ties(key, x, a)| == |Ties(key, x, p)|
    ensures Ties(key, z, a + c) == Ties(key, z, p + q)
  {
    TiesAround(key, z, a, x, c);
    TiesAround(key, z, p, x, q);
    SameGroup(key, z, x, a);
    SameGroup(key, z, x, p);
    Cancel(Ties(key, z, a), Ties(key, z, c), Ties(key, z, p), Ties(key, z, q), Ties(key, z, [x]));
  }

  lemma {:induction false} SortedWithout<T>(key: T -> int, t: seq<T>, k: nat)
    requires SortedBy(key, t) && k < |t|
    ensures SortedBy(key, t[..k] + t[k + 1..])
    ensures forall i :: 0 <= i < k ==> key(t[i]) <= key(t[k])
    ensures forall i :: k < i < |t| ==> key(t[k]) <= key(t[i])
    ensures t == t[..k] + [t[k]] + t[k + 1..]
  {}

  /** One more element lands between those that come before it and those that come after. */
  lemma {:induction false} StableSortInsertion<T(!new)>(key: T -> int, a: seq<T>, x: T, c: seq<T>) returns (k: nat)
    ensures k <= |StableSort(key, a + c)|
    ensures var s := StableSort(key, a + c);
      && StableSort(key, a + [x] + c) == s[..k] + [x] + s[k..]
      && (forall i :: 0 <= i < k ==> key(s[i]) <= key(x))
      && (forall i :: k <= i < |s| ==> key(x) <= key(s[i]))
  {
    StableSortSpec(key, a + [x] + c);
    StableSortSpec(key, a + c);
    var t, s := StableSort(key, a + [x] + c), StableSort(key, a + c);
    TiesAround(key, x, a, x, c);
    k := TieAt(key, x, t, |Ties(key, x, a)|);
    SortedWithout(key, t, k);
    var p, q := t[..k], t[k + 1..];
    assert t == p + [x] + q;
    forall z ensures Ties(key, z, p + q) == Ties(key, z, s) {
      TiesWithout(key, z, x, a, c, p, q);
    }
    SortedUnique(key, p + q, s);
    assert s[..k] == p && s[k..] == q;
  }

  /** Where the h-th element tying with `x` stands. */
  lemma {:induction false} TieAt<T(!new)>(key: T -> int, x: T, t: seq<T>, h: nat) returns (k: nat)
    requires h < |Ties(key, x, t)|
    ensures k < |t| && t[k] == Ties(key, x, t)[h]
    ensures |Ties(key, x, t[..k])| == h
  {
    var hit := key(x) == key(t[0]);
    if hit && h == 0 {
      k := 0;
    } else {
      var j := TieAt(key, x, t[1..], if hit then h - 1 else h);
      k := j + 1;
      assert t[..k] == [t[0]] + t[1..][..j];
      TiesConcat(key, x, [t[0]], t[1..][..j]);
    }
  }

  lemma {:induction false} Cancel<T>(a: seq<T>, c: seq<T>, p: seq<T>, q: seq<T>, x: seq<T>)
    requires a + x + c == p + x + q && (x == [] || |a| == |p|)
    ensures a + c == p + q
  {
    var s := a + x + c;
    if x == [] {
      assert a + c == s == p + q;
    } else {
      assert a == s[..|a|] && p == s[..|a|];
      assert c == s[|a| + |x|..] && q == s[|a| + |x|..];
    }
  }

  lemma {:induction false} SameGroup<T(!new)>(key: T -> int, z: T, x: T, s: seq<T>)
    ensures key(z) == key(x) ==> Ties(key, z, s) == Ties(key, x, s)
  {
    if s != [] {
      SameGroup(key, z, x, s[1..]);
    }
  }
}
