/** The order of text by which Python's `sorted` arranges a set of strings. */
module TextOrder {

  /** `a` comes before `b`: by the first character in which they differ, a prefix before what it begins. */
  predicate Before(a: string, b: string) {
    b != "" && (a == "" || a[0] < b[0] || (a[0] == b[0] && Before(a[1..], b[1..])))
  }

  /** `a` and `b` agree up to the k-th character. */
  predicate AgreeUpTo(a: string, b: string, k: int) {
    0 <= k <= |a| && k <= |b| && a[..k] == b[..k]
  }

  /** What coming before means: ending where the other goes on, or having the smaller character at the first
      difference. */
  lemma {:induction false} BeforeMeaning(a: string, b: string)
    ensures Before(a, b) <==>
      exists k :: AgreeUpTo(a, b, k) && k < |b| && (k == |a| || a[k] < b[k])
  {
    forall k | AgreeUpTo(a, b, k) && k > 0 ensures a != "" && b != "" && a[0] == b[0] {
      assert a[..k][0] == b[..k][0];
    }
    if a == "" || b == "" {
      assert AgreeUpTo(a, b, 0);
    } else if a[0] != b[0] {
      assert AgreeUpTo(a, b, 0);
    } else {
      BeforeMeaning(a[1..], b[1..]);
      if Before(a, b) {
        var k :| AgreeUpTo(a[1..], b[1..], k) && k < |b[1..]| && (k == |a[1..]| || a[1..][k] < b[1..][k]);
        assert a[..k + 1] == [a[0]] + a[1..][..k] && b[..k + 1] == [b[0]] + b[1..][..k];
        assert AgreeUpTo(a, b, k + 1);
      }
      if k :| AgreeUpTo(a, b, k) && k < |b| && (k == |a| || a[k] < b[k]) {
        assert k > 0;
        assert a[1..][..k - 1] == a[..k][1..] && b[1..][..k - 1] == b[..k][1..];
        assert AgreeUpTo(a[1..], b[1..], k - 1);
      }
    }
  }

  lemma {:induction false} BeforeIsTotal(a: string, b: string)
    requires a != b
    ensures Before(a, b) <==> !Before(b, a)
  {
    if a != "" && b != "" && a[0] == b[0] {
      assert a == [a[0]] + a[1..] && b == [b[0]] + b[1..];
      BeforeIsTotal(a[1..], b[1..]);
    }
  }

  lemma {:induction false} BeforeIrreflexive(a: string)
    ensures !Before(a, a)
  {
    if a != "" {
      BeforeIrreflexive(a[1..]);
    }
  }

  lemma {:induction false} BeforeTransitive(a: string, b: string, c: string)
    requires Before(a, b) && Before(b, c)
    ensures Before(a, c)
  {
    if a != "" && a[0] == b[0] == c[0] {
      BeforeTransitive(a[1..], b[1..], c[1..]);
    }
  }

  predicate Ascending(s: seq<string>) {
    forall i, j :: 0 <= i < j < |s| ==> Before(s[i], s[j])
  }

  function Insert(x: string, s: seq<string>): seq<string> {
    if s == [] || Before(x, s[0]) then [x] + s else [s[0]] + Insert(x, s[1..])
  }

  lemma {:induction false} InsertAscending(x: string, s: seq<string>)
    requires Ascending(s) && x !in s
    ensures Ascending(Insert(x, s))
    ensures forall y :: y in Insert(x, s) <==> y == x || y in s
  {
    if s == [] {
    } else if Before(x, s[0]) {
      forall j | 0 <= j < |s| ensures Before(x, s[j]) {
        if j > 0 {
          BeforeTransitive(x, s[0], s[j]);
        }
      }
    } else {
      assert s == [s[0]] + s[1..];
      InsertAscending(x, s[1..]);
      BeforeIsTotal(x, s[0]);
      var rest := Insert(x, s[1..]);
      forall j | 0 <= j < |rest| ensures Before(s[0], rest[j]) {
        assert rest[j] in rest;
      }
    }
  }

  ghost predicate Arranges(s: seq<string>, all: set<string>) {
    Ascending(s) && forall x :: x in s <==> x in all
  }

  /** `sorted` on a set. */
  method Sorted(all: set<string>) returns (s: seq<string>)
    ensures Arranges(s, all)
  {
    s := [];
    var rest := all;
    while rest != {}
      invariant rest <= all
      invariant Arranges(s, all - rest)
    {
      var x :| x in rest;
      InsertAscending(x, s);
      s := Insert(x, s);
      rest := rest - {x};
    }
  }

  lemma {:induction false} SameFirst(a: seq<string>, b: seq<string>, all: set<string>)
    requires Arranges(a, all) && Arranges(b, all) && a != []
    ensures b != [] && a[0] == b[0]
  {
    assert a[0] in b;
    assert b[0] in a;
    if a[0] != b[0] {
      var i :| 0 <= i < |a| && a[i] == b[0];
      var j :| 0 <= j < |b| && b[j] == a[0];
      BeforeIsTotal(a[0], b[0]);
    }
  }

  lemma {:induction false} ArrangesRest(s: seq<string>, all: set<string>)
    requires Arranges(s, all) && s != []
    ensures Arranges(s[1..], all - {s[0]})
  {
    assert s == [s[0]] + s[1..];
    forall j | 1 <= j < |s| ensures s[j] != s[0] {
      BeforeIrreflexive(s[0]);
    }
  }

  /** There is only one such arrangement. */
  lemma {:induction false} ArrangedOneWay(a: seq<string>, b: seq<string>, all: set<string>)
    requires Arranges(a, all) && Arranges(b, all)
    ensures a == b
    decreases |a|
  {
    if a != [] {
      SameFirst(a, b, all);
      ArrangesRest(a, all);
      ArrangesRest(b, all);
      ArrangedOneWay(a[1..], b[1..], all - {a[0]});
      assert a == [a[0]] + a[1..] && b == [b[0]] + b[1..];
    } else if b != [] {
      SameFirst(b, a, all);
    }
  }
}
