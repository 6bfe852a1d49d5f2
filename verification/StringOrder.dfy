/**
  * The order in which an ordered map with string keys is walked: lexicographic.
  */
module StringOrder {

  predicate Below(a: string, b: string) {
    a == [] || (b != [] && (a[0] < b[0] || (a[0] == b[0] && Below(a[1..], b[1..]))))
  }

  lemma {:induction false} Antisymmetric(a: string, b: string)
    requires Below(a, b) && Below(b, a)
    ensures a == b
  {
    if a != [] {
      Antisymmetric(a[1..], b[1..]);
      assert a == [a[0]] + a[1..] && b == [b[0]] + b[1..];
    }
  }

  lemma {:induction false} Transitive(a: string, b: string, c: string)
    requires Below(a, b) && Below(b, c)
    ensures Below(a, c)
  {
    if a != [] && a[0] == b[0] == c[0] {
      Transitive(a[1..], b[1..], c[1..]);
    }
  }

  lemma {:induction false} Total(a: string, b: string)
    ensures Below(a, b) || Below(b, a)
  {
    if a != [] && b != [] && a[0] == b[0] {
      Total(a[1..], b[1..]);
    }
  }

  predicate IsLeast(m: string, s: set<string>) {
    m in s && forall x | x in s :: Below(m, x)
  }

  lemma {:induction false} LeastExists(s: set<string>)
    requires s != {}
    ensures exists m :: IsLeast(m, s)
  {
    var x :| x in s;
    Total(x, x);
    if s == {x} {
      assert IsLeast(x, s);
    } else {
      var rest := s - {x};
      LeastExists(rest);
      var m :| IsLeast(m, rest);
      Total(x, m);
      if Below(m, x) {
        assert IsLeast(m, s);
      } else {
        forall y | y in s ensures Below(x, y) {
          if y != x { Transitive(x, m, y); }
        }
        assert IsLeast(x, s);
      }
    }
  }

  ghost function Least(s: set<string>): (m: string)
    requires s != {}
    ensures IsLeast(m, s)
  {
    LeastExists(s);
    var m :| IsLeast(m, s);
    m
  }

  lemma LeastUnique(m: string, s: set<string>)
    requires IsLeast(m, s)
    ensures s != {} && Least(s) == m
  {
    Antisymmetric(m, Least(s));
  }

  /** The members of a set in ascending order. */
  ghost function Sorted(s: set<string>): (q: seq<string>)
    ensures |q| == |s| && forall x :: x in q <==> x in s
    decreases |s|
  {
    if s == {} then [] else [Least(s)] + Sorted(s - {Least(s)})
  }

  lemma SortedSplits(m: string, s: set<string>)
    requires IsLeast(m, s)
    ensures m in s && Sorted(s) == [m] + Sorted(s - {m})
  {
    LeastUnique(m, s);
  }

  lemma {:induction false} SortedDistinct(s: set<string>, i: nat, j: nat)
    requires i < j < |Sorted(s)|
    ensures Sorted(s)[i] != Sorted(s)[j]
    decreases |s|
  {
    var rest := Sorted(s - {Least(s)});
    assert Sorted(s)[j] == rest[j - 1] && rest[j - 1] in rest;
    if i > 0 {
      SortedDistinct(s - {Least(s)}, i - 1, j - 1);
    }
  }

  /** A string is below another if it is a prefix of it, or has the smaller character where they first differ. */
  lemma {:induction false} BelowMeans(a: string, b: string)
    ensures Below(a, b) <==> a <= b || exists k | 0 <= k < |a| && k < |b| :: SmallerAt(a, b, k)
  {
    if a != [] && b != [] && a[0] == b[0] {
      BelowMeans(a[1..], b[1..]);
      assert a == [a[0]] + a[1..] && b == [b[0]] + b[1..];
      forall k | 0 <= k < |a| - 1 && k < |b| - 1 ensures SmallerAt(a[1..], b[1..], k) <==> SmallerAt(a, b, k + 1) {
        assert a[..k + 1] == [a[0]] + a[1..][..k] && b[..k + 1] == [b[0]] + b[1..][..k];
      }
      if Below(a, b) && !(a <= b) {
        var k :| 0 <= k < |a| - 1 && k < |b| - 1 && SmallerAt(a[1..], b[1..], k);
        assert SmallerAt(a, b, k + 1);
      }
      if k :| 0 <= k < |a| && k < |b| && SmallerAt(a, b, k) {
        assert SmallerAt(a[1..], b[1..], k - 1);
      }
    } else if a != [] && b != [] {
      assert a[..0] == b[..0];
      if a[0] < b[0] { assert SmallerAt(a, b, 0); }
      if k :| 0 <= k < |a| && k < |b| && SmallerAt(a, b, k) {
        assert k > 0 ==> a[..k][0] == b[..k][0];
      }
    }
  }

  predicate SmallerAt(a: string, b: string, k: nat)
    requires k < |a| && k < |b|
  {
    a[..k] == b[..k] && a[k] < b[k]
  }

  lemma {:induction false} SortedAscends(s: set<string>, i: nat, j: nat)
    requires i < j < |Sorted(s)|
    ensures Below(Sorted(s)[i], Sorted(s)[j])
    decreases |s|
  {
    var rest := s - {Least(s)};
    assert Sorted(s)[j] == Sorted(rest)[j - 1] && Sorted(rest)[j - 1] in Sorted(rest);
    if i > 0 {
      SortedAscends(rest, i - 1, j - 1);
    }
  }

  /** Walks a set of keys in ascending order, each once. */
  method Walk(keys: set<string>) returns (order: seq<string>)
    ensures order == Sorted(keys)
    ensures forall x :: x in order <==> x in keys
    ensures forall i, j | 0 <= i < j < |order| :: Below(order[i], order[j]) && order[i] != order[j]
  {
    forall i, j | 0 <= i < j < |Sorted(keys)| ensures Below(Sorted(keys)[i], Sorted(keys)[j]) && Sorted(keys)[i] != Sorted(keys)[j] {
      SortedAscends(keys, i, j);
      SortedDistinct(keys, i, j);
    }
    hide Sorted, IsLeast;
    order := [];
    var rest := keys;
    assert order + Sorted(rest) == Sorted(keys);
    while rest != {}
      invariant order + Sorted(rest) == Sorted(keys)
      decreases |rest|
    {
      LeastExists(rest);
      var k :| IsLeast(k, rest);
      SortedSplits(k, rest);
      Shift(order, k, Sorted(rest - {k}));
      order, rest := order + [k], rest - {k};
    }
    assert Sorted({}) == [];
  }

  lemma Shift(a: seq<string>, k: string, b: seq<string>)
    ensures (a + [k]) + b == a + ([k] + b)
  {
  }
}
