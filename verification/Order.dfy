/** Byte-wise string order, as Go's `<` on strings and `sorted.Keys` use it. */
module Order {

  predicate Less(a: string, b: string) {
    b != "" && (a == "" || a[0] < b[0] || (a[0] == b[0] && Less(a[1..], b[1..])))
  }

  lemma {:induction false} LessTotal(a: string, b: string)
    ensures a == b || Less(a, b) || Less(b, a)
  {
    if a != "" && b != "" && a[0] == b[0] {
      LessTotal(a[1..], b[1..]);
      assert a == [a[0]] + a[1..] && b == [b[0]] + b[1..];
    }
  }

  lemma {:induction false} LessAsymmetric(a: string, b: string)
    requires Less(a, b)
    ensures a != b && !Less(b, a)
  {
    if a != "" && a[0] == b[0] {
      LessAsymmetric(a[1..], b[1..]);
    }
  }

  lemma {:induction false} LessTransitive(a: string, b: string, c: string)
    requires Less(a, b) && Less(b, c)
    ensures Less(a, c)
  {
    if a != "" && a[0] == b[0] == c[0] {
      LessTransitive(a[1..], b[1..], c[1..]);
    }
  }

  predicate IsLeast(m: string, s: set<string>) {
    m in s && forall y :: y in s ==> y == m || Less(m, y)
  }

  lemma {:induction false} LeastExists(s: set<string>)
    requires s != {}
    ensures exists m :: IsLeast(m, s)
  {
    var x :| x in s;
    if s == {x} {
      assert IsLeast(x, s);
    } else {
      var rest := s - {x};
      LeastExists(rest);
      var m :| IsLeast(m, rest);
      LessTotal(x, m);
      if Less(x, m) {
        forall y | y in s ensures y == x || Less(x, y) {
          if y != x && y != m { LessTransitive(x, m, y); }
        }
        assert IsLeast(x, s);
      } else {
        assert IsLeast(m, s);
      }
    }
  }

  lemma LeastUnique(s: set<string>)
    ensures forall m, n :: IsLeast(m, s) && IsLeast(n, s) ==> m == n
  {
    forall m, n | IsLeast(m, s) && IsLeast(n, s) ensures m == n {
      if m != n { LessAsymmetric(m, n); }
    }
  }

  function Least(s: set<string>): (m: string)
    requires s != {}
    ensures IsLeast(m, s)
  {
    LeastExists(s);
    LeastUnique(s);
    var m :| m in s && IsLeast(m, s);
    m
  }

  ghost predicate Ascending(xs: seq<string>) {
    forall i, j :: 0 <= i < j < |xs| ==> Less(xs[i], xs[j])
  }

  function Elems<T>(xs: seq<T>): set<T> { set x | x in xs }

  lemma ElemsAppend<T>(xs: seq<T>, ys: seq<T>)
    ensures Elems(xs + ys) == Elems(xs) + Elems(ys)
  {
    forall x: T ensures x in Elems(xs + ys) <==> x in Elems(xs) + Elems(ys) {
      if x in xs {
        var i :| 0 <= i < |xs| && xs[i] == x;
        assert (xs + ys)[i] == x;
      }
      if x in ys {
        var i :| 0 <= i < |ys| && ys[i] == x;
        assert (xs + ys)[|xs| + i] == x;
      }
    }
  }

  lemma LeastFirst(s: set<string>, m: string, rest: seq<string>)
    requires IsLeast(m, s) && Ascending(rest) && Elems(rest) == s - {m}
    ensures Ascending([m] + rest) && Elems([m] + rest) == s
  {
    ElemsAppend([m], rest);
    assert Elems([m]) == {m};
    forall j | 0 <= j < |rest| ensures Less(m, rest[j]) {
      assert rest[j] in Elems(rest);
    }
  }

  /** The members of a set in ascending order, each once. */
  function Sorted(s: set<string>): (r: seq<string>)
    ensures Ascending(r) && Elems(r) == s && |r| == |s|
  {
    if s == {} then []
    else
      var m := Least(s);
      var rest := Sorted(s - {m});
      LeastFirst(s, m, rest);
      [m] + rest
  }

  lemma AscendingDistinct(xs: seq<string>)
    requires Ascending(xs)
    ensures forall i, j :: 0 <= i < j < |xs| ==> xs[i] != xs[j]
  {
    forall i, j | 0 <= i < j < |xs| ensures xs[i] != xs[j] {
      LessAsymmetric(xs[i], xs[j]);
    }
  }

  /** An ascending list is determined by its members. */
  lemma {:induction false} AscendingUnique(xs: seq<string>, ys: seq<string>)
    requires Ascending(xs) && Ascending(ys) && Elems(xs) == Elems(ys)
    ensures xs == ys
  {
    assert forall x :: x in xs <==> x in Elems(xs);
    assert forall y :: y in ys <==> y in Elems(ys);
    assert xs == [] || xs[0] in ys;
    assert ys == [] || ys[0] in xs;
    if xs != [] && ys != [] {
      assert xs[0] in ys && ys[0] in xs;
      if xs[0] != ys[0] {
        var i :| 0 <= i < |ys| && ys[i] == xs[0];
        var j :| 0 <= j < |xs| && xs[j] == ys[0];
        LessAsymmetric(xs[0], ys[0]);
        assert false;
      }
      AscendingDistinct(xs);
      AscendingDistinct(ys);
      assert Elems(xs[1..]) == Elems(xs) - {xs[0]};
      assert Elems(ys[1..]) == Elems(ys) - {ys[0]};
      AscendingUnique(xs[1..], ys[1..]);
      assert xs == [xs[0]] + xs[1..] && ys == [ys[0]] + ys[1..];
    }
  }

  ghost predicate Distinct<T>(xs: seq<T>) {
    forall i, j :: 0 <= i < j < |xs| ==> xs[i] != xs[j]
  }
}
