// Finite sums over sets of group identifiers.
module SetSums {

  lemma NonEmpty(s: set<int>)
    ensures s == {} || exists x :: x in s
  {
    assert (forall x :: x !in s) ==> s == {};
  }

  ghost function Pick(s: set<int>): (x: int)
    requires s != {}
    ensures x in s
  {
    NonEmpty(s);
    var x :| x in s; x
  }

  ghost function Sum(s: set<int>, f: int -> int): int
  {
    if s == {} then 0 else var x := Pick(s); f(x) + Sum(s - {x}, f)
  }

  // The sum does not depend on the order in which elements are picked.
  lemma {:induction false} SumExtract(s: set<int>, f: int -> int, x: int)
    requires x in s
    ensures Sum(s, f) == f(x) + Sum(s - {x}, f)
  {
    var y := Pick(s);
    if y != x {
      SumExtract(s - {y}, f, x);
      SumExtract(s - {x}, f, y);
      assert s - {y} - {x} == s - {x} - {y};
    }
  }

  lemma {:induction false} SumMonotone(s: set<int>, f: int -> int, h: int -> int)
    requires forall x :: x in s ==> f(x) <= h(x)
    ensures Sum(s, f) <= Sum(s, h)
  {
    if s != {} {
      SumMonotone(s - {Pick(s)}, f, h);
    }
  }

  lemma SumStrict(s: set<int>, f: int -> int, h: int -> int, x: int)
    requires forall y :: y in s ==> f(y) <= h(y)
    requires x in s && f(x) < h(x)
    ensures Sum(s, f) < Sum(s, h)
  {
    SumExtract(s, f, x);
    SumExtract(s, h, x);
    SumMonotone(s - {x}, f, h);
  }

  lemma {:induction false} SumPlus(s: set<int>, f: int -> int, a: int -> int, b: int -> int)
    requires forall x :: x in s ==> f(x) == a(x) + b(x)
    ensures Sum(s, f) == Sum(s, a) + Sum(s, b)
  {
    if s != {} {
      SumPlus(s - {Pick(s)}, f, a, b);
    }
  }

  lemma {:induction false} SumConstant(s: set<int>, f: int -> int, c: int)
    requires forall x :: x in s ==> f(x) == c
    ensures Sum(s, f) == |s| * c
  {
    if s != {} {
      SumConstant(s - {Pick(s)}, f, c);
    }
  }

  // Changing the summand at one point only.
  lemma SumUpdate(s: set<int>, f: int -> int, h: int -> int, x: int)
    requires x in s
    requires forall y :: y in s && y != x ==> f(y) == h(y)
    ensures Sum(s, h) == Sum(s, f) - f(x) + h(x)
  {
    SumExtract(s, f, x);
    SumExtract(s, h, x);
    SumMonotone(s - {x}, f, h);
    SumMonotone(s - {x}, h, f);
  }
}
