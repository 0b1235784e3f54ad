/** Sums over finite sets, and the sums an int64 accumulator keeps when it wraps. */
module Sums {
  import opened Rational
  import opened Ledger

  ghost function SetSum<T(!new)>(s: set<T>, f: T -> int): int {
    if s == {} then 0 else var x :| x in s; f(x) + SetSum(s - {x}, f)
  }

  /** Any element can be taken out first. */
  lemma {:induction false} SetSumTake<T(!new)>(s: set<T>, f: T -> int, y: T)
    requires y in s
    ensures SetSum(s, f) == f(y) + SetSum(s - {y}, f)
    decreases |s|
  {
    var x :| x in s && SetSum(s, f) == f(x) + SetSum(s - {x}, f);
    if x != y {
      SetSumTake(s - {x}, f, y);
      SetSumTake(s - {y}, f, x);
      assert s - {x} - {y} == s - {y} - {x};
    }
  }

  lemma SetSumAdd<T(!new)>(s: set<T>, f: T -> int, y: T)
    requires y !in s
    ensures SetSum(s + {y}, f) == SetSum(s, f) + f(y)
  {
    SetSumTake(s + {y}, f, y);
    assert s + {y} - {y} == s;
  }

  /** Elements that count for nothing do not matter. */
  lemma {:induction false} SetSumExtend<T(!new)>(s: set<T>, more: set<T>, f: T -> int)
    requires s <= more && forall x | x in more && x !in s :: f(x) == 0
    ensures SetSum(more, f) == SetSum(s, f)
    decreases |more|
  {
    if s < more {
      var x :| x in more && x !in s;
      SetSumTake(more, f, x);
      SetSumExtend(s, more - {x}, f);
    } else {
      assert s == more;
    }
  }

  lemma {:induction false} SetSumNotNegative<T(!new)>(s: set<T>, f: T -> int)
    requires forall x | x in s :: f(x) >= 0
    ensures SetSum(s, f) >= 0
    decreases |s|
  {
    if s != {} {
      var x :| x in s;
      SetSumTake(s, f, x);
      SetSumNotNegative(s - {x}, f);
    }
  }

  /** More elements that do not count negatively add up to no less. */
  lemma {:induction false} SetSumMonotone<T(!new)>(s: set<T>, more: set<T>, f: T -> int)
    requires s <= more && forall x | x in more :: f(x) >= 0
    ensures SetSum(s, f) <= SetSum(more, f)
    decreases |more|
  {
    if s < more {
      var x :| x in more && x !in s;
      SetSumTake(more, f, x);
      SetSumMonotone(s, more - {x}, f);
    } else {
      assert s == more;
    }
  }

  lemma {:induction false} SetSumDifference<T(!new)>(s: set<T>, f: T -> int, g: T -> int, h: T -> int)
    requires forall x | x in s :: h(x) == f(x) - g(x)
    ensures SetSum(s, h) == SetSum(s, f) - SetSum(s, g)
    decreases |s|
  {
    if s != {} {
      var x :| x in s;
      SetSumTake(s, f, x);
      SetSumTake(s, g, x);
      SetSumTake(s, h, x);
      SetSumDifference(s - {x}, f, g, h);
    }
  }

  /** Two integers that an int64 accumulator cannot tell apart. */
  ghost predicate Congruent(a: int, b: int) {
    exists k: int :: a == b + k * TWO_TO_64
  }

  lemma WrapCongruent(n: int)
    ensures Congruent(Wrap(n), n)
  {
    var k := (n - MIN_INT64) / TWO_TO_64;
    assert n - MIN_INT64 == k * TWO_TO_64 + (n - MIN_INT64) % TWO_TO_64;
    assert Wrap(n) == n + (-k) * TWO_TO_64;
  }

  lemma CongruentWraps(a: int, b: int)
    requires Congruent(a, b)
    ensures Wrap(a) == Wrap(b)
  {
    var k: int :| a == b + k * TWO_TO_64;
    var p, q := (a - MIN_INT64) / TWO_TO_64, (b - MIN_INT64) / TWO_TO_64;
    var r, s := (a - MIN_INT64) % TWO_TO_64, (b - MIN_INT64) % TWO_TO_64;
    assert r - s == (k + q - p) * TWO_TO_64;
    assert -TWO_TO_64 < r - s < TWO_TO_64;
    assert k + q - p >= 1 ==> r - s >= TWO_TO_64;
    assert k + q - p <= -1 ==> r - s <= -TWO_TO_64;
  }

  /** Wrapping early or late is the same. */
  lemma WrapAdd(a: int, b: int)
    ensures Wrap(Wrap(a) + b) == Wrap(a + b)
  {
    WrapCongruent(a);
    var k: int :| Wrap(a) == a + k * TWO_TO_64;
    assert Wrap(a) + b == (a + b) + k * TWO_TO_64;
    CongruentWraps(Wrap(a) + b, a + b);
  }
}
