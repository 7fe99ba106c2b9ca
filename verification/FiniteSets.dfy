/** Counting facts about finite sets. */
module FiniteSets {
  lemma {:induction false} SubsetSize<T>(a: set<T>, b: set<T>)
    requires a <= b
    ensures |a| <= |b|
    ensures |a| == |b| ==> a == b
  {
    assert b == a + (b - a) && |b| == |a| + |b - a|;
  }

  function Range(n: nat): (r: set<int>)
    ensures forall i :: i in r <==> 1 <= i <= n
  {
    if n == 0 then {} else Range(n - 1) + {n}
  }

  lemma {:induction false} RangeSize(n: nat)
    ensures |Range(n)| == n
  {
    if n > 0 {
      var r := Range(n - 1);
      assert Range(n) == r + {n} && n !in r;
      RangeSize(n - 1);
      hide Range;
      assert |r + {n}| == |r| + 1;
    }
  }

  ghost predicate InjectiveOn<S, T>(a: set<S>, f: S -> T) {
    forall x, y | x in a && y in a && f(x) == f(y) :: x == y
  }

  ghost function Image<S, T>(a: set<S>, f: S -> T): set<T> { set x | x in a :: f(x) }

  /** An injective image has as many elements. */
  lemma {:induction false} ImageSize<S, T>(a: set<S>, f: S -> T)
    requires InjectiveOn(a, f)
    ensures |Image(a, f)| == |a|
    decreases |a|
  {
    if a != {} {
      var x :| x in a;
      ImageSize(a - {x}, f);
      assert Image(a, f) == Image(a - {x}, f) + {f(x)};
      assert f(x) !in Image(a - {x}, f);
    }
  }

  lemma DifferenceSize<T>(all: set<T>, part: set<T>)
    requires part <= all
    ensures |all - part| == |all| - |part|
  {
    assert all == part + (all - part);
  }

  ghost function AnElement<T>(a: set<T>): (x: T)
    requires |a| > 0
    ensures x in a
  {
    var x :| x in a;
    x
  }

  lemma FourParts<T>(all: set<T>, a: set<T>, b: set<T>, c: set<T>, d: set<T>)
    requires all == a + b + c + d && a !! b !! c !! d
    ensures |all| == |a| + |b| + |c| + |d|
  {
    assert |a + b| == |a| + |b|;
    assert |a + b + c| == |a + b| + |c|;
  }
}
