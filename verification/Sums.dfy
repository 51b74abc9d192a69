/** Optional values, and sums over finite sets of row ids.

    A sum takes its terms in no particular order. It does not depend on the order (`SumTakesOut`), is the same for
    functions that agree on the set (`SumSame`), splits over disjoint sets (`SumOfUnion`), and is nothing where there
    is nothing to add (`SumOfZeros`). */
module Sums {

  datatype Option<+T> = None | Some(value: T)

  ghost function SumOver(ids: set<nat>, f: nat -> int): int {
    if ids == {} then 0
    else
      var x :| x in ids;
      f(x) + SumOver(ids - {x}, f)
  }

  lemma {:induction false} SumTakesOut(ids: set<nat>, f: nat -> int, x: nat)
    requires x in ids
    ensures SumOver(ids, f) == f(x) + SumOver(ids - {x}, f)
    decreases ids
  {
    var y :| y in ids && SumOver(ids, f) == f(y) + SumOver(ids - {y}, f);
    if y != x {
      SumTakesOut(ids - {y}, f, x);
      SumTakesOut(ids - {x}, f, y);
      assert ids - {y} - {x} == ids - {x} - {y};
    }
  }

  lemma SumPutsIn(ids: set<nat>, f: nat -> int, x: nat)
    requires x !in ids
    ensures SumOver(ids + {x}, f) == f(x) + SumOver(ids, f)
  {
    assert ids + {x} - {x} == ids;
    SumTakesOut(ids + {x}, f, x);
  }

  lemma {:induction false} SumSame(ids: set<nat>, f: nat -> int, g: nat -> int)
    requires forall x | x in ids :: f(x) == g(x)
    ensures SumOver(ids, f) == SumOver(ids, g)
    decreases ids
  {
    if ids != {} {
      var x :| x in ids;
      SumTakesOut(ids, f, x);
      SumTakesOut(ids, g, x);
      SumSame(ids - {x}, f, g);
    }
  }

  lemma {:induction false} SumOfUnion(a: set<nat>, b: set<nat>, f: nat -> int)
    requires a !! b
    ensures SumOver(a + b, f) == SumOver(a, f) + SumOver(b, f)
    decreases a
  {
    if a == {} {
      assert a + b == b;
    } else {
      var x :| x in a;
      SumTakesOut(a, f, x);
      SumOfUnion(a - {x}, b, f);
      assert a + b == (a - {x}) + b + {x};
      SumPutsIn((a - {x}) + b, f, x);
    }
  }

  lemma {:induction false} SumOfZeros(ids: set<nat>, f: nat -> int)
    requires forall x | x in ids :: f(x) == 0
    ensures SumOver(ids, f) == 0
    decreases ids
  {
    if ids != {} {
      var x :| x in ids;
      SumTakesOut(ids, f, x);
      SumOfZeros(ids - {x}, f);
    }
  }
}
