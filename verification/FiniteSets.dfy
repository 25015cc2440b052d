/** Sizes of finite sets. */
module FiniteSets {

  lemma {:induction false} SubsetSize<T>(a: set<T>, b: set<T>)
    requires a <= b
    ensures |a| <= |b|
  {
    if a != {} {
      var x :| x in a;
      SubsetSize(a - {x}, b - {x});
    }
  }

  ghost predicate NoRepeats<T>(xs: seq<T>) {
    forall i, j :: 0 <= i < j < |xs| ==> xs[i] != xs[j]
  }

  /** A list without repeats drawn from another is no longer than it. */
  lemma {:induction false} NoRepeatsFit<T>(xs: seq<T>, ys: seq<T>)
    requires NoRepeats(xs) && forall x <- xs :: x in ys
    ensures |xs| <= |ys|
  {
    if xs != [] {
      var last, init := xs[|xs| - 1], xs[..|xs| - 1];
      assert last in xs;
      var i :| 0 <= i < |ys| && ys[i] == last;
      var rest := ys[..i] + ys[i + 1..];
      forall x <- init ensures x in rest {
        assert x in xs && x != last;
        var k :| 0 <= k < |ys| && ys[k] == x;
        assert if k < i then rest[k] == x else rest[k - 1] == x;
      }
      NoRepeatsFit(init, rest);
    }
  }
}
