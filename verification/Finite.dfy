/** Sizes of finite sets. */
module Finite {
  lemma {:induction false} SubsetIsSmaller<T>(a: set<T>, b: set<T>)
    requires a <= b
    ensures |a| <= |b|
  {
    if a != {} {
      var x :| x in a;
      SubsetIsSmaller(a - {x}, b - {x});
    }
  }

  lemma {:induction false} ImageIsSmaller<A, B>(s: set<A>, t: set<B>, f: A -> B)
    requires forall y :: y in t ==> exists x :: x in s && f(x) == y
    ensures |t| <= |s|
  {
    if t != {} {
      var y :| y in t;
      var x :| x in s && f(x) == y;
      forall z | z in t - {y} ensures exists w :: w in s - {x} && f(w) == z {
        var w :| w in s && f(w) == z;
        assert w in s - {x};
      }
      ImageIsSmaller(s - {x}, t - {y}, f);
    }
  }
}
