// The largest element of a set.
module Maxima {
  predicate Max(s: set<int>, m: int) {
    m in s && forall x | x in s :: x <= m
  }

  lemma {:induction false} Highest(s: set<int>) returns (m: int)
    requires s != {}
    ensures Max(s, m)
  {
    assert (forall n :: n !in s) ==> s == {};
    m :| m in s;
    var rest := s - {m};
    assert forall x | x in s :: x == m || x in rest;
    if rest != {} {
      var n := Highest(rest);
      m := if n <= m then m else n;
    }
  }

  lemma HasMax(s: set<int>)
    requires s != {}
    ensures exists m :: Max(s, m)
  {
    var m := Highest(s);
  }
}
