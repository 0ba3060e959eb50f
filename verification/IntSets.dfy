/** Least elements of finite sets of integers: what `MIN(id)` and `ORDER BY id LIMIT 1` pick. */
module IntSets {

  function Lowest(s: set<int>): (m: int)
    requires s != {}
    ensures m in s && forall x :: x in s ==> m <= x
  {
    LowestExists(s);
    var m :| m in s && forall x :: x in s ==> m <= x;
    m
  }

  /** A non-empty set has a member. */
  lemma Member<T>(s: set<T>) returns (a: T)
    requires s != {}
    ensures a in s
  {
    a :| a in s;
  }

  lemma LowestExists(s: set<int>)
    requires s != {}
    ensures exists m :: m in s && forall x :: x in s ==> m <= x
  {
    var m := Least(s);
  }

  lemma {:induction false} Least(s: set<int>) returns (m: int)
    requires s != {}
    ensures m in s && forall x :: x in s ==> m <= x
  {
    var a := Member(s);
    var rest := s - {a};
    m := a;
    if rest != {} {
      var k := Least(rest);
      m := if a <= k then a else k;
    }
    assert forall x :: x in s ==> x == a || x in rest;
  }
}
