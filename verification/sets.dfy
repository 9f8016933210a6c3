/** The least element of a set of ids. */
module Sets {

  lemma {:induction false} LeastExists(a: set<int>)
    requires a != {}
    ensures exists m :: m in a && forall x :: x in a ==> m <= x
    decreases |a|
  {
    if forall x :: x !in a {
      assert false;
    }
    var y :| y in a;
    if a == {y} {
      assert forall x :: x in a ==> y <= x;
    } else {
      LeastExists(a - {y});
      var m :| m in a - {y} && forall x :: x in a - {y} ==> m <= x;
      var least := if y < m then y else m;
      forall x | x in a
        ensures least <= x
      {
        if x != y {
          assert x in a - {y};
        }
      }
      assert least in a;
    }
  }

  /** The smallest id in a non-empty set. */
  function Least(a: set<int>): (m: int)
    requires a != {}
    ensures m in a && forall x :: x in a ==> m <= x
  {
    LeastExists(a);
    var m :| m in a && forall x :: x in a ==> m <= x;
    m
  }
}
