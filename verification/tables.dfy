/** Reading a table in primary-key order. */
module Tables {

  predicate IsLeast(m: nat, ids: set<nat>) {
    m in ids && forall x <- ids :: m <= x
  }

  lemma LeastExists(ids: set<nat>)
    requires ids != {}
    ensures exists m :: IsLeast(m, ids)
  {
    var m :| m in ids;
    var rest := ids - {m};
    if rest == {} {
      assert ids == {m};
      assert IsLeast(m, ids);
    } else {
      LeastExists(rest);
      var l :| IsLeast(l, rest);
      assert forall x <- ids :: x == m || x in rest;
      assert IsLeast(if m < l then m else l, ids);
    }
  }

  function Least(ids: set<nat>): (m: nat)
    requires ids != {}
    ensures m in ids && forall x <- ids :: m <= x
  {
    LeastExists(ids);
    var m :| m in ids && IsLeast(m, ids);
    m
  }
}
