/** Greatest elements of finite sets of integers. */
module IntSets {
  predicate IsMax(m: int, s: set<int>) {
    m in s && forall x :: x in s ==> x <= m
  }

  lemma {:induction false} MaxExists(s: set<int>)
    requires s != {}
    ensures exists m :: IsMax(m, s)
    decreases |s|
  {
    assert (forall e :: e !in s) ==> s == {};
    var e :| e in s;
    if s == {e} {
      assert IsMax(e, s);
    } else {
      MaxExists(s - {e});
      var m :| IsMax(m, s - {e});
      assert forall x :: x in s ==> x == e || x in s - {e};
      assert IsMax(if e > m then e else m, s);
    }
  }

  function Max(s: set<int>): (m: int)
    requires s != {}
    ensures IsMax(m, s)
  {
    MaxExists(s);
    var m :| m in s && IsMax(m, s);
    m
  }
}
