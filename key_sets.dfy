/** Enumerating the primary keys of a table in ascending order: the least
    key of a non-empty key set. */
module KeySets {

  predicate IsLeast(m: int, ks: set<int>)
  {
    m in ks && forall j :: j in ks ==> m <= j
  }

  lemma {:induction false} LeastExists(ks: set<int>)
    requires exists k :: k in ks
    ensures exists m :: IsLeast(m, ks)
  {
    var x :| x in ks;
    var rest := ks - {x};
    if exists j :: j in rest {
      LeastExists(rest);
      var m :| IsLeast(m, rest);
      var least := if x < m then x else m;
      forall j | j in ks
        ensures least <= j
      {
        if j != x {
          assert j in rest;
        }
      }
      assert IsLeast(least, ks);
    } else {
      forall j | j in ks
        ensures x <= j
      {
        assert j !in rest;
      }
      assert IsLeast(x, ks);
    }
  }

  /** The least key of a non-empty key set. */
  function MinKey(ks: set<int>): (m: int)
    requires exists k :: k in ks
    ensures m in ks && forall j :: j in ks ==> m <= j
  {
    LeastExists(ks);
    var m :| IsLeast(m, ks);
    m
  }
}
