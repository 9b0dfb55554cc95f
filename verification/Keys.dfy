/** The least key of an ordered map, where iteration starts. */
module Keys {

  lemma {:induction false} LeastKeyExists(keys: set<nat>) returns (k: nat)
    requires keys != {}
    ensures k in keys && forall j :: j in keys ==> k <= j
  {
    k :| k in keys;
    var others := keys - {k};
    assert forall j :: j in keys ==> j == k || j in others;
    if others != {} {
      var least := LeastKeyExists(others);
      if least < k {
        k := least;
      }
    }
  }

  function LeastKey(keys: set<nat>): (k: nat)
    requires keys != {}
    ensures k in keys && forall j :: j in keys ==> k <= j
  {
    assert exists k :: k in keys && forall j :: j in keys ==> k <= j by {
      var k := LeastKeyExists(keys);
    }
    var k :| k in keys && forall j :: j in keys ==> k <= j;
    k
  }
}
