/** The order in which an iterator visits a std::map with integer keys. */
module IntOrder {
  import opened Text

  ghost predicate IsMin(k: int32, s: set<int32>) { k in s && forall j | j in s :: k <= j }

  lemma {:induction false} MinExists(s: set<int32>)
    requires s != {}
    ensures exists k :: IsMin(k, s)
  {
    var x :| x in s;
    var rest := s - {x};
    assert forall j | j in s :: j == x || j in rest;
    if rest == {} {
      assert IsMin(x, s);
    } else {
      MinExists(rest);
      var k :| IsMin(k, rest);
      assert IsMin(if x < k then x else k, s);
    }
  }

  function Min(s: set<int32>): (k: int32)
    requires s != {}
    ensures IsMin(k, s)
  {
    MinExists(s);
    var k :| k in s && forall j | j in s :: k <= j;
    k
  }

  function Sorted(s: set<int32>): (ks: seq<int32>)
    ensures forall k :: k in ks <==> k in s
    ensures forall i, j | 0 <= i < j < |ks| :: ks[i] < ks[j]
  {
    if s == {} then [] else [Min(s)] + Sorted(s - {Min(s)})
  }
}
