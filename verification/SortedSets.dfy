/** Python's `sorted` on a set of integers. */
module SortedSets {
  import opened Basics

  lemma MinExists(s: set<int>)
    requires s != {}
    ensures exists m :: m in s && forall x :: x in s ==> m <= x
  {
    var y := HasElement(s);
    if s != {y} {
      var t := s - {y};
      MinExists(t);
      var m :| m in t && forall x :: x in t ==> m <= x;
      var least := if m <= y then m else y;
      assert least in s && forall x :: x in s ==> least <= x by {
        assert forall x :: x in s ==> x == y || x in t;
      }
    } else {
      assert y in s && forall x :: x in s ==> y <= x;
    }
  }

  function SetMin(s: set<int>): (m: int)
    requires s != {}
    ensures m in s && forall x :: x in s ==> m <= x
  {
    MinExists(s);
    var m :| m in s && forall x :: x in s ==> m <= x;
    m
  }

  function Sorted(s: set<int>): (r: seq<int>)
    ensures forall i, j :: 0 <= i < j < |r| ==> r[i] < r[j]
    ensures forall x :: x in s <==> x in r
  {
    if s == {} then [] else
      var m := SetMin(s);
      var rest := Sorted(s - {m});
      assert forall x :: x in s <==> x == m || x in rest;
      [m] + rest
  }
}
