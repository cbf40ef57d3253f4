/** Finite sets: their sizes, and those of integers listed in increasing order, which is what
    `ORDER BY` gives a query. */
module Order {

  predicate Ascends(s: seq<int>) {
    forall i, j :: 0 <= i < j < |s| ==> s[i] < s[j]
  }

  function Min(s: set<int>): (least: int)
    requires s != {}
    ensures least in s && forall x :: x in s ==> least <= x
  {
    MinExists(s);
    var least :| least in s && forall x :: x in s ==> least <= x;
    least
  }

  lemma SubsetSize<T>(a: set<T>, b: set<T>)
    requires a <= b
    ensures |a| <= |b|
  {
    assert b == a + (b - a);
  }

  lemma Pick<T>(s: set<T>) returns (x: T)
    requires s != {}
    ensures x in s
  {
    x :| x in s;
  }

  lemma {:induction false} MinExists(s: set<int>)
    requires s != {}
    ensures exists least :: least in s && forall x :: x in s ==> least <= x
  {
    var pick := Pick(s);
    var rest := s - {pick};
    if rest == {} {
      assert s == {pick};
    } else {
      MinExists(rest);
      var small :| small in rest && forall x :: x in rest ==> small <= x;
      var least := if pick < small then pick else small;
      assert forall x :: x in s ==> x == pick || x in rest;
      assert least in s && forall x :: x in s ==> least <= x;
    }
  }

  function Ascending(s: set<int>): (list: seq<int>)
    ensures Ascends(list) && |list| == |s|
    ensures forall x :: x in list <==> x in s
    decreases |s|
  {
    if s == {} then []
    else
      var least := Min(s);
      var rest := Ascending(s - {least});
      assert forall i :: 0 <= i < |rest| ==> rest[i] in rest;
      [least] + rest
  }

  ghost predicate Lists(list: seq<int>, s: set<int>) {
    Ascends(list) && forall x :: x in list <==> x in s
  }

  /** There is only one such list. */
  lemma {:induction false} AscendingIsUnique(list: seq<int>, s: set<int>)
    requires Lists(list, s)
    ensures list == Ascending(s)
    decreases |list|
  {
    if list == [] {
      assert s == {};
    } else {
      TailOfAscending(list, s);
      AscendingIsUnique(list[1..], s - {Min(s)});
      AscendingSplits(s, list[1..]);
      assert list == [list[0]] + list[1..];
    }
  }

  lemma AscendingSplits(s: set<int>, rest: seq<int>)
    requires s != {} && rest == Ascending(s - {Min(s)})
    ensures Ascending(s) == [Min(s)] + rest
  {
  }

  /** The first of the list is the least of the set, and the rest lists the rest. */
  lemma TailOfAscending(list: seq<int>, s: set<int>)
    requires list != [] && Lists(list, s)
    ensures s != {} && list[0] == Min(s) && Lists(list[1..], s - {Min(s)})
  {
    assert list[0] in list;
    var least := Min(s);
    assert least in list;
    var i :| 0 <= i < |list| && list[i] == least;
    assert list == [list[0]] + list[1..];
    assert list[0] !in list[1..];
  }

  function Above(s: set<int>, bound: int): set<int> {
    set x | x in s && bound < x
  }

  /** Reading on from the last one seen: the rest of the list. */
  lemma Resume(list: seq<int>, s: set<int>, bound: int, k: nat)
    requires Lists(list, s) && k <= |list|
    requires forall i :: 0 <= i < k ==> list[i] <= bound
    requires forall i :: k <= i < |list| ==> bound < list[i]
    ensures list[k..] == Ascending(Above(s, bound))
  {
    var rest := list[k..];
    forall x ensures x in rest <==> x in Above(s, bound) {
      if x in rest {
        var j :| 0 <= j < |rest| && rest[j] == x;
        assert list[k + j] == x;
      }
      if x in Above(s, bound) {
        var j :| 0 <= j < |list| && list[j] == x;
        assert rest[j - k] == x;
      }
    }
    AscendingIsUnique(rest, Above(s, bound));
  }
}
