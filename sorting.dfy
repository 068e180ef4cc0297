/** Ascending order of slot ids, as `sorted(Comparator.comparingInt(ParkingSlot::getId))` produces it. */
module Sorting {
  import opened JavaInt

  predicate StrictlyIncreasing(s: seq<int32>)
  {
    forall i, j :: 0 <= i < j < |s| ==> s[i] < s[j]
  }

  lemma {:induction false} LeastElement(s: set<int32>) returns (m: int32)
    requires s != {}
    ensures m in s && forall x :: x in s ==> m <= x
    decreases |s|
  {
    var y :| y in s;
    if s == {y} {
      m := y;
    } else {
      var rest := s - {y};
      var n := LeastElement(rest);
      m := if y < n then y else n;
      forall x | x in s ensures m <= x {
        if x != y { assert x in rest; }
      }
    }
  }

  lemma MinimumExists(s: set<int32>)
    requires s != {}
    ensures exists m :: m in s && forall x :: x in s ==> m <= x
  {
    var m := LeastElement(s);
  }

  function Minimum(s: set<int32>): (m: int32)
    requires s != {}
    ensures m in s && forall x :: x in s ==> m <= x
  {
    MinimumExists(s);
    var m :| m in s && forall x :: x in s ==> m <= x;
    m
  }

  /** The elements of s in strictly ascending order. */
  function Sorted(s: set<int32>): (r: seq<int32>)
    ensures |r| == |s|
    ensures forall x :: x in r <==> x in s
    ensures StrictlyIncreasing(r)
    decreases |s|
  {
    if s == {} then [] else
      var m := Minimum(s);
      var rest := Sorted(s - {m});
      PrependLeast(m, rest);
      [m] + rest
  }

  /** Putting an element below all others in front keeps the sequence strictly increasing. */
  lemma PrependLeast(m: int32, rest: seq<int32>)
    requires StrictlyIncreasing(rest)
    requires forall x :: x in rest ==> m < x
    ensures StrictlyIncreasing([m] + rest)
    ensures forall x :: x in [m] + rest <==> x == m || x in rest
  {
    var r := [m] + rest;
    forall i, j | 0 <= i < j < |r| ensures r[i] < r[j] {
      assert r[j] == rest[j - 1] && rest[j - 1] in rest;
      if i > 0 { assert r[i] == rest[i - 1]; }
    }
  }

  /** The first element of a strictly increasing sequence is the least of its elements. */
  lemma HeadIsLeast(s: set<int32>, r: seq<int32>)
    requires StrictlyIncreasing(r) && r != []
    requires forall x :: x in r <==> x in s
    ensures s != {} && r[0] == Minimum(s)
  {
    assert r[0] in s;
    var m := Minimum(s);
    var i :| 0 <= i < |r| && r[i] == m;
    assert r[0] <= m;
    if i > 0 { assert r[0] < r[i]; }
  }

  /** Dropping the head of a strictly increasing sequence drops exactly that element. */
  lemma TailElements(s: set<int32>, r: seq<int32>)
    requires StrictlyIncreasing(r) && r != []
    requires forall x :: x in r <==> x in s
    ensures StrictlyIncreasing(r[1..])
    ensures forall x :: x in r[1..] <==> x in s - {r[0]}
  {
    var rest := r[1..];
    forall x ensures x in rest <==> x in s - {r[0]} {
      if x in rest {
        var i :| 0 <= i < |rest| && rest[i] == x;
        assert r[i + 1] == x && r[0] < r[i + 1];
      }
    }
  }

  lemma EmptyWhenNoElement(s: set<int32>, r: seq<int32>)
    requires r == []
    requires forall x :: x in r <==> x in s
    ensures Sorted(s) == r
  {
  }

  lemma SortedUnfold(s: set<int32>, r: seq<int32>)
    requires s != {} && r != []
    requires r[0] == Minimum(s) && r[1..] == Sorted(s - {r[0]})
    ensures r == Sorted(s)
  {
    assert r == [r[0]] + r[1..];
  }

  /** A strictly increasing sequence is determined by its elements. */
  lemma {:induction false} SortedIsUnique(s: set<int32>, r: seq<int32>)
    requires StrictlyIncreasing(r)
    requires forall x :: x in r <==> x in s
    ensures r == Sorted(s)
    decreases |r|
  {
    if r == [] {
      EmptyWhenNoElement(s, r);
    } else {
      HeadIsLeast(s, r);
      TailElements(s, r);
      SortedIsUnique(s - {r[0]}, r[1..]);
      SortedUnfold(s, r);
    }
  }
}
