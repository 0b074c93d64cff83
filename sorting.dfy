/**
 * A stable insertion sort, the model of Python's `list.sort` and `sorted`
 * (both stable) under a total preorder.
 */
module Sorting {

  ghost predicate TotalPreorder<T(!new)>(le: (T, T) -> bool) {
    && (forall a, b :: le(a, b) || le(b, a))
    && (forall a, b, c :: le(a, b) && le(b, c) ==> le(a, c))
  }

  predicate Sorted<T>(s: seq<T>, le: (T, T) -> bool) {
    forall i, j :: 0 <= i < j < |s| ==> le(s[i], s[j])
  }

  /** Insert `x` after the last element that is not above it. */
  function Insert<T>(x: T, s: seq<T>, le: (T, T) -> bool): (r: seq<T>)
    ensures multiset(r) == multiset(s) + multiset{x}
    ensures |r| == |s| + 1
  {
    if s == [] then [x]
    else if le(s[|s| - 1], x) then s + [x]
    else
      var init := s[..|s| - 1];
      assert s == init + [s[|s| - 1]];
      Insert(x, init, le) + [s[|s| - 1]]
  }

  /** Sort by inserting each element of the input, left to right. */
  function Sort<T>(s: seq<T>, le: (T, T) -> bool): (r: seq<T>)
    ensures multiset(r) == multiset(s)
    ensures |r| == |s|
  {
    if s == [] then []
    else
      var init := s[..|s| - 1];
      assert s == init + [s[|s| - 1]];
      Insert(s[|s| - 1], Sort(init, le), le)
  }

  lemma {:induction false} InsertSorted<T(!new)>(x: T, s: seq<T>, le: (T, T) -> bool)
    requires TotalPreorder(le)
    requires Sorted(s, le)
    ensures Sorted(Insert(x, s, le), le)
    decreases |s|
  {
    if s != [] && !le(s[|s| - 1], x) {
      var init := s[..|s| - 1];
      var last := s[|s| - 1];
      InsertSorted(x, init, le);
      var t := Insert(x, init, le);
      forall i | 0 <= i < |t| ensures le(t[i], last) {
        assert t[i] in multiset(t);
        if t[i] != x {
          assert t[i] in multiset(init);
          var k :| 0 <= k < |init| && init[k] == t[i];
          assert s[k] == t[i];
        }
      }
    }
  }

  /** The result is ordered. */
  lemma {:induction false} SortSorted<T(!new)>(s: seq<T>, le: (T, T) -> bool)
    requires TotalPreorder(le)
    ensures Sorted(Sort(s, le), le)
    decreases |s|
  {
    if s != [] {
      SortSorted(s[..|s| - 1], le);
      InsertSorted(s[|s| - 1], Sort(s[..|s| - 1], le), le);
    }
  }

  /** The elements of `s` that compare equal to `y`, in their order in `s`. */
  function Ties<T>(s: seq<T>, le: (T, T) -> bool, y: T): (r: seq<T>)
    ensures |r| <= |s|
  {
    if s == [] then []
    else
      var last := s[|s| - 1];
      Ties(s[..|s| - 1], le, y) + (if le(last, y) && le(y, last) then [last] else [])
  }

  lemma TiesAppendOne<T>(s: seq<T>, x: T, le: (T, T) -> bool, y: T)
    ensures Ties(s + [x], le, y) == Ties(s, le, y) + (if le(x, y) && le(y, x) then [x] else [])
  {
    assert (s + [x])[..|s|] == s;
  }

  /** Whether `a` and `b` compare equal. */
  predicate Tie<T>(le: (T, T) -> bool, a: T, b: T) {
    le(a, b) && le(b, a)
  }

  lemma {:induction false} InsertTies<T(!new)>(x: T, s: seq<T>, le: (T, T) -> bool, y: T)
    requires TotalPreorder(le)
    ensures Ties(Insert(x, s, le), le, y) == Ties(s, le, y) + (if le(x, y) && le(y, x) then [x] else [])
    decreases |s|
  {
    if s == [] {
      assert Ties([x], le, y) == Ties([], le, y) + (if le(x, y) && le(y, x) then [x] else []) by {
        TiesAppendOne([], x, le, y);
        assert [] + [x] == [x];
      }
    } else if le(s[|s| - 1], x) {
      TiesAppendOne(s, x, le, y);
    } else {
      InsertTies(x, s[..|s| - 1], le, y);
      // `x` and the last element cannot both tie with `y`: the last element would then not be above `x`.
      var last := s[|s| - 1];
      assert le(last, y) && le(y, x) ==> le(last, x);
      InsertTiesBelow(x, s, le, y);
    }
  }

  lemma SplitLast<T>(s: seq<T>)
    requires s != []
    ensures s == s[..|s| - 1] + [s[|s| - 1]]
  {
  }

  lemma InsertBelowLast<T>(x: T, s: seq<T>, le: (T, T) -> bool)
    requires s != [] && !le(s[|s| - 1], x)
    ensures Insert(x, s, le) == Insert(x, s[..|s| - 1], le) + [s[|s| - 1]]
  {
  }

  /** The step of `InsertTies` where `x` goes in front of the last element. */
  lemma InsertTiesBelow<T>(x: T, s: seq<T>, le: (T, T) -> bool, y: T)
    requires s != [] && !le(s[|s| - 1], x)
    requires !(Tie(le, x, y) && Tie(le, s[|s| - 1], y))
    requires var init := s[..|s| - 1];
      Ties(Insert(x, init, le), le, y) == Ties(init, le, y) + (if Tie(le, x, y) then [x] else [])
    ensures Ties(Insert(x, s, le), le, y) == Ties(s, le, y) + (if le(x, y) && le(y, x) then [x] else [])
  {
    var init := s[..|s| - 1];
    var last := s[|s| - 1];
    var ins := Insert(x, init, le);
    var a := Ties(init, le, y);
    var tx := if Tie(le, x, y) then [x] else [];
    var tl := if Tie(le, last, y) then [last] else [];
    calc {
      Ties(Insert(x, s, le), le, y);
      { InsertBelowLast(x, s, le); }
      Ties(ins + [last], le, y);
      { TiesAppendOne(ins, last, le, y); }
      a + tx + tl;
      { if tx == [] { assert a + tx == a; } else { assert tl == [] && a + tl == a; } }
      a + tl + tx;
      { TiesAppendOne(init, last, le, y); }
      Ties(init + [last], le, y) + tx;
      { SplitLast(s); }
      Ties(s, le, y) + tx;
    }
  }

  /** Stability: elements that compare equal keep their input order. */
  lemma {:induction false} SortStable<T(!new)>(s: seq<T>, le: (T, T) -> bool, y: T)
    requires TotalPreorder(le)
    ensures Ties(Sort(s, le), le, y) == Ties(s, le, y)
    decreases |s|
  {
    if s != [] {
      var init := s[..|s| - 1];
      SortStable(init, le, y);
      InsertTies(s[|s| - 1], Sort(init, le), le, y);
    }
  }
}
