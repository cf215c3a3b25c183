/** `list.sort(key=...)`: a stable sort, and what several passes of it amount to. */
module Ordering {

  /** A total preorder: `le` compares keys, so distinct elements may tie. */
  ghost predicate TotalPreorder<T(!new)>(le: (T, T) -> bool) {
    && (forall x, y :: le(x, y) || le(y, x))
    && (forall x, y, z :: le(x, y) && le(y, z) ==> le(x, z))
  }

  ghost predicate Sorted<T>(le: (T, T) -> bool, s: seq<T>) {
    forall i, j :: 0 <= i < j < |s| ==> le(s[i], s[j])
  }

  /** Ahead of everything that is not strictly before it: equal keys keep their order. */
  function Insert<T>(le: (T, T) -> bool, x: T, s: seq<T>): seq<T> {
    if s == [] || le(x, s[0]) then [x] + s
    else [s[0]] + Insert(le, x, s[1..])
  }

  /** The stable sort of `s` by `le`. */
  function StableSort<T>(le: (T, T) -> bool, s: seq<T>): seq<T> {
    if s == [] then [] else Insert(le, s[0], StableSort(le, s[1..]))
  }

  lemma {:induction false} InsertMembers<T>(le: (T, T) -> bool, x: T, s: seq<T>)
    ensures forall y :: y in Insert(le, x, s) <==> y == x || y in s
  {
    if s != [] && !le(x, s[0]) {
      InsertMembers(le, x, s[1..]);
      assert s == [s[0]] + s[1..];
    }
  }

  lemma {:induction false} InsertSorts<T(!new)>(le: (T, T) -> bool, x: T, s: seq<T>)
    requires TotalPreorder(le) && Sorted(le, s)
    ensures Sorted(le, Insert(le, x, s))
  {
    if s == [] || le(x, s[0]) {
      var r := [x] + s;
      assert forall j :: 1 <= j < |r| ==> r[j] == s[j - 1];
    } else {
      var rest := Insert(le, x, s[1..]);
      InsertSorts(le, x, s[1..]);
      InsertMembers(le, x, s[1..]);
      forall i | 0 <= i < |rest|
        ensures le(s[0], rest[i])
      {
        assert rest[i] in rest;
        if rest[i] != x {
          var k :| 0 <= k < |s[1..]| && s[1..][k] == rest[i];
          assert s[k + 1] == rest[i];
        }
      }
    }
  }

  lemma {:induction false} InsertPermutes<T>(le: (T, T) -> bool, x: T, s: seq<T>)
    ensures multiset(Insert(le, x, s)) == multiset{x} + multiset(s)
  {
    if s != [] && !le(x, s[0]) {
      InsertPermutes(le, x, s[1..]);
      assert s == [s[0]] + s[1..];
    }
  }

  lemma {:induction false} StableSortSorts<T(!new)>(le: (T, T) -> bool, s: seq<T>)
    requires TotalPreorder(le)
    ensures Sorted(le, StableSort(le, s))
    ensures multiset(StableSort(le, s)) == multiset(s)
  {
    if s != [] {
      StableSortSorts(le, s[1..]);
      InsertSorts(le, s[0], StableSort(le, s[1..]));
      InsertPermutes(le, s[0], StableSort(le, s[1..]));
      assert s == [s[0]] + s[1..];
    }
  }

  lemma {:induction false} StableSortLength<T>(le: (T, T) -> bool, s: seq<T>)
    ensures |StableSort(le, s)| == |s|
  {
    if s != [] {
      StableSortLength(le, s[1..]);
      InsertLength(le, s[0], StableSort(le, s[1..]));
    }
  }

  lemma {:induction false} InsertLength<T>(le: (T, T) -> bool, x: T, s: seq<T>)
    ensures |Insert(le, x, s)| == |s| + 1
  {
    if s != [] && !le(x, s[0]) {
      InsertLength(le, x, s[1..]);
    }
  }

  // ----- Passes -----

  /** First by `le`, ties by `minor`. */
  ghost predicate Refined<T>(le: (T, T) -> bool, minor: (T, T) -> bool, x: T, y: T) {
    le(x, y) && (le(y, x) ==> minor(x, y))
  }

  ghost function Lexicographic<T>(le: (T, T) -> bool, minor: (T, T) -> bool): (T, T) -> bool {
    (x, y) => Refined(le, minor, x, y)
  }

  lemma {:induction false} InsertIsStable<T(!new)>(le: (T, T) -> bool, minor: (T, T) -> bool, x: T, s: seq<T>)
    requires TotalPreorder(le) && Sorted(Lexicographic(le, minor), s)
    requires forall i :: 0 <= i < |s| ==> minor(x, s[i])
    ensures Sorted(Lexicographic(le, minor), Insert(le, x, s))
  {
    if s == [] || le(x, s[0]) {
      var r := [x] + s;
      assert forall j :: 1 <= j < |r| ==> r[j] == s[j - 1];
      assert forall j :: 0 <= j < |s| ==> le(s[0], s[j]);
    } else {
      var rest := Insert(le, x, s[1..]);
      InsertIsStable(le, minor, x, s[1..]);
      InsertMembers(le, x, s[1..]);
      assert le(s[0], x);
      forall i | 0 <= i < |rest|
        ensures Refined(le, minor, s[0], rest[i])
      {
        assert rest[i] in rest;
        if rest[i] != x {
          var k :| 0 <= k < |s[1..]| && s[1..][k] == rest[i];
          assert Lexicographic(le, minor)(s[0], s[k + 1]);
        }
      }
    }
  }

  lemma {:induction false} StableSortMembers<T>(le: (T, T) -> bool, s: seq<T>)
    ensures forall y :: y in StableSort(le, s) <==> y in s
  {
    if s != [] {
      StableSortMembers(le, s[1..]);
      InsertMembers(le, s[0], StableSort(le, s[1..]));
      assert s == [s[0]] + s[1..];
    }
  }

  /** Sorting a list that is already in `minor` order by `le` leaves it ordered
      by `le` with ties in `minor` order. */
  lemma {:induction false} PassRefines<T(!new)>(le: (T, T) -> bool, minor: (T, T) -> bool, s: seq<T>)
    requires TotalPreorder(le) && Sorted(minor, s)
    ensures Sorted(Lexicographic(le, minor), StableSort(le, s))
  {
    if s != [] {
      var tail := s[1..];
      PassRefines(le, minor, tail);
      StableSortMembers(le, tail);
      forall i | 0 <= i < |StableSort(le, tail)|
        ensures minor(s[0], StableSort(le, tail)[i])
      {
        assert StableSort(le, tail)[i] in tail;
        var k :| 0 <= k < |tail| && tail[k] == StableSort(le, tail)[i];
        assert minor(s[0], s[k + 1]);
      }
      InsertIsStable(le, minor, s[0], StableSort(le, tail));
    }
  }

  // ----- Uniqueness -----

  ghost predicate NoTies<T>(le: (T, T) -> bool, s: seq<T>) {
    forall i, j :: 0 <= i < |s| && 0 <= j < |s| && le(s[i], s[j]) && le(s[j], s[i]) ==> s[i] == s[j]
  }

  /** Two sorted arrangements of one multiset without ties. */
  ghost predicate Rivals<T>(le: (T, T) -> bool, s: seq<T>, t: seq<T>) {
    Sorted(le, s) && Sorted(le, t) && multiset(s) == multiset(t) && NoTies(le, s)
  }

  lemma SameFirst<T>(le: (T, T) -> bool, s: seq<T>, t: seq<T>)
    requires Rivals(le, s, t) && s != [] && t != []
    ensures s[0] == t[0]
  {
    assert s[0] in multiset(t) && t[0] in multiset(s);
    var i :| 0 <= i < |t| && t[i] == s[0];
    var j :| 0 <= j < |s| && s[j] == t[0];
    assert j == 0 || i == 0 || (le(s[0], s[j]) && le(t[0], t[i]));
  }

  lemma TailsRival<T>(le: (T, T) -> bool, s: seq<T>, t: seq<T>)
    requires Rivals(le, s, t) && s != []
    ensures t != [] && s[0] == t[0] && Rivals(le, s[1..], t[1..])
  {
    assert |multiset(s)| == |s| && |multiset(t)| == |t|;
    SameFirst(le, s, t);
    TailKeeps(le, s);
    TailKeeps(le, t);
  }

  lemma TailKeeps<T>(le: (T, T) -> bool, s: seq<T>)
    requires s != []
    ensures Sorted(le, s) ==> Sorted(le, s[1..])
    ensures NoTies(le, s) ==> NoTies(le, s[1..])
    ensures multiset(s[1..]) == multiset(s) - multiset{s[0]}
  {
    assert s == [s[0]] + s[1..];
  }

  /** One list per multiset: a sorted arrangement without ties is determined by
      its elements. */
  lemma {:induction false} SortedUnique<T>(le: (T, T) -> bool, s: seq<T>, t: seq<T>)
    requires Rivals(le, s, t)
    ensures s == t
  {
    if s == [] {
      assert |multiset(t)| == |t|;
    } else {
      TailsRival(le, s, t);
      SortedUnique(le, s[1..], t[1..]);
      assert s == [s[0]] + s[1..] && t == [t[0]] + t[1..];
    }
  }

  // ----- Lists without repetition -----

  ghost predicate Distinct<T>(s: seq<T>) {
    forall i, j :: 0 <= i < j < |s| ==> s[i] != s[j]
  }

  lemma {:induction false} OnceInDistinct<T>(s: seq<T>, x: T)
    requires Distinct(s)
    ensures multiset(s)[x] <= 1
  {
    if s != [] {
      assert s == [s[0]] + s[1..];
      if s[0] == x {
        assert x !in s[1..];
      } else {
        OnceInDistinct(s[1..], x);
      }
    }
  }

  lemma TwiceCounts<T>(t: seq<T>, i: nat, j: nat)
    requires i < j < |t| && t[i] == t[j]
    ensures multiset(t)[t[i]] >= 2
  {
    assert t == t[..j] + t[j..];
    assert t[i] in t[..j] && t[j] in t[j..];
  }

  lemma DistinctPermuted<T>(s: seq<T>, t: seq<T>)
    requires Distinct(s) && multiset(s) == multiset(t)
    ensures Distinct(t)
  {
    forall i, j | 0 <= i < j < |t|
      ensures t[i] != t[j]
    {
      if t[i] == t[j] {
        OnceInDistinct(s, t[i]);
        TwiceCounts(t, i, j);
      }
    }
  }
}
