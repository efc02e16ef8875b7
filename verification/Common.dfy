/** Small shared vocabulary. */
module Common {
  datatype Option<+T> = None | Some(value: T)

  lemma AnyMember<T>(s: set<T>) returns (x: T)
    requires s != {}
    ensures x in s
  {
    x :| x in s;
  }
}

/**
 A stable sort by a pair of integer keys: the meaning of Python's `list.sort(key=...)`
 and of SQL's `ORDER BY` with ties left in row order.
 */
module StableSort {
  predicate Before(a: (int, int), b: (int, int)) {
    a.0 < b.0 || (a.0 == b.0 && a.1 < b.1)
  }

  function Insert<T>(key: T -> (int, int), x: T, s: seq<T>): (r: seq<T>)
    ensures multiset(r) == multiset(s) + multiset{x}
    ensures |r| == |s| + 1
  {
    if s == [] || !Before(key(s[0]), key(x)) then
      assert multiset([x] + s) == multiset(s) + multiset{x};
      [x] + s
    else
      assert s == [s[0]] + s[1..];
      [s[0]] + Insert(key, x, s[1..])
  }

  function Sort<T>(key: T -> (int, int), s: seq<T>): (r: seq<T>)
    ensures multiset(r) == multiset(s)
    ensures |r| == |s|
  {
    if s == [] then []
    else
      assert s == [s[0]] + s[1..];
      Insert(key, s[0], Sort(key, s[1..]))
  }

  ghost predicate Sorted<T>(key: T -> (int, int), s: seq<T>) {
    forall i, j | 0 <= i < j < |s| :: !Before(key(s[j]), key(s[i]))
  }

  /** The entries of `s` whose key is `k`, in order. */
  function Having<T>(key: T -> (int, int), k: (int, int), s: seq<T>): seq<T> {
    if s == [] then []
    else (if key(s[0]) == k then [s[0]] else []) + Having(key, k, s[1..])
  }

  lemma InsertMember<T>(key: T -> (int, int), x: T, s: seq<T>, y: T)
    ensures y in Insert(key, x, s) <==> y == x || y in s
  {
    assert y in Insert(key, x, s) <==> y in multiset(Insert(key, x, s));
    assert y in s <==> y in multiset(s);
  }

  lemma {:induction false} InsertSorted<T>(key: T -> (int, int), x: T, s: seq<T>)
    requires Sorted(key, s)
    ensures Sorted(key, Insert(key, x, s))
  {
    if s != [] && Before(key(s[0]), key(x)) {
      InsertSorted(key, x, s[1..]);
      var t := Insert(key, x, s[1..]);
      forall j | 0 <= j < |t|
        ensures !Before(key(t[j]), key(s[0]))
      {
        InsertMember(key, x, s[1..], t[j]);
        if t[j] in s[1..] {
          var i :| 1 <= i < |s| && s[i] == t[j];
        }
      }
    }
  }

  lemma HavingCons<T>(key: T -> (int, int), k: (int, int), x: T, s: seq<T>)
    ensures Having(key, k, [x] + s) == (if key(x) == k then [x] else []) + Having(key, k, s)
  {
    assert ([x] + s)[1..] == s;
  }

  lemma {:induction false} InsertStable<T>(key: T -> (int, int), x: T, s: seq<T>, k: (int, int))
    ensures Having(key, k, Insert(key, x, s)) == Having(key, k, [x] + s)
  {
    if s != [] && Before(key(s[0]), key(x)) {
      InsertStable(key, x, s[1..], k);
      HavingCons(key, k, x, s[1..]);
      HavingCons(key, k, x, s);
      HavingCons(key, k, s[0], Insert(key, x, s[1..]));
    }
  }

  /** The result is ordered, and entries with equal keys keep their relative order. */
  lemma {:induction false} SortIsStable<T>(key: T -> (int, int), s: seq<T>, k: (int, int))
    ensures Sorted(key, Sort(key, s))
    ensures Having(key, k, Sort(key, s)) == Having(key, k, s)
  {
    if s != [] {
      var t := Sort(key, s[1..]);
      SortIsStable(key, s[1..], k);
      InsertSorted(key, s[0], t);
      InsertStable(key, s[0], t, k);
      HavingCons(key, k, s[0], t);
    }
  }

  // ---------------------------------------------------------------------------------------
  // Where an entry ends up

  /** Whether entry j comes before entry i: a smaller key, or the same key and an earlier place. */
  predicate GoesBefore<T>(key: T -> (int, int), s: seq<T>, j: nat, i: nat)
    requires i < |s| && j < |s|
  {
    Before(key(s[j]), key(s[i])) || (key(s[j]) == key(s[i]) && j < i)
  }

  /** How many of the first n entries come before entry i. */
  function Ahead<T>(key: T -> (int, int), s: seq<T>, i: nat, n: nat): nat
    requires i < |s| && n <= |s|
  {
    if n == 0 then 0 else Ahead(key, s, i, n - 1) + if GoesBefore(key, s, n - 1, i) then 1 else 0
  }

  function Rank<T>(key: T -> (int, int), s: seq<T>, i: nat): nat
    requires i < |s|
  {
    Ahead(key, s, i, |s|)
  }

  function Smaller<T>(key: T -> (int, int), s: seq<T>, k: (int, int)): nat {
    if s == [] then 0 else (if Before(key(s[0]), k) then 1 else 0) + Smaller(key, s[1..], k)
  }

  lemma {:induction false} SmallerAfterInsert<T>(key: T -> (int, int), x: T, s: seq<T>, k: (int, int))
    ensures Smaller(key, Insert(key, x, s), k) == Smaller(key, s, k) + if Before(key(x), k) then 1 else 0
  {
    assert ([x] + s)[1..] == s;
    if s != [] && Before(key(s[0]), key(x)) {
      var r := Insert(key, x, s[1..]);
      SmallerAfterInsert(key, x, s[1..], k);
      assert ([s[0]] + r)[1..] == r;
    }
  }

  lemma {:induction false} SmallerAfterSort<T>(key: T -> (int, int), s: seq<T>, k: (int, int))
    ensures Smaller(key, Sort(key, s), k) == Smaller(key, s, k)
  {
    if s != [] {
      SmallerAfterSort(key, s[1..], k);
      SmallerAfterInsert(key, s[0], Sort(key, s[1..]), k);
    }
  }

  /** Inserting puts the new entry behind the smaller ones and moves the others back by one. */
  lemma {:induction false} InsertPlaces<T>(key: T -> (int, int), x: T, s: seq<T>, q: nat)
    requires Sorted(key, s)
    ensures Smaller(key, s, key(x)) <= |s| && Insert(key, x, s)[Smaller(key, s, key(x))] == x
    ensures q < |s| ==>
              Insert(key, x, s)[if Before(key(s[q]), key(x)) then q else q + 1] == s[q]
  {
    if s != [] {
      if Before(key(s[0]), key(x)) {
        InsertPlaces(key, x, s[1..], if q > 0 then q - 1 else 0);
      } else {
        NoneSmaller(key, s, key(x));
      }
    }
  }

  lemma {:induction false} NoneSmaller<T>(key: T -> (int, int), s: seq<T>, k: (int, int))
    requires forall i | 0 <= i < |s| :: !Before(key(s[i]), k)
    ensures Smaller(key, s, k) == 0
  {
    if s != [] {
      NoneSmaller(key, s[1..], k);
    }
  }

  lemma {:induction false} AheadOfTail<T>(key: T -> (int, int), s: seq<T>, i: nat, n: nat)
    requires i + 1 < |s| && n < |s|
    ensures Ahead(key, s, i + 1, n + 1)
         == Ahead(key, s[1..], i, n) + if GoesBefore(key, s, 0, i + 1) then 1 else 0
  {
    if n > 0 {
      AheadOfTail(key, s, i, n - 1);
    } else {
      assert Ahead(key, s, i + 1, 0) == 0;
    }
  }

  lemma {:induction false} AheadOfFirst<T>(key: T -> (int, int), s: seq<T>, n: nat)
    requires n < |s|
    ensures Ahead(key, s, 0, n + 1) == Smaller(key, s[1..n + 1], key(s[0]))
  {
    if n == 0 {
      assert Ahead(key, s, 0, 0) == 0;
    } else {
      AheadOfFirst(key, s, n - 1);
      assert s[1..n + 1] == s[1..n] + [s[n]];
      SmallerAppend(key, s[1..n], s[n], key(s[0]));
    }
  }

  lemma {:induction false} SmallerAppend<T>(key: T -> (int, int), s: seq<T>, x: T, k: (int, int))
    ensures Smaller(key, s + [x], k) == Smaller(key, s, k) + if Before(key(x), k) then 1 else 0
  {
    if s == [] {
      assert s + [x] == [x];
    } else {
      SmallerAppend(key, s[1..], x, k);
      assert (s + [x])[1..] == s[1..] + [x];
    }
  }

  lemma RankOfFirst<T>(key: T -> (int, int), s: seq<T>)
    requires s != []
    ensures Rank(key, s, 0) == Smaller(key, Sort(key, s[1..]), key(s[0]))
  {
    AheadOfFirst(key, s, |s| - 1);
    assert s[1..|s|] == s[1..];
    SmallerAfterSort(key, s[1..], key(s[0]));
  }

  lemma RankOfLater<T>(key: T -> (int, int), s: seq<T>, i: nat)
    requires i + 1 < |s|
    ensures Rank(key, s, i + 1) == Rank(key, s[1..], i) + if Before(key(s[i + 1]), key(s[0])) then 0 else 1
  {
    AheadOfTail(key, s, i, |s| - 1);
    assert GoesBefore(key, s, 0, i + 1) <==> !Before(key(s[i + 1]), key(s[0]));
  }

  lemma PlaceOfLater<T>(key: T -> (int, int), s: seq<T>, t: seq<T>, i: nat, r: nat)
    requires 0 < i < |s| && Sorted(key, t)
    requires r == Rank(key, s[1..], i - 1) && r < |t| && t[r] == s[i]
    ensures Rank(key, s, i) <= |t| && Insert(key, s[0], t)[Rank(key, s, i)] == s[i]
  {
    RankOfLater(key, s, i - 1);
    InsertPlaces(key, s[0], t, r);
  }

  /** Sorting moves entry i to its rank. */
  lemma {:induction false} SortPlaces<T>(key: T -> (int, int), s: seq<T>, i: nat)
    requires i < |s|
    ensures Rank(key, s, i) < |s| && Sort(key, s)[Rank(key, s, i)] == s[i]
  {
    var t := Sort(key, s[1..]);
    assert Sorted(key, t) by {
      SortIsStable(key, s[1..], (0, 0));
    }
    if i == 0 {
      RankOfFirst(key, s);
      InsertPlaces(key, s[0], t, 0);
    } else {
      SortPlaces(key, s[1..], i - 1);
      PlaceOfLater(key, s, t, i, Rank(key, s[1..], i - 1));
    }
  }
}
