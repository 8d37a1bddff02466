/** `sorted` and `ORDER BY`: a stable insertion sort, and the uniqueness of a sorted permutation. */
module Ordering {

  ghost predicate TotalPreorder<T(!new)>(le: (T, T) -> bool) {
    && (forall x, y :: le(x, y) || le(y, x))
    && (forall x, y, z :: le(x, y) && le(y, z) ==> le(x, z))
  }

  ghost predicate SortedBy<T>(le: (T, T) -> bool, s: seq<T>) {
    forall i, j :: 0 <= i < j < |s| ==> le(s[i], s[j])
  }

  /** No two different members of s compare equal. */
  ghost predicate Separates<T>(le: (T, T) -> bool, s: seq<T>) {
    forall x, y :: x in s && y in s && le(x, y) && le(y, x) ==> x == y
  }

  /** Puts x before the first member it does not exceed, so equal members keep their order. */
  function Insert<T>(le: (T, T) -> bool, x: T, s: seq<T>): seq<T> {
    if s == [] || le(x, s[0]) then [x] + s else [s[0]] + Insert(le, x, s[1..])
  }

  function Sort<T>(le: (T, T) -> bool, s: seq<T>): seq<T> {
    if s == [] then [] else Insert(le, s[0], Sort(le, s[1..]))
  }

  lemma {:induction false} InsertPermutes<T>(le: (T, T) -> bool, x: T, s: seq<T>)
    ensures multiset(Insert(le, x, s)) == multiset{x} + multiset(s)
  {
    if s != [] && !le(x, s[0]) {
      InsertPermutes(le, x, s[1..]);
      assert s == [s[0]] + s[1..];
    }
  }

  lemma {:induction false} InsertSorted<T(!new)>(le: (T, T) -> bool, x: T, s: seq<T>)
    requires TotalPreorder(le) && SortedBy(le, s)
    ensures SortedBy(le, Insert(le, x, s))
  {
    if s != [] && !le(x, s[0]) {
      var t := Insert(le, x, s[1..]);
      InsertSorted(le, x, s[1..]);
      InsertPermutes(le, x, s[1..]);
      forall k | 0 <= k < |t| ensures le(s[0], t[k]) {
        assert t[k] in multiset(t);
        assert t[k] == x || t[k] in s[1..];
      }
    }
  }

  lemma {:induction false} SortPermutes<T>(le: (T, T) -> bool, s: seq<T>)
    ensures multiset(Sort(le, s)) == multiset(s)
  {
    if s != [] {
      SortPermutes(le, s[1..]);
      InsertPermutes(le, s[0], Sort(le, s[1..]));
      assert s == [s[0]] + s[1..];
    }
  }

  lemma {:induction false} SortSorted<T(!new)>(le: (T, T) -> bool, s: seq<T>)
    requires TotalPreorder(le)
    ensures SortedBy(le, Sort(le, s))
  {
    if s != [] {
      SortSorted(le, s[1..]);
      InsertSorted(le, s[0], Sort(le, s[1..]));
    }
  }

  /** The members that compare equal to x, in the order in which they come. */
  function TiesWith<T>(le: (T, T) -> bool, x: T, s: seq<T>): seq<T> {
    if s == [] then [] else (if le(x, s[0]) && le(s[0], x) then [s[0]] else []) + TiesWith(le, x, s[1..])
  }

  lemma TiesOfFirst<T>(le: (T, T) -> bool, x: T, y: T, s: seq<T>)
    ensures TiesWith(le, x, [y] + s) == (if le(x, y) && le(y, x) then [y] else []) + TiesWith(le, x, s)
  {
    assert ([y] + s)[1..] == s;
  }

  lemma {:induction false} InsertKeepsTies<T(!new)>(le: (T, T) -> bool, y: T, s: seq<T>, x: T)
    requires TotalPreorder(le)
    ensures TiesWith(le, x, Insert(le, y, s)) == (if le(x, y) && le(y, x) then [y] else []) + TiesWith(le, x, s)
  {
    if s == [] || le(y, s[0]) {
      TiesOfFirst(le, x, y, s);
    } else {
      var inserted := Insert(le, y, s[1..]);
      InsertKeepsTies(le, y, s[1..], x);
      TiesOfFirst(le, x, s[0], inserted);
      assert le(x, y) && le(y, x) ==> !le(x, s[0]);
    }
  }

  /** The sort is stable: members that compare equal keep the order they came in. */
  lemma {:induction false} SortKeepsTies<T(!new)>(le: (T, T) -> bool, s: seq<T>, x: T)
    requires TotalPreorder(le)
    ensures TiesWith(le, x, Sort(le, s)) == TiesWith(le, x, s)
  {
    if s != [] {
      SortKeepsTies(le, s[1..], x);
      InsertKeepsTies(le, s[0], Sort(le, s[1..]), x);
    }
  }

  lemma SameMembers<T>(s: seq<T>, t: seq<T>)
    requires multiset(s) == multiset(t)
    ensures |s| == |t|
    ensures forall x :: x in s <==> x in t
  {
    assert |multiset(s)| == |s| && |multiset(t)| == |t|;
    assert forall x :: x in s <==> x in multiset(s);
    assert forall x :: x in t <==> x in multiset(t);
  }

  lemma MultisetWithout<T>(s: seq<T>, k: nat)
    requires k < |s|
    ensures multiset(s[..k] + s[k + 1..]) == multiset(s) - multiset{s[k]}
  {
    assert s == s[..k] + [s[k]] + s[k + 1..];
  }

  lemma SplitFirst<T>(s: seq<T>)
    requires s != []
    ensures multiset(s[1..]) == multiset(s) - multiset{s[0]}
  {
    assert s == [s[0]] + s[1..];
  }

  lemma SameLeast<T>(le: (T, T) -> bool, s: seq<T>, t: seq<T>)
    requires s != [] && t != [] && s[0] in t && t[0] in s
    requires SortedBy(le, s) && SortedBy(le, t) && Separates(le, s)
    ensures s[0] == t[0]
  {
    var i :| 0 <= i < |t| && t[i] == s[0];
    var j :| 0 <= j < |s| && s[j] == t[0];
    if i != 0 && j != 0 {
      assert le(s[0], s[j]) && le(t[0], t[i]);
    }
  }

  /** When the order tells members apart, a sorted sequence is determined by its multiset. */
  lemma {:induction false} SortedPermutationUnique<T>(le: (T, T) -> bool, s: seq<T>, t: seq<T>)
    requires multiset(s) == multiset(t)
    requires SortedBy(le, s) && SortedBy(le, t) && Separates(le, s)
    ensures s == t
  {
    SameMembers(s, t);
    if s != [] {
      SameLeast(le, s, t);
      assert s == [s[0]] + s[1..] && t == [t[0]] + t[1..];
      SplitFirst(s);
      SplitFirst(t);
      assert Separates(le, s[1..]) by {
        assert forall x :: x in s[1..] ==> x in s;
      }
      SortedPermutationUnique(le, s[1..], t[1..]);
    }
  }

  /** Sorting forgets the order of the input when the order tells members apart. */
  lemma SortForgetsOrder<T(!new)>(le: (T, T) -> bool, s: seq<T>, t: seq<T>)
    requires TotalPreorder(le) && multiset(s) == multiset(t) && Separates(le, s)
    ensures Sort(le, s) == Sort(le, t)
  {
    SortPermutes(le, s);
    SortPermutes(le, t);
    SortSorted(le, s);
    SortSorted(le, t);
    SameMembers(s, Sort(le, s));
    SortedPermutationUnique(le, Sort(le, s), Sort(le, t));
  }

  // Sequences without repetition

  ghost predicate NoDuplicates<T>(s: seq<T>) {
    forall i, j :: 0 <= i < j < |s| ==> s[i] != s[j]
  }

  lemma {:induction false} CountOfNoDuplicates<T>(s: seq<T>, x: T)
    requires NoDuplicates(s)
    ensures multiset(s)[x] == if x in s then 1 else 0
  {
    if s != [] {
      CountOfNoDuplicates(s[1..], x);
      assert s == [s[0]] + s[1..];
    }
  }

  lemma SameMembersSameMultiset<T(!new)>(s: seq<T>, t: seq<T>)
    requires NoDuplicates(s) && NoDuplicates(t) && forall x :: x in s <==> x in t
    ensures multiset(s) == multiset(t)
  {
    forall x ensures multiset(s)[x] == multiset(t)[x] {
      CountOfNoDuplicates(s, x);
      CountOfNoDuplicates(t, x);
    }
  }

  lemma TwicePresent<T>(s: seq<T>, i: nat, j: nat)
    requires i < j < |s| && s[i] == s[j]
    ensures multiset(s)[s[i]] >= 2
  {
    assert s == s[..i] + [s[i]] + s[i + 1..j] + [s[j]] + s[j + 1..];
  }

  lemma NoDuplicatesPermute<T>(s: seq<T>, t: seq<T>)
    requires NoDuplicates(s) && multiset(s) == multiset(t)
    ensures NoDuplicates(t)
  {
    forall i, j | 0 <= i < j < |t| ensures t[i] != t[j] {
      CountOfNoDuplicates(s, t[i]);
      if t[i] == t[j] {
        TwicePresent(t, i, j);
      }
    }
  }

  ghost predicate DistinctBy<T, K>(keyOf: T -> K, s: seq<T>) {
    forall i, j :: 0 <= i < j < |s| ==> keyOf(s[i]) != keyOf(s[j])
  }

  /** Keys that are distinct in one order are distinct in every order. */
  lemma DistinctByPermutes<T, K>(keyOf: T -> K, s: seq<T>, t: seq<T>)
    requires DistinctBy(keyOf, s) && multiset(s) == multiset(t)
    ensures DistinctBy(keyOf, t)
  {
    SameMembers(s, t);
    assert NoDuplicates(s);
    NoDuplicatesPermute(s, t);
    forall i, j | 0 <= i < j < |t| ensures keyOf(t[i]) != keyOf(t[j]) {
      assert t[i] in s && t[j] in s;
    }
  }
}
