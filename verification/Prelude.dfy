/** Small shared vocabulary: optional values, minimum and maximum, and Python's order on strings. */
module Prelude {

  datatype Option<+T> = None | Some(value: T) {
    function GetOr(default: T): T {
      if Some? then value else default
    }
  }

  function Min(a: int, b: int): (least: int)
    ensures least <= a && least <= b && (least == a || least == b)
  {
    if a <= b then a else b
  }

  function Max(a: int, b: int): (most: int)
    ensures most >= a && most >= b && (most == a || most == b)
  {
    if a >= b then a else b
  }

  /** Index of the last member with this key. */
  function LastIndex<T, K(==)>(keyOf: T -> K, s: seq<T>, key: K): (at: Option<nat>)
    ensures at.Some? ==> at.value < |s| && keyOf(s[at.value]) == key
    ensures at.Some? ==> forall k :: at.value < k < |s| ==> keyOf(s[k]) != key
    ensures at.None? ==> forall k :: 0 <= k < |s| ==> keyOf(s[k]) != key
  {
    if s == [] then None
    else if keyOf(s[|s| - 1]) == key then Some(|s| - 1)
    else LastIndex(keyOf, s[..|s| - 1], key)
  }

  lemma DropFirstOfAppend<T>(a: seq<T>, b: seq<T>)
    requires a != []
    ensures (a + b)[0] == a[0] && (a + b)[1..] == a[1..] + b
  {
  }

  lemma MembersOfRest<T>(s: seq<T>)
    requires s != []
    ensures s[0] in s && forall x :: x in s[1..] ==> x in s
  {
  }

  lemma DropLastOfAppend<T>(a: seq<T>, b: seq<T>)
    requires b != []
    ensures (a + b)[|a + b| - 1] == b[|b| - 1] && (a + b)[..|a + b| - 1] == a + b[..|b| - 1]
  {
  }

  lemma FullSlices<T>(s: seq<T>)
    ensures s[0..] == s && s[..|s|] == s
  {
  }

  lemma CutAt<T>(s: seq<T>, k: nat)
    requires k <= |s|
    ensures s[..k] + s[k..] == s
  {
  }

  lemma ReplaceAt<T>(s: seq<T>, k: nat, x: T)
    requires k < |s|
    ensures s[k..][0] == s[k] && s[k..][1..] == s[k + 1..]
    ensures s[..k] + ([x] + s[k + 1..]) == s[k := x]
  {
  }

  lemma TakeOneMore<T>(s: seq<T>, n: nat)
    requires n < |s|
    ensures s[..n + 1] == s[..n] + [s[n]]
  {
  }

  lemma AppendAssociative<T>(a: seq<T>, b: seq<T>, c: seq<T>)
    ensures (a + b) + c == a + (b + c)
  {
  }

  /** Lexicographic order by code point, as Python compares strings. */
  predicate StringLe(a: string, b: string) {
    a == "" || (b != "" && (a[0] < b[0] || (a[0] == b[0] && StringLe(a[1..], b[1..]))))
  }

  /** The first place where two strings differ decides, and a proper prefix comes first. */
  lemma {:induction false} StringLeIff(a: string, b: string, n: nat)
    requires n <= |a| && n <= |b| && a[..n] == b[..n]
    requires n == |a| || n == |b| || a[n] != b[n]
    ensures StringLe(a, b) <==> n == |a| || (n < |b| && a[n] < b[n])
  {
    if n > 0 {
      assert a[0] == a[..n][0] == b[..n][0] == b[0];
      assert a[1..][..n - 1] == a[..n][1..] && b[1..][..n - 1] == b[..n][1..];
      StringLeIff(a[1..], b[1..], n - 1);
    }
  }

  lemma {:induction false} StringLeTotal(a: string, b: string)
    ensures StringLe(a, b) || StringLe(b, a)
  {
    if a != "" && b != "" && a[0] == b[0] {
      StringLeTotal(a[1..], b[1..]);
    }
  }

  lemma {:induction false} StringLeTransitive(a: string, b: string, c: string)
    requires StringLe(a, b) && StringLe(b, c)
    ensures StringLe(a, c)
  {
    if a != "" && a[0] == b[0] == c[0] {
      StringLeTransitive(a[1..], b[1..], c[1..]);
    }
  }

  lemma {:induction false} StringLeAntisymmetric(a: string, b: string)
    requires StringLe(a, b) && StringLe(b, a)
    ensures a == b
  {
    if a != "" && b != "" {
      StringLeAntisymmetric(a[1..], b[1..]);
      assert a == [a[0]] + a[1..] && b == [b[0]] + b[1..];
    }
  }
}
