/** The two operations of .NET's `List<T>` that the game's collections use beyond
    `Add`: `Contains`/`IndexOf` and `Remove`, which deletes the FIRST element equal
    to its argument and keeps the order of the others. */
module Lists {

  /** `List<T>.IndexOf`: the position of the first element equal to x, or |s| when
      there is none (where .NET answers -1). */
  function FirstIndex<T(==)>(s: seq<T>, x: T): (i: nat)
    ensures i <= |s|
    ensures i < |s| <==> x in s
    ensures i < |s| ==> s[i] == x
    ensures forall j :: 0 <= j < i ==> s[j] != x
  {
    if s == [] then 0
    else if s[0] == x then 0
    else 1 + FirstIndex(s[1..], x)
  }

  /** `List<T>.Remove`, element by element. */
  function RemoveFirst<T(==)>(s: seq<T>, x: T): (r: seq<T>)
    ensures |r| == if x in s then |s| - 1 else |s|
    ensures forall y :: y in r ==> y in s
  {
    if s == [] then []
    else if s[0] == x then s[1..]
    else [s[0]] + RemoveFirst(s[1..], x)
  }

  /** `Remove` cuts out exactly the element at the first occurrence: everything
      before it and everything after it stays, in order. */
  lemma {:induction false} RemoveFirstCutsFirstOccurrence<T>(s: seq<T>, x: T)
    requires x in s
    ensures RemoveFirst(s, x) == s[..FirstIndex(s, x)] + s[FirstIndex(s, x) + 1..]
    ensures |RemoveFirst(s, x)| == |s| - 1
  {
    if s[0] != x {
      RemoveFirstCutsFirstOccurrence(s[1..], x);
      var i := FirstIndex(s[1..], x);
      assert s[1..][..i] + s[1..][i + 1..] == s[1..i + 1] + s[i + 2..];
      assert [s[0]] + s[1..i + 1] == s[..i + 1];
    }
  }

  /** Removing an element that is absent changes nothing. */
  lemma {:induction false} RemoveFirstAbsent<T>(s: seq<T>, x: T)
    requires x !in s
    ensures RemoveFirst(s, x) == s
  {
    if s != [] {
      assert x !in s[1..];
      RemoveFirstAbsent(s[1..], x);
    }
  }

  /** As a bag, `Remove` takes away one copy of x when there is one, and nothing
      else. */
  lemma {:induction false} RemoveFirstMultiset<T>(s: seq<T>, x: T)
    ensures multiset(RemoveFirst(s, x)) == multiset(s) - multiset{x}
  {
    if s != [] {
      RemoveFirstMultiset(s[1..], x);
      assert s == [s[0]] + s[1..];
      if s[0] != x {
        assert multiset(s) == multiset{s[0]} + multiset(s[1..]);
      }
    }
  }
}
