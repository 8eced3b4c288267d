/** The sequence operations behind an entity's passenger list (indexOf, remove) and the
    entity-link list sent to a viewer. */
module Linkage {

  /** EntityLink types: REMOVE, RIDER, PASSENGER. */
  datatype LinkType = Remove | Rider | Passenger

  /** The link list of an entity with `n` passengers: the first is the rider, the rest passengers. */
  function PassengerLinks(n: nat): (links: seq<LinkType>)
    ensures |links| == n
    ensures forall i :: 0 <= i < n ==> links[i] == (if i == 0 then Rider else Passenger)
  {
    seq(n, i => if i == 0 then Rider else Passenger)
  }

  /** List.indexOf: the first position of `x`, or -1. */
  function IndexOf<T(==)>(s: seq<T>, x: T): (i: int)
    ensures -1 <= i < |s|
    ensures i == -1 <==> x !in s
    ensures 0 <= i ==> s[i] == x && x !in s[..i]
  {
    if |s| == 0 then -1
    else if s[0] == x then 0
    else
      var j := IndexOf(s[1..], x);
      assert s[1..][..if j < 0 then 0 else j] == s[1..if j < 0 then 1 else j + 1];
      if j < 0 then -1 else j + 1
  }

  /** List.remove(Object): drops the first occurrence of `x`, if any. */
  function RemoveFirst<T(==)>(s: seq<T>, x: T): (r: seq<T>)
    ensures |r| == if x in s then |s| - 1 else |s|
  {
    if |s| == 0 then []
    else if s[0] == x then s[1..]
    else [s[0]] + RemoveFirst(s[1..], x)
  }

  /** RemoveFirst leaves a sequence without `x` unchanged. */
  lemma {:induction false} RemoveFirstAbsent<T>(s: seq<T>, x: T)
    requires x !in s
    ensures RemoveFirst(s, x) == s
  {
    if |s| > 0 {
      assert s == [s[0]] + s[1..];
      RemoveFirstAbsent(s[1..], x);
    }
  }

  /** RemoveFirst cuts out exactly the element at IndexOf. */
  lemma {:induction false} RemoveFirstAtIndex<T>(s: seq<T>, x: T)
    requires x in s
    ensures RemoveFirst(s, x) == s[..IndexOf(s, x)] + s[IndexOf(s, x) + 1..]
  {
    if s[0] == x {
      assert s[..0] == [];
    } else {
      var t := s[1..];
      assert s == [s[0]] + t;
      assert x in t;
      RemoveFirstAtIndex(t, x);
      var i := IndexOf(t, x);
      assert IndexOf(s, x) == i + 1;
      assert s[..i + 1] == [s[0]] + t[..i];
      assert s[i + 2..] == t[i + 1..];
    }
  }

  /** RemoveFirst removes one copy of `x` from the multiset of elements. */
  lemma {:induction false} RemoveFirstMultiset<T>(s: seq<T>, x: T)
    ensures multiset(RemoveFirst(s, x)) == multiset(s) - multiset{x}
  {
    if |s| > 0 {
      assert s == [s[0]] + s[1..];
      if s[0] != x {
        RemoveFirstMultiset(s[1..], x);
        MultisetConsMinus(s[0], s[1..], x);
      }
    }
  }

  lemma MultisetConsMinus<T>(a: T, u: seq<T>, x: T)
    requires a != x
    ensures multiset([a]) + (multiset(u) - multiset{x}) == multiset([a] + u) - multiset{x}
  {
    var l := multiset([a]) + (multiset(u) - multiset{x});
    var m := multiset([a] + u) - multiset{x};
    forall y ensures l[y] == m[y] {
      if y == x {
        assert multiset([a])[y] == 0;
      }
    }
    assert l == m;
  }
}
