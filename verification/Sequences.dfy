/** Facts about duplicate-free lists, shared by every module that keeps linked lists. */
module Sequences {
  datatype Option<+T> = None | Some(value: T)

  ghost predicate NoDup<T>(s: seq<T>) {
    forall i, j :: 0 <= i < j < |s| ==> s[i] != s[j]
  }

  ghost predicate Increasing(s: seq<nat>) {
    forall i, j :: 0 <= i < j < |s| ==> s[i] < s[j]
  }

  /** The list without the first occurrence of `x`: unlinking `x`. */
  function Remove<T(==)>(s: seq<T>, x: T): (r: seq<T>) {
    if s == [] then []
    else if s[0] == x then s[1..]
    else [s[0]] + Remove(s[1..], x)
  }

  lemma {:induction false} RemoveFacts<T>(s: seq<T>, x: T)
    requires NoDup(s)
    ensures NoDup(Remove(s, x))
    ensures forall y :: y in Remove(s, x) <==> y in s && y != x
    ensures |Remove(s, x)| == if x in s then |s| - 1 else |s|
  {
    if s == [] {
    } else if s[0] == x {
      assert s == [x] + s[1..];
    } else {
      var tail := s[1..];
      RemoveFacts(tail, x);
      assert s == [s[0]] + tail;
      assert s[0] !in tail;
      assert s[0] !in Remove(tail, x);
      assert forall y :: y in Remove(s, x) <==> y == s[0] || y in Remove(tail, x);
    }
  }

  /** Taking the head off a list. */
  lemma PopFacts<T>(s: seq<T>)
    requires s != [] && NoDup(s)
    ensures s[0] in s && NoDup(s[1..]) && forall x :: x in s[1..] <==> x in s && x != s[0]
  {
    assert s == [s[0]] + s[1..];
  }

  lemma NoMembers<T>(s: seq<T>)
    ensures (forall x :: x !in s) ==> s == []
  {
    assert s != [] ==> s[0] in s;
  }

  lemma NoDupAppend<T>(s: seq<T>, x: T)
    requires NoDup(s) && x !in s
    ensures NoDup(s + [x]) && NoDup([x] + s)
    ensures forall y :: y in s + [x] <==> y in s || y == x
  {
  }

  lemma {:induction false} RemoveAppended<T>(s: seq<T>, x: T)
    requires x !in s
    ensures Remove(s + [x], x) == s
  {
    if s != [] {
      assert (s + [x])[1..] == s[1..] + [x];
      RemoveAppended(s[1..], x);
    }
  }
}
