/** The two array helpers of game-core.js: `Array.prototype.eradicate`, which
    removes every occurrence of a value in place, and `EventList`, an array
    whose `push` never adds a duplicate. */
module Collections {

  /** `indexOf`: the first position of `e` in `s`, or -1 when `e` is absent. */
  function IndexOf<T(==)>(s: seq<T>, e: T): (i: int)
    ensures -1 <= i < |s|
    ensures i == -1 <==> e !in s
    ensures 0 <= i ==> s[i] == e && e !in s[..i]
  {
    if s == [] then -1
    else if s[0] == e then 0
    else
      var j := IndexOf(s[1..], e);
      if j == -1 then -1
      else
        assert s[..j + 1] == [s[0]] + s[1..][..j];
        j + 1
  }

  /** The elements of `s` that differ from `e`, in their original order. */
  function Without<T(==)>(s: seq<T>, e: T): seq<T>
  {
    if s == [] then []
    else if s[0] == e then Without(s[1..], e)
    else [s[0]] + Without(s[1..], e)
  }

  /** No value occurs twice. */
  predicate Distinct<T(==)>(s: seq<T>)
  {
    forall i, j :: 0 <= i < j < |s| ==> s[i] != s[j]
  }

  lemma {:induction false} WithoutAppend<T>(a: seq<T>, b: seq<T>, e: T)
    ensures Without(a + b, e) == Without(a, e) + Without(b, e)
  {
    if a == [] {
      assert a + b == b;
    } else {
      assert (a + b)[1..] == a[1..] + b;
      WithoutAppend(a[1..], b, e);
    }
  }

  /** After removal, `e` occurs nowhere. */
  lemma {:induction false} WithoutExcludes<T>(s: seq<T>, e: T)
    ensures e !in Without(s, e)
  {
    if s != [] {
      WithoutExcludes(s[1..], e);
    }
  }

  /** Removal keeps every other value exactly as often as it occurred. */
  lemma {:induction false} WithoutCounts<T>(s: seq<T>, e: T)
    ensures multiset(Without(s, e)) == multiset(s)[e := 0]
  {
    if s == [] {
    } else {
      WithoutCounts(s[1..], e);
      assert s == [s[0]] + s[1..];
    }
  }

  /** Removing an absent value changes nothing. */
  lemma {:induction false} WithoutAbsent<T>(s: seq<T>, e: T)
    requires e !in s
    ensures Without(s, e) == s
  {
    if s != [] {
      WithoutAbsent(s[1..], e);
    }
  }

  /** Removal never introduces a duplicate. */
  lemma {:induction false} WithoutDistinct<T>(s: seq<T>, e: T)
    requires Distinct(s)
    ensures Distinct(Without(s, e))
  {
    if s != [] {
      WithoutDistinct(s[1..], e);
      WithoutCounts(s[1..], e);
      var r := Without(s[1..], e);
      if s[0] != e {
        assert s[0] !in s[1..];
        assert s[0] !in multiset(r);
      }
    }
  }

  /** What `EventList.push(e)` leaves in the list `s`. */
  function Pushed<T(==)>(s: seq<T>, e: T): (r: seq<T>)
    ensures e in r
    ensures e in s ==> r == s
    ensures e !in s ==> r == s + [e]
  {
    if IndexOf(s, e) == -1 then s + [e] else s
  }

  /** Pushing keeps a duplicate-free list duplicate-free. */
  lemma PushedDistinct<T>(s: seq<T>, e: T)
    requires Distinct(s)
    ensures Distinct(Pushed(s, e))
  {
    if e !in s {
      var r := s + [e];
      forall i, j | 0 <= i < j < |r| ensures r[i] != r[j] {
        if j == |s| {
          assert r[i] == s[i];
        }
      }
    }
  }

  /** Pushing an element a second time changes nothing. */
  lemma PushedIdempotent<T>(s: seq<T>, e: T)
    ensures Pushed(Pushed(s, e), e) == Pushed(s, e)
  {
  }

  /** Splicing out an occurrence of `e` leaves the list without `e` as it
      was. */
  lemma CutKeepsWithout<T>(s: seq<T>, i: int, e: T)
    requires 0 <= i < |s| && s[i] == e
    ensures Without(s[..i] + s[i + 1..], e) == Without(s, e)
  {
    var a, b := s[..i], s[i + 1..];
    assert s == a + ([e] + b);
    assert ([e] + b)[1..] == b;
    WithoutAppend(a, [e] + b, e);
    WithoutAppend(a, b, e);
  }

  /** Splicing out any element keeps the list free of duplicates. */
  lemma CutDistinct<T>(s: seq<T>, i: int)
    requires 0 <= i < |s| && Distinct(s)
    ensures Distinct(s[..i] + s[i + 1..])
  {
    var r := s[..i] + s[i + 1..];
    forall p, q | 0 <= p < q < |r| ensures r[p] != r[q] {
      var p' := if p < i then p else p + 1;
      var q' := if q < i then q else q + 1;
      assert r[p] == s[p'] && r[q] == s[q'];
    }
  }

  /** `EventList`: an array whose `push` only appends absent values. */
  class EventList<T(==)> {
    var items: seq<T>

    ghost predicate Valid()
      reads this
    {
      Distinct(items)
    }

    constructor ()
      ensures Valid() && items == []
    {
      items := [];
    }

    /** `EventList.prototype.push`. */
    method Push(e: T)
      requires Valid()
      modifies this
      ensures Valid()
      ensures items == Pushed(old(items), e)
    {
      PushedDistinct(items, e);
      if IndexOf(items, e) == -1 {
        items := items + [e];
      }
    }

    /** `Array.prototype.eradicate`: splice out the first occurrence of `e`
        until there is none left. */
    method Eradicate(e: T)
      modifies this
      ensures items == Without(old(items), e)
      ensures old(Valid()) ==> Valid()
    {
      while true
        invariant Without(items, e) == Without(old(items), e)
        invariant Distinct(old(items)) ==> Distinct(items)
        decreases |items|
      {
        var i := IndexOf(items, e);
        if i >= 0 {
          CutKeepsWithout(items, i, e);
          if Distinct(items) {
            CutDistinct(items, i);
          }
          items := items[..i] + items[i + 1..];
        } else {
          WithoutAbsent(items, e);
          break;
        }
      }
    }
  }
}
