/**
 * Ordered, duplicate-free lists of plugin identifiers: the value kept per
 * environment by the registry. The operations mirror the PHP array
 * primitives the registry uses on such a list: strict `in_array`,
 * strict `array_search`, append with `[] =`, and `unset` at an index.
 */
module Lists {

  datatype Option<T> = None | Some(value: T)

  /** No element occurs twice. */
  ghost predicate NoDup<T>(s: seq<T>)
  {
    forall i, j :: 0 <= i < j < |s| ==> s[i] != s[j]
  }

  /**
   * Strict linear search (`array_search($x, $s, true)` on a list): the first
   * position that holds `x`, or None when `x` is absent.
   */
  function IndexOf<T(==,!new)>(s: seq<T>, x: T): (r: Option<nat>)
    ensures r.None? <==> x !in s
    ensures r.Some? ==> r.value < |s| && s[r.value] == x && x !in s[..r.value]
  {
    if s == [] then None
    else if s[0] == x then Some(0)
    else
      match IndexOf(s[1..], x)
      case None => None
      case Some(i) =>
        assert s[..i + 1] == [s[0]] + s[1..][..i];
        Some(i + 1)
  }

  /** The list with the entry at position `i` unset; later entries move up by one. */
  function RemoveAt<T>(s: seq<T>, i: nat): (r: seq<T>)
    requires i < |s|
    ensures |r| == |s| - 1
    ensures forall j :: 0 <= j < i ==> r[j] == s[j]
    ensures forall j :: i <= j < |r| ==> r[j] == s[j + 1]
    ensures multiset(r) == multiset(s) - multiset{s[i]}
  {
    assert s == s[..i] + [s[i]] + s[i + 1..];
    s[..i] + s[i + 1..]
  }

  /** Ordered-set insertion: append `x` unless it is already present. */
  function Insert<T(==,!new)>(s: seq<T>, x: T): (r: seq<T>)
    ensures x in r
    ensures s <= r
    ensures x in s ==> r == s
    ensures x !in s ==> r == s + [x]
  {
    if x in s then s else s + [x]
  }

  /**
   * Every element of `s` except `x`. The definition keeps the survivors in
   * their original order; `RemoveFoundIsWithout` states that order as a
   * positional fact for duplicate-free lists.
   */
  function Without<T(==,!new)>(s: seq<T>, x: T): (r: seq<T>)
    ensures x !in r
    ensures forall y :: y != x ==> (y in r <==> y in s)
    ensures x !in s ==> r == s
    ensures |r| <= |s|
  {
    if s == [] then []
    else if s[0] == x then Without(s[1..], x)
    else [s[0]] + Without(s[1..], x)
  }

  /** A list without duplicates holds each of its elements exactly once. */
  lemma {:induction false} NoDupCountOne<T>(s: seq<T>, x: T)
    requires NoDup(s)
    ensures multiset(s)[x] == if x in s then 1 else 0
  {
    if s != [] {
      assert NoDup(s[1..]);
      NoDupCountOne(s[1..], x);
      assert s == [s[0]] + s[1..];
      if s[0] == x {
        assert x !in s[1..];
      }
    }
  }

  /** Insertion keeps a list duplicate-free and leaves `x` in it exactly once. */
  lemma InsertNoDup<T(!new)>(s: seq<T>, x: T)
    requires NoDup(s)
    ensures NoDup(Insert(s, x))
    ensures multiset(Insert(s, x))[x] == 1
  {
    var r := Insert(s, x);
    if x !in s {
      forall i, j | 0 <= i < j < |r| ensures r[i] != r[j] {
        if j == |s| {
          assert r[i] == s[i];
        }
      }
    }
    NoDupCountOne(r, x);
  }

  /** Removing an element keeps a list duplicate-free. */
  lemma {:induction false} WithoutNoDup<T(!new)>(s: seq<T>, x: T)
    requires NoDup(s)
    ensures NoDup(Without(s, x))
  {
    if s != [] {
      assert NoDup(s[1..]);
      WithoutNoDup(s[1..], x);
      if s[0] != x {
        var t := Without(s[1..], x);
        assert s[0] !in s[1..];
        assert s[0] !in t;
        var r := [s[0]] + t;
        forall i, j | 0 <= i < j < |r| ensures r[i] != r[j] {
          if i == 0 {
            assert r[j] == t[j - 1];
          } else {
            assert r[i] == t[i - 1] && r[j] == t[j - 1];
          }
        }
      }
    }
  }

  /** Removal distributes over concatenation. */
  lemma {:induction false} WithoutConcat<T(!new)>(a: seq<T>, b: seq<T>, x: T)
    ensures Without(a + b, x) == Without(a, x) + Without(b, x)
  {
    if a == [] {
      assert a + b == b;
    } else {
      assert (a + b)[0] == a[0] && (a + b)[1..] == a[1..] + b;
      WithoutConcat(a[1..], b, x);
      if a[0] != x {
        assert Without(a + b, x) == [a[0]] + (Without(a[1..], x) + Without(b, x));
      }
    }
  }

  /** Appending a new element and then removing it gives back the original list. */
  lemma WithoutInsert<T(!new)>(s: seq<T>, x: T)
    requires x !in s
    ensures Without(Insert(s, x), x) == s
  {
    WithoutConcat(s, [x], x);
    assert Without([x], x) == [];
  }

  /**
   * On a duplicate-free list, unsetting the position that strict search finds
   * is the same as keeping every other element in order.
   */
  lemma RemoveFoundIsWithout<T(!new)>(s: seq<T>, x: T, i: nat)
    requires NoDup(s)
    requires IndexOf(s, x) == Some(i)
    ensures RemoveAt(s, i) == Without(s, x)
  {
    assert s == s[..i] + ([s[i]] + s[i + 1..]);
    assert x !in s[i + 1..] by {
      forall j | i + 1 <= j < |s| ensures s[j] != x {
        assert s[i] != s[j];
      }
    }
    WithoutConcat(s[..i], [s[i]] + s[i + 1..], x);
    WithoutConcat([s[i]], s[i + 1..], x);
    assert Without([s[i]], x) == [];
  }
}
