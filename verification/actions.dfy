/**
 * The row-level action map the host passes for one plugin: an ordered list
 * of (key, link) entries, since display order matters to the host.
 */
module ActionLinks {

  type Actions = seq<(string, string)>

  /** The key of the control that deactivates a plugin. */
  const Deactivate: string := "deactivate"

  predicate HasKey(a: Actions, k: string)
  {
    exists i :: 0 <= i < |a| && a[i].0 == k
  }

  /** A PHP array never holds the same key twice. */
  ghost predicate UniqueKeys(a: Actions)
  {
    forall i, j :: 0 <= i < j < |a| ==> a[i].0 != a[j].0
  }

  /**
   * `unset($a[$k])`: the map without the entry keyed `k`; every other entry
   * keeps its value and its place in the order.
   */
  function Unset(a: Actions, k: string): (r: Actions)
    ensures !HasKey(r, k)
    ensures forall e :: e in r ==> e in a && e.0 != k
    ensures forall i :: 0 <= i < |a| && a[i].0 != k ==> a[i] in r
    ensures !HasKey(a, k) ==> r == a
    ensures |r| <= |a|
  {
    if a == [] then []
    else if a[0].0 == k then Unset(a[1..], k)
    else [a[0]] + Unset(a[1..], k)
  }

  /** Unsetting distributes over concatenation. */
  lemma {:induction false} UnsetConcat(a: Actions, b: Actions, k: string)
    ensures Unset(a + b, k) == Unset(a, k) + Unset(b, k)
  {
    if a == [] {
      assert a + b == b;
    } else {
      assert (a + b)[0] == a[0] && (a + b)[1..] == a[1..] + b;
      UnsetConcat(a[1..], b, k);
      if a[0].0 != k {
        assert Unset(a + b, k) == [a[0]] + (Unset(a[1..], k) + Unset(b, k));
      }
    }
  }

  /**
   * On a map with unique keys, unsetting `k` drops exactly the one entry at
   * the position that holds it and nothing else.
   */
  lemma UnsetRemovesOneEntry(a: Actions, k: string, i: nat)
    requires UniqueKeys(a)
    requires i < |a| && a[i].0 == k
    ensures Unset(a, k) == a[..i] + a[i + 1..]
  {
    assert a == a[..i] + ([a[i]] + a[i + 1..]);
    assert !HasKey(a[..i], k) by {
      forall j | 0 <= j < i ensures a[..i][j].0 != k {
        assert a[j].0 != a[i].0;
      }
    }
    var rest := a[i + 1..];
    assert !HasKey(rest, k) by {
      forall j | 0 <= j < |rest| ensures rest[j].0 != k {
        assert a[i].0 != a[i + 1 + j].0;
      }
    }
    UnsetConcat(a[..i], [a[i]] + a[i + 1..], k);
    UnsetConcat([a[i]], a[i + 1..], k);
    assert Unset([a[i]], k) == [];
  }

  /** Unsetting keeps keys unique. */
  lemma {:induction false} UnsetUniqueKeys(a: Actions, k: string)
    requires UniqueKeys(a)
    ensures UniqueKeys(Unset(a, k))
  {
    if a != [] {
      assert UniqueKeys(a[1..]);
      UnsetUniqueKeys(a[1..], k);
      if a[0].0 != k {
        var t := Unset(a[1..], k);
        assert forall e :: e in t ==> e.0 != a[0].0 by {
          forall e | e in t ensures e.0 != a[0].0 {
            var j :| 0 <= j < |a[1..]| && a[1..][j] == e;
            assert a[0].0 != a[j + 1].0;
          }
        }
        var r := [a[0]] + t;
        forall i, j | 0 <= i < j < |r| ensures r[i].0 != r[j].0 {
          if i == 0 {
            assert r[j] == t[j - 1] && r[j] in t;
          } else {
            assert r[i] == t[i - 1] && r[j] == t[j - 1];
          }
        }
      }
    }
  }
}
