/**
 * The grouping of records by organism in the flatten step of workflows/phylo.py:
 * a dictionary from organism id to the list of that organism's records, in the
 * order the records were listed, built once for the raw records of a locus and
 * once for its flat records.
 */
module Grouping {

  /** The dictionary after the loop has visited `s`, written as a left fold. */
  function GroupOf<T>(s: seq<T>, key: T -> int): map<int, seq<T>>
    decreases |s|
  {
    if s == [] then map[]
    else
      var g := GroupOf(s[..|s| - 1], key);
      var x := s[|s| - 1];
      g[key(x) := (if key(x) in g then g[key(x)] else []) + [x]]
  }

  /** The records of `s` whose key is `k`, in order: an independent reference definition. */
  function WithKey<T>(s: seq<T>, key: T -> int, k: int): (r: seq<T>)
    ensures |r| <= |s|
    ensures forall x :: x in r ==> x in s && key(x) == k
  {
    if s == [] then [] else (if key(s[0]) == k then [s[0]] else []) + WithKey(s[1..], key, k)
  }

  lemma {:induction false} WithKeySnoc<T>(s: seq<T>, x: T, key: T -> int, k: int)
    ensures WithKey(s + [x], key, k) == WithKey(s, key, k) + (if key(x) == k then [x] else [])
    decreases |s|
  {
    var tail := if key(x) == k then [x] else [];
    if s == [] {
      assert [x][1..] == [];
      assert WithKey([x], key, k) == tail + WithKey([], key, k);
    } else {
      var head := if key(s[0]) == k then [s[0]] else [];
      assert (s + [x])[0] == s[0];
      assert (s + [x])[1..] == s[1..] + [x];
      assert WithKey(s + [x], key, k) == head + WithKey(s[1..] + [x], key, k);
      WithKeySnoc(s[1..], x, key, k);
      assert WithKey(s, key, k) == head + WithKey(s[1..], key, k);
    }
  }

  lemma {:induction false} WithKeyEmpty<T>(s: seq<T>, key: T -> int, k: int)
    requires forall i :: 0 <= i < |s| ==> key(s[i]) != k
    ensures WithKey(s, key, k) == []
    decreases |s|
  {
    if s != [] {
      WithKeyEmpty(s[1..], key, k);
    }
  }

  /**
   * The dictionary has one entry per organism that occurs in the records, and
   * the entry of an organism lists exactly its records in their original order;
   * so no list is empty and every record sits in the list of its own organism.
   */
  lemma {:induction false} GroupContents<T>(s: seq<T>, key: T -> int)
    ensures GroupOf(s, key).Keys == set x | x in s :: key(x)
    ensures forall k :: k in GroupOf(s, key) ==> GroupOf(s, key)[k] == WithKey(s, key, k) && GroupOf(s, key)[k] != []
    decreases |s|
  {
    if s != [] {
      var init, x := s[..|s| - 1], s[|s| - 1];
      assert s == init + [x];
      GroupContents(init, key);
      var g := GroupOf(init, key);
      forall k | k in GroupOf(s, key)
        ensures GroupOf(s, key)[k] == WithKey(s, key, k)
      {
        WithKeySnoc(init, x, key, k);
        if k == key(x) && k !in g {
          assert forall i :: 0 <= i < |init| ==> key(init[i]) != k by {
            forall i | 0 <= i < |init| ensures key(init[i]) != k {
              assert init[i] in init;
            }
          }
          WithKeyEmpty(init, key, k);
        }
      }
    }
  }

  /** Filling the dictionary record by record (lines 951-956 and 965-970). */
  method GroupByOrganism<T>(s: seq<T>, key: T -> int) returns (m: map<int, seq<T>>)
    ensures m == GroupOf(s, key)
  {
    m := map[];
    var i := 0;
    while i < |s|
      invariant 0 <= i <= |s|
      invariant m == GroupOf(s[..i], key)
    {
      assert s[..i + 1][..i] == s[..i];
      var orgId := key(s[i]);
      if orgId !in m.Keys {
        m := m[orgId := []];
      }
      m := m[orgId := m[orgId] + [s[i]]];
      i := i + 1;
    }
    assert s[..i] == s;
  }
}
