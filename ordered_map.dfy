/**
 * The parts of an ordered id -> value map (a `BTreeMap<u64, _>`) that the
 * task manager relies on: its keys are visited in ascending order, and a
 * lookup written as a `find_map` scan over that order finds exactly what a
 * direct lookup finds.
 */
module OrderedMap {

  datatype Option<T> = None | Some(value: T)

  /** Every element is smaller than every later one. */
  predicate StrictlyIncreasing(s: seq<nat>) {
    forall i, j :: 0 <= i < j < |s| ==> s[i] < s[j]
  }

  /** The least element of a non-empty set, found by removing one element at a time. */
  ghost function Least(s: set<nat>): (m: nat)
    requires s != {}
    ensures m in s
    ensures forall x :: x in s ==> m <= x
    decreases |s|
  {
    var y :| y in s;
    var rest := s - {y};
    if rest == {} then
      assert s == {y};
      y
    else
      var m := Least(rest);
      assert forall x :: x in s ==> x == y || x in rest;
      if y < m then y else m
  }

  /** The least element of a non-empty set. */
  function Minimum(s: set<nat>): (m: nat)
    requires s != {}
    ensures m in s
    ensures forall x :: x in s ==> m <= x
  {
    var least := Least(s);
    var m :| m in s && forall x :: x in s ==> m <= x;
    m
  }

  /** The keys of an ordered map in the order the map visits them: ascending. */
  function SortedKeys(s: set<nat>): (r: seq<nat>)
    ensures |r| == |s|
    decreases |s|
  {
    if s == {} then []
    else
      var m := Minimum(s);
      [m] + SortedKeys(s - {m})
  }

  /** The visit lists every key of the map, and nothing else. */
  lemma {:induction false} SortedKeysListsKeys(s: set<nat>)
    ensures forall k :: k in SortedKeys(s) <==> k in s
    decreases |s|
  {
    if s != {} {
      var m := Minimum(s);
      SortedKeysListsKeys(s - {m});
      assert SortedKeys(s) == [m] + SortedKeys(s - {m});
    }
  }

  /** The visit is in strictly ascending key order. */
  lemma {:induction false} SortedKeysAscending(s: set<nat>)
    ensures StrictlyIncreasing(SortedKeys(s))
    decreases |s|
  {
    if s != {} {
      var m := Minimum(s);
      var rest := SortedKeys(s - {m});
      SortedKeysAscending(s - {m});
      SortedKeysListsKeys(s - {m});
      var r := [m] + rest;
      assert SortedKeys(s) == r;
      forall i, j | 0 <= i < j < |r|
        ensures r[i] < r[j]
      {
        if i == 0 {
          assert r[j] == rest[j - 1] && rest[j - 1] in rest;
        } else {
          assert r[i] == rest[i - 1] && r[j] == rest[j - 1];
        }
      }
    }
  }

  /**
   * `find_map` over the entries of `m` visited in the order `keys`: the value
   * of the first entry whose key is `id`, or None when no entry has that key.
   */
  function FindMap<V>(keys: seq<nat>, m: map<nat, V>, id: nat): (r: Option<V>)
    requires forall i :: 0 <= i < |keys| ==> keys[i] in m
    ensures r.Some? <==> id in keys
    ensures r.Some? ==> r.value == m[id]
  {
    if keys == [] then None
    else if keys[0] == id then Some(m[keys[0]])
    else FindMap(keys[1..], m, id)
  }

  /** The values of `m` in the order `keys`. */
  function ValuesInOrder<V>(keys: seq<nat>, m: map<nat, V>): (r: seq<V>)
    requires forall i :: 0 <= i < |keys| ==> keys[i] in m
    ensures |r| == |keys|
    ensures forall i :: 0 <= i < |r| ==> r[i] == m[keys[i]]
  {
    seq(|keys|, i requires 0 <= i < |keys| => m[keys[i]])
  }
}
