/** The attribute dictionary `dict_attr` of an entity: a Python `dict` from
    `str` to `str`, which remembers the order in which keys were first
    inserted, and in which a repeated key overwrites the value in place. */
module Attributes {
  import opened Wrappers

  type Pair = (string, string)

  /** The keys in insertion order, and the key-to-value mapping. */
  datatype Dict = Dict(keys: seq<string>, values: map<string, string>)

  /** Each key is listed once, and the listed keys are exactly the mapped ones. */
  ghost predicate IsDict(d: Dict)
  {
    && (forall i, j :: 0 <= i < j < |d.keys| ==> d.keys[i] != d.keys[j])
    && (forall k :: k in d.values <==> k in d.keys)
  }

  type Attrs = d: Dict | IsDict(d) witness Dict([], map[])

  const Empty: Attrs := Dict([], map[])

  /** Python's `d.get(k)`: the value, or None for a missing key. */
  function Get(d: Attrs, k: string): Option<string>
  {
    if k in d.values then Some(d.values[k]) else None
  }

  /** Python's `d[k] = v`: `k` now maps to `v` and every other key keeps its
      value; a key already present keeps its position, a new key goes last. */
  function Put(d: Attrs, k: string, v: string): (r: Attrs)
    ensures Get(r, k) == Some(v)
    ensures forall k' :: k' != k ==> Get(r, k') == Get(d, k')
    ensures k in d.values ==> r.keys == d.keys
    ensures k !in d.values ==> r.keys == d.keys + [k]
  {
    if k in d.values then Dict(d.keys, d.values[k := v])
    else Dict(d.keys + [k], d.values[k := v])
  }

  /** Python's `dict(pairs)`: the pairs are inserted from left to right. */
  function FromPairs(ps: seq<Pair>): Attrs
    decreases |ps|
  {
    if ps == [] then Empty
    else Put(FromPairs(ps[..|ps| - 1]), ps[|ps| - 1].0, ps[|ps| - 1].1)
  }

  /** Some pair of `ps` has key `k`. */
  ghost predicate HasKey(ps: seq<Pair>, k: string)
  {
    exists i :: 0 <= i < |ps| && ps[i].0 == k
  }

  /** Pair `i` is the last one in `ps` with its key. */
  ghost predicate IsLastWithKey(ps: seq<Pair>, i: int)
    requires 0 <= i < |ps|
  {
    forall j :: i < j < |ps| ==> ps[j].0 != ps[i].0
  }

  /** Key `x` occurs in `ps` before any occurrence of key `y`. */
  ghost predicate OccursBefore(ps: seq<Pair>, x: string, y: string)
  {
    exists i :: 0 <= i < |ps| && ps[i].0 == x && forall j :: 0 <= j <= i ==> ps[j].0 != y
  }

  /** The keys of `dict(pairs)` are the keys of the pairs. */
  lemma {:induction false} FromPairsKeys(ps: seq<Pair>)
    ensures forall k :: k in FromPairs(ps).values <==> HasKey(ps, k)
    decreases |ps|
  {
    if ps != [] {
      var init := ps[..|ps| - 1];
      FromPairsKeys(init);
      forall k ensures k in FromPairs(ps).values <==> HasKey(ps, k) {
        if HasKey(ps, k) && ps[|ps| - 1].0 != k {
          var i :| 0 <= i < |ps| && ps[i].0 == k;
          assert init[i] == ps[i];
        }
        if HasKey(init, k) {
          var i :| 0 <= i < |init| && init[i].0 == k;
          assert ps[i] == init[i];
        }
      }
    }
  }

  /** When a key repeats, the value of its last pair wins. */
  lemma {:induction false} FromPairsLastWins(ps: seq<Pair>)
    ensures forall i :: 0 <= i < |ps| && IsLastWithKey(ps, i) ==> Get(FromPairs(ps), ps[i].0) == Some(ps[i].1)
    decreases |ps|
  {
    if ps != [] {
      var init := ps[..|ps| - 1];
      FromPairsLastWins(init);
      forall i | 0 <= i < |ps| && IsLastWithKey(ps, i)
        ensures Get(FromPairs(ps), ps[i].0) == Some(ps[i].1)
      {
        if i < |ps| - 1 {
          assert ps[|ps| - 1].0 != ps[i].0;
          assert init[i] == ps[i];
          assert IsLastWithKey(init, i) by {
            forall j | i < j < |init| ensures init[j].0 != init[i].0 {
              assert init[j] == ps[j];
            }
          }
        }
      }
    }
  }

  /** The keys of `dict(pairs)` are listed in the order of their first
      occurrence among the pairs. */
  lemma {:induction false} FromPairsOrder(ps: seq<Pair>)
    ensures forall a, b :: 0 <= a < b < |FromPairs(ps).keys| ==>
      OccursBefore(ps, FromPairs(ps).keys[a], FromPairs(ps).keys[b])
    decreases |ps|
  {
    if ps != [] {
      var init := ps[..|ps| - 1];
      var last := ps[|ps| - 1];
      FromPairsOrder(init);
      FromPairsKeys(init);
      var before := FromPairs(init).keys;
      var keys := FromPairs(ps).keys;
      forall a, b | 0 <= a < b < |keys| ensures OccursBefore(ps, keys[a], keys[b]) {
        if b < |before| {
          assert keys[a] == before[a] && keys[b] == before[b];
          assert OccursBefore(init, before[a], before[b]);
          var i :| 0 <= i < |init| && init[i].0 == before[a] && forall j :: 0 <= j <= i ==> init[j].0 != before[b];
          assert ps[i] == init[i];
          assert forall j :: 0 <= j <= i ==> ps[j] == init[j];
        } else {
          assert keys[b] == last.0 && last.0 !in FromPairs(init).values;
          assert keys[a] in FromPairs(init).values;
          var i :| 0 <= i < |init| && init[i].0 == keys[a];
          assert ps[i] == init[i];
          forall j | 0 <= j <= i ensures ps[j].0 != last.0 {
            assert ps[j] == init[j];
            assert !(exists j' :: 0 <= j' < |init| && init[j'].0 == last.0);
          }
        }
      }
    }
  }
}
