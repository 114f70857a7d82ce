/** `dict_is_subset_of_dict` and `aws_lookup`: selecting the entities whose
    attributes agree with every key/value pair of a criteria dictionary. */
module Matcher {
  import opened Wrappers
  import opened Attributes
  import opened Entities
  import opened Sequences

  /** The `property_dict` argument. Its values are strings. */
  type Criteria = map<string, string>

  /** The pairs of the criteria that the entity does not meet: `.get(key)`
      differs from the wanted value, which includes a missing key. */
  function Mismatches(e: Entity, criteria: Criteria): map<string, string>
  {
    map k | k in criteria && Get(e.attrs, k) != Some(criteria[k]) :: criteria[k]
  }

  /** `dict_is_subset_of_dict`: no mismatching pair. The entity matches exactly
      when every criteria key is among its attributes with the wanted value. */
  function Matches(e: Entity, criteria: Criteria): (r: bool)
    ensures r <==> forall k :: k in criteria ==> k in e.attrs.values && e.attrs.values[k] == criteria[k]
  {
    var bad := Mismatches(e, criteria);
    assert bad == map[] <==> forall k :: k in criteria ==> k !in bad;
    bad == map[]
  }

  /** `aws_lookup`: the entities that match, in input order. */
  function Lookup(entities: seq<Entity>, criteria: Criteria): (r: seq<Entity>)
    ensures |r| <= |entities|
    ensures forall i :: 0 <= i < |r| ==> Matches(r[i], criteria)
    decreases |entities|
  {
    if entities == [] then []
    else if Matches(entities[0], criteria) then [entities[0]] + Lookup(entities[1..], criteria)
    else Lookup(entities[1..], criteria)
  }

  /** The result is an order-preserving subsequence of the input holding
      every matching entity as often as the input does, and nothing else. */
  lemma {:induction false} LookupFilters(entities: seq<Entity>, criteria: Criteria)
    ensures IsSubsequence(Lookup(entities, criteria), entities)
    ensures forall e :: multiset(Lookup(entities, criteria))[e] ==
                       if Matches(e, criteria) then multiset(entities)[e] else 0
    decreases |entities|
  {
    if entities != [] {
      LookupFilters(entities[1..], criteria);
      assert entities == [entities[0]] + entities[1..];
    }
  }

  /** Lookup distributes over concatenation of entity lists. */
  lemma {:induction false} LookupAppend(xs: seq<Entity>, ys: seq<Entity>, criteria: Criteria)
    ensures Lookup(xs + ys, criteria) == Lookup(xs, criteria) + Lookup(ys, criteria)
    decreases |xs|
  {
    if xs == [] {
      assert xs + ys == ys;
    } else {
      assert (xs + ys)[0] == xs[0];
      assert (xs + ys)[1..] == xs[1..] + ys;
      LookupAppend(xs[1..], ys, criteria);
    }
  }

  /** Empty criteria match everything: the input comes back unchanged. */
  lemma {:induction false} LookupEmptyCriteria(entities: seq<Entity>)
    ensures Lookup(entities, map[]) == entities
    decreases |entities|
  {
    if entities != [] {
      LookupEmptyCriteria(entities[1..]);
    }
  }

  /** A criteria key that no entity has selects nothing. */
  lemma {:induction false} LookupMissingKey(entities: seq<Entity>, criteria: Criteria, k: string)
    requires k in criteria
    requires forall i :: 0 <= i < |entities| ==> k !in entities[i].attrs.values
    ensures Lookup(entities, criteria) == []
    decreases |entities|
  {
    if entities != [] {
      LookupMissingKey(entities[1..], criteria, k);
    }
  }

  /** Looking up the result again with the same criteria changes nothing. */
  lemma {:induction false} LookupIdempotent(entities: seq<Entity>, criteria: Criteria)
    ensures Lookup(Lookup(entities, criteria), criteria) == Lookup(entities, criteria)
    decreases |entities|
  {
    if entities != [] {
      LookupIdempotent(entities[1..], criteria);
      if Matches(entities[0], criteria) {
        var rest := Lookup(entities[1..], criteria);
        assert ([entities[0]] + rest)[1..] == rest;
      }
    }
  }

  /** Criteria that agree on their shared keys. */
  ghost predicate Compatible(c1: Criteria, c2: Criteria)
  {
    forall k :: k in c1 && k in c2 ==> c1[k] == c2[k]
  }

  /** Filtering by two compatible criteria one after the other is filtering
      by their union. */
  lemma {:induction false} LookupCompose(entities: seq<Entity>, c1: Criteria, c2: Criteria)
    requires Compatible(c1, c2)
    ensures Lookup(Lookup(entities, c1), c2) == Lookup(entities, c1 + c2)
    decreases |entities|
  {
    if entities != [] {
      var e := entities[0];
      LookupCompose(entities[1..], c1, c2);
      assert Matches(e, c1 + c2) == (Matches(e, c1) && Matches(e, c2));
      if Matches(e, c1) {
        var rest := Lookup(entities[1..], c1);
        assert ([e] + rest)[0] == e && ([e] + rest)[1..] == rest;
      }
    }
  }

  /** Adding criteria pairs narrows the result: with `wider` containing
      every pair of `narrow`, the result for `wider` is the result for
      `narrow` filtered again, hence a subsequence of it. */
  lemma LookupMonotone(entities: seq<Entity>, narrow: Criteria, wider: Criteria)
    requires forall k :: k in narrow ==> k in wider && wider[k] == narrow[k]
    ensures Lookup(entities, wider) == Lookup(Lookup(entities, narrow), wider)
    ensures IsSubsequence(Lookup(entities, wider), Lookup(entities, narrow))
  {
    assert narrow + wider == wider;
    LookupCompose(entities, narrow, wider);
    LookupFilters(Lookup(entities, narrow), wider);
  }
}
