/** The registry's local data store (node.py, `MultiStorage`): a dictionary
    from DHT key to the SET of values published under it, in place of the
    single value per key that a plain Kademlia store keeps. */
module Storage {
  import opened Wrappers

  /** The elements of a list, as a set. */
  function Elems<T>(s: seq<T>): set<T>
  {
    set x | x in s
  }

  /** No element occurs twice. */
  predicate NoDup<T(==)>(s: seq<T>)
  {
    forall i, j :: 0 <= i < j < |s| ==> s[i] != s[j]
  }

  /** Python's `list(s)` for a set: each element exactly once, in an order
      the program does not rely on. */
  method ListOf<T>(s: set<T>) returns (r: seq<T>)
    ensures Elems(r) == s && NoDup(r)
  {
    r := [];
    var rest := s;
    while rest != {}
      invariant Elems(r) + rest == s
      invariant Elems(r) !! rest
      invariant NoDup(r)
      decreases rest
    {
      var x :| x in rest;
      r := r + [x];
      rest := rest - {x};
    }
  }

  /** The storage invariant: a key that is present holds a non-empty set. */
  predicate NonEmptySets<K, V>(m: map<K, set<V>>)
  {
    forall k :: k in m ==> m[k] != {}
  }

  /** `self.data.get(key, set())`. */
  function Stored<K, V>(m: map<K, set<V>>, k: K): set<V>
  {
    if k in m then m[k] else {}
  }

  /** What `storage[key] = value` is handed: one value, or a Python list of
      values (the `isinstance(value, list)` test). */
  datatype Item<V> = One(value: V) | Many(values: seq<V>)

  /** The values an item stands for. */
  function ItemValues<V>(item: Item<V>): set<V>
  {
    match item
    case One(v) => {v}
    case Many(vs) => Elems(vs)
  }

  /** `__setitem__` exactly as written: the key always ends up present,
      holding its old set together with the item's values — even when both
      are empty. */
  function WithItemAsWritten<K, V>(m: map<K, set<V>>, k: K, item: Item<V>): (r: map<K, set<V>>)
    ensures k in r && r[k] == Stored(m, k) + ItemValues(item)
    ensures r.Keys == m.Keys + {k}
    ensures r - {k} == m - {k}
  {
    m[k := Stored(m, k) + ItemValues(item)]
  }

  /** `__setitem__` with the storage invariant respected: the key's set
      becomes its old set together with the item's values, and an empty
      result is not stored. */
  function WithItem<K, V>(m: map<K, set<V>>, k: K, item: Item<V>): (r: map<K, set<V>>)
    ensures Stored(r, k) == Stored(m, k) + ItemValues(item)
    ensures r - {k} == m - {k}
    ensures k in r <==> k in m || ItemValues(item) != {}
    ensures NonEmptySets(m) ==> NonEmptySets(r)
  {
    var u := Stored(m, k) + ItemValues(item);
    if u == {} then m else m[k := u]
  }

  /** `overwrite(key, values)` on the dictionary: a non-empty list replaces
      the key's set with the list's elements, an empty one deletes the key,
      and deleting a missing key raises `KeyError`. */
  function Overwritten<K, V>(m: map<K, set<V>>, k: K, values: seq<V>): (r: Result<map<K, set<V>>>)
    ensures r.Err? <==> values == [] && k !in m
    ensures r.Err? ==> r.error == KeyError
    ensures r.Ok? ==> (k in r.value <==> values != []) && Stored(r.value, k) == Elems(values)
    ensures r.Ok? ==> r.value - {k} == m - {k}
    ensures r.Ok? && NonEmptySets(m) ==> NonEmptySets(r.value)
  {
    if values != [] then
      assert values[0] in Elems(values);
      Ok(m[k := Elems(values)])
    else if k in m then Ok(m - {k})
    else Err(KeyError)
  }

  /** Putting the same item twice has the effect of putting it once. */
  lemma WithItemIdempotent<K, V>(m: map<K, set<V>>, k: K, item: Item<V>)
    ensures WithItem(WithItem(m, k, item), k, item) == WithItem(m, k, item)
  {
  }

  /** Where the two readings of `__setitem__` differ: an empty list put
      under a missing key stores an empty set, breaking the invariant. */
  lemma EmptyListBreaksInvariant<K, V>(m: map<K, set<V>>, k: K)
    requires k !in m
    ensures !NonEmptySets(WithItemAsWritten(m, k, Many([])))
  {
  }

  /** Everywhere else the two readings agree. */
  lemma WithItemAgrees<K, V>(m: map<K, set<V>>, k: K, item: Item<V>)
    requires NonEmptySets(m)
    requires k in m || ItemValues(item) != {}
    ensures WithItem(m, k, item) == WithItemAsWritten(m, k, item)
  {
  }

  /** The multi-value store. `data` is the Python `self.data` dictionary. */
  class MultiStorage<K(==), V(==)> {
    var data: map<K, set<V>>

    ghost predicate Valid()
      reads this
    {
      NonEmptySets(data)
    }

    constructor ()
      ensures Valid() && data == map[]
    {
      data := map[];
    }

    /** `overwrite(key, value)`: replace the key's set by the given values,
        or delete the key when there are none. */
    method Overwrite(key: K, values: seq<V>) returns (r: Outcome)
      requires Valid()
      modifies this
      ensures Valid()
      ensures Overwritten(old(data), key, values).Ok? ==> r == Pass && data == Overwritten(old(data), key, values).value
      ensures Overwritten(old(data), key, values).Err? ==> r == Fail(KeyError) && data == old(data)
    {
      var value := Elems(values);
      if |value| > 0 {
        data := data[key := value];
        r := Pass;
      } else if key in data {
        data := data - {key};
        r := Pass;
      } else {
        r := Fail(KeyError);
      }
    }

    /** `storage[key] = value`: add one value, or every value of a list, to
        the key's set. */
    method SetItem(key: K, item: Item<V>)
      requires Valid()
      modifies this
      ensures Valid()
      ensures data == WithItem(old(data), key, item)
    {
      var valueSet := Stored(data, key);
      match item {
        case Many(vs) => valueSet := valueSet + Elems(vs);
        case One(v) => valueSet := valueSet + {v};
      }
      if valueSet != {} {
        data := data[key := valueSet];
      }
    }

    /** `storage[key]`: a list of the key's values; a missing key raises. */
    method GetItem(key: K) returns (r: Result<seq<V>>)
      ensures key !in data ==> r == Err(KeyError)
      ensures key in data ==> r.Ok? && Elems(r.value) == data[key] && NoDup(r.value)
    {
      if key !in data {
        return Err(KeyError);
      }
      var values := ListOf(data[key]);
      r := Ok(values);
    }

    /** `storage.get(key)` with the default `None`: a list of the key's
        values, or `None` for a missing key; storage is not changed. */
    method Get(key: K) returns (r: Option<seq<V>>)
      ensures r.None? <==> key !in data
      ensures r.Some? ==> Elems(r.value) == data[key] && NoDup(r.value)
    {
      if key in data {
        var values := ListOf(data[key]);
        r := Some(values);
      } else {
        r := None;
      }
    }

    /** `iter(storage)`: one pair per key, each with a list copy of the
        key's values. */
    method Items() returns (items: seq<(K, seq<V>)>)
      ensures forall i :: 0 <= i < |items| ==>
        items[i].0 in data && Elems(items[i].1) == data[items[i].0] && NoDup(items[i].1)
      ensures forall k :: k in data ==> exists i :: 0 <= i < |items| && items[i].0 == k
      ensures forall i, j :: 0 <= i < j < |items| ==> items[i].0 != items[j].0
    {
      items := [];
      var rest := data.Keys;
      while rest != {}
        invariant rest <= data.Keys
        invariant forall i :: 0 <= i < |items| ==>
          items[i].0 in data && items[i].0 !in rest && Elems(items[i].1) == data[items[i].0] && NoDup(items[i].1)
        invariant forall k :: k in data && k !in rest ==> exists i :: 0 <= i < |items| && items[i].0 == k
        invariant forall i, j :: 0 <= i < j < |items| ==> items[i].0 != items[j].0
        decreases rest
      {
        var k :| k in rest;
        var values := ListOf(data[k]);
        ghost var before := items;
        items := items + [(k, values)];
        assert forall i :: 0 <= i < |before| ==> items[i] == before[i];
        assert items[|before|].0 == k;
        rest := rest - {k};
      }
    }

    /** `iter_older_than(seconds_old)`: the age is ignored and every pair
        is produced, exactly as `iter(storage)` does. */
    method IterOlderThan(secondsOld: int) returns (items: seq<(K, seq<V>)>)
      ensures forall i :: 0 <= i < |items| ==>
        items[i].0 in data && Elems(items[i].1) == data[items[i].0] && NoDup(items[i].1)
      ensures forall k :: k in data ==> exists i :: 0 <= i < |items| && items[i].0 == k
      ensures forall i, j :: 0 <= i < j < |items| ==> items[i].0 != items[j].0
    {
      items := Items();
    }
  }
}
