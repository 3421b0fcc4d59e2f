/** The multi-value layer of a registry node (node.py): the merge step of
    the multi-value crawl, the local-versus-remote decision of a lookup,
    and one liveness round that prunes the local store.

    The Kademlia collaborators are parameters: `digest` is the library's
    key hash, `remote` is what the library's iterative crawl returns, and
    the two hooks of a liveness round (`parse`, `validate`) are passed in,
    so that the plain node (identity hooks) and the service node of
    client_dc.py (parse and probe) share one body. */
module Node {
  import opened Wrappers
  import opened Storage

  /** The union of all the lists in `lists`. */
  function UnionAll<V>(lists: seq<seq<V>>): set<V>
  {
    if lists == [] then {} else UnionAll(lists[..|lists| - 1]) + Elems(lists[|lists| - 1])
  }

  /** A value is in the union exactly when some list holds it. */
  lemma {:induction false} UnionAllMembers<V>(lists: seq<seq<V>>, v: V)
    ensures v in UnionAll(lists) <==> exists j :: 0 <= j < |lists| && v in lists[j]
  {
    if lists != [] {
      var init := lists[..|lists| - 1];
      UnionAllMembers(init, v);
      if v in UnionAll(init) {
        var j :| 0 <= j < |init| && v in init[j];
        assert lists[j] == init[j];
      }
      if exists j :: 0 <= j < |lists| && v in lists[j] {
        var j :| 0 <= j < |lists| && v in lists[j];
        if j < |init| {
          assert init[j] == lists[j];
        }
      }
    }
  }

  /** `MultiValueSpiderCrawl._handle_found_values`, merge part: the union
      of the value lists every peer answered with. The crawl calls it only
      once at least one peer has answered. */
  method MergeFoundValues<V(==)>(values: seq<seq<V>>) returns (merged: seq<V>)
    requires |values| > 0
    ensures forall v :: v in merged <==> exists j :: 0 <= j < |values| && v in values[j]
    ensures NoDup(merged)
  {
    var valueSet := Elems(values[0]);
    assert values[..1] == [values[0]];
    for i := 1 to |values|
      invariant valueSet == UnionAll(values[..i])
    {
      assert values[..i + 1][..i] == values[..i];
      valueSet := valueSet + Elems(values[i]);
    }
    assert values[..|values|] == values;
    merged := ListOf(valueSet);
    forall v ensures v in merged <==> exists j :: 0 <= j < |values| && v in values[j] {
      UnionAllMembers(values, v);
    }
  }

  /** Spec of `get_multi_value`'s decision: the local set alone when it is
      non-empty and the lookup is shallow; otherwise the local set together
      with the crawl's answer, no answer counting as empty. */
  function LookupResult<V>(local: set<V>, shallow: bool, remote: Option<seq<V>>): (r: set<V>)
    ensures local <= r
    ensures remote.Some? && !(shallow && local != {}) ==> Elems(remote.value) <= r
    ensures r <= local + (if remote.Some? then Elems(remote.value) else {})
  {
    if local != {} && shallow then local
    else local + (if remote.None? then {} else Elems(remote.value))
  }

  /** Whether the lookup has to run the crawl at all. */
  predicate Crawls<V>(local: set<V>, shallow: bool)
  {
    !(local != {} && shallow)
  }

  /** A lookup that does not crawl gives the same answer whatever the crawl
      would have returned: the network is never consulted. */
  lemma ShallowHitIgnoresCrawl<V>(local: set<V>, remote1: Option<seq<V>>, remote2: Option<seq<V>>)
    requires !Crawls(local, true)
    ensures LookupResult(local, true, remote1) == LookupResult(local, true, remote2) == local
  {
  }

  /** A lookup that crawls returns exactly the local values and the
      crawled ones. */
  lemma CrawledLookupIsUnion<V>(local: set<V>, shallow: bool, remote: Option<seq<V>>)
    requires Crawls(local, shallow)
    ensures forall v :: v in LookupResult(local, shallow, remote) <==>
      v in local || (remote.Some? && v in remote.value)
  {
  }

  /** Every value held under any key of the store. */
  function AllValues<K, V>(m: map<K, set<V>>): set<V>
  {
    set k, v | k in m && v in m[k] :: v
  }

  /** Whether some value of a round parses and then raises while being
      validated (which makes `asyncio.gather` raise and ends the round). */
  predicate RoundRaises<P>(values: set<string>, parse: string -> Option<P>, validate: P -> Result<Option<string>>)
  {
    exists v :: v in values && parse(v).Some? && validate(parse(v).value).Err?
  }

  /** Whether a value parses and its validation answers with `w`. */
  predicate Confirms<P>(v: string, w: string, parse: string -> Option<P>, validate: P -> Result<Option<string>>)
  {
    parse(v).Some? && validate(parse(v).value) == Ok(Some(w))
  }

  /** `checked_list`: the answers of the validations that succeeded. */
  function Checked<P>(values: set<string>, parse: string -> Option<P>, validate: P -> Result<Option<string>>): (r: set<string>)
    ensures forall v, w :: v in values && Confirms(v, w, parse, validate) ==> w in r
  {
    set v | v in values && parse(v).Some? && validate(parse(v).value).Ok? && validate(parse(v).value).value.Some?
      :: validate(parse(v).value).value.value
  }

  lemma CheckedMembers<P>(values: set<string>, parse: string -> Option<P>, validate: P -> Result<Option<string>>, w: string)
    ensures w in Checked(values, parse, validate) <==> exists v :: v in values && Confirms(v, w, parse, validate)
  {
    if w in Checked(values, parse, validate) {
      var v :| v in values && parse(v).Some? && validate(parse(v).value).Ok? && validate(parse(v).value).value.Some?
        && w == validate(parse(v).value).value.value;
      assert Confirms(v, w, parse, validate);
    }
  }

  /** The store after a round: each key keeps those of its values that
      were checked, and a key left with none is removed. */
  function Pruned<K, V>(m: map<K, set<V>>, checked: set<V>): (r: map<K, set<V>>)
    ensures r.Keys <= m.Keys
    ensures forall k :: k in m ==> Stored(r, k) == m[k] * checked
    ensures NonEmptySets(r)
    ensures AllValues(r) == AllValues(m) * checked
  {
    var r := map k | k in m && m[k] * checked != {} :: m[k] * checked;
    assert AllValues(r) == AllValues(m) * checked by {
      forall v | v in AllValues(m) * checked ensures v in AllValues(r) {
        var k :| k in m && v in m[k];
        assert v in m[k] * checked;
        assert k in r;
      }
    }
    r
  }

  /** The store part-way through the write-back: keys in `done` are
      pruned, the others still hold the snapshot. */
  function PartlyPruned<K, V>(m: map<K, set<V>>, checked: set<V>, done: set<K>): map<K, set<V>>
  {
    map k | k in m && (k !in done || m[k] * checked != {}) :: if k in done then m[k] * checked else m[k]
  }

  /** A list comprehension `[x for x in s if x in keep]`. */
  function Filter<V>(s: seq<V>, keep: set<V>): (r: seq<V>)
    ensures Elems(r) == Elems(s) * keep
  {
    if s == [] then []
    else
      var rest := Filter(s[1..], keep);
      assert Elems(s) == {s[0]} + Elems(s[1..]);
      assert Elems([s[0]] + rest) == {s[0]} + Elems(rest);
      if s[0] in keep then [s[0]] + rest else rest
  }

  lemma PartlyPrunedStep<K, V>(m: map<K, set<V>>, checked: set<V>, done: set<K>, key: K, kept: seq<V>)
    requires key in m && key !in done
    requires Elems(kept) == m[key] * checked
    ensures Overwritten(PartlyPruned(m, checked, done), key, kept).Ok?
    ensures Overwritten(PartlyPruned(m, checked, done), key, kept).value == PartlyPruned(m, checked, done + {key})
  {
    var before := PartlyPruned(m, checked, done);
    var after := Overwritten(before, key, kept).value;
    var want := PartlyPruned(m, checked, done + {key});
    assert kept == [] <==> m[key] * checked == {} by {
      if kept != [] { assert kept[0] in Elems(kept); }
    }
    assert after.Keys == want.Keys;
    forall k | k in after ensures after[k] == want[k] {
      assert Stored(after, k) == Stored(want, k);
    }
  }

  lemma PartlyPrunedAll<K, V>(m: map<K, set<V>>, checked: set<V>)
    ensures PartlyPruned(m, checked, m.Keys) == Pruned(m, checked)
  {
  }

  /** The plain node's parse hook: every value parses, as itself. */
  function ParseStorageValue(value: string): (r: Option<string>)
    ensures r == Some(value)
  {
    Some(value)
  }

  /** The plain node's validate hook: every parsed value is confirmed. */
  function ValidateStorageValue(parsedValue: string): (r: Result<Option<string>>)
    ensures r == Ok(Some(parsedValue))
  {
    Ok(Some(parsedValue))
  }

  /** A registry node: the DHT participant and its multi-value store. */
  class MultiValueNode<K(==)> {
    const port: int
    const neighbours: seq<(string, int)>
    const storageItems: map<string, string>
    /** The DHT library's key hash (`kademlia.utils.digest`). */
    const digest: string -> K
    const storage: MultiStorage<K, string>

    constructor (port: int, neighbours: seq<(string, int)>, storageItems: map<string, string>, digest: string -> K)
      ensures this.port == port && this.neighbours == neighbours && this.storageItems == storageItems
      ensures this.digest == digest
      ensures fresh(storage) && storage.Valid() && storage.data == map[]
    {
      this.port := port;
      this.neighbours := neighbours;
      this.storageItems := storageItems;
      this.digest := digest;
      storage := new MultiStorage();
    }

    /** `get_multi_value(key, shallow)`: `remote` is what the crawl answers
        when it is run. */
    method GetMultiValue(key: string, shallow: bool, remote: Option<seq<string>>) returns (values: seq<string>)
      ensures Elems(values) == LookupResult(Stored(storage.data, digest(key)), shallow, remote)
      ensures NoDup(values)
    {
      var dkey := digest(key);
      var localValue := storage.Get(dkey);
      var localSet := if localValue.None? then {} else Elems(localValue.value);
      if |localSet| > 0 && shallow {
        values := ListOf(localSet);
        return;
      }
      var remoteSet := if remote.None? then {} else Elems(remote.value);
      values := ListOf(localSet + remoteSet);
    }

    /** First step of `ping_node_storage`: a snapshot of every key with a
        list copy of its values, and the set of all distinct values. */
    method SnapshotStorage() returns (itemDict: map<K, seq<string>>, sumList: set<string>)
      ensures itemDict.Keys == storage.data.Keys
      ensures forall k :: k in itemDict ==> Elems(itemDict[k]) == storage.data[k]
      ensures sumList == AllValues(storage.data)
    {
      var items := storage.Items();
      itemDict, sumList := map[], {};
      for i := 0 to |items|
        invariant forall k :: k in itemDict <==> exists j :: 0 <= j < i && items[j].0 == k
        invariant forall k :: k in itemDict ==> Elems(itemDict[k]) == storage.data[k]
        invariant forall v :: v in sumList <==> exists k :: k in itemDict && v in storage.data[k]
      {
        var (key, value) := items[i];
        itemDict := itemDict[key := value];
        sumList := sumList + Elems(value);
      }
      assert sumList == AllValues(storage.data) by {
        forall v | v in AllValues(storage.data) ensures v in sumList {
          var k :| k in storage.data && v in storage.data[k];
        }
      }
    }

    /** Last step of `ping_node_storage`: overwrite every snapshotted key
        with those of its values that were confirmed. */
    method WriteBack(itemDict: map<K, seq<string>>, checkedList: set<string>)
      requires storage.Valid()
      requires itemDict.Keys == storage.data.Keys
      requires forall k :: k in itemDict ==> Elems(itemDict[k]) == storage.data[k]
      modifies storage
      ensures storage.Valid()
      ensures storage.data == Pruned(old(storage.data), checkedList)
    {
      ghost var snapshot := storage.data;
      var keys := itemDict.Keys;
      while keys != {}
        invariant keys <= itemDict.Keys
        invariant storage.Valid()
        invariant storage.data == PartlyPruned(snapshot, checkedList, itemDict.Keys - keys)
        decreases keys
      {
        var key :| key in keys;
        var kept := Filter(itemDict[key], checkedList);
        PartlyPrunedStep(snapshot, checkedList, itemDict.Keys - keys, key, kept);
        var _ := storage.Overwrite(key, kept);
        assert itemDict.Keys - keys + {key} == itemDict.Keys - (keys - {key});
        keys := keys - {key};
      }
      PartlyPrunedAll(snapshot, checkedList);
    }

    /** `ping_node_storage`: one liveness round with the given hooks.
        Every distinct stored value is parsed and the parsed ones are
        validated; if a validation raises, the round ends with that
        exception before anything is written; otherwise each key of the
        snapshot is overwritten with its values that were confirmed. */
    method PingNodeStorage<P(==)>(parse: string -> Option<P>, validate: P -> Result<Option<string>>)
      returns (r: Outcome)
      requires storage.Valid()
      modifies storage
      ensures storage.Valid()
      ensures !RoundRaises(AllValues(old(storage.data)), parse, validate) ==>
        r == Pass && storage.data == Pruned(old(storage.data), Checked(AllValues(old(storage.data)), parse, validate))
      ensures RoundRaises(AllValues(old(storage.data)), parse, validate) ==>
        r.Fail? && storage.data == old(storage.data) &&
        exists v :: v in AllValues(old(storage.data)) && parse(v).Some? && validate(parse(v).value) == Err(r.error)
    {
      var itemDict, sumList := SnapshotStorage();
      var checked := CheckValues(sumList, parse, validate);
      if checked.Err? {
        return Fail(checked.error);
      }
      WriteBack(itemDict, checked.value);
      r := Pass;
    }
  }

  /** The middle of `ping_node_storage`: parse each distinct value, validate
      the parsed ones (`asyncio.gather`), and collect the confirmed answers
      into `checked_list`. An exception raised by a validation propagates
      out of the gather. */
  method CheckValues<P(==)>(sumList: set<string>, parse: string -> Option<P>, validate: P -> Result<Option<string>>)
    returns (r: Result<set<string>>)
    ensures r.Err? <==> RoundRaises(sumList, parse, validate)
    ensures r.Err? ==> exists v :: v in sumList && parse(v).Some? && validate(parse(v).value) == Err(r.error)
    ensures r.Ok? ==> r.value == Checked(sumList, parse, validate)
  {
    var tasks: seq<P> := [];
    ghost var sources: seq<string> := [];
    var rest := sumList;
    while rest != {}
      invariant rest <= sumList
      invariant |sources| == |tasks|
      invariant forall j :: 0 <= j < |tasks| ==> sources[j] in sumList && parse(sources[j]) == Some(tasks[j])
      invariant forall v :: v in sumList - rest && parse(v).Some? ==> v in sources
      decreases rest
    {
      var value :| value in rest;
      var parsedValue := parse(value);
      if parsedValue.Some? {
        tasks := tasks + [parsedValue.value];
        sources := sources + [value];
      }
      rest := rest - {value};
    }

    var values := seq(|tasks|, j requires 0 <= j < |tasks| => validate(tasks[j]));
    if j :| 0 <= j < |values| && values[j].Err? {
      assert parse(sources[j]).Some? && validate(parse(sources[j]).value) == Err(values[j].error);
      return Err(values[j].error);
    }
    assert !RoundRaises(sumList, parse, validate) by {
      forall v | v in sumList && parse(v).Some? ensures validate(parse(v).value).Ok? {
        var j :| 0 <= j < |sources| && sources[j] == v;
        assert !values[j].Err?;
      }
    }

    var checkedList: set<string> := {};
    for j := 0 to |values|
      invariant forall w :: w in checkedList <==> exists t :: 0 <= t < j && values[t] == Ok(Some(w))
    {
      if values[j].value.Some? {
        checkedList := checkedList + {values[j].value.value};
      }
    }
    assert checkedList == Checked(sumList, parse, validate) by {
      forall w ensures w in checkedList <==> w in Checked(sumList, parse, validate) {
        CheckedMembers(sumList, parse, validate, w);
        if w in Checked(sumList, parse, validate) {
          var v :| v in sumList && Confirms(v, w, parse, validate);
          var t :| 0 <= t < |sources| && sources[t] == v;
          assert values[t] == Ok(Some(w));
        }
        if w in checkedList {
          var t :| 0 <= t < |values| && values[t] == Ok(Some(w));
          assert Confirms(sources[t], w, parse, validate);
        }
      }
    }
    r := Ok(checkedList);
  }

  /** With the plain node's identity hooks every value is confirmed as
      itself, and nothing else is. */
  lemma IdentityConfirmsAll(values: set<string>)
    ensures !RoundRaises(values, ParseStorageValue, ValidateStorageValue)
    ensures Checked(values, ParseStorageValue, ValidateStorageValue) == values
  {
    var checked := Checked(values, ParseStorageValue, ValidateStorageValue);
    forall w | w in values ensures w in checked {
      assert Confirms(w, w, ParseStorageValue, ValidateStorageValue);
    }
    forall w | w in checked ensures w in values {
      CheckedMembers(values, ParseStorageValue, ValidateStorageValue, w);
      var v :| v in values && Confirms(v, w, ParseStorageValue, ValidateStorageValue);
      assert v == w;
    }
  }

  /** With the plain node's identity hooks a round raises nothing and
      leaves a valid store unchanged. */
  lemma {:induction false} IdentityRoundKeepsStorage<K>(m: map<K, set<string>>)
    requires NonEmptySets(m)
    ensures !RoundRaises(AllValues(m), ParseStorageValue, ValidateStorageValue)
    ensures Pruned(m, Checked(AllValues(m), ParseStorageValue, ValidateStorageValue)) == m
  {
    IdentityConfirmsAll(AllValues(m));
    var p := Pruned(m, AllValues(m));
    forall k | k in m ensures k in p && p[k] == m[k] {
      assert m[k] * AllValues(m) == m[k] by {
        forall v | v in m[k] ensures v in AllValues(m) {
        }
      }
      assert Stored(p, k) == m[k];
    }
    assert p.Keys == m.Keys;
  }

  /** A value that is not confirmed is held under no key after the round,
      however many keys held it before. */
  lemma UnconfirmedValueRemoved<K>(m: map<K, set<string>>, checked: set<string>, v: string, k: K)
    requires v !in checked
    ensures v !in Stored(Pruned(m, checked), k)
  {
  }
}
