/** What a store means: resources in creation order, at most `limit` of them. */
module StoreSpec {
  import opened Basics
  import opened JsonModel
  import opened StoreTypes

  datatype Resource = Resource(key: StoreKey, value: Json)

  predicate Distinct(rs: seq<Resource>) {
    forall i, j :: 0 <= i < j < |rs| ==> rs[i].key != rs[j].key
  }

  function Lookup(rs: seq<Resource>, key: StoreKey): Option<Json> {
    if rs == [] then None
    else if rs[0].key == key then Some(rs[0].value)
    else Lookup(rs[1..], key)
  }

  function Replace(rs: seq<Resource>, key: StoreKey, value: Json): (out: seq<Resource>)
    ensures |out| == |rs|
  {
    if rs == [] then []
    else [if rs[0].key == key then Resource(key, value) else rs[0]] + Replace(rs[1..], key, value)
  }

  function Without(rs: seq<Resource>, key: StoreKey): seq<Resource> {
    if rs == [] then []
    else (if rs[0].key == key then [] else [rs[0]]) + Without(rs[1..], key)
  }

  function Ids(rs: seq<Resource>, namespace: string): seq<string> {
    if rs == [] then []
    else (if rs[0].key.namespace == namespace then [rs[0].key.id] else []) + Ids(rs[1..], namespace)
  }

  /** The resources of one namespace in creation order. */
  function List(rs: seq<Resource>, namespace: string): seq<Json> {
    if rs == [] then []
    else (if rs[0].key.namespace == namespace then [rs[0].value] else []) + List(rs[1..], namespace)
  }

  type Answer = Result<(), StoreError>

  /** Capacity is checked before collision. */
  function Create(rs: seq<Resource>, limit: nat, key: StoreKey, value: Json): (seq<Resource>, Answer) {
    if |rs| >= limit then (rs, Err(CapacityExceeded(limit)))
    else if Lookup(rs, key).Some? then (rs, Err(AlreadyExists(key)))
    else (rs + [Resource(key, value)], Ok(()))
  }

  function Update(rs: seq<Resource>, key: StoreKey, value: Json): (seq<Resource>, Answer) {
    if Lookup(rs, key).Some? then (Replace(rs, key, value), Ok(())) else (rs, Err(NotFound(key)))
  }

  function Delete(rs: seq<Resource>, key: StoreKey): (seq<Resource>, Answer) {
    if Lookup(rs, key).Some? then (Without(rs, key), Ok(())) else (rs, Err(NotFound(key)))
  }

  // ---------------------------------------------------------------------------
  // How lookups see the updates
  // ---------------------------------------------------------------------------

  lemma {:induction false} LookupFinds(rs: seq<Resource>, key: StoreKey)
    ensures Lookup(rs, key).None? <==> forall i :: 0 <= i < |rs| ==> rs[i].key != key
    ensures Distinct(rs) ==> forall i :: 0 <= i < |rs| && rs[i].key == key ==> Lookup(rs, key) == Some(rs[i].value)
  {
    if rs != [] {
      LookupFinds(rs[1..], key);
      assert forall i :: 0 < i < |rs| ==> rs[i] == rs[1..][i - 1];
    }
  }

  lemma {:induction false} LookupAppend(rs: seq<Resource>, r: Resource, probe: StoreKey)
    ensures Lookup(rs + [r], probe)
         == if Lookup(rs, probe).Some? then Lookup(rs, probe)
            else if r.key == probe then Some(r.value) else None
  {
    if rs != [] {
      assert (rs + [r])[1..] == rs[1..] + [r];
      LookupAppend(rs[1..], r, probe);
    } else {
      assert (rs + [r])[1..] == [];
    }
  }

  lemma {:induction false} LookupReplace(rs: seq<Resource>, key: StoreKey, value: Json, probe: StoreKey)
    ensures Lookup(Replace(rs, key, value), probe)
         == if probe == key && Lookup(rs, key).Some? then Some(value) else Lookup(rs, probe)
  {
    if rs != [] {
      assert Replace(rs, key, value)[1..] == Replace(rs[1..], key, value);
      LookupReplace(rs[1..], key, value, probe);
    }
  }

  lemma {:induction false} LookupWithout(rs: seq<Resource>, key: StoreKey, probe: StoreKey)
    ensures Lookup(Without(rs, key), probe) == if probe == key then None else Lookup(rs, probe)
  {
    if rs != [] {
      LookupWithout(rs[1..], key, probe);
      var rest := Without(rs[1..], key);
      assert Without(rs, key) == if rs[0].key == key then rest else [rs[0]] + rest;
      assert ([rs[0]] + rest)[1..] == rest;
    }
  }

  // ---------------------------------------------------------------------------
  // How the per-namespace index sees them
  // ---------------------------------------------------------------------------

  function Retain(ids: seq<string>, id: string): seq<string> {
    if ids == [] then []
    else (if ids[0] == id then [] else [ids[0]]) + Retain(ids[1..], id)
  }

  lemma {:induction false} IdsAppend(rs: seq<Resource>, r: Resource, namespace: string)
    ensures Ids(rs + [r], namespace)
         == Ids(rs, namespace) + (if r.key.namespace == namespace then [r.key.id] else [])
  {
    if rs != [] {
      assert (rs + [r])[1..] == rs[1..] + [r];
      IdsAppend(rs[1..], r, namespace);
    } else {
      assert (rs + [r])[1..] == [];
    }
  }

  lemma {:induction false} IdsReplace(rs: seq<Resource>, key: StoreKey, value: Json, namespace: string)
    ensures Ids(Replace(rs, key, value), namespace) == Ids(rs, namespace)
  {
    if rs != [] {
      assert Replace(rs, key, value)[1..] == Replace(rs[1..], key, value);
      IdsReplace(rs[1..], key, value, namespace);
    }
  }

  lemma {:induction false} IdsWithout(rs: seq<Resource>, key: StoreKey, namespace: string)
    ensures Ids(Without(rs, key), namespace)
         == if key.namespace == namespace then Retain(Ids(rs, namespace), key.id) else Ids(rs, namespace)
  {
    if rs != [] {
      IdsWithout(rs[1..], key, namespace);
      var head, rest, tail := rs[0].key, Without(rs[1..], key), Ids(rs[1..], namespace);
      assert ([rs[0]] + rest)[1..] == rest;
      assert ([head.id] + tail)[1..] == tail;
      if head == key {
        assert Without(rs, key) == rest;
      } else {
        assert Without(rs, key) == [rs[0]] + rest;
      }
      if head.namespace == namespace {
        assert Ids(rs, namespace) == [head.id] + tail;
      } else {
        assert Ids(rs, namespace) == tail;
      }
    }
  }

  // ---------------------------------------------------------------------------
  // Distinct keys are kept
  // ---------------------------------------------------------------------------

  lemma {:induction false} DistinctKept(rs: seq<Resource>, limit: nat, key: StoreKey, value: Json)
    requires Distinct(rs)
    ensures Distinct(Create(rs, limit, key, value).0)
    ensures Distinct(Update(rs, key, value).0)
    ensures Distinct(Delete(rs, key).0)
  {
    LookupFinds(rs, key);
    ReplaceKeys(rs, key, value);
    WithoutKeys(rs, key);
  }

  lemma {:induction false} ReplaceKeys(rs: seq<Resource>, key: StoreKey, value: Json)
    ensures forall i :: 0 <= i < |rs| ==> Replace(rs, key, value)[i].key == rs[i].key
  {
    if rs != [] {
      ReplaceKeys(rs[1..], key, value);
    }
  }

  lemma {:induction false} WithoutKeys(rs: seq<Resource>, key: StoreKey)
    requires Distinct(rs)
    ensures Distinct(Without(rs, key))
    ensures forall x :: x in Without(rs, key) ==> x in rs && x.key != key
  {
    if rs != [] {
      WithoutKeys(rs[1..], key);
      var rest := Without(rs[1..], key);
      assert forall x :: x in rest ==> x in rs[1..];
      assert forall i :: 0 <= i < |rest| ==> rest[i] in rest;
      assert forall x :: x in rs[1..] ==> x in rs && x.key != rs[0].key;
    }
  }

  lemma {:induction false} WithoutLive(rs: seq<Resource>, key: StoreKey)
    requires Distinct(rs)
    ensures |Without(rs, key)| == |rs| - if Lookup(rs, key).Some? then 1 else 0
  {
    if rs != [] {
      WithoutLive(rs[1..], key);
      LookupFinds(rs[1..], key);
    }
  }
}

/** The store as written: an entry map, a per-namespace order index and a counter, kept
    in step by every operation run one at a time. */
module StoreModel {
  import opened Basics
  import opened JsonModel
  import opened StoreTypes
  import Spec = StoreSpec

  /** The entry map holds exactly the resources of `rs`. */
  ghost predicate EntriesAgree(entries: map<StoreKey, Json>, rs: seq<Spec.Resource>) {
    forall k :: Spec.Lookup(rs, k) == if k in entries then Some(entries[k]) else None
  }

  /** The index lists every namespace of `rs` in creation order. */
  ghost predicate OrderAgrees(order: map<string, seq<string>>, rs: seq<Spec.Resource>) {
    forall ns :: Spec.Ids(rs, ns) == if ns in order then order[ns] else []
  }

  class Store {
    var entries: map<StoreKey, Json>
    var order: map<string, seq<string>>
    var count: nat
    const limit: nat
    ghost var resources: seq<Spec.Resource>

    ghost predicate Valid()
      reads this
    {
      && EntriesAgree(entries, resources)
      && OrderAgrees(order, resources)
      && Spec.Distinct(resources)
      && count == |resources| <= limit
    }

    constructor (limit: nat)
      ensures Valid() && resources == [] && this.limit == limit
    {
      entries, order, count := map[], map[], 0;
      this.limit := limit;
      resources := [];
    }

    method Create(key: StoreKey, value: Json) returns (r: Spec.Answer)
      requires Valid()
      modifies this
      ensures Valid()
      ensures (resources, r) == Spec.Create(old(resources), limit, key, value)
    {
      var current := count;
      if current >= limit {
        return Err(CapacityExceeded(limit));
      }
      count := current + 1;
      if key in entries {
        count := count - 1;
        return Err(AlreadyExists(key));
      }
      AppendAgrees(entries, order, resources, key, value);
      Spec.DistinctKept(resources, limit, key, value);
      entries := entries[key := value];
      if key.namespace !in order {
        order := order[key.namespace := [key.id]];
      } else {
        order := order[key.namespace := order[key.namespace] + [key.id]];
      }
      resources := resources + [Spec.Resource(key, value)];
      return Ok(());
    }

    method Read(key: StoreKey) returns (r: Option<Json>)
      requires Valid()
      ensures r == Spec.Lookup(resources, key)
    {
      r := if key in entries then Some(entries[key]) else None;
    }

    method Update(key: StoreKey, value: Json) returns (r: Spec.Answer)
      requires Valid()
      modifies this
      ensures Valid()
      ensures (resources, r) == Spec.Update(old(resources), key, value)
    {
      if key !in entries {
        return Err(NotFound(key));
      }
      ReplaceAgrees(entries, order, resources, key, value);
      Spec.DistinctKept(resources, limit, key, value);
      entries := entries[key := value];
      resources := Spec.Replace(resources, key, value);
      return Ok(());
    }

    method Delete(key: StoreKey) returns (r: Spec.Answer)
      requires Valid()
      modifies this
      ensures Valid()
      ensures (resources, r) == Spec.Delete(old(resources), key)
    {
      if key !in entries {
        return Err(NotFound(key));
      }
      WithoutEntries(entries, resources, key);
      WithoutOrder(order, resources, key);
      Spec.WithoutLive(resources, key);
      Spec.DistinctKept(resources, limit, key, Null);
      entries := entries - {key};
      count := count - 1;
      if key.namespace in order {
        order := order[key.namespace := Spec.Retain(order[key.namespace], key.id)];
      }
      resources := Spec.Without(resources, key);
      return Ok(());
    }

    /** Walks the index and skips an identifier with no entry; in a valid store none is
        skipped. */
    method List(namespace: string) returns (out: seq<Json>)
      requires Valid()
      ensures out == Spec.List(resources, namespace)
    {
      out := [];
      AllStored(entries, resources);
      ListOfIds(entries, resources, namespace);
      if namespace !in order {
        return;
      }
      out := FetchAll(entries, namespace, order[namespace]);
    }

    method Len() returns (n: nat)
      requires Valid()
      ensures n == |resources| == |entries|
    {
      n := count;
      forall k { Spec.LookupFinds(resources, k); }
      EntryCount(entries, resources);
    }

    method Clear() returns (removed: nat)
      requires Valid()
      modifies this
      ensures Valid() && resources == [] && removed == |old(resources)|
    {
      removed := count;
      entries := map[];
      order := map[];
      count := 0;
      resources := [];
    }
  }

  lemma {:induction false} AppendAgrees(
    entries: map<StoreKey, Json>, order: map<string, seq<string>>, rs: seq<Spec.Resource>,
    key: StoreKey, value: Json)
    requires EntriesAgree(entries, rs) && OrderAgrees(order, rs) && key !in entries
    ensures EntriesAgree(entries[key := value], rs + [Spec.Resource(key, value)])
    ensures
      var ids := if key.namespace in order then order[key.namespace] else [];
      OrderAgrees(order[key.namespace := ids + [key.id]], rs + [Spec.Resource(key, value)])
  {
    var r := Spec.Resource(key, value);
    forall k { Spec.LookupAppend(rs, r, k); }
    forall ns { Spec.IdsAppend(rs, r, ns); }
  }

  lemma {:induction false} ReplaceAgrees(
    entries: map<StoreKey, Json>, order: map<string, seq<string>>, rs: seq<Spec.Resource>,
    key: StoreKey, value: Json)
    requires EntriesAgree(entries, rs) && OrderAgrees(order, rs) && key in entries
    ensures EntriesAgree(entries[key := value], Spec.Replace(rs, key, value))
    ensures OrderAgrees(order, Spec.Replace(rs, key, value))
  {
    forall k { Spec.LookupReplace(rs, key, value, k); }
    forall ns { Spec.IdsReplace(rs, key, value, ns); }
  }

  lemma {:induction false} WithoutEntries(entries: map<StoreKey, Json>, rs: seq<Spec.Resource>, key: StoreKey)
    requires EntriesAgree(entries, rs)
    ensures EntriesAgree(entries - {key}, Spec.Without(rs, key))
  {
    forall k { Spec.LookupWithout(rs, key, k); }
  }

  lemma {:induction false} WithoutOrder(order: map<string, seq<string>>, rs: seq<Spec.Resource>, key: StoreKey)
    requires OrderAgrees(order, rs)
    ensures
      var ns := key.namespace;
      OrderAgrees(if ns in order then order[ns := Spec.Retain(order[ns], key.id)] else order, Spec.Without(rs, key))
  {
    var ns0, after := key.namespace, Spec.Without(rs, key);
    var order' := if ns0 in order then order[ns0 := Spec.Retain(order[ns0], key.id)] else order;
    forall ns ensures Spec.Ids(after, ns) == if ns in order' then order'[ns] else [] {
      Spec.IdsWithout(rs, key, ns);
      assert Spec.Ids(rs, ns) == if ns in order then order[ns] else [];
    }
  }

  method FetchAll(entries: map<StoreKey, Json>, namespace: string, ids: seq<string>) returns (out: seq<Json>)
    ensures out == Fetch(entries, namespace, ids)
  {
    out := [];
    for i := 0 to |ids|
      invariant out == Fetch(entries, namespace, ids[..i])
    {
      assert ids[..i + 1] == ids[..i] + [ids[i]];
      FetchAppend(entries, namespace, ids[..i], ids[i]);
      var key := StoreKey(namespace, ids[i]);
      if key in entries {
        out := out + [entries[key]];
      }
    }
    assert ids[..|ids|] == ids;
  }

  function Fetch(entries: map<StoreKey, Json>, namespace: string, ids: seq<string>): seq<Json> {
    if ids == [] then []
    else
      var key := StoreKey(namespace, ids[0]);
      (if key in entries then [entries[key]] else []) + Fetch(entries, namespace, ids[1..])
  }

  lemma {:induction false} FetchAppend(entries: map<StoreKey, Json>, namespace: string, ids: seq<string>, id: string)
    ensures
      var key := StoreKey(namespace, id);
      Fetch(entries, namespace, ids + [id])
      == Fetch(entries, namespace, ids) + (if key in entries then [entries[key]] else [])
  {
    var last := if StoreKey(namespace, id) in entries then [entries[StoreKey(namespace, id)]] else [];
    if ids == [] {
      assert ids + [id] == [id] && [id][1..] == [] && [] + last == last;
    } else {
      var key, rest := StoreKey(namespace, ids[0]), ids[1..];
      var first := if key in entries then [entries[key]] else [];
      assert (ids + [id])[0] == ids[0] && (ids + [id])[1..] == rest + [id];
      FetchAppend(entries, namespace, rest, id);
      assert first + (Fetch(entries, namespace, rest) + last) == (first + Fetch(entries, namespace, rest)) + last;
    }
  }

  ghost predicate Stored(entries: map<StoreKey, Json>, rs: seq<Spec.Resource>) {
    forall i :: 0 <= i < |rs| ==> rs[i].key in entries && entries[rs[i].key] == rs[i].value
  }

  lemma {:induction false} AllStored(entries: map<StoreKey, Json>, rs: seq<Spec.Resource>)
    requires EntriesAgree(entries, rs) && Spec.Distinct(rs)
    ensures Stored(entries, rs)
  {
    forall i | 0 <= i < |rs|
      ensures rs[i].key in entries && entries[rs[i].key] == rs[i].value
    {
      Spec.LookupFinds(rs, rs[i].key);
    }
  }

  /** Reading the indexed identifiers one by one lists the namespace. */
  lemma {:induction false} ListOfIds(entries: map<StoreKey, Json>, rs: seq<Spec.Resource>, namespace: string)
    requires Stored(entries, rs)
    ensures Fetch(entries, namespace, Spec.Ids(rs, namespace)) == Spec.List(rs, namespace)
  {
    if rs != [] {
      assert Stored(entries, rs[1..]);
      ListOfIds(entries, rs[1..], namespace);
      var head, tail := rs[0], Spec.Ids(rs[1..], namespace);
      if head.key.namespace == namespace {
        var ids := Spec.Ids(rs, namespace);
        assert ids[0] == head.key.id && ids[1..] == tail;
        assert StoreKey(namespace, ids[0]) == head.key;
      } else {
        assert Spec.Ids(rs, namespace) == tail;
        assert Spec.List(rs, namespace) == Spec.List(rs[1..], namespace);
      }
    }
  }

  lemma {:induction false} EntryCount(entries: map<StoreKey, Json>, rs: seq<Spec.Resource>)
    requires Spec.Distinct(rs)
    requires forall k :: k in entries <==> exists i :: 0 <= i < |rs| && rs[i].key == k
    ensures |entries| == |rs|
  {
    if rs == [] {
      assert entries.Keys == {};
    } else {
      var rest, tail := entries - {rs[0].key}, rs[1..];
      assert rs[0].key in entries;
      assert entries.Keys == rest.Keys + {rs[0].key};
      forall k ensures k in rest <==> exists i :: 0 <= i < |tail| && tail[i].key == k {
        if k in rest {
          var i :| 0 <= i < |rs| && rs[i].key == k;
          assert tail[i - 1].key == k;
        }
        if i :| 0 <= i < |tail| && tail[i].key == k {
          assert rs[i + 1].key == k;
        }
      }
      EntryCount(rest, tail);
    }
  }
}
