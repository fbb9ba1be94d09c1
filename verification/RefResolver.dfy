/** The resolver with its bounded first-in-first-out document cache: whatever the limit
    and whatever the cache holds, the result is the uncached one. */
module RefResolver {
  import opened Basics
  import opened JsonModel
  import opened RefSpec
  import Text

  /** The queue lists the cached paths once each, within the limit, and every cached
      document is what its file holds. */
  ghost predicate CacheOk(w: World, cache: map<string, Json>, order: seq<string>, limit: nat) {
    && (forall k :: k in cache <==> k in order)
    && (forall i, j :: 0 <= i < j < |order| ==> order[i] != order[j])
    && |order| <= limit
    && (forall k :: k in cache ==> w.load(k) == Some(cache[k]))
  }

  lemma {:induction false} DropFirst(w: World, cache: map<string, Json>, order: seq<string>, limit: nat)
    requires CacheOk(w, cache, order, limit) && order != []
    ensures CacheOk(w, cache - {order[0]}, order[1..], limit)
  {
    var first, rest := order[0], order[1..];
    forall k ensures k in cache - {first} <==> k in rest {
      assert order == [first] + rest;
      if k in rest {
        var i :| 0 <= i < |rest| && rest[i] == k;
        assert order[i + 1] == k;
      }
    }
  }

  lemma {:induction false} AddLast(w: World, cache: map<string, Json>, order: seq<string>, limit: nat, path: string, doc: Json)
    requires CacheOk(w, cache, order, limit) && path !in cache && |order| < limit && w.load(path) == Some(doc)
    ensures CacheOk(w, cache[path := doc], order + [path], limit)
  {
    forall i | 0 <= i < |order| ensures order[i] != path {
      assert order[i] in order;
    }
  }

  method FollowPointer(root: Json, pointer: string) returns (r: Option<Json>)
    ensures r == ResolvePointer(root, pointer)
  {
    if pointer == "" || pointer == "/" {
      return Some(root);
    }
    var parts := PointerParts(pointer);
    var current := root;
    for i := 0 to |parts|
      invariant Descend(root, parts) == Descend(current, parts[i..])
    {
      assert parts[i..][0] == parts[i] && parts[i..][1..] == parts[i + 1..];
      var child := Child(current, parts[i]);
      if child.None? {
        return None;
      }
      current := child.value;
    }
    return Some(current);
  }

  class Resolver {
    var cache: map<string, Json>
    var cacheOrder: seq<string>
    const maxDepth: nat
    const cacheLimit: nat
    const world: World

    ghost predicate Valid()
      reads this
    {
      CacheOk(world, cache, cacheOrder, cacheLimit) && cacheLimit >= 1
    }

    /** A limit of zero is raised to one. */
    constructor (world: World, maxDepth: nat, cacheLimit: nat)
      ensures Valid() && this.world == world && this.maxDepth == maxDepth
      ensures this.cacheLimit == if cacheLimit == 0 then 1 else cacheLimit
    {
      this.world, this.maxDepth := world, maxDepth;
      this.cacheLimit := if cacheLimit == 0 then 1 else cacheLimit;
      cache, cacheOrder := map[], [];
    }

    ghost function Fuel(depth: nat): nat {
      if depth <= maxDepth then maxDepth + 1 - depth else 0
    }

    /** Oldest first, until there is room for one more. */
    method EvictIfNeeded()
      requires Valid()
      modifies this
      ensures Valid() && |cacheOrder| < cacheLimit && cache.Keys <= old(cache.Keys)
    {
      while |cacheOrder| >= cacheLimit
        invariant Valid() && cache.Keys <= old(cache.Keys)
        decreases |cacheOrder|
      {
        DropFirst(world, cache, cacheOrder, cacheLimit);
        cache := cache - {cacheOrder[0]};
        cacheOrder := cacheOrder[1..];
      }
    }

    /** The document at a path, through the cache.  The lookup after loading never misses. */
    method Document(path: string) returns (r: Result<Json, RefError>)
      requires Valid()
      modifies this
      ensures Valid()
      ensures r == match world.load(path) case Some(doc) => Ok(doc) case None => Err(CannotLoad)
      ensures r.Ok? ==> path in cache
    {
      if path !in cache {
        EvictIfNeeded();
        var contents := world.load(path);
        if contents.None? {
          return Err(CannotLoad);
        }
        AddLast(world, cache, cacheOrder, cacheLimit, path, contents.value);
        cache := cache[path := contents.value];
        cacheOrder := cacheOrder + [path];
      }
      if path !in cache {
        assert false;
        return Err(CacheMiss);
      }
      return Ok(cache[path]);
    }

    /** Find what a reference denotes, reading its file through the cache. */
    method LocateTarget(text: string, root: Json, base: string) returns (r: Result<Target, RefError>)
      requires Valid()
      modifies this
      ensures Valid() && r == Locate(world, text, root, base)
    {
      if IsUrl(text) {
        return Err(UrlUnsupported);
      }
      var (file, pointer) := SplitRef(text);
      if file == "" {
        var value := FollowPointer(root, pointer);
        return if value.Some? then Ok(Local(value.value)) else Err(LocalNotFound);
      }
      var path := world.locate(base, file);
      if path.None? {
        return Err(CannotLocate);
      }
      if !world.allowed(path.value) {
        return Err(OutsideRoots);
      }
      var doc := Document(path.value);
      if doc.Err? {
        return Err(doc.error);
      }
      var value := Some(doc.value);
      if pointer != "" {
        value := FollowPointer(doc.value, pointer);
      }
      return if value.Some? then Ok(External(value.value, doc.value, world.parent(path.value))) else Err(PointerNotFound);
    }

    /** Walk a value, inlining every reference: the same result as without a cache. */
    method ResolveValue(v: Json, root: Json, base: string, depth: nat) returns (r: Resolved)
      requires Valid()
      modifies this
      ensures Valid() && r == Resolve(world, v, root, base, Fuel(depth))
      decreases Fuel(depth), 1
    {
      if depth > maxDepth {
        return Err(DepthExceeded);
      }
      match v
      case Obj(members) =>
        var ref := Find(members, REF);
        if ref.None? {
          var out := ResolveEachMember(members, root, base, depth + 1);
          return if out.Ok? then Ok(Obj(out.value)) else Err(out.error);
        }
        if !ref.value.Str? {
          return Err(NotAString);
        }
        var target := ResolveReference(ref.value.text, root, base, depth + 1);
        if target.Err? {
          return target;
        }
        r := ResolveValue(Merge(target.value, Siblings(members)), root, base, depth + 1);
      case Arr(items) =>
        var out := ResolveEachItem(items, root, base, depth + 1);
        return if out.Ok? then Ok(Arr(out.value)) else Err(out.error);
      case _ =>
        return Ok(v);
    }

    method ResolveReference(text: string, root: Json, base: string, depth: nat) returns (r: Resolved)
      requires Valid()
      modifies this
      ensures Valid() && r == ResolveRef(world, text, root, base, Fuel(depth))
      decreases Fuel(depth), 2
    {
      var target := LocateTarget(text, root, base);
      match target
      case Err(error) => return Err(error);
      case Ok(Local(value)) => return Ok(value);
      case Ok(External(value, doc, dir)) => r := ResolveValue(value, doc, dir, depth);
    }

    method ResolveEachMember(members: seq<Member>, root: Json, base: string, depth: nat)
      returns (r: Result<seq<Member>, RefError>)
      requires Valid()
      modifies this
      ensures Valid() && r == ResolveMembers(world, members, root, base, Fuel(depth))
      decreases Fuel(depth), 2
    {
      var out := [];
      assert members[0..] == members;
      PrependLaws(out, ResolveMembers(world, members, root, base, Fuel(depth)));
      for i := 0 to |members|
        invariant Valid()
        invariant ResolveMembers(world, members, root, base, Fuel(depth))
               == Prepend(out, ResolveMembers(world, members[i..], root, base, Fuel(depth)))
      {
        assert members[i..][0] == members[i] && members[i..][1..] == members[i + 1..];
        var value := ResolveValue(members[i].value, root, base, depth);
        if value.Err? {
          return Err(value.error);
        }
        PrependMore(out, Member(members[i].key, value.value), ResolveMembers(world, members[i + 1..], root, base, Fuel(depth)));
        out := out + [Member(members[i].key, value.value)];
      }
      PrependLaws(out, Ok([]));
      return Ok(out);
    }

    method ResolveEachItem(items: seq<Json>, root: Json, base: string, depth: nat)
      returns (r: Result<seq<Json>, RefError>)
      requires Valid()
      modifies this
      ensures Valid() && r == ResolveItems(world, items, root, base, Fuel(depth))
      decreases Fuel(depth), 2
    {
      var out := [];
      assert items[0..] == items;
      PrependLaws(out, ResolveItems(world, items, root, base, Fuel(depth)));
      for i := 0 to |items|
        invariant Valid()
        invariant ResolveItems(world, items, root, base, Fuel(depth))
               == Prepend(out, ResolveItems(world, items[i..], root, base, Fuel(depth)))
      {
        assert items[i..][0] == items[i] && items[i..][1..] == items[i + 1..];
        var value := ResolveValue(items[i], root, base, depth);
        if value.Err? {
          return Err(value.error);
        }
        PrependMore(out, value.value, ResolveItems(world, items[i + 1..], root, base, Fuel(depth)));
        out := out + [value.value];
      }
      PrependLaws(out, Ok([]));
      return Ok(out);
    }

    /** Resolve a document against itself, from depth zero. */
    method ResolveValueTree(v: Json, base: string) returns (r: Resolved)
      requires Valid()
      modifies this
      ensures Valid() && r == Resolve(world, v, v, base, maxDepth + 1)
    {
      r := ResolveValue(v, v, base, 0);
    }
  }

  function Prepend<T>(out: seq<T>, r: Result<seq<T>, RefError>): Result<seq<T>, RefError> {
    match r
    case Ok(rest) => Ok(out + rest)
    case Err(error) => Err(error)
  }

  lemma {:induction false} PrependLaws<T>(out: seq<T>, r: Result<seq<T>, RefError>)
    ensures Prepend([], r) == r
    ensures Prepend(out, Ok([])) == Ok(out)
  {
    assert out + [] == out;
    if r.Ok? {
      assert [] + r.value == r.value;
    }
  }

  lemma {:induction false} PrependMore<T>(out: seq<T>, x: T, r: Result<seq<T>, RefError>)
    ensures Prepend(out + [x], r) == Prepend(out, Prepend([x], r))
  {
    if r.Ok? {
      assert out + [x] + r.value == out + ([x] + r.value);
    }
  }
}
