/** The order in which a sorted map yields its keys. */
module KeyOrder {
  import opened JsonModel

  predicate Sorted(keys: seq<string>) {
    forall i, j :: 0 <= i < j < |keys| ==> Less(keys[i], keys[j])
  }

  lemma {:induction false} LessIsStrict(a: string, b: string)
    requires Less(a, b)
    ensures a != b && !Less(b, a)
    decreases |b|
  {
    if a != [] && a[0] == b[0] {
      LessIsStrict(a[1..], b[1..]);
    }
  }

  lemma {:induction false} LessIsTotal(a: string, b: string)
    ensures a == b || Less(a, b) || Less(b, a)
    decreases |b|
  {
    if a != [] && b != [] && a[0] == b[0] {
      LessIsTotal(a[1..], b[1..]);
      assert a == [a[0]] + a[1..] && b == [b[0]] + b[1..];
    }
  }

  lemma {:induction false} LessIsTransitive(a: string, b: string, c: string)
    requires Less(a, b) && Less(b, c)
    ensures Less(a, c)
    decreases |c|
  {
    if a != [] && a[0] == b[0] == c[0] {
      LessIsTransitive(a[1..], b[1..], c[1..]);
    }
  }

  function Placed(keys: seq<string>, key: string): seq<string> {
    if keys == [] then [key]
    else if Less(key, keys[0]) then [key] + keys
    else [keys[0]] + Placed(keys[1..], key)
  }

  lemma {:induction false} PlacedMembers(keys: seq<string>, key: string)
    ensures forall k :: k in Placed(keys, key) <==> k in keys || k == key
  {
    if keys != [] && !Less(key, keys[0]) {
      PlacedMembers(keys[1..], key);
      assert forall k :: k in keys <==> k == keys[0] || k in keys[1..];
    }
  }

  lemma {:induction false} PlacedIsSorted(keys: seq<string>, key: string)
    requires Sorted(keys) && key !in keys
    ensures Sorted(Placed(keys, key))
  {
    if keys != [] {
      LessIsTotal(key, keys[0]);
      if Less(key, keys[0]) {
        forall j | 0 <= j < |keys| ensures Less(key, keys[j]) {
          if j > 0 {
            LessIsTransitive(key, keys[0], keys[j]);
          }
        }
      } else {
        var rest := Placed(keys[1..], key);
        PlacedIsSorted(keys[1..], key);
        PlacedMembers(keys[1..], key);
        forall j | 0 <= j < |rest| ensures Less(keys[0], rest[j]) {
          assert rest[j] in rest;
        }
      }
    }
  }

  /** The keys of a sorted map, in its order. */
  method InKeyOrder(keys: set<string>) returns (out: seq<string>)
    ensures Sorted(out) && forall k :: k in out <==> k in keys
  {
    out := [];
    var left := keys;
    while left != {}
      invariant left <= keys && Sorted(out)
      invariant forall k :: k in out <==> k in keys && k !in left
      decreases left
    {
      var key :| key in left;
      PlacedMembers(out, key);
      PlacedIsSorted(out, key);
      out := Placed(out, key);
      left := left - {key};
    }
  }

  /** Keys are ordered by the first character in which they differ; a shorter key comes
      before its extensions. */
  lemma {:induction false} LessMeaning(front: string, x: char, y: char, a: string, b: string)
    ensures x < y ==> Less(front + [x] + a, front + [y] + b)
    ensures Less(front, front + [x] + a)
    decreases |front|
  {
    var p, q := front + [x] + a, front + [y] + b;
    if front != [] {
      LessMeaning(front[1..], x, y, a, b);
      assert p[1..] == front[1..] + [x] + a && q[1..] == front[1..] + [y] + b;
    }
  }

  function Keys(members: seq<Member>): (keys: seq<string>)
    ensures |keys| == |members| && forall i :: 0 <= i < |members| ==> keys[i] == members[i].key
  {
    if members == [] then [] else [members[0].key] + Keys(members[1..])
  }

  /** Replacing or adding a member keeps the members in key order. */
  lemma {:induction false} PutKeepsOrder(members: seq<Member>, key: string, value: Json)
    requires Sorted(Keys(members))
    ensures Sorted(Keys(Put(members, key, value)))
  {
    if members != [] && members[0].key != key {
      var first, keys := members[0].key, Keys(members);
      assert Keys(members[1..]) == keys[1..];
      LessIsTotal(key, first);
      if Less(key, first) {
        forall j | 0 <= j < |keys| ensures Less(key, keys[j]) {
          if j > 0 {
            LessIsTransitive(key, first, keys[j]);
          }
        }
        assert Keys(Put(members, key, value)) == [key] + keys;
      } else {
        var rest := Put(members[1..], key, value);
        PutKeepsOrder(members[1..], key, value);
        forall j | 0 <= j < |rest| ensures Less(first, rest[j].key) {
          PutMembers(members[1..], key, value, rest[j]);
          if rest[j] != Member(key, value) {
            var n :| 0 <= n < |members[1..]| && members[1..][n] == rest[j];
            assert keys[n + 1] == rest[j].key;
          }
        }
        assert Keys(Put(members, key, value)) == [first] + Keys(rest);
      }
    } else if members != [] {
      assert Keys(Put(members, key, value)) == Keys(members);
    }
  }
}
