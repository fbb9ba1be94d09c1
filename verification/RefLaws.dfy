/** What a successful resolution guarantees, and when resolution cannot succeed. */
module RefLaws {
  import opened Basics
  import opened JsonModel
  import opened RefSpec

  // ---------------------------------------------------------------------------
  // The output is reference-free, shallow enough, and a fixed point
  // ---------------------------------------------------------------------------

  /** No object anywhere in the value has a `$ref` member. */
  predicate NoRefs(v: Json) {
    match v
    case Obj(members) =>
      Find(members, REF).None? && forall i :: 0 <= i < |members| ==> NoRefs(members[i].value)
    case Arr(items) => forall i :: 0 <= i < |items| ==> NoRefs(items[i])
    case _ => true
  }

  /** Containers are nested at most `n` deep around anything. */
  predicate Fits(v: Json, n: nat)
    decreases n
  {
    match v
    case Obj(members) => forall i :: 0 <= i < |members| ==> n > 0 && Fits(members[i].value, n - 1)
    case Arr(items) => forall i :: 0 <= i < |items| ==> n > 0 && Fits(items[i], n - 1)
    case _ => true
  }

  lemma {:induction false} MembersResolved(w: World, members: seq<Member>, root: Json, base: string, fuel: nat)
    ensures
      var r := ResolveMembers(w, members, root, base, fuel);
      && (r.Ok? <==> forall i :: 0 <= i < |members| ==> Resolve(w, members[i].value, root, base, fuel).Ok?)
      && (r.Ok? ==> forall i :: 0 <= i < |members| ==>
            r.value[i] == Member(members[i].key, Resolve(w, members[i].value, root, base, fuel).value))
      && (r.Err? ==> exists i :: 0 <= i < |members| && Resolve(w, members[i].value, root, base, fuel) == Err(r.error))
    decreases |members|
  {
    if members != [] {
      var tail := members[1..];
      MembersResolved(w, tail, root, base, fuel);
      assert members[0].value == members[0].value;
      var r := ResolveMembers(w, tail, root, base, fuel);
      if Resolve(w, members[0].value, root, base, fuel).Ok? {
        assert forall i :: 0 < i < |members| ==> members[i] == tail[i - 1];
        if r.Err? {
          var i :| 0 <= i < |tail| && Resolve(w, tail[i].value, root, base, fuel) == Err(r.error);
          assert members[i + 1] == tail[i];
        }
      }
    }
  }

  lemma {:induction false} ItemsResolved(w: World, items: seq<Json>, root: Json, base: string, fuel: nat)
    ensures
      var r := ResolveItems(w, items, root, base, fuel);
      && (r.Ok? <==> forall i :: 0 <= i < |items| ==> Resolve(w, items[i], root, base, fuel).Ok?)
      && (r.Ok? ==> forall i :: 0 <= i < |items| ==> r.value[i] == Resolve(w, items[i], root, base, fuel).value)
      && (r.Err? ==> exists i :: 0 <= i < |items| && Resolve(w, items[i], root, base, fuel) == Err(r.error))
    decreases |items|
  {
    if items != [] {
      var tail := items[1..];
      ItemsResolved(w, tail, root, base, fuel);
      var r := ResolveItems(w, tail, root, base, fuel);
      if Resolve(w, items[0], root, base, fuel).Ok? {
        assert forall i :: 0 < i < |items| ==> items[i] == tail[i - 1];
        if r.Err? {
          var i :| 0 <= i < |tail| && Resolve(w, tail[i], root, base, fuel) == Err(r.error);
          assert items[i + 1] == tail[i];
        }
      }
    }
  }

  lemma {:induction false} SameKeys(a: seq<Member>, b: seq<Member>, key: string)
    requires |a| == |b| && forall i :: 0 <= i < |a| ==> a[i].key == b[i].key
    ensures Find(a, key).None? <==> Find(b, key).None?
  {
    if a != [] {
      SameKeys(a[1..], b[1..], key);
    }
  }

  /** A successful resolution leaves no reference anywhere, and its height fits the budget. */
  lemma {:induction false} ResolvedIsPlain(w: World, v: Json, root: Json, base: string, fuel: nat)
    requires Resolve(w, v, root, base, fuel).Ok?
    ensures fuel > 0
    ensures NoRefs(Resolve(w, v, root, base, fuel).value)
    ensures Fits(Resolve(w, v, root, base, fuel).value, fuel - 1)
    decreases fuel, 0, 0
  {
    match v
    case Obj(members) =>
      if Find(members, REF).Some? {
        var target := ResolveRef(w, Find(members, REF).value.text, root, base, fuel - 1).value;
        ResolvedIsPlain(w, Merge(target, Siblings(members)), root, base, fuel - 1);
        FitsMore(Resolve(w, v, root, base, fuel).value, fuel - 2, fuel - 1);
      } else {
        PlainMembers(w, members, root, base, fuel - 1);
      }
    case Arr(items) => PlainItems(w, items, root, base, fuel - 1);
    case _ =>
  }

  lemma {:induction false} PlainMembers(w: World, members: seq<Member>, root: Json, base: string, fuel: nat)
    requires ResolveMembers(w, members, root, base, fuel).Ok?
    ensures
      var out := Obj(ResolveMembers(w, members, root, base, fuel).value);
      (Find(members, REF).None? ==> NoRefs(out)) && Fits(out, fuel)
    decreases fuel, 1
  {
    MembersResolved(w, members, root, base, fuel);
    var out := ResolveMembers(w, members, root, base, fuel).value;
    SameKeys(members, out, REF);
    forall i | 0 <= i < |members| ensures fuel > 0 && NoRefs(out[i].value) && Fits(out[i].value, fuel - 1) {
      ResolvedIsPlain(w, members[i].value, root, base, fuel);
    }
  }

  lemma {:induction false} PlainItems(w: World, items: seq<Json>, root: Json, base: string, fuel: nat)
    requires ResolveItems(w, items, root, base, fuel).Ok?
    ensures
      var out := Arr(ResolveItems(w, items, root, base, fuel).value);
      NoRefs(out) && Fits(out, fuel)
    decreases fuel, 1
  {
    ItemsResolved(w, items, root, base, fuel);
    var out := ResolveItems(w, items, root, base, fuel).value;
    forall i | 0 <= i < |items| ensures fuel > 0 && NoRefs(out[i]) && Fits(out[i], fuel - 1) {
      ResolvedIsPlain(w, items[i], root, base, fuel);
    }
  }

  lemma {:induction false} FitsMore(v: Json, n: nat, m: nat)
    requires Fits(v, n) && n <= m
    ensures Fits(v, m)
    decreases n
  {
    match v
    case Obj(members) =>
      forall i | 0 <= i < |members| ensures m > 0 && Fits(members[i].value, m - 1) {
        FitsMore(members[i].value, n - 1, m - 1);
      }
    case Arr(items) =>
      forall i | 0 <= i < |items| ensures m > 0 && Fits(items[i], m - 1) {
        FitsMore(items[i], n - 1, m - 1);
      }
    case _ =>
  }

  /** A reference-free value that fits is its own resolution, in any document, directory
      and file system. */
  lemma {:induction false} PlainIsFixed(w: World, v: Json, root: Json, base: string, fuel: nat)
    requires fuel > 0 && NoRefs(v) && Fits(v, fuel - 1)
    ensures Resolve(w, v, root, base, fuel) == Ok(v)
    decreases fuel
  {
    match v
    case Obj(members) =>
      forall i | 0 <= i < |members| ensures Resolve(w, members[i].value, root, base, fuel - 1) == Ok(members[i].value) {
        PlainIsFixed(w, members[i].value, root, base, fuel - 1);
      }
      MembersResolved(w, members, root, base, fuel - 1);
      assert ResolveMembers(w, members, root, base, fuel - 1).value == members;
    case Arr(items) =>
      forall i | 0 <= i < |items| ensures Resolve(w, items[i], root, base, fuel - 1) == Ok(items[i]) {
        PlainIsFixed(w, items[i], root, base, fuel - 1);
      }
      ItemsResolved(w, items, root, base, fuel - 1);
      assert ResolveItems(w, items, root, base, fuel - 1).value == items;
    case _ =>
  }

  /** Resolving a result again, anywhere and under any limit at least as large, changes nothing. */
  lemma {:induction false} ResolutionIsIdempotent(
    w: World, v: Json, root: Json, base: string, fuel: nat, w': World, root': Json, base': string, fuel': nat)
    requires Resolve(w, v, root, base, fuel).Ok? && fuel <= fuel'
    ensures
      var out := Resolve(w, v, root, base, fuel).value;
      Resolve(w', out, root', base', fuel') == Ok(out)
  {
    ResolvedIsPlain(w, v, root, base, fuel);
    var out := Resolve(w, v, root, base, fuel).value;
    FitsMore(out, fuel - 1, fuel' - 1);
    PlainIsFixed(w', out, root', base', fuel');
  }

  // ---------------------------------------------------------------------------
  // References inside a file belong to that file
  // ---------------------------------------------------------------------------

  lemma {:induction false} FindMerged(members: seq<Member>, siblings: seq<Member>, key: string)
    ensures Find(OrInsert(members, siblings), key)
         == if Find(members, key).Some? then Find(members, key) else Find(siblings, key)
    decreases |siblings|
  {
    if siblings != [] {
      var m := siblings[0];
      FindAfterPut(members, m.key, m.value, key);
      FindMerged(if Find(members, m.key).Some? then members else Put(members, m.key, m.value), siblings[1..], key);
    }
  }

  lemma {:induction false} FindResolved(w: World, members: seq<Member>, root: Json, base: string, fuel: nat, key: string)
    requires ResolveMembers(w, members, root, base, fuel).Ok?
    ensures
      var out := ResolveMembers(w, members, root, base, fuel).value;
      && (Find(out, key).None? <==> Find(members, key).None?)
      && (Find(members, key).Some? ==> Resolve(w, Find(members, key).value, root, base, fuel) == Ok(Find(out, key).value))
    decreases |members|
  {
    if members != [] {
      var out := ResolveMembers(w, members, root, base, fuel).value;
      assert out[1..] == ResolveMembers(w, members[1..], root, base, fuel).value;
      FindResolved(w, members[1..], root, base, fuel, key);
    }
  }

  /** The reference leads into another file. */
  predicate IsFileRef(text: string) {
    SplitRef(text).0 != ""
  }

  /** The second walk, over the value inlined from a file, changes nothing. */
  lemma {:induction false} RewalkIsIdentity(w: World, text: string, root: Json, base: string, fuel: nat)
    requires IsFileRef(text) && ResolveRef(w, text, root, base, fuel).Ok?
    ensures
      var r := ResolveRef(w, text, root, base, fuel);
      Resolve(w, Merge(r.value, []), root, base, fuel) == r
  {
    var value := ResolveRef(w, text, root, base, fuel).value;
    FileValueIsPlain(w, text, root, base, fuel);
    PlainIsFixed(w, value, root, base, fuel);
    assert value.Obj? ==> OrInsert(value.members, []) == value.members;
  }

  /** Without siblings, a reference into a file resolves to the file's own result. */
  lemma {:induction false} FileRefAlone(w: World, members: seq<Member>, text: string, root: Json, base: string, less: nat)
    requires IsFileRef(text) && Find(members, REF) == Some(Str(text)) && Siblings(members) == []
    ensures Resolve(w, Obj(members), root, base, less + 1) == ResolveRef(w, text, root, base, less)
  {
    var r := ResolveRef(w, text, root, base, less);
    if r.Ok? {
      RefStep(w, members, text, root, base, less + 1, r.value);
      RewalkIsIdentity(w, text, root, base, less);
    } else {
      RefFails(w, members, text, root, base, less + 1);
    }
  }

  lemma {:induction false} RefFails(w: World, members: seq<Member>, text: string, root: Json, base: string, fuel: nat)
    requires fuel > 0 && Find(members, REF) == Some(Str(text)) && ResolveRef(w, text, root, base, fuel - 1).Err?
    ensures Resolve(w, Obj(members), root, base, fuel) == ResolveRef(w, text, root, base, fuel - 1)
  {
  }

  /** An object that is only a reference into a file resolves the same in every referring
      document, though the inlined value is walked there again. */
  lemma {:induction false} FileRefIgnoresReferrer(
    w: World, members: seq<Member>, text: string, root: Json, root': Json, base: string, fuel: nat)
    requires IsFileRef(text) && Find(members, REF) == Some(Str(text)) && Siblings(members) == []
    ensures Resolve(w, Obj(members), root, base, fuel) == Resolve(w, Obj(members), root', base, fuel)
  {
    if fuel > 0 {
      FileRefAgrees(w, members, text, root, root', base, fuel - 1);
    }
  }

  lemma {:induction false} FileRefAgrees(
    w: World, members: seq<Member>, text: string, root: Json, root': Json, base: string, less: nat)
    requires IsFileRef(text) && Find(members, REF) == Some(Str(text)) && Siblings(members) == []
    ensures Resolve(w, Obj(members), root, base, less + 1) == Resolve(w, Obj(members), root', base, less + 1)
  {
    FileRefAlone(w, members, text, root, base, less);
    FileRefAlone(w, members, text, root', base, less);
    FileResultIgnoresReferrer(w, text, root, root', base, less);
  }

  lemma {:induction false} FileResultIgnoresReferrer(w: World, text: string, root: Json, root': Json, base: string, fuel: nat)
    requires IsFileRef(text)
    ensures ResolveRef(w, text, root, base, fuel) == ResolveRef(w, text, root', base, fuel)
  {
    assert Locate(w, text, root, base) == Locate(w, text, root', base);
  }

  lemma {:induction false} FileValueIsPlain(w: World, text: string, root: Json, base: string, fuel: nat)
    requires IsFileRef(text) && ResolveRef(w, text, root, base, fuel).Ok?
    ensures fuel > 0
    ensures NoRefs(ResolveRef(w, text, root, base, fuel).value)
    ensures Fits(ResolveRef(w, text, root, base, fuel).value, fuel - 1)
  {
    var External(value, doc, dir) := Locate(w, text, root, base).value;
    ResolvedIsPlain(w, value, doc, dir, fuel);
  }

  /** Where the member `key` of an inlined file object comes from: the file's own member as
      it is, else the sibling resolved against the referring document, else nowhere. */
  predicate HasOrigin(
    w: World, file: seq<Member>, siblings: seq<Member>, root: Json, base: string, fuel: nat,
    out: seq<Member>, key: string)
  {
    match Find(file, key)
    case Some(kept) => Find(out, key) == Some(kept)
    case None =>
      match Find(siblings, key)
      case Some(x) => Find(out, key).Some? && Resolve(w, x, root, base, fuel) == Ok(Find(out, key).value)
      case None => Find(out, key).None?
  }

  /** Inlining an object from a file takes two levels, so the next lemma covers every budget. */
  lemma {:induction false} FileRefTakesTwoLevels(w: World, text: string, root: Json, base: string, fuel: nat, file: seq<Member>)
    requires IsFileRef(text) && fuel > 0 && ResolveRef(w, text, root, base, fuel - 1) == Ok(Obj(file))
    ensures fuel >= 2
  {
    FileValueIsPlain(w, text, root, base, fuel - 1);
  }

  /** With siblings, what came from the file is kept as resolved there; only members the
      file did not supply are resolved, against the referring document. */
  lemma {:induction false} FileMembersAreNotCaptured(
    w: World, members: seq<Member>, text: string, root: Json, base: string, less: nat,
    file: seq<Member>, out: Json, key: string)
    requires Find(members, REF) == Some(Str(text)) && IsFileRef(text)
    requires ResolveRef(w, text, root, base, less + 1) == Ok(Obj(file))
    requires Resolve(w, Obj(members), root, base, less + 2) == Ok(out)
    ensures out.Obj? && HasOrigin(w, file, Siblings(members), root, base, less, out.members, key)
  {
    FileObjectIsPlain(w, text, root, base, less + 1, file);
    FileMergeIsWalked(w, members, text, root, base, less, file, out);
    WalkedHasOrigin(w, file, Siblings(members), root, base, less, out.members, key);
  }

  lemma {:induction false} FileMergeIsWalked(
    w: World, members: seq<Member>, text: string, root: Json, base: string, less: nat, file: seq<Member>, out: Json)
    requires Find(members, REF) == Some(Str(text)) && Find(file, REF).None?
    requires ResolveRef(w, text, root, base, less + 1) == Ok(Obj(file))
    requires Resolve(w, Obj(members), root, base, less + 2) == Ok(out)
    ensures out.Obj?
    ensures ResolveMembers(w, OrInsert(file, Siblings(members)), root, base, less) == Ok(out.members)
  {
    MergedHasNoRef(file, members);
    RefStep(w, members, text, root, base, less + 2, Obj(file));
    WalkedObject(w, OrInsert(file, Siblings(members)), root, base, less, out);
  }

  lemma {:induction false} WalkedHasOrigin(
    w: World, file: seq<Member>, siblings: seq<Member>, root: Json, base: string, fuel: nat,
    out: seq<Member>, key: string)
    requires NoRefs(Obj(file)) && Fits(Obj(file), fuel)
    requires ResolveMembers(w, OrInsert(file, siblings), root, base, fuel) == Ok(out)
    ensures HasOrigin(w, file, siblings, root, base, fuel, out, key)
  {
    WalkedMember(w, file, siblings, root, base, fuel, out, key);
    if Find(file, key).Some? {
      PlainMemberIsFixed(w, file, key, root, base, fuel);
    }
  }

  /** Each member of the walked merge comes from the file if it has one there, else from
      the siblings. */
  lemma {:induction false} WalkedMember(
    w: World, file: seq<Member>, siblings: seq<Member>, root: Json, base: string, fuel: nat,
    out: seq<Member>, key: string)
    requires ResolveMembers(w, OrInsert(file, siblings), root, base, fuel) == Ok(out)
    ensures
      var source := if Find(file, key).Some? then Find(file, key) else Find(siblings, key);
      && (Find(out, key).Some? <==> source.Some?)
      && (source.Some? ==> Resolve(w, source.value, root, base, fuel) == Ok(Find(out, key).value))
  {
    FindMerged(file, siblings, key);
    FindResolved(w, OrInsert(file, siblings), root, base, fuel, key);
  }

  lemma {:induction false} FileObjectIsPlain(w: World, text: string, root: Json, base: string, fuel: nat, file: seq<Member>)
    requires IsFileRef(text) && ResolveRef(w, text, root, base, fuel) == Ok(Obj(file))
    ensures fuel > 0 && Find(file, REF).None? && NoRefs(Obj(file)) && Fits(Obj(file), fuel - 1)
  {
    FileValueIsPlain(w, text, root, base, fuel);
  }

  /** An object with no reference of its own is walked member by member. */
  lemma {:induction false} WalkedObject(w: World, merged: seq<Member>, root: Json, base: string, less: nat, out: Json)
    requires Find(merged, REF).None? && Resolve(w, Obj(merged), root, base, less + 1) == Ok(out)
    ensures out.Obj? && ResolveMembers(w, merged, root, base, less) == Ok(out.members)
  {
  }

  lemma {:induction false} MergedHasNoRef(file: seq<Member>, members: seq<Member>)
    requires Find(file, REF).None?
    ensures Find(OrInsert(file, Siblings(members)), REF).None?
  {
    NoRefAmongSiblings(members);
    FindMerged(file, Siblings(members), REF);
  }

  lemma {:induction false} RefStep(
    w: World, members: seq<Member>, text: string, root: Json, base: string, fuel: nat, target: Json)
    requires fuel > 0 && Find(members, REF) == Some(Str(text)) && ResolveRef(w, text, root, base, fuel - 1) == Ok(target)
    ensures Resolve(w, Obj(members), root, base, fuel) == Resolve(w, Merge(target, Siblings(members)), root, base, fuel - 1)
  {
  }

  lemma {:induction false} PlainMemberIsFixed(w: World, members: seq<Member>, key: string, root: Json, base: string, fuel: nat)
    requires NoRefs(Obj(members)) && Fits(Obj(members), fuel) && Find(members, key).Some?
    ensures Resolve(w, Find(members, key).value, root, base, fuel) == Ok(Find(members, key).value)
  {
    var x := Find(members, key).value;
    var i :| 0 <= i < |members| && members[i] == Member(key, x);
    PlainIsFixed(w, x, root, base, fuel);
  }

  lemma {:induction false} NoRefAmongSiblings(members: seq<Member>)
    ensures Find(Siblings(members), REF).None?
  {
    if members != [] {
      NoRefAmongSiblings(members[1..]);
    }
  }

  // ---------------------------------------------------------------------------
  // The depth limit
  // ---------------------------------------------------------------------------

  /** More depth never changes a success. */
  lemma {:induction false} OneMoreLevel(w: World, v: Json, root: Json, base: string, fuel: nat)
    requires Resolve(w, v, root, base, fuel).Ok?
    ensures Resolve(w, v, root, base, fuel + 1) == Resolve(w, v, root, base, fuel)
    decreases fuel, 0, 1
  {
    match v
    case Obj(members) =>
      if Find(members, REF).Some? {
        OneMoreLevelInlined(w, members, Find(members, REF).value.text, root, base, fuel);
      } else {
        OneMoreLevelMembers(w, members, root, base, fuel - 1);
      }
    case Arr(items) => OneMoreLevelItems(w, items, root, base, fuel - 1);
    case _ =>
  }

  lemma {:induction false} OneMoreLevelInlined(w: World, members: seq<Member>, text: string, root: Json, base: string, fuel: nat)
    requires Find(members, REF) == Some(Str(text)) && Resolve(w, Obj(members), root, base, fuel).Ok?
    ensures Resolve(w, Obj(members), root, base, fuel + 1) == Resolve(w, Obj(members), root, base, fuel)
    decreases fuel, 0, 0
  {
    var target := ResolveRef(w, text, root, base, fuel - 1).value;
    OneMoreLevelRef(w, text, root, base, fuel - 1);
    RefStep(w, members, text, root, base, fuel, target);
    RefStep(w, members, text, root, base, fuel + 1, target);
    OneMoreLevel(w, Merge(target, Siblings(members)), root, base, fuel - 1);
  }

  lemma {:induction false} OneMoreLevelMembers(w: World, members: seq<Member>, root: Json, base: string, fuel: nat)
    requires ResolveMembers(w, members, root, base, fuel).Ok?
    ensures ResolveMembers(w, members, root, base, fuel + 1) == ResolveMembers(w, members, root, base, fuel)
    decreases fuel, 1, |members|
  {
    if members != [] {
      OneMoreLevel(w, members[0].value, root, base, fuel);
      OneMoreLevelMembers(w, members[1..], root, base, fuel);
    }
  }

  lemma {:induction false} OneMoreLevelItems(w: World, items: seq<Json>, root: Json, base: string, fuel: nat)
    requires ResolveItems(w, items, root, base, fuel).Ok?
    ensures ResolveItems(w, items, root, base, fuel + 1) == ResolveItems(w, items, root, base, fuel)
    decreases fuel, 1, |items|
  {
    if items != [] {
      OneMoreLevel(w, items[0], root, base, fuel);
      OneMoreLevelItems(w, items[1..], root, base, fuel);
    }
  }

  lemma {:induction false} OneMoreLevelRef(w: World, text: string, root: Json, base: string, fuel: nat)
    requires ResolveRef(w, text, root, base, fuel).Ok?
    ensures ResolveRef(w, text, root, base, fuel + 1) == ResolveRef(w, text, root, base, fuel)
    decreases fuel, 1, 0
  {
    match Locate(w, text, root, base)
    case Ok(External(value, doc, dir)) => OneMoreLevel(w, value, doc, dir, fuel);
    case _ =>
  }

  /** A success under one depth limit is the same success under every larger one. */
  lemma {:induction false} LargerLimitsAgree(w: World, v: Json, root: Json, base: string, fuel: nat, more: nat)
    requires Resolve(w, v, root, base, fuel).Ok? && fuel <= more
    ensures Resolve(w, v, root, base, more) == Resolve(w, v, root, base, fuel)
    decreases more - fuel
  {
    if fuel < more {
      OneMoreLevel(w, v, root, base, fuel);
      LargerLimitsAgree(w, v, root, base, fuel + 1, more);
    }
  }

  lemma {:induction false} LargerLimitsAgreeRef(w: World, text: string, root: Json, base: string, fuel: nat, more: nat)
    requires ResolveRef(w, text, root, base, fuel).Ok? && fuel <= more
    ensures ResolveRef(w, text, root, base, more) == ResolveRef(w, text, root, base, fuel)
    decreases more - fuel
  {
    if fuel < more {
      OneMoreLevelRef(w, text, root, base, fuel);
      LargerLimitsAgreeRef(w, text, root, base, fuel + 1, more);
    }
  }

  // ---------------------------------------------------------------------------
  // Cycles
  // ---------------------------------------------------------------------------

  /** A value being walked, with the document and directory it is walked in. */
  datatype Place = Place(value: Json, root: Json, base: string)

  /** `b` is the resolved target of the reference at `a`, with its siblings merged in. */
  ghost predicate Inlined(w: World, text: string, siblings: seq<Member>, a: Place, b: Place, fuel: nat) {
    var r := ResolveRef(w, text, a.root, a.base, fuel);
    r.Ok? && b == Place(Merge(r.value, siblings), a.root, a.base)
  }

  /** Walking `a` requires walking `b` one level deeper: an element, a member, the target
      of a reference inside its own file, or the inlined target with its siblings. */
  ghost predicate Leads(w: World, a: Place, b: Place) {
    match a.value
    case Arr(items) => exists i :: 0 <= i < |items| && b == Place(items[i], a.root, a.base)
    case Obj(members) =>
      (match Find(members, REF)
       case None => exists i :: 0 <= i < |members| && b == Place(members[i].value, a.root, a.base)
       case Some(Str(text)) =>
         || (var target := Locate(w, text, a.root, a.base);
             target.Ok? && target.value.External? && b == Place(target.value.value, target.value.doc, target.value.base))
         || exists fuel :: Inlined(w, text, Siblings(members), a, b, fuel)
       case _ => false)
    case _ => false
  }

  lemma {:induction false} SuccessLeadsOn(w: World, a: Place, b: Place, fuel: nat)
    requires Leads(w, a, b) && Resolve(w, a.value, a.root, a.base, fuel).Ok?
    ensures fuel > 0 && Resolve(w, b.value, b.root, b.base, fuel - 1).Ok?
  {
    match a.value
    case Arr(items) => ItemsResolved(w, items, a.root, a.base, fuel - 1);
    case Obj(members) =>
      if Find(members, REF).Some? {
        RefLeadsOn(w, a, b, members, Find(members, REF).value.text, fuel);
      } else {
        MembersResolved(w, members, a.root, a.base, fuel - 1);
      }
    case _ =>
  }

  lemma {:induction false} RefLeadsOn(w: World, a: Place, b: Place, members: seq<Member>, text: string, fuel: nat)
    requires a.value == Obj(members) && Find(members, REF) == Some(Str(text))
    requires Leads(w, a, b) && Resolve(w, a.value, a.root, a.base, fuel).Ok?
    ensures fuel > 0 && Resolve(w, b.value, b.root, b.base, fuel - 1).Ok?
  {
    if f: nat :| Inlined(w, text, Siblings(members), a, b, f) {
      InlinedLeadsOn(w, a, b, members, text, fuel, f);
    }
  }

  /** Whatever budget the target was resolved under, it is what this walk inlines. */
  lemma {:induction false} InlinedLeadsOn(w: World, a: Place, b: Place, members: seq<Member>, text: string, fuel: nat, f: nat)
    requires a.value == Obj(members) && Find(members, REF) == Some(Str(text))
    requires Inlined(w, text, Siblings(members), a, b, f) && Resolve(w, a.value, a.root, a.base, fuel).Ok?
    ensures fuel > 0 && Resolve(w, b.value, b.root, b.base, fuel - 1).Ok?
  {
    var target := ResolveRef(w, text, a.root, a.base, fuel - 1);
    SameTarget(w, text, a.root, a.base, f, fuel - 1);
    RefStep(w, members, text, a.root, a.base, fuel, target.value);
  }

  lemma {:induction false} SameTarget(w: World, text: string, root: Json, base: string, f: nat, g: nat)
    requires ResolveRef(w, text, root, base, f).Ok? && ResolveRef(w, text, root, base, g).Ok?
    ensures ResolveRef(w, text, root, base, f) == ResolveRef(w, text, root, base, g)
  {
    LargerLimitsAgreeRef(w, text, root, base, f, f + g);
    LargerLimitsAgreeRef(w, text, root, base, g, f + g);
  }

  ghost predicate Chain(w: World, p: seq<Place>) {
    p != [] && forall i :: 0 < i < |p| ==> Leads(w, p[i - 1], p[i])
  }

  /** A success is deeper than every chain from its start: where the chain ends, it still
      had that much budget left. */
  lemma {:induction false} ChainsFitTheBudget(w: World, p: seq<Place>, fuel: nat)
    requires Chain(w, p) && Resolve(w, p[0].value, p[0].root, p[0].base, fuel).Ok?
    ensures |p| <= fuel
    ensures
      var last := p[|p| - 1];
      Resolve(w, last.value, last.root, last.base, fuel + 1 - |p|).Ok?
    decreases |p|
  {
    if |p| > 1 {
      assert Leads(w, p[0], p[1]);
      SuccessLeadsOn(w, p[0], p[1], fuel);
      assert forall i :: 0 < i < |p[1..]| ==> p[1..][i - 1] == p[i] && p[1..][i] == p[i + 1];
      ChainsFitTheBudget(w, p[1..], fuel - 1);
    }
  }

  /** A value on a reference cycle fails to resolve under every depth limit. */
  lemma {:induction false} CyclesNeverResolve(w: World, p: seq<Place>, fuel: nat)
    requires Chain(w, p) && |p| > 1 && p[0] == p[|p| - 1]
    ensures Resolve(w, p[0].value, p[0].root, p[0].base, fuel).Err?
    decreases fuel
  {
    if Resolve(w, p[0].value, p[0].root, p[0].base, fuel).Ok? {
      ChainsFitTheBudget(w, p, fuel);
      CyclesNeverResolve(w, p, fuel + 1 - |p|);
    }
  }

  /** The depth failure is never spurious: it witnesses a chain longer than the budget. */
  lemma {:induction false} DepthFailureHasChain(w: World, a: Place, fuel: nat) returns (p: seq<Place>)
    requires Resolve(w, a.value, a.root, a.base, fuel) == Err(DepthExceeded)
    ensures Chain(w, p) && p[0] == a && |p| == fuel + 1
    decreases fuel
  {
    if fuel == 0 {
      return [a];
    }
    var b := NextOnChain(w, a, fuel);
    var q := DepthFailureHasChain(w, b, fuel - 1);
    p := [a] + q;
    forall i | 0 < i < |p| ensures Leads(w, p[i - 1], p[i]) {
      if i > 1 {
        assert p[i - 1] == q[i - 2] && p[i] == q[i - 1];
      }
    }
  }

  lemma {:induction false} NextOnChain(w: World, a: Place, fuel: nat) returns (b: Place)
    requires fuel > 0 && Resolve(w, a.value, a.root, a.base, fuel) == Err(DepthExceeded)
    ensures Leads(w, a, b) && Resolve(w, b.value, b.root, b.base, fuel - 1) == Err(DepthExceeded)
  {
    match a.value
    case Arr(items) =>
      ItemsResolved(w, items, a.root, a.base, fuel - 1);
      var i :| 0 <= i < |items| && Resolve(w, items[i], a.root, a.base, fuel - 1) == Err(DepthExceeded);
      b := Place(items[i], a.root, a.base);
    case Obj(members) =>
      if Find(members, REF).None? {
        MembersResolved(w, members, a.root, a.base, fuel - 1);
        var i :| 0 <= i < |members| && Resolve(w, members[i].value, a.root, a.base, fuel - 1) == Err(DepthExceeded);
        b := Place(members[i].value, a.root, a.base);
      } else {
        b := NextThroughRef(w, members, a, fuel);
      }
  }

  lemma {:induction false} NextThroughRef(w: World, members: seq<Member>, a: Place, fuel: nat) returns (b: Place)
    requires a.value == Obj(members) && Find(members, REF).Some?
    requires fuel > 0 && Resolve(w, a.value, a.root, a.base, fuel) == Err(DepthExceeded)
    ensures Leads(w, a, b) && Resolve(w, b.value, b.root, b.base, fuel - 1) == Err(DepthExceeded)
  {
    var text := Find(members, REF).value.text;
    match ResolveRef(w, text, a.root, a.base, fuel - 1)
    case Ok(target) =>
      b := Place(Merge(target, Siblings(members)), a.root, a.base);
      assert Inlined(w, text, Siblings(members), a, b, fuel - 1);
    case Err(_) =>
      var target := Locate(w, text, a.root, a.base).value;
      b := Place(target.value, target.doc, target.base);
  }
}
