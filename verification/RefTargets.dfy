/** What a reference's text denotes and what a reference inlines. */
module RefTargets {
  import opened Basics
  import opened JsonModel
  import opened RefSpec
  import opened PointerLaws
  import opened RefLaws
  import Text

  // ---------------------------------------------------------------------------
  // The text of a reference
  // ---------------------------------------------------------------------------

  /** A file part without a hash sign, then a pointer. */
  lemma {:induction false} SplitMeaning(file: string, pointer: string)
    requires '#' !in file
    ensures SplitRef(file + "#" + pointer) == (file, pointer)
    ensures SplitRef(file) == (file, "")
  {
    var text := file + ['#'] + pointer;
    Text.IndexOfFirst(file, '#', pointer);
    assert text[..|file|] == file && text[|file| + 1..] == pointer;
    NoHash(file);
  }

  lemma {:induction false} NoHash(s: string)
    requires '#' !in s
    ensures Text.IndexOf(s, '#').None?
  {
    if s != [] {
      assert forall c :: c in s[1..] ==> c in s;
      NoHash(s[1..]);
    }
  }

  /** Whether a text is an HTTP address is settled before its hash sign. */
  lemma {:induction false} UrlBeforeHash(file: string, pointer: string)
    ensures IsUrl(file + "#" + pointer) <==> IsUrl(file)
  {
    PrefixBeforeHash("http://", file, pointer);
    PrefixBeforeHash("https://", file, pointer);
  }

  lemma {:induction false} PrefixBeforeHash(prefix: string, file: string, pointer: string)
    requires '#' !in prefix
    ensures prefix <= file + "#" + pointer <==> prefix <= file
  {
    var text := file + "#" + pointer;
    assert text[|file|] == '#';
    assert forall i :: 0 <= i < |prefix| ==> prefix[i] in prefix;
    if |prefix| <= |file| {
      assert text[..|prefix|] == file[..|prefix|];
    }
  }

  // ---------------------------------------------------------------------------
  // Where references lead
  // ---------------------------------------------------------------------------

  /** A place whose pointer finds it: any but the root's member with the empty name. */
  predicate Pointed(doc: Json, hops: seq<Hop>, x: Json) {
    At(doc, hops) == Some(x) && Addressable(hops) && hops != [Key("")]
  }

  /** The file part leads to a readable document within the allowed roots. */
  predicate Readable(w: World, base: string, file: string, path: string, doc: Json) {
    && file != "" && '#' !in file && !IsUrl(file)
    && w.locate(base, file) == Some(path) && w.allowed(path) && w.load(path) == Some(doc)
  }

  /** `#` and a pointer denote the place in the same document. */
  lemma {:induction false} LocalTarget(w: World, hops: seq<Hop>, root: Json, base: string, x: Json)
    requires Pointed(root, hops, x)
    ensures Locate(w, "#" + PointerText(hops), root, base) == Ok(Local(x))
  {
    var file, pointer := "", PointerText(hops);
    SplitMeaning(file, pointer);
    UrlBeforeHash(file, pointer);
    assert file + "#" + pointer == "#" + pointer;
    PointerRoundTrip(root, hops, x);
  }

  /** A file, `#` and a pointer denote the place in that file's document, to be resolved in
      that document and from the file's own directory. */
  lemma {:induction false} FileTarget(
    w: World, file: string, hops: seq<Hop>, root: Json, base: string, path: string, doc: Json, x: Json)
    requires Readable(w, base, file, path, doc) && Pointed(doc, hops, x)
    ensures Locate(w, file + "#" + PointerText(hops), root, base) == Ok(External(x, doc, w.parent(path)))
  {
    var pointer := PointerText(hops);
    SplitMeaning(file, pointer);
    UrlBeforeHash(file, pointer);
    PointerRoundTrip(doc, hops, x);
    if hops == [] {
      assert pointer == "";
    }
  }

  /** A file alone denotes its whole document. */
  lemma {:induction false} WholeFileTarget(w: World, file: string, root: Json, base: string, path: string, doc: Json)
    requires Readable(w, base, file, path, doc)
    ensures Locate(w, file, root, base) == Ok(External(doc, doc, w.parent(path)))
  {
    SplitMeaning(file, "");
  }

  // ---------------------------------------------------------------------------
  // What references inline
  // ---------------------------------------------------------------------------

  /** An object that is a reference and nothing else. */
  predicate LoneRef(v: Json, text: string) {
    v == Obj([Member(REF, Str(text))])
  }

  lemma {:induction false} LoneRefParts(v: Json, text: string)
    requires LoneRef(v, text)
    ensures v.Obj? && Find(v.members, REF) == Some(Str(text)) && Siblings(v.members) == []
  {
    assert v.members[1..] == [];
  }

  lemma {:induction false} NothingMerged(x: Json)
    ensures Merge(x, []) == x
  {
  }

  /** A local reference resolves as the place it points to does, one level down. */
  lemma {:induction false} LocalRefInlines(w: World, v: Json, hops: seq<Hop>, root: Json, base: string, x: Json, less: nat)
    requires LoneRef(v, "#" + PointerText(hops)) && Pointed(root, hops, x)
    ensures Resolve(w, v, root, base, less + 1) == Resolve(w, x, root, base, less)
  {
    var text := "#" + PointerText(hops);
    LoneRefParts(v, text);
    LocalTarget(w, hops, root, base, x);
    RefStep(w, v.members, text, root, base, less + 1, x);
    NothingMerged(x);
  }

  /** A reference into a file resolves as the place does in its own document, from the file's
      own directory, one level down. */
  lemma {:induction false} FileRefInlines(
    w: World, v: Json, file: string, hops: seq<Hop>, root: Json, base: string, path: string, doc: Json, x: Json, less: nat)
    requires LoneRef(v, file + "#" + PointerText(hops)) && Readable(w, base, file, path, doc) && Pointed(doc, hops, x)
    ensures Resolve(w, v, root, base, less + 1) == Resolve(w, x, doc, w.parent(path), less)
  {
    var text := file + "#" + PointerText(hops);
    LoneRefParts(v, text);
    FileTarget(w, file, hops, root, base, path, doc, x);
    SplitMeaning(file, PointerText(hops));
    FileRefAlone(w, v.members, text, root, base, less);
  }

  lemma {:induction false} WholeFileInlines(
    w: World, v: Json, file: string, root: Json, base: string, path: string, doc: Json, less: nat)
    requires LoneRef(v, file) && Readable(w, base, file, path, doc)
    ensures Resolve(w, v, root, base, less + 1) == Resolve(w, doc, doc, w.parent(path), less)
  {
    LoneRefParts(v, file);
    WholeFileTarget(w, file, root, base, path, doc);
    SplitMeaning(file, "");
    FileRefAlone(w, v.members, file, root, base, less);
  }

  /** Siblings stay, except under the names the target has itself. */
  lemma {:induction false} MergedMember(target: seq<Member>, members: seq<Member>, key: string)
    requires key != REF
    ensures Merge(Obj(target), Siblings(members)).Obj?
    ensures Find(Merge(Obj(target), Siblings(members)).members, key)
         == if Find(target, key).Some? then Find(target, key) else Find(members, key)
  {
    FindMerged(target, Siblings(members), key);
    FindSibling(members, key);
  }

  lemma {:induction false} FindSibling(members: seq<Member>, key: string)
    requires key != REF
    ensures Find(Siblings(members), key) == Find(members, key)
  {
    if members != [] {
      FindSibling(members[1..], key);
      if members[0].key != REF {
        assert Siblings(members)[1..] == Siblings(members[1..]);
      } else {
        assert Siblings(members) == Siblings(members[1..]);
      }
    }
  }

  /** A local reference with siblings resolves as its target with the siblings' members
      added where the target has none. */
  lemma {:induction false} LocalRefWithSiblings(
    w: World, members: seq<Member>, hops: seq<Hop>, root: Json, base: string, target: seq<Member>, less: nat)
    returns (merged: seq<Member>)
    requires Find(members, REF) == Some(Str("#" + PointerText(hops))) && Pointed(root, hops, Obj(target))
    ensures Resolve(w, Obj(members), root, base, less + 1) == Resolve(w, Obj(merged), root, base, less)
    ensures forall key :: key != REF ==>
              Find(merged, key) == if Find(target, key).Some? then Find(target, key) else Find(members, key)
  {
    var text := "#" + PointerText(hops);
    LocalTarget(w, hops, root, base, Obj(target));
    RefStep(w, members, text, root, base, less + 1, Obj(target));
    merged := Merge(Obj(target), Siblings(members)).members;
    forall key | key != REF
      ensures Find(merged, key) == if Find(target, key).Some? then Find(target, key) else Find(members, key)
    {
      MergedMember(target, members, key);
    }
  }

  // ---------------------------------------------------------------------------
  // What references cannot do
  // ---------------------------------------------------------------------------

  /** A reference over HTTP is refused, under every limit. */
  lemma {:induction false} UrlsAreRefused(w: World, members: seq<Member>, text: string, root: Json, base: string, less: nat)
    requires Find(members, REF) == Some(Str(text)) && ("http://" <= text || "https://" <= text)
    ensures Resolve(w, Obj(members), root, base, less + 1) == Err(UrlUnsupported)
  {
  }

  lemma {:induction false} NonTextIsRefused(w: World, members: seq<Member>, v: Json, root: Json, base: string, less: nat)
    requires Find(members, REF) == Some(v) && !v.Str?
    ensures Resolve(w, Obj(members), root, base, less + 1) == Err(NotAString)
  {
  }

  /** What is reported when a reference into a file leads nowhere: the first of an unknown
      file, one outside the allowed roots, an unreadable one and a place it does not have. */
  lemma {:induction false} FileRefErrors(w: World, file: string, pointer: string, root: Json, base: string)
    requires file != "" && '#' !in file && !IsUrl(file)
    ensures
      var r, path := Locate(w, file + "#" + pointer, root, base), w.locate(base, file);
      && (path.None? ==> r == Err(CannotLocate))
      && (path.Some? && !w.allowed(path.value) ==> r == Err(OutsideRoots))
      && (path.Some? && w.allowed(path.value) && w.load(path.value).None? ==> r == Err(CannotLoad))
      && (path.Some? && w.allowed(path.value) && w.load(path.value).Some? ==>
            ResolvePointer(w.load(path.value).value, pointer).None? ==> r == Err(PointerNotFound))
  {
    SplitMeaning(file, pointer);
    UrlBeforeHash(file, pointer);
  }

  lemma {:induction false} LocalRefErrors(w: World, pointer: string, root: Json, base: string)
    requires ResolvePointer(root, pointer).None?
    ensures Locate(w, "#" + pointer, root, base) == Err(LocalNotFound)
  {
    var file := "";
    SplitMeaning(file, pointer);
    UrlBeforeHash(file, pointer);
    assert file + "#" + pointer == "#" + pointer;
  }

  /** The two file systems differ at most in files outside the allowed roots. */
  ghost predicate SameWithin(w: World, w': World) {
    && (forall base, file :: w.locate(base, file) == w'.locate(base, file))
    && (forall path :: w.allowed(path) == w'.allowed(path) && w.parent(path) == w'.parent(path))
    && (forall path :: w.allowed(path) ==> w.load(path) == w'.load(path))
  }

  lemma {:induction false} SameTargets(w: World, w': World, text: string, root: Json, base: string)
    requires SameWithin(w, w')
    ensures Locate(w, text, root, base) == Locate(w', text, root, base)
  {
    var (file, pointer) := SplitRef(text);
    assert w.locate(base, file) == w'.locate(base, file);
    if w.locate(base, file).Some? {
      var path := w.locate(base, file).value;
      assert w.allowed(path) == w'.allowed(path) && w.parent(path) == w'.parent(path);
    }
  }

  /** Nothing outside the allowed roots has any influence on a resolution. */
  lemma {:induction false} OnlyAllowedFilesMatter(w: World, w': World, v: Json, root: Json, base: string, fuel: nat)
    requires SameWithin(w, w')
    ensures Resolve(w, v, root, base, fuel) == Resolve(w', v, root, base, fuel)
    decreases fuel, 1, 0
  {
    if fuel > 0 {
      match v
      case Obj(members) =>
        if Find(members, REF).None? {
          SameMembers(w, w', members, root, base, fuel - 1);
        } else if Find(members, REF).value.Str? {
          SameInlined(w, w', members, Find(members, REF).value.text, root, base, fuel);
        }
      case Arr(items) => SameItems(w, w', items, root, base, fuel - 1);
      case _ =>
    }
  }

  lemma {:induction false} SameInlined(w: World, w': World, members: seq<Member>, text: string, root: Json, base: string, fuel: nat)
    requires SameWithin(w, w') && fuel > 0 && Find(members, REF) == Some(Str(text))
    ensures Resolve(w, Obj(members), root, base, fuel) == Resolve(w', Obj(members), root, base, fuel)
    decreases fuel, 0, 0
  {
    SameRef(w, w', text, root, base, fuel - 1);
    var target := ResolveRef(w, text, root, base, fuel - 1);
    if target.Ok? {
      RefStep(w, members, text, root, base, fuel, target.value);
      RefStep(w', members, text, root, base, fuel, target.value);
      OnlyAllowedFilesMatter(w, w', Merge(target.value, Siblings(members)), root, base, fuel - 1);
    } else {
      RefFails(w, members, text, root, base, fuel);
      RefFails(w', members, text, root, base, fuel);
    }
  }

  lemma {:induction false} SameRef(w: World, w': World, text: string, root: Json, base: string, fuel: nat)
    requires SameWithin(w, w')
    ensures ResolveRef(w, text, root, base, fuel) == ResolveRef(w', text, root, base, fuel)
    decreases fuel, 2, 0
  {
    SameTargets(w, w', text, root, base);
    match Locate(w, text, root, base)
    case Ok(External(value, doc, dir)) => OnlyAllowedFilesMatter(w, w', value, doc, dir, fuel);
    case _ =>
  }

  lemma {:induction false} SameMembers(w: World, w': World, members: seq<Member>, root: Json, base: string, fuel: nat)
    requires SameWithin(w, w')
    ensures ResolveMembers(w, members, root, base, fuel) == ResolveMembers(w', members, root, base, fuel)
    decreases fuel, 2, |members|
  {
    if members != [] {
      OnlyAllowedFilesMatter(w, w', members[0].value, root, base, fuel);
      SameMembers(w, w', members[1..], root, base, fuel);
    }
  }

  lemma {:induction false} SameItems(w: World, w': World, items: seq<Json>, root: Json, base: string, fuel: nat)
    requires SameWithin(w, w')
    ensures ResolveItems(w, items, root, base, fuel) == ResolveItems(w', items, root, base, fuel)
    decreases fuel, 2, |items|
  {
    if items != [] {
      OnlyAllowedFilesMatter(w, w', items[0], root, base, fuel);
      SameItems(w, w', items[1..], root, base, fuel);
    }
  }
}
