/** JSON pointers lead to the place they are written for. */
module PointerLaws {
  import opened Basics
  import opened JsonModel
  import opened RefSpec
  import Text

  /** One step into a value, free of any textual form. */
  datatype Hop = Key(name: string) | Index(i: nat)

  /** The value at the end of the hops: names lead into objects, indices into arrays. */
  function At(v: Json, hops: seq<Hop>): Option<Json>
    decreases |hops|
  {
    if hops == [] then Some(v)
    else if v.Obj? && hops[0].Key? && Find(v.members, hops[0].name).Some? then
      At(Find(v.members, hops[0].name).value, hops[1..])
    else if v.Arr? && hops[0].Index? && hops[0].i < |v.items| then At(v.items[hops[0].i], hops[1..])
    else None
  }

  // ---------------------------------------------------------------------------
  // Escaping, section 3 of RFC 6901
  // ---------------------------------------------------------------------------

  function EscapeChar(c: char): string {
    if c == '~' then "~0" else if c == '/' then "~1" else [c]
  }

  function Escape(name: string): string {
    if name == [] then [] else EscapeChar(name[0]) + Escape(name[1..])
  }

  /** Escaped except that slashes are already back. */
  function Half(name: string): string {
    if name == [] then [] else (if name[0] == '~' then "~0" else [name[0]]) + Half(name[1..])
  }

  lemma {:induction false} ReplaceSkips(x: char, s: string, a: char, b: char, c: char)
    requires x != a
    ensures ReplacePair([x] + s, a, b, c) == [x] + ReplacePair(s, a, b, c)
  {
    assert ([x] + s)[1..] == s;
  }

  lemma {:induction false} ReplaceHits(a: char, b: char, s: string, c: char)
    ensures ReplacePair([a, b] + s, a, b, c) == [c] + ReplacePair(s, a, b, c)
  {
    assert ([a, b] + s)[2..] == s;
  }

  lemma {:induction false} SlashesBack(name: string)
    ensures ReplacePair(Escape(name), '~', '1', '/') == Half(name)
  {
    if name != [] {
      var rest := Escape(name[1..]);
      SlashesBack(name[1..]);
      if name[0] == '~' {
        ReplaceSkips('0', rest, '~', '1', '/');
        assert (['~', '0'] + rest)[1..] == ['0'] + rest;
      } else if name[0] == '/' {
        ReplaceHits('~', '1', rest, '/');
      } else {
        ReplaceSkips(name[0], rest, '~', '1', '/');
      }
    }
  }

  lemma {:induction false} TildesBack(name: string)
    ensures ReplacePair(Half(name), '~', '0', '~') == name
  {
    if name != [] {
      var rest := Half(name[1..]);
      TildesBack(name[1..]);
      assert [name[0]] + name[1..] == name;
      if name[0] == '~' {
        ReplaceHits('~', '0', rest, '~');
      } else {
        ReplaceSkips(name[0], rest, '~', '0', '~');
      }
    }
  }

  /** The two replacements, in the order they are made, undo the escape of any name. */
  lemma {:induction false} UnescapeOfEscape(name: string)
    ensures Unescape(Escape(name)) == name
  {
    SlashesBack(name);
    TildesBack(name);
  }

  lemma {:induction false} NoSlash(name: string)
    ensures '/' !in Escape(name)
  {
    if name != [] {
      NoSlash(name[1..]);
    }
  }

  // ---------------------------------------------------------------------------
  // Indices
  // ---------------------------------------------------------------------------

  lemma {:induction false} NothingToReplace(s: string, a: char, b: char, c: char)
    requires a !in s
    ensures ReplacePair(s, a, b, c) == s
  {
    if |s| >= 2 {
      assert s[0] in s && forall x :: x in s[1..] ==> x in s;
      NothingToReplace(s[1..], a, b, c);
    }
  }

  lemma {:induction false} DigitsOfText(n: nat)
    ensures Text.AllDigits(Text.NatText(n)) && Text.DigitsValue(Text.NatText(n)) == n
  {
    var s := Text.NatText(n);
    assert forall i :: 0 <= i < |s| ==> s[i] in s;
    if n >= 10 {
      DigitsOfText(n / 10);
      assert s[..|s| - 1] == Text.NatText(n / 10);
    } else {
      assert s[..0] == [];
    }
  }

  lemma {:induction false} IndexReadsBack(n: nat)
    requires n < WORD
    ensures Text.ParseUnsigned(Unescape(Text.NatText(n)), WORD) == Some(n)
  {
    var s := Text.NatText(n);
    NothingToReplace(s, '~', '1', '/');
    NothingToReplace(s, '~', '0', '~');
    DigitsOfText(n);
    assert s[0] in s;
  }

  // ---------------------------------------------------------------------------
  // The round trip
  // ---------------------------------------------------------------------------

  function Part(hop: Hop): string {
    match hop
    case Key(name) => Escape(name)
    case Index(i) => Text.NatText(i)
  }

  function Parts(hops: seq<Hop>): (parts: seq<string>)
    ensures |parts| == |hops|
    ensures forall k :: 0 <= k < |hops| ==> parts[k] == Part(hops[k])
  {
    if hops == [] then [] else [Part(hops[0])] + Parts(hops[1..])
  }

  function PointerText(hops: seq<Hop>): string {
    if hops == [] then "" else "/" + Text.Join(Parts(hops), '/')
  }

  predicate Addressable(hops: seq<Hop>) {
    forall k :: 0 <= k < |hops| && hops[k].Index? ==> hops[k].i < WORD
  }

  lemma {:induction false} ChildOfPart(v: Json, hop: Hop, x: Json)
    requires At(v, [hop]) == Some(x) && Addressable([hop])
    ensures Child(v, Part(hop)) == Some(x)
  {
    assert [hop][0] == hop;
    match hop
    case Key(name) => UnescapeOfEscape(name);
    case Index(i) => IndexReadsBack(i);
  }

  lemma {:induction false} DescendFollows(v: Json, hops: seq<Hop>, x: Json)
    requires At(v, hops) == Some(x) && Addressable(hops)
    ensures Descend(v, Parts(hops)) == Some(x)
    decreases |hops|
  {
    if hops != [] {
      var next := if v.Obj? then Find(v.members, hops[0].name).value else v.items[hops[0].i];
      assert [hops[0]][1..] == [];
      assert At(v, [hops[0]]) == Some(next);
      ChildOfPart(v, hops[0], next);
      DescendFollows(next, hops[1..], x);
      assert Parts(hops)[1..] == Parts(hops[1..]);
    }
  }

  lemma {:induction false} PartsOfText(hops: seq<Hop>)
    requires hops != []
    ensures PointerParts(PointerText(hops)) == Parts(hops)
    ensures PointerText(hops) == "/" <==> hops == [Key("")]
  {
    var parts, text := Parts(hops), PointerText(hops);
    forall p | p in parts ensures '/' !in p {
      var k :| 0 <= k < |parts| && parts[k] == p;
      if hops[k].Key? {
        NoSlash(hops[k].name);
      }
    }
    Text.SplitOfJoin(parts, '/');
    assert text[1..] == Text.Join(parts, '/');
    if hops == [Key("")] {
      assert parts == [""];
    }
    if text == "/" {
      assert parts == Text.Split("", '/') == [""];
      assert Part(hops[0]) == "";
    }
  }

  lemma {:induction false} MemberIsSmaller(members: seq<Member>, key: string)
    requires Find(members, key).Some?
    ensures Find(members, key).value != Obj(members)
  {
    var x := Find(members, key).value;
    var i :| 0 <= i < |members| && members[i] == Member(key, x);
    assert members[i].value == x;
  }

  /** Every place in every document is found by its pointer, except the member with the
      empty name at the root: its pointer is a lone slash, which is taken for the root. */
  lemma {:induction false} PointerRoundTrip(root: Json, hops: seq<Hop>, x: Json)
    requires At(root, hops) == Some(x) && Addressable(hops)
    ensures ResolvePointer(root, PointerText(hops)) == Some(x) <==> hops != [Key("")]
  {
    if hops != [] {
      PartsOfText(hops);
      DescendFollows(root, hops, x);
      if hops == [Key("")] {
        assert hops[1..] == [] && hops[0] == Key("");
        assert x == Find(root.members, "").value;
        MemberIsSmaller(root.members, "");
      }
    }
  }

  /** The failing document: the pointer to its only member gives the document instead. */
  lemma {:induction false} LoneSlashMisses()
    ensures
      var document := Obj([Member("", Null)]);
      && PointerText([Key("")]) == "/" && At(document, [Key("")]) == Some(Null)
      && ResolvePointer(document, "/") == Some(document)
  {
    PartsOfText([Key("")]);
    assert [Key("")][1..] == [];
  }
}
