/** The XML body writer, and a reader that recovers what it wrote. */
module XmlWriter {
  import opened Basics
  import opened JsonModel
  import Text

  // ---------------------------------------------------------------------------
  // Names
  // ---------------------------------------------------------------------------

  predicate NameStart(c: char) {
    'a' <= c <= 'z' || 'A' <= c <= 'Z' || c == '_'
  }

  predicate NameChar(c: char) {
    NameStart(c) || '0' <= c <= '9' || c == '-' || c == '.'
  }

  /** A name in the ASCII subset the writer emits. */
  predicate LegalName(s: string) {
    s != [] && NameStart(s[0]) && forall i :: 0 <= i < |s| ==> NameChar(s[i])
  }

  /** What is kept of `raw` behind the characters kept so far. */
  function Kept(name: string, raw: string): string
    decreases |raw|
  {
    if raw == [] then name
    else
      var keep := if name == "" then NameStart(raw[0]) else NameChar(raw[0]);
      Kept(if keep then name + [raw[0]] else name, raw[1..])
  }

  function Sanitize(raw: string): string {
    if Kept("", raw) == "" then "_" else Kept("", raw)
  }

  method SanitizeXmlName(raw: string) returns (name: string)
    ensures name == Sanitize(raw)
  {
    name := "";
    for i := 0 to |raw|
      invariant Kept(name, raw[i..]) == Kept("", raw)
    {
      assert raw[i..][0] == raw[i] && raw[i..][1..] == raw[i + 1..];
      if name == "" {
        if NameStart(raw[i]) {
          name := name + [raw[i]];
        }
      } else if NameChar(raw[i]) {
        name := name + [raw[i]];
      }
    }
    if name == "" {
      name := "_";
    }
  }

  lemma {:induction false} KeptIsLegal(name: string, raw: string)
    requires name == "" || LegalName(name)
    ensures Kept(name, raw) == "" || LegalName(Kept(name, raw))
    decreases |raw|
  {
    if raw != [] {
      var keep := if name == "" then NameStart(raw[0]) else NameChar(raw[0]);
      KeptIsLegal(if keep then name + [raw[0]] else name, raw[1..]);
    }
  }

  lemma {:induction false} KeptWhole(name: string, raw: string)
    requires LegalName(name + raw)
    ensures Kept(name, raw) == name + raw
    decreases |raw|
  {
    if raw == [] {
      assert name + raw == name;
    } else {
      assert (name + [raw[0]]) + raw[1..] == name + raw;
      assert (name + raw)[|name|] == raw[0];
      KeptWhole(name + [raw[0]], raw[1..]);
    }
  }

  /** Whatever the key, the element name is non-empty and legal, and sanitising a legal
      name, in particular a sanitised one, changes nothing. */
  lemma {:induction false} SanitizedNames(raw: string)
    ensures LegalName(Sanitize(raw))
    ensures LegalName(raw) ==> Sanitize(raw) == raw
    ensures Sanitize(Sanitize(raw)) == Sanitize(raw)
  {
    KeptIsLegal("", raw);
    assert "" + raw == raw && "" + Sanitize(raw) == Sanitize(raw);
    if LegalName(raw) {
      KeptWhole("", raw);
    }
    KeptWhole("", Sanitize(raw));
  }

  /** A letter or an underscore, and what may follow one. */
  predicate Starts(c: char) {
    c == '_' || 'a' <= c <= 'z' || 'A' <= c <= 'Z'
  }

  predicate Follows(c: char) {
    Starts(c) || c == '-' || c == '.' || '0' <= c <= '9'
  }

  function Following(s: string): string {
    if s == [] then [] else (if Follows(s[0]) then [s[0]] else []) + Following(s[1..])
  }

  lemma {:induction false} KeptAfter(name: string, raw: string)
    requires name != ""
    ensures Kept(name, raw) == name + Following(raw)
    decreases |raw|
  {
    if raw != [] {
      var next := if Follows(raw[0]) then name + [raw[0]] else name;
      KeptAfter(next, raw[1..]);
      assert (name + [raw[0]]) + Following(raw[1..]) == name + ([raw[0]] + Following(raw[1..]));
    }
  }

  /** The name is the first character that can start one and all that can follow, in order;
      an underscore when nothing can start one. */
  lemma {:induction false} SanitizeMeaning(before: string, raw: string)
    requires forall i :: 0 <= i < |before| ==> !Starts(before[i])
    ensures Sanitize(before) == "_"
    ensures raw != "" && Starts(raw[0]) ==> Sanitize(before + raw) == [raw[0]] + Following(raw[1..])
  {
    NothingKept(before, "");
    NothingKept(before, raw);
    assert before + "" == before;
    if raw != "" && Starts(raw[0]) {
      KeptAfter([raw[0]], raw[1..]);
      assert "" + [raw[0]] == [raw[0]];
    }
  }

  lemma {:induction false} NothingKept(before: string, raw: string)
    requires forall i :: 0 <= i < |before| ==> !Starts(before[i])
    ensures Kept("", before + raw) == Kept("", raw)
  {
    if before == [] {
      assert before + raw == raw;
    } else {
      assert (before + raw)[0] == before[0] && (before + raw)[1..] == before[1..] + raw;
      NothingKept(before[1..], raw);
    }
  }

  // ---------------------------------------------------------------------------
  // Text
  // ---------------------------------------------------------------------------

  function EscapeChar(c: char): string {
    if c == '&' then "&amp;"
    else if c == '<' then "&lt;"
    else if c == '>' then "&gt;"
    else if c == '\"' then "&quot;"
    else if c == '\'' then "&apos;"
    else [c]
  }

  function Escape(text: string): string {
    if text == [] then "" else EscapeChar(text[0]) + Escape(text[1..])
  }

  method EscapeXmlText(text: string) returns (out: string)
    ensures out == Escape(text)
  {
    out := "";
    for i := 0 to |text|
      invariant out + Escape(text[i..]) == Escape(text)
    {
      EscapeStep(text, i, out);
      out := out + EscapeChar(text[i]);
    }
    assert text[|text|..] == "" && out + "" == out;
  }

  lemma {:induction false} EscapeStep(text: string, i: nat, out: string)
    requires i < |text|
    ensures out + EscapeChar(text[i]) + Escape(text[i + 1..]) == out + Escape(text[i..])
  {
    assert text[i..][0] == text[i] && text[i..][1..] == text[i + 1..];
    assert out + EscapeChar(text[i]) + Escape(text[i + 1..]) == out + (EscapeChar(text[i]) + Escape(text[i + 1..]));
  }

  /** The five predefined entities; any other reference is malformed. */
  function Unescape(s: string): Option<string>
    decreases |s|
  {
    if s == [] then Some("")
    else if s[0] != '&' then Prefixed(s[0], Unescape(s[1..]))
    else if "&amp;" <= s then Prefixed('&', Unescape(s[5..]))
    else if "&lt;" <= s then Prefixed('<', Unescape(s[4..]))
    else if "&gt;" <= s then Prefixed('>', Unescape(s[4..]))
    else if "&quot;" <= s then Prefixed('\"', Unescape(s[6..]))
    else if "&apos;" <= s then Prefixed('\'', Unescape(s[6..]))
    else None
  }

  function Prefixed(c: char, r: Option<string>): Option<string> {
    match r
    case Some(s) => Some([c] + s)
    case None => None
  }

  lemma {:induction false} UnescapeChar(c: char, rest: string)
    ensures Unescape(EscapeChar(c) + rest) == Prefixed(c, Unescape(rest))
  {
    var s := EscapeChar(c) + rest;
    assert s[|EscapeChar(c)|..] == rest;
    if |EscapeChar(c)| > 1 {
      assert s[..|EscapeChar(c)|] == EscapeChar(c);
      assert s[1] == EscapeChar(c)[1] && s[2] == EscapeChar(c)[2];
    }
  }

  /** Escaping is undone by unescaping, and leaves no bracket and no quote; the only
      ampersands are those that begin its own entities. */
  lemma {:induction false} EscapeRoundTrip(text: string)
    ensures Unescape(Escape(text)) == Some(text)
    ensures '<' !in Escape(text) && '>' !in Escape(text) && '"' !in Escape(text) && '\'' !in Escape(text)
  {
    if text != [] {
      EscapeRoundTrip(text[1..]);
      UnescapeChar(text[0], Escape(text[1..]));
      NoMarkup(text[0]);
      assert [text[0]] + text[1..] == text;
    }
  }

  lemma {:induction false} NoMarkup(c: char)
    ensures '<' !in EscapeChar(c) && '>' !in EscapeChar(c) && '"' !in EscapeChar(c) && '\'' !in EscapeChar(c)
  {
  }

  function ScalarText(v: Json): string {
    match v
    case Str(text) => text
    case Null => ""
    case _ => Print(v)
  }

  // ---------------------------------------------------------------------------
  // Elements
  // ---------------------------------------------------------------------------

  function Open(name: string): string {
    "<" + name + ">"
  }

  function Close(name: string): string {
    "</" + name + ">"
  }

  function Render(name: string, v: Json): string
    decreases v
  {
    match v
    case Obj(members) => Open(name) + RenderMembers(members) + Close(name)
    case Arr(items) => Open(name) + RenderItems(items) + Close(name)
    case _ => Open(name) + Escape(ScalarText(v)) + Close(name)
  }

  function RenderMembers(members: seq<Member>): string {
    if members == [] then ""
    else Render(Sanitize(members[0].key), members[0].value) + RenderMembers(members[1..])
  }

  function RenderItems(items: seq<Json>): string {
    if items == [] then "" else Render("item", items[0]) + RenderItems(items[1..])
  }

  function JsonToXml(rootName: string, v: Json): string {
    Render(Sanitize(rootName), v)
  }

  /** The writer appends to one buffer, element by element. */
  method WriteXmlElement(out: string, name: string, v: Json) returns (buffer: string)
    ensures buffer == out + Render(name, v)
    decreases v
  {
    buffer := out + Open(name);
    match v
    case Obj(members) =>
      ghost var before := buffer;
      for i := 0 to |members|
        invariant buffer + RenderMembers(members[i..]) == before + RenderMembers(members)
      {
        assert members[i..][0] == members[i] && members[i..][1..] == members[i + 1..];
        Regroup(buffer, Render(Sanitize(members[i].key), members[i].value), RenderMembers(members[i + 1..]));
        var name := SanitizeXmlName(members[i].key);
        buffer := WriteXmlElement(buffer, name, members[i].value);
      }
      assert members[|members|..] == [];
      assert buffer + "" == buffer;
      Regroup(out, Open(name), RenderMembers(members));
      Regroup(out, Open(name) + RenderMembers(members), Close(name));
      buffer := buffer + Close(name);
    case Arr(items) =>
      ghost var before := buffer;
      for i := 0 to |items|
        invariant buffer + RenderItems(items[i..]) == before + RenderItems(items)
      {
        assert items[i..][0] == items[i] && items[i..][1..] == items[i + 1..];
        Regroup(buffer, Render("item", items[i]), RenderItems(items[i + 1..]));
        buffer := WriteXmlElement(buffer, "item", items[i]);
      }
      assert items[|items|..] == [];
      assert buffer + "" == buffer;
      Regroup(out, Open(name), RenderItems(items));
      Regroup(out, Open(name) + RenderItems(items), Close(name));
      buffer := buffer + Close(name);
    case _ =>
      var text := EscapeXmlText(ScalarText(v));
      Regroup(out, Open(name), text);
      Regroup(out, Open(name) + text, Close(name));
      buffer := buffer + text;
      buffer := buffer + Close(name);
  }

  lemma {:induction false} Regroup(a: string, b: string, c: string)
    ensures a + (b + c) == a + b + c
  {
  }
}

/** A tag reader: open tag, then either child elements or text, then the matching close tag. */
module XmlReader {
  import opened Basics
  import opened JsonModel
  import opened XmlWriter
  import Scalars
  import Text

  datatype Element = Element(name: string, text: string, children: seq<Element>)

  datatype Read<T> = Bad | Got(value: T, rest: string)

  /** An open tag starts here, rather than text or a close tag. */
  predicate AtOpenTag(s: string) {
    |s| >= 2 && s[0] == '<' && s[1] != '/'
  }

  /** Everything up to the first `c`, and what follows it. */
  function TakeTo(s: string, c: char): (r: Read<string>)
    ensures r.Got? ==> |r.rest| < |s|
  {
    match Text.IndexOf(s, c)
    case Some(i) => Got(s[..i], s[i + 1..])
    case None => Bad
  }

  function Expect(s: string, prefix: string): (r: Read<()>)
    ensures r.Got? ==> |r.rest| <= |s|
  {
    if prefix <= s then Got((), s[|prefix|..]) else Bad
  }

  function ReadElement(s: string): (r: Read<Element>)
    ensures r.Got? ==> |r.rest| < |s|
    decreases |s|, 0
  {
    if !AtOpenTag(s) then Bad
    else
      match TakeTo(s[1..], '>')
      case Bad => Bad
      case Got(name, inside) =>
        match ReadContent(inside)
        case Bad => Bad
        case Got((text, children), behind) =>
          match Expect(behind, Close(name))
          case Bad => Bad
          case Got(_, rest) => Got(Element(name, text, children), rest)
  }

  function ReadContent(s: string): (r: Read<(string, seq<Element>)>)
    ensures r.Got? ==> |r.rest| <= |s|
    decreases |s|, 2
  {
    if AtOpenTag(s) then
      match ReadChildren(s)
      case Bad => Bad
      case Got(children, rest) => Got(("", children), rest)
    else
      match Text.IndexOf(s, '<')
      case None => Bad
      case Some(i) =>
        match Unescape(s[..i])
        case None => Bad
        case Some(text) => Got((text, []), s[i..])
  }

  function ReadChildren(s: string): (r: Read<seq<Element>>)
    ensures r.Got? ==> |r.rest| <= |s|
    decreases |s|, 1
  {
    if !AtOpenTag(s) then Got([], s)
    else
      match ReadElement(s)
      case Bad => Bad
      case Got(first, rest) =>
        match ReadChildren(rest)
        case Bad => Bad
        case Got(others, rest') => Got([first] + others, rest')
  }

  /** The element tree a value stands for. */
  function Tree(name: string, v: Json): Element
    decreases v
  {
    match v
    case Obj(members) => Element(name, "", MemberTrees(members))
    case Arr(items) => Element(name, "", ItemTrees(items))
    case _ => Element(name, ScalarText(v), [])
  }

  function MemberTrees(members: seq<Member>): seq<Element> {
    if members == [] then []
    else [Tree(Sanitize(members[0].key), members[0].value)] + MemberTrees(members[1..])
  }

  function ItemTrees(items: seq<Json>): seq<Element> {
    if items == [] then [] else [Tree("item", items[0])] + ItemTrees(items[1..])
  }

  /** The element is the value's own: its name, its children in order, and a text that shows
      a scalar. */
  predicate Mirrors(e: Element, name: string, v: Json)
    decreases v
  {
    e.name == name &&
    match v
    case Obj(members) =>
      && e.text == "" && |e.children| == |members|
      && forall i :: 0 <= i < |members| ==> Mirrors(e.children[i], Sanitize(members[i].key), members[i].value)
    case Arr(items) =>
      && e.text == "" && |e.children| == |items|
      && forall i :: 0 <= i < |items| ==> Mirrors(e.children[i], "item", items[i])
    case _ => e.children == [] && Scalars.Shows(e.text, v)
  }

  lemma {:induction false} MemberTreesAt(members: seq<Member>)
    ensures |MemberTrees(members)| == |members|
    ensures forall i :: 0 <= i < |members| ==> MemberTrees(members)[i] == Tree(Sanitize(members[i].key), members[i].value)
  {
    if members != [] {
      MemberTreesAt(members[1..]);
    }
  }

  lemma {:induction false} ItemTreesAt(items: seq<Json>)
    ensures |ItemTrees(items)| == |items|
    ensures forall i :: 0 <= i < |items| ==> ItemTrees(items)[i] == Tree("item", items[i])
  {
    if items != [] {
      ItemTreesAt(items[1..]);
    }
  }

  lemma {:induction false} TreeMirrors(name: string, v: Json)
    ensures Mirrors(Tree(name, v), name, v)
    decreases v
  {
    match v
    case Obj(members) =>
      MemberTreesAt(members);
      forall i | 0 <= i < |members|
        ensures Mirrors(MemberTrees(members)[i], Sanitize(members[i].key), members[i].value)
      {
        TreeMirrors(Sanitize(members[i].key), members[i].value);
      }
    case Arr(items) =>
      ItemTreesAt(items);
      forall i | 0 <= i < |items| ensures Mirrors(ItemTrees(items)[i], "item", items[i]) {
        TreeMirrors("item", items[i]);
      }
    case _ =>
      if v.Bool? || v.Int? || v.Dec? {
        Scalars.PrintShows(v);
      }
  }

  lemma {:induction false} TakeName(name: string, rest: string)
    requires LegalName(name)
    ensures AtOpenTag(Open(name) + rest)
    ensures TakeTo((Open(name) + rest)[1..], '>') == Got(name, rest)
  {
    var s := Open(name) + rest;
    assert s[1] == name[0];
    assert s[1..] == name + ['>'] + rest;
    forall c | c in name ensures c != '>' {
      var i :| 0 <= i < |name| && name[i] == c;
      assert NameChar(name[i]);
    }
    Text.IndexOfFirst(name, '>', rest);
    assert (name + ['>'] + rest)[..|name|] == name;
    assert (name + ['>'] + rest)[|name| + 1..] == rest;
  }

  lemma {:induction false} ExpectClose(name: string, rest: string)
    ensures Expect(Close(name) + rest, Close(name)) == Got((), rest)
  {
    assert (Close(name) + rest)[|Close(name)|..] == rest;
  }

  /** An element whose content reads back reads back. */
  lemma {:induction false} ElementReads(name: string, content: string, rest: string, text: string, children: seq<Element>)
    requires LegalName(name)
    requires ReadContent(content + (Close(name) + rest)) == Got((text, children), Close(name) + rest)
    ensures ReadElement(Open(name) + content + Close(name) + rest) == Got(Element(name, text, children), rest)
  {
    var behind := content + (Close(name) + rest);
    var s := Open(name) + content + Close(name) + rest;
    assert s == Open(name) + behind;
    TakeName(name, behind);
    ExpectClose(name, rest);
  }

  lemma {:induction false} TextReads(text: string, close: string)
    requires |close| >= 2 && close[0] == '<' && close[1] == '/'
    ensures ReadContent(Escape(text) + close) == Got((text, []), close)
  {
    EscapeRoundTrip(text);
    var s := Escape(text) + close;
    if Escape(text) == "" {
      assert s == close;
    } else {
      assert s[0] == Escape(text)[0] && s[0] in Escape(text);
    }
    assert !AtOpenTag(s);
    assert close == ['<'] + close[1..];
    Text.IndexOfFirst(Escape(text), '<', close[1..]);
    assert s == Escape(text) + ['<'] + close[1..];
    assert s[..|Escape(text)|] == Escape(text) && s[|Escape(text)|..] == close;
  }

  /** Any rendered value, followed by anything, reads back as its tree and leaves the rest. */
  lemma {:induction false} RenderedReadsBack(name: string, v: Json, rest: string)
    requires LegalName(name)
    ensures ReadElement(Render(name, v) + rest) == Got(Tree(name, v), rest)
    decreases v, 1
  {
    var close := Close(name) + rest;
    assert close[0] == '<' && close[1] == '/';
    match v
    case Obj(members) =>
      MembersReadBack(members, close);
      ContentFromChildren(RenderMembers(members) + close, MemberTrees(members), close);
      ElementReads(name, RenderMembers(members), rest, "", MemberTrees(members));
    case Arr(items) =>
      ItemsReadBack(items, close);
      ContentFromChildren(RenderItems(items) + close, ItemTrees(items), close);
      ElementReads(name, RenderItems(items), rest, "", ItemTrees(items));
    case _ =>
      TextReads(ScalarText(v), close);
      ElementReads(name, Escape(ScalarText(v)), rest, ScalarText(v), []);
  }

  /** Content that is a list of elements, perhaps empty, reads as those children. */
  lemma {:induction false} ContentFromChildren(s: string, children: seq<Element>, close: string)
    requires |close| >= 2 && close[0] == '<' && close[1] == '/'
    requires ReadChildren(s) == Got(children, close)
    ensures ReadContent(s) == Got(("", children), close)
  {
    if !AtOpenTag(s) {
      assert s == close && children == [];
      TextReads("", close);
      assert Escape("") + close == close;
    }
  }

  lemma {:induction false} MembersReadBack(members: seq<Member>, close: string)
    requires |close| >= 2 && close[0] == '<' && close[1] == '/'
    ensures ReadChildren(RenderMembers(members) + close) == Got(MemberTrees(members), close)
    decreases members, 0
  {
    if members == [] {
      assert RenderMembers(members) + close == close;
    } else {
      var name, v, tail := Sanitize(members[0].key), members[0].value, RenderMembers(members[1..]) + close;
      SanitizedNames(members[0].key);
      MembersReadBack(members[1..], close);
      RenderedReadsBack(name, v, tail);
      ChildThenRest(name, v, tail, MemberTrees(members[1..]), close);
      Regroup(Render(name, v), RenderMembers(members[1..]), close);
    }
  }

  lemma {:induction false} ItemsReadBack(items: seq<Json>, close: string)
    requires |close| >= 2 && close[0] == '<' && close[1] == '/'
    ensures ReadChildren(RenderItems(items) + close) == Got(ItemTrees(items), close)
    decreases items, 0
  {
    if items == [] {
      assert RenderItems(items) + close == close;
    } else {
      var v, tail := items[0], RenderItems(items[1..]) + close;
      ItemsReadBack(items[1..], close);
      RenderedReadsBack("item", v, tail);
      ChildThenRest("item", v, tail, ItemTrees(items[1..]), close);
      Regroup(Render("item", v), RenderItems(items[1..]), close);
    }
  }

  lemma {:induction false} ChildThenRest(name: string, v: Json, tail: string, others: seq<Element>, close: string)
    requires LegalName(name)
    requires ReadElement(Render(name, v) + tail) == Got(Tree(name, v), tail)
    requires ReadChildren(tail) == Got(others, close)
    ensures ReadChildren(Render(name, v) + tail) == Got([Tree(name, v)] + others, close)
  {
    RenderStartsTag(name, v, tail);
  }

  lemma {:induction false} RenderStartsTag(name: string, v: Json, rest: string)
    requires LegalName(name)
    ensures AtOpenTag(Render(name, v) + rest)
  {
    assert Render(name, v)[0] == '<' && Render(name, v)[1] == name[0];
    assert (Render(name, v) + rest)[0] == '<' && (Render(name, v) + rest)[1] == name[0];
  }

  /** For every value and root name, the reader consumes the whole output and recovers
      exactly one element tree, and it is the value's own: sanitised names, children in
      order, and texts that show the scalars. */
  lemma {:induction false} XmlRoundTrip(rootName: string, v: Json)
    ensures
      var r := ReadElement(JsonToXml(rootName, v));
      r.Got? && r.rest == "" && Mirrors(r.value, Sanitize(rootName), v)
  {
    TreeMirrors(Sanitize(rootName), v);
    SanitizedNames(rootName);
    RenderedReadsBack(Sanitize(rootName), v, "");
    assert JsonToXml(rootName, v) + "" == JsonToXml(rootName, v);
  }
}
