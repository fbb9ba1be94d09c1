/** Substitution of `{name}` placeholders: rendering a Location header and binding a
    store namespace run the same loop. */
module Template {
  import opened Basics
  import Text

  /** The next placeholder of a template, with the text before and behind it. */
  datatype Scan = Plain | Hole(before: string, name: string, behind: string)

  function NextHole(template: string): (scan: Scan)
    ensures scan.Hole? ==> |scan.behind| < |template|
  {
    match Text.IndexOf(template, '{')
    case None => Plain
    case Some(open) =>
      var tail := template[open..];
      match Text.IndexOf(tail, '}')
      case None => Plain
      case Some(offset) =>
        Hole(template[..open], tail[1..offset], tail[offset + 1..])
  }

  /** The pieces of a scan make up the template. */
  lemma {:induction false} HoleText(template: string)
    requires NextHole(template).Hole?
    ensures
      var Hole(before, name, behind) := NextHole(template);
      template == before + ("{" + name + "}") + behind
  {
    var open := Text.IndexOf(template, '{').value;
    var tail := template[open..];
    var offset := Text.IndexOf(tail, '}').value;
    assert tail == "{" + tail[1..offset] + "}" + tail[offset + 1..];
  }

  function Bound(name: string, params: map<string, string>): string {
    if name in params then params[name] else "{" + name + "}"
  }

  /** An unbound placeholder, and everything from an unclosed brace on, stays verbatim. */
  function Substitute(template: string, params: map<string, string>): string
    decreases |template|
  {
    match NextHole(template)
    case Plain => template
    case Hole(before, name, behind) => before + Bound(name, params) + Substitute(behind, params)
  }

  method FindHole(rest: string) returns (scan: Scan)
    ensures scan == NextHole(rest)
  {
    var open := Text.IndexOf(rest, '{');
    if open.None? {
      return Plain;
    }
    var tail := rest[open.value..];
    var offset := Text.IndexOf(tail, '}');
    if offset.None? {
      return Plain;
    }
    return Hole(rest[..open.value], tail[1..offset.value], tail[offset.value + 1..]);
  }

  method SubstitutePathParams(template: string, params: map<string, string>) returns (rendered: string)
    ensures rendered == Substitute(template, params)
  {
    rendered := "";
    var rest := template;
    var scan := FindHole(rest);
    while scan.Hole?
      invariant scan == NextHole(rest)
      invariant rendered + Substitute(rest, params) == Substitute(template, params)
      decreases |rest|
    {
      Regroup(rendered, scan.before, Bound(scan.name, params), Substitute(scan.behind, params));
      rendered := rendered + scan.before;
      if scan.name in params {
        rendered := rendered + params[scan.name];
      } else {
        rendered := rendered + ("{" + scan.name + "}");
      }
      rest := scan.behind;
      scan := FindHole(rest);
    }
    rendered := rendered + rest;
  }

  lemma {:induction false} Regroup(a: string, b: string, c: string, d: string)
    ensures a + (b + c + d) == a + b + c + d
  {
  }

  predicate BraceFree(s: string) {
    '{' !in s && '}' !in s
  }

  /** Text that opens no brace, in front of a template, only lengthens what precedes its
      first hole. */
  lemma {:induction false} HolesAgree(s: string, rest: string)
    requires '{' !in s
    ensures NextHole(rest).Plain? ==> NextHole(s + rest).Plain?
    ensures NextHole(rest).Hole? ==>
              var Hole(before, name, behind) := NextHole(rest);
              NextHole(s + rest) == Hole(s + before, name, behind)
  {
    Text.IndexOfAfter(s, rest, '{');
    if Text.IndexOf(rest, '{').Some? {
      var k := Text.IndexOf(rest, '{').value;
      CutBehind(s, rest, k);
      HolesShift(s + rest, |s| + k, rest, k);
    }
  }

  lemma {:induction false} HolesShift(a: string, i: nat, b: string, k: nat)
    requires Text.IndexOf(a, '{') == Some(i) && Text.IndexOf(b, '{') == Some(k) && a[i..] == b[k..]
    ensures NextHole(a).Plain? <==> NextHole(b).Plain?
    ensures NextHole(b).Hole? ==> NextHole(a) == NextHole(b).(before := a[..i])
    ensures NextHole(b).Hole? ==> NextHole(b).before == b[..k]
  {
  }

  lemma {:induction false} CutBehind(s: string, rest: string, k: nat)
    requires k <= |rest|
    ensures (s + rest)[|s| + k..] == rest[k..]
    ensures (s + rest)[..|s| + k] == s + rest[..k]
  {
  }

  /** Substitution passes over text that opens no brace. */
  lemma {:induction false} SubstituteLiteral(s: string, rest: string, params: map<string, string>)
    requires '{' !in s
    ensures Substitute(s + rest, params) == s + Substitute(rest, params)
  {
    HolesAgree(s, rest);
    match NextHole(rest) {
      case Plain =>
      case Hole(before, name, behind) =>
        Regroup(s, before, Bound(name, params), Substitute(behind, params));
    }
  }

  /** A placeholder at the very start is the first hole. */
  lemma {:induction false} HoleAtStart(name: string, rest: string)
    requires '}' !in name
    ensures NextHole("{" + name + "}" + rest) == Hole("", name, rest)
  {
    var whole := "{" + name + "}" + rest;
    FirstBraces(name, rest, whole);
    CutHole(name, rest, whole);
  }

  lemma {:induction false} FirstBraces(name: string, rest: string, whole: string)
    requires '}' !in name && whole == "{" + name + "}" + rest
    ensures Text.IndexOf(whole, '{') == Some(0)
    ensures Text.IndexOf(whole, '}') == Some(|name| + 1)
  {
    Text.IndexOfFirst("{" + name, '}', rest);
    assert whole == ("{" + name) + ['}'] + rest;
    assert whole[0] == '{';
  }

  lemma {:induction false} CutHole(name: string, rest: string, whole: string)
    requires whole == "{" + name + "}" + rest
    requires Text.IndexOf(whole, '{') == Some(0) && Text.IndexOf(whole, '}') == Some(|name| + 1)
    ensures NextHole(whole) == Hole("", name, rest)
  {
    assert whole[0..] == whole && whole[..0] == "";
    assert whole[1..|name| + 1] == name;
    assert whole[|name| + 2..] == rest;
  }

  /** Substitution replaces a leading placeholder and carries on behind it. */
  lemma {:induction false} SubstitutePlaceholder(name: string, rest: string, params: map<string, string>)
    requires '}' !in name
    ensures Substitute("{" + name + "}" + rest, params) == Bound(name, params) + Substitute(rest, params)
  {
    HoleAtStart(name, rest);
    assert "" + Bound(name, params) == Bound(name, params);
  }

  /** With nothing bound, a template renders as itself. */
  lemma {:induction false} SubstituteNothing(template: string)
    ensures Substitute(template, map[]) == template
    decreases |template|
  {
    match NextHole(template) {
      case Plain =>
      case Hole(before, name, behind) =>
        HoleText(template);
        SubstituteNothing(behind);
    }
  }

  // ---------------------------------------------------------------------------
  // Pieces of a template
  // ---------------------------------------------------------------------------

  /** The piece ends inside a brace that it opens and does not close. */
  predicate Open(piece: string)
    decreases |piece|
  {
    match NextHole(piece)
    case Plain => '{' in piece
    case Hole(_, _, behind) => Open(behind)
  }

  /** Rendering from inside an open brace whose name, reaching back before this text, is
      bound to nothing: all is verbatim up to the closing brace. */
  function Resume(text: string, params: map<string, string>): string {
    match Text.IndexOf(text, '}')
    case None => text
    case Some(j) => text[..j] + ("}" + Substitute(text[j + 1..], params))
  }

  function Render(text: string, open: bool, params: map<string, string>): string {
    if open then Resume(text, params) else Substitute(text, params)
  }

  predicate OpenAfter(piece: string, open: bool) {
    if !open then Open(piece)
    else
      match Text.IndexOf(piece, '}')
      case None => true
      case Some(j) => Open(piece[j + 1..])
  }

  predicate SlashFreeNames(params: map<string, string>) {
    forall n :: n in params ==> '/' !in n
  }

  lemma {:induction false} IndexOfNone(s: string, c: char)
    ensures Text.IndexOf(s, c).None? <==> c !in s
  {
    if s != [] {
      IndexOfNone(s[1..], c);
    }
  }

  lemma {:induction false} IndexOfLeast(s: string, c: char)
    requires Text.IndexOf(s, c).Some?
    ensures c !in s[..Text.IndexOf(s, c).value]
  {
    if s[0] != c {
      IndexOfLeast(s[1..], c);
      var k := Text.IndexOf(s[1..], c).value;
      assert s[..k + 1] == [s[0]] + s[1..][..k];
    }
  }

  /** The text around the first occurrence. */
  lemma {:induction false} CutAt(s: string, c: char) returns (front: string, back: string)
    requires c in s
    ensures s == front + ([c] + back) && c !in front
    ensures Text.IndexOf(s, c) == Some(|front|) && s[..|front|] == front && s[|front| + 1..] == back
  {
    IndexOfNone(s, c);
    IndexOfLeast(s, c);
    var k := Text.IndexOf(s, c).value;
    front, back := s[..k], s[k + 1..];
  }

  lemma {:induction false} ResumeAt(front: string, back: string, params: map<string, string>)
    requires '}' !in front
    ensures Resume(front + ("}" + back), params) == front + ("}" + Substitute(back, params))
    ensures OpenAfter(front + ("}" + back), true) == Open(back)
  {
    var s := front + ("}" + back);
    assert s == front + ['}'] + back;
    Text.IndexOfFirst(front, '}', back);
    assert s[..|front|] == front && s[|front| + 1..] == back;
  }

  lemma {:induction false} ResumeVerbatim(s: string, params: map<string, string>)
    requires '}' !in s
    ensures Resume(s, params) == s && OpenAfter(s, true)
  {
    IndexOfNone(s, '}');
  }

  /** Without a closing brace everything is verbatim. */
  lemma {:induction false} NothingCloses(s: string, params: map<string, string>)
    requires '}' !in s
    ensures Substitute(s, params) == s
  {
    if Text.IndexOf(s, '{').Some? {
      var tail := s[Text.IndexOf(s, '{').value..];
      assert forall c :: c in tail ==> c in s;
      IndexOfNone(tail, '}');
    }
  }

  lemma {:induction false} Regroup3(a: string, b: string, c: string)
    ensures (a + b) + c == a + (b + c)
  {
  }

  /** A hole of the front is the same hole of the whole. */
  lemma {:induction false} HoleInFront(a: string, b: string)
    requires NextHole(a).Hole?
    ensures
      var Hole(before, name, behind) := NextHole(a);
      NextHole(a + b) == Hole(before, name, behind + b)
  {
    var open := Text.IndexOf(a, '{').value;
    var tail := a[open..];
    var offset := Text.IndexOf(tail, '}').value;
    IndexOfFront(a, b, '{');
    assert (a + b)[open..] == tail + b && (a + b)[..open] == a[..open];
    IndexOfFront(tail, b, '}');
    assert (tail + b)[1..offset] == tail[1..offset] && (tail + b)[offset + 1..] == tail[offset + 1..] + b;
  }

  lemma {:induction false} IndexOfFront(a: string, b: string, c: char)
    requires Text.IndexOf(a, c).Some?
    ensures Text.IndexOf(a + b, c) == Text.IndexOf(a, c)
  {
    if a[0] != c {
      assert (a + b)[1..] == a[1..] + b;
      IndexOfFront(a[1..], b, c);
    }
  }

  lemma {:induction false} UnclosedParts(a: string) returns (x: string, y: string)
    requires NextHole(a).Plain? && '{' in a
    ensures a == x + ("{" + y) && '{' !in x && '}' !in y
  {
    x, y := CutAt(a, '{');
    var tail := a[|x|..];
    IndexOfNone(tail, '}');
    assert tail == ['{'] + y;
  }

  /** An unclosed brace swallows the slash, so no parameter is named there. */
  lemma {:induction false} SwallowedSlash(y: string, rest: string, params: map<string, string>)
    requires '}' !in y && SlashFreeNames(params)
    ensures Substitute("{" + y + ("/" + rest), params) == "{" + y + ("/" + Resume(rest, params))
  {
    if '}' in rest {
      var p, q := CutAt(rest, '}');
      var name := y + ("/" + p);
      ResumeAt(p, q, params);
      SubstitutePlaceholder(name, q, params);
      assert name[|y|] == '/';
      assert Bound(name, params) == "{" + name + "}";
      SwallowedText(y, p, q);
      SwallowedText(y, p, Substitute(q, params));
    } else {
      ResumeVerbatim(rest, params);
      NothingCloses("{" + y + ("/" + rest), params);
    }
  }

  lemma {:induction false} SwallowedText(y: string, p: string, q: string)
    ensures "{" + y + ("/" + (p + ("}" + q))) == "{" + (y + ("/" + p)) + "}" + q
  {
    var name := y + ("/" + p);
    calc {
      "{" + y + ("/" + (p + ("}" + q)));
      { Regroup3("/", p, "}" + q); Regroup3("{", y, ("/" + p) + ("}" + q)); }
      "{" + (y + (("/" + p) + ("}" + q)));
      { Regroup3(y, "/" + p, "}" + q); }
      "{" + (name + ("}" + q));
      { Regroup3("{", name, "}" + q); Regroup3("{" + name, "}", q); }
      "{" + name + "}" + q;
    }
  }

  /** Substitution over a slash: the front renders alone, and the rest goes on from inside
      a brace exactly when the front leaves one open. */
  lemma {:induction false} SubstituteOverSlash(a: string, rest: string, params: map<string, string>)
    requires SlashFreeNames(params)
    ensures Substitute(a + ("/" + rest), params) == Substitute(a, params) + ("/" + Render(rest, Open(a), params))
    decreases |a|
  {
    match NextHole(a)
    case Hole(before, name, behind) =>
      HoleInFront(a, "/" + rest);
      SubstituteOverSlash(behind, rest, params);
      Regroup3(before + Bound(name, params), Substitute(behind, params), "/" + Render(rest, Open(behind), params));
    case Plain =>
      if '{' in a {
        OpenFront(a, rest, params);
      } else {
        SubstituteLiteral(a, "/" + rest, params);
        SubstituteLiteral("/", rest, params);
      }
  }

  lemma {:induction false} OpenFront(a: string, rest: string, params: map<string, string>)
    requires SlashFreeNames(params) && NextHole(a).Plain? && '{' in a
    ensures Substitute(a + ("/" + rest), params) == a + ("/" + Resume(rest, params))
  {
    var x, y := UnclosedParts(a);
    Regroup3(x, "{" + y, "/" + rest);
    Regroup3(x, "{" + y, "/" + Resume(rest, params));
    SubstituteLiteral(x, "{" + y + ("/" + rest), params);
    SwallowedSlash(y, rest, params);
  }

  /** Rendering a template piece by piece, carrying only whether a brace is open. */
  lemma {:induction false} RenderOverSlash(a: string, rest: string, open: bool, params: map<string, string>)
    requires SlashFreeNames(params)
    ensures Render(a + ("/" + rest), open, params)
         == Render(a, open, params) + ("/" + Render(rest, OpenAfter(a, open), params))
  {
    if !open {
      SubstituteOverSlash(a, rest, params);
    } else if '}' in a {
      var p, q := CutAt(a, '}');
      ResumeOverSlash(p, q, rest, params);
    } else {
      ResumeVerbatim(a, params);
      ResumePast(a, rest, params);
    }
  }

  lemma {:induction false} ResumeOverSlash(p: string, q: string, rest: string, params: map<string, string>)
    requires '}' !in p && SlashFreeNames(params)
    ensures
      var a := p + ("}" + q);
      Resume(a + ("/" + rest), params)
      == Resume(a, params) + ("/" + Render(rest, OpenAfter(a, true), params))
  {
    var behind, after := "/" + rest, "/" + Render(rest, Open(q), params);
    Regroup3(p, "}" + q, behind);
    Regroup3("}", q, behind);
    ResumeAt(p, q + behind, params);
    ResumeAt(p, q, params);
    SubstituteOverSlash(q, rest, params);
    Regroup3("}", Substitute(q, params), after);
    Regroup3(p, "}" + Substitute(q, params), after);
  }

  lemma {:induction false} ResumePast(a: string, rest: string, params: map<string, string>)
    requires '}' !in a
    ensures Resume(a + ("/" + rest), params) == a + ("/" + Resume(rest, params))
  {
    Regroup3(a, "/", rest);
    if '}' in rest {
      var p, q := CutAt(rest, '}');
      ResumeAt(p, q, params);
      ResumeAt(a + ("/" + p), q, params);
      Regroup3("/", p, "}" + q);
      Regroup3(a, "/" + p, "}" + q);
      Regroup3("/", p, "}" + Substitute(q, params));
      Regroup3(a, "/" + p, "}" + Substitute(q, params));
    } else {
      ResumeVerbatim(rest, params);
      ResumeVerbatim(a + ("/" + rest), params);
    }
  }

  /** Every value is non-empty and without a slash. */
  predicate SegmentValues(params: map<string, string>) {
    forall n :: n in params ==> params[n] != "" && '/' !in params[n]
  }

  lemma {:induction false} SubstituteKeepsShape(s: string, params: map<string, string>)
    requires SegmentValues(params) && '/' !in s
    ensures '/' !in Substitute(s, params)
    ensures Substitute(s, params) == "" <==> s == ""
    decreases |s|
  {
    match NextHole(s)
    case Plain =>
    case Hole(before, name, behind) =>
      HoleText(s);
      assert '/' !in before && '/' !in name && '/' !in behind;
      SubstituteKeepsShape(behind, params);
      assert '/' !in Bound(name, params) && Bound(name, params) != "";
  }

  /** A slash-free piece renders to a slash-free one, empty only if it is. */
  lemma {:induction false} RenderKeepsShape(s: string, open: bool, params: map<string, string>)
    requires SegmentValues(params) && '/' !in s
    ensures '/' !in Render(s, open, params)
    ensures Render(s, open, params) == "" <==> s == ""
  {
    SubstituteKeepsShape(s, params);
    if open && '}' in s {
      var p, q := CutAt(s, '}');
      ResumeAt(p, q, params);
      SubstituteKeepsShape(q, params);
    } else if open {
      ResumeVerbatim(s, params);
    }
  }

  // ---------------------------------------------------------------------------
  // Texts that render as themselves
  // ---------------------------------------------------------------------------

  /** No hole of the text is bound. */
  predicate HolesUnbound(text: string, params: map<string, string>)
    decreases |text|
  {
    match NextHole(text)
    case Plain => true
    case Hole(_, name, behind) => name !in params && HolesUnbound(behind, params)
  }

  function Braces(s: string): nat {
    if s == [] then 0 else (if s[0] == '{' then 1 else 0) + Braces(s[1..])
  }

  lemma {:induction false} BracesAdd(a: string, b: string)
    ensures Braces(a + b) == Braces(a) + Braces(b)
  {
    if a == [] {
      assert a + b == b;
    } else {
      assert (a + b)[1..] == a[1..] + b;
      BracesAdd(a[1..], b);
    }
  }

  lemma {:induction false} NoBraces(s: string)
    requires '{' !in s
    ensures Braces(s) == 0
  {
    if s != [] {
      assert forall c :: c in s[1..] ==> c in s;
      NoBraces(s[1..]);
    }
  }

  lemma {:induction false} BracesDrop(text: string, params: map<string, string>)
    requires forall n :: n in params ==> '{' !in params[n]
    ensures HolesUnbound(text, params) ==> Substitute(text, params) == text
    ensures Braces(Substitute(text, params)) <= Braces(text)
    ensures !HolesUnbound(text, params) ==> Braces(Substitute(text, params)) < Braces(text)
    decreases |text|
  {
    match NextHole(text)
    case Plain =>
    case Hole(before, name, behind) =>
      HoleText(text);
      BracesDrop(behind, params);
      var hole, rest := "{" + name + "}", Substitute(behind, params);
      BracesAdd(before, hole);
      BracesAdd(before + hole, behind);
      BracesAdd(before, Bound(name, params));
      BracesAdd(before + Bound(name, params), rest);
      assert hole[0] == '{' && Braces(hole) >= 1;
      if name in params {
        NoBraces(params[name]);
      }
  }

  /** When no value holds an opening brace, a text renders as itself if and only if none of
      its holes is bound. */
  lemma {:induction false} StandsAsItIs(text: string, params: map<string, string>)
    requires forall n :: n in params ==> '{' !in params[n]
    ensures Substitute(text, params) == text <==> HolesUnbound(text, params)
  {
    BracesDrop(text, params);
  }

  /** With braces in the values, two bound holes can trade their texts and leave the whole
      as it was, so no condition on single holes is exact. */
  lemma {:induction false} HolesCanTrade(a: string, b: string, first: string, second: string, params: map<string, string>)
    requires '}' !in a && '}' !in b && first == "{" + a + "}" && second == "{" + b + "}"
    requires a in params && params[a] == first + "{" && b in params && params[b] == b + "}"
    ensures Substitute(first + second, params) == first + second
    ensures !HolesUnbound(first + second, params)
  {
    TwoHoles(a, b, first, second, params);
    Traded(first, b, second);
    HoleAtStart(a, second);
  }

  lemma {:induction false} TwoHoles(a: string, b: string, first: string, second: string, params: map<string, string>)
    requires '}' !in a && '}' !in b && first == "{" + a + "}" && second == "{" + b + "}"
    requires a in params && b in params
    ensures Substitute(first + second, params) == params[a] + params[b]
  {
    var none := "";
    SubstitutePlaceholder(a, second, params);
    SubstitutePlaceholder(b, none, params);
    assert second + none == second && params[b] + none == params[b];
  }

  lemma {:induction false} Traded(first: string, b: string, second: string)
    requires second == "{" + b + "}"
    ensures (first + "{") + (b + "}") == first + second
  {
  }
}
