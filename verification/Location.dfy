/** The Location header rendered from a matched request leads back to that request. */
module Location {
  import opened Basics
  import opened Router
  import opened LetterCase
  import opened Template
  import Text

  datatype Header = Header(name: string, value: string)

  predicate IsLocation(header: Header) {
    Text.AsciiLower(header.name) == "location"
  }

  /** A header is a Location header whatever the case of its letters. */
  lemma {:induction false} IsLocationMeaning(header: Header)
    ensures IsLocation(header) <==> SameUpToCase(header.name, "location")
  {
    LowersTo(header.name, "location");
  }

  /** Every declared Location header is re-rendered; no header is added or otherwise changed. */
  method RenderLocationHeader(headers: array<Header>, template: string, params: map<string, string>)
    modifies headers
    ensures forall i :: 0 <= i < headers.Length ==>
              headers[i] == if IsLocation(old(headers[i]))
                            then Header(old(headers[i]).name, Substitute(template, params))
                            else old(headers[i])
  {
    for i := 0 to headers.Length
      invariant forall k :: 0 <= k < i ==>
                  headers[k] == if IsLocation(old(headers[k]))
                                then Header(old(headers[k]).name, Substitute(template, params))
                                else old(headers[k])
      invariant forall k :: i <= k < headers.Length ==> headers[k] == old(headers[k])
    {
      if IsLocation(headers[i]) {
        var value := SubstitutePathParams(template, params);
        headers[i] := Header(headers[i].name, value);
      }
    }
  }

  // ---------------------------------------------------------------------------
  // Splitting is insensitive to trimming
  // ---------------------------------------------------------------------------

  lemma {:induction false} NonEmptyConcat(a: seq<string>, b: seq<string>)
    ensures NonEmpty(a + b) == NonEmpty(a) + NonEmpty(b)
  {
    if a == [] {
      assert a + b == b;
    } else {
      assert (a + b)[1..] == a[1..] + b;
      NonEmptyConcat(a[1..], b);
    }
  }

  lemma {:induction false} TrimStartIrrelevant(s: string)
    ensures NonEmpty(Text.Split(Text.TrimStart(s, '/'), '/')) == NonEmpty(Text.Split(s, '/'))
  {
    if s != [] && s[0] == '/' {
      TrimStartIrrelevant(s[1..]);
      NonEmptyConcat([""], Text.Split(s[1..], '/'));
    }
  }

  lemma {:induction false} TrimEndIrrelevant(s: string)
    ensures NonEmpty(Text.Split(Text.TrimEnd(s, '/'), '/')) == NonEmpty(Text.Split(s, '/'))
  {
    if s != [] && s[|s| - 1] == '/' {
      var front := s[..|s| - 1];
      TrimEndIrrelevant(front);
      assert s == front + ['/'] + "";
      Text.SplitAtSeparator(front, "", '/');
      NonEmptyConcat(Text.Split(front, '/'), [""]);
    }
  }

  lemma {:induction false} SplitPathMeaning(s: string)
    ensures SplitPath(s) == NonEmpty(Text.Split(s, '/'))
  {
    TrimEndIrrelevant(Text.TrimStart(s, '/'));
    TrimStartIrrelevant(s);
  }

  lemma {:induction false} NonEmptyMembers(parts: seq<string>, q: string)
    ensures q in NonEmpty(parts) <==> q in parts && q != ""
  {
    if parts != [] {
      NonEmptyMembers(parts[1..], q);
    }
  }

  // ---------------------------------------------------------------------------
  // Substitution works segment by segment
  // ---------------------------------------------------------------------------

  /** Each segment rendered in turn; all that passes from one to the next is whether a
      brace is open. */
  function RenderParts(parts: seq<string>, open: bool, params: map<string, string>): (r: seq<string>)
    ensures |r| == |parts|
  {
    if parts == [] then []
    else [Render(parts[0], open, params)] + RenderParts(parts[1..], OpenAfter(parts[0], open), params)
  }

  /** Whether a brace is open in front of segment `k`. */
  predicate OpenBefore(parts: seq<string>, k: nat, open: bool)
    requires k <= |parts|
  {
    if k == 0 then open else OpenBefore(parts[1..], k - 1, OpenAfter(parts[0], open))
  }

  lemma {:induction false} RenderPartsAt(parts: seq<string>, open: bool, params: map<string, string>, k: nat)
    requires k < |parts|
    ensures RenderParts(parts, open, params)[k] == Render(parts[k], OpenBefore(parts, k, open), params)
  {
    if k > 0 {
      assert parts[1..][k - 1] == parts[k];
      RenderPartsAt(parts[1..], OpenAfter(parts[0], open), params, k - 1);
    }
  }

  lemma {:induction false} RenderJoin(parts: seq<string>, open: bool, params: map<string, string>)
    requires parts != [] && SlashFreeNames(params)
    ensures Render(Text.Join(parts, '/'), open, params) == Text.Join(RenderParts(parts, open, params), '/')
  {
    var rendered := RenderParts(parts, open, params);
    if |parts| > 1 {
      var after := OpenAfter(parts[0], open);
      JoinStep(parts);
      JoinStep(rendered);
      RenderOverSlash(parts[0], Text.Join(parts[1..], '/'), open, params);
      RenderJoin(parts[1..], after, params);
      assert rendered[1..] == RenderParts(parts[1..], after, params);
    }
  }

  lemma {:induction false} JoinStep(parts: seq<string>)
    requires |parts| > 1
    ensures Text.Join(parts, '/') == parts[0] + ("/" + Text.Join(parts[1..], '/'))
  {
    assert parts[0] + ['/'] + Text.Join(parts[1..], '/') == parts[0] + ("/" + Text.Join(parts[1..], '/'));
  }

  lemma {:induction false} NonEmptyRendered(parts: seq<string>, open: bool, params: map<string, string>)
    requires SegmentValues(params) && forall p :: p in parts ==> '/' !in p
    ensures NonEmpty(RenderParts(parts, open, params)) == RenderParts(NonEmpty(parts), open, params)
    ensures forall p :: p in RenderParts(parts, open, params) ==> '/' !in p
  {
    if parts != [] {
      var rendered, after := RenderParts(parts, open, params), OpenAfter(parts[0], open);
      assert forall p :: p in parts[1..] ==> p in parts;
      NonEmptyRendered(parts[1..], after, params);
      RenderKeepsShape(parts[0], open, params);
      assert rendered[1..] == RenderParts(parts[1..], after, params);
      if parts[0] != "" {
        assert NonEmpty(parts)[0] == parts[0] && NonEmpty(parts)[1..] == NonEmpty(parts[1..]);
      } else {
        assert NonEmpty(parts) == NonEmpty(parts[1..]) && after == open;
      }
    }
  }

  /** For every template, the rendered path has the template's segments, each rendered. */
  lemma {:induction false} RenderedSegments(template: string, params: map<string, string>)
    requires SlashFreeNames(params) && SegmentValues(params)
    ensures SplitPath(Substitute(template, params)) == RenderParts(SplitPath(template), false, params)
  {
    var parts := Text.Split(template, '/');
    var rendered := RenderParts(parts, false, params);
    SplitPathMeaning(template);
    Text.JoinOfSplit(template, '/');
    RenderJoin(parts, false, params);
    NonEmptyRendered(parts, false, params);
    Text.SplitOfJoin(rendered, '/');
    SplitPathMeaning(Text.Join(rendered, '/'));
  }

  /** A parameter segment whose name ends at its own brace, outside any open brace, renders
      as the parameter's value. */
  lemma {:induction false} ParameterRenders(part: string, name: string, params: map<string, string>)
    requires ParseSegment(part) == Param(name) && '}' !in name
    ensures Render(part, false, params) == Bound(name, params) && !Open(part)
  {
    assert part == "{" + name + "}" && part + "" == part;
    HoleAtStart(name, "");
    SubstitutePlaceholder(name, "", params);
    assert Bound(name, params) + "" == Bound(name, params);
  }

  // ---------------------------------------------------------------------------
  // The round trip
  // ---------------------------------------------------------------------------

  /** A name used twice meets the same segment both times. */
  ghost predicate Consistent(segments: seq<Matcher>, path: seq<string>)
    requires |segments| == |path|
  {
    forall i, j :: 0 <= i < j < |segments| && segments[i].Param? && segments[i] == segments[j] ==> path[i] == path[j]
  }

  lemma {:induction false} LastUse(segments: seq<Matcher>, i: nat) returns (last: nat)
    requires i < |segments|
    ensures i <= last < |segments| && segments[last] == segments[i]
    ensures forall j :: last < j < |segments| ==> segments[j] != segments[last]
    decreases |segments| - i
  {
    if j: nat :| i < j < |segments| && segments[j] == segments[i] {
      last := LastUse(segments, j);
    } else {
      last := i;
    }
  }

  /** Every parameter segment reads its own segment of the path. */
  ghost predicate ReadBack(segments: seq<Matcher>, params: map<string, string>, path: seq<string>)
    requires |segments| == |path|
  {
    forall i :: 0 <= i < |path| && segments[i].Param? ==>
      segments[i].name in params && params[segments[i].name] == path[i]
  }

  /** Each place of a parameter reads back its own segment exactly when repeated names agree. */
  lemma {:induction false} BoundEverywhere(segments: seq<Matcher>, path: seq<string>)
    requires |segments| == |path|
    ensures forall i :: 0 <= i < |path| && segments[i].Param? ==>
              segments[i].name in Bind(map[], segments, path) && Bind(map[], segments, path)[segments[i].name] in path
    ensures Consistent(segments, path) <==> ReadBack(segments, Bind(map[], segments, path), path)
  {
    var params := Bind(map[], segments, path);
    BindMeaning(map[], segments, path);
    forall i | 0 <= i < |path| && segments[i].Param?
      ensures segments[i].name in params && params[segments[i].name] in path
      ensures Consistent(segments, path) ==> params[segments[i].name] == path[i]
    {
      var last := LastUse(segments, i);
      assert params[segments[last].name] == path[last];
    }
  }

  lemma {:induction false} SegmentsOfPath(path: string)
    ensures forall q :: q in SplitPath(path) ==> q != "" && '/' !in q
  {
    SplitPathMeaning(path);
    forall q | q in SplitPath(path) ensures q != "" && '/' !in q {
      NonEmptyMembers(Text.Split(path, '/'), q);
    }
  }

  /** What a match binds: names without slashes, values that are segments. */
  lemma {:induction false} MatchedParameters(template: string, path: string)
    requires Matches(ParseSegments(template), SplitPath(path))
    ensures
      var params := Bind(map[], ParseSegments(template), SplitPath(path));
      SlashFreeNames(params) && SegmentValues(params)
  {
    var parts, segments := SplitPath(template), SplitPath(path);
    var params := Bind(map[], ParseSegments(template), segments);
    SegmentsOfPath(template);
    SegmentsOfPath(path);
    forall n | n in params ensures '/' !in n && params[n] != "" && '/' !in params[n] {
      BoundName(parts, segments, n);
    }
  }

  lemma {:induction false} BoundName(parts: seq<string>, path: seq<string>, name: string)
    requires |parts| == |path| && name in Bind(map[], ParseAll(parts), path)
    requires forall p :: p in parts ==> '/' !in p
    ensures '/' !in name && Bind(map[], ParseAll(parts), path)[name] in path
  {
    var matchers := ParseAll(parts);
    BindKeys(map[], matchers, path, name);
    BoundEverywhere(matchers, path);
    var i :| 0 <= i < |matchers| && matchers[i] == Param(name);
    NameInside(parts[i], name);
  }

  lemma {:induction false} NameInside(part: string, name: string)
    requires ParseSegment(part) == Param(name) && '/' !in part
    ensures '/' !in name
  {
    assert forall c :: c in name ==> c in part;
  }

  /** How a segment of the template can give back the request's: a literal renders as
      itself; a parameter reads its value there, unless an open brace, or a brace in its
      name, spoils the placeholder and the text left must be the segment. */
  predicate GivesBack(part: string, open: bool, params: map<string, string>, segment: string) {
    match ParseSegment(part)
    case Literal(text) => Render(text, open, params) == text
    case Param(name) =>
      if !open && '}' !in name then name in params && params[name] == segment
      else Render(part, open, params) == segment
  }

  lemma {:induction false} GivesBackMeaning(part: string, open: bool, params: map<string, string>, segment: string)
    requires ParseSegment(part).Literal? ==> part == segment
    requires ParseSegment(part).Param? ==> ParseSegment(part).name in params
    ensures GivesBack(part, open, params, segment) <==> Render(part, open, params) == segment
  {
    match ParseSegment(part)
    case Literal(_) =>
    case Param(name) =>
      if !open && '}' !in name {
        ParameterRenders(part, name, params);
      }
  }

  ghost predicate AllGiveBack(parts: seq<string>, params: map<string, string>, segments: seq<string>)
    requires |parts| == |segments|
  {
    forall k :: 0 <= k < |parts| ==> GivesBack(parts[k], OpenBefore(parts, k, false), params, segments[k])
  }

  /** For every template and matching request, substituting the matched parameters back
      gives the request's own segments if and only if each segment gives back its own. */
  lemma {:induction false} LocationRoundTrip(template: string, path: string)
    requires Matches(ParseSegments(template), SplitPath(path))
    ensures
      var parts, segments := SplitPath(template), SplitPath(path);
      var params := Bind(map[], ParseSegments(template), segments);
      SplitPath(Substitute(template, params)) == segments <==> AllGiveBack(parts, params, segments)
  {
    var parts, segments := SplitPath(template), SplitPath(path);
    MatchedParameters(template, path);
    RenderedSegments(template, Bind(map[], ParseSegments(template), segments));
    MatchGivesBack(parts, segments);
  }

  /** On matching segments, rendering gives back the path exactly when each segment does. */
  lemma {:induction false} MatchGivesBack(parts: seq<string>, segments: seq<string>)
    requires Matches(ParseAll(parts), segments)
    ensures
      var params := Bind(map[], ParseAll(parts), segments);
      RenderParts(parts, false, params) == segments <==> AllGiveBack(parts, params, segments)
  {
    var params := Bind(map[], ParseAll(parts), segments);
    BoundEverywhere(ParseAll(parts), segments);
    forall k | 0 <= k < |parts|
      ensures GivesBack(parts[k], OpenBefore(parts, k, false), params, segments[k])
         <==> RenderParts(parts, false, params)[k] == segments[k]
    {
      assert ParseAll(parts)[k] == ParseSegment(parts[k]);
      RenderPartsAt(parts, false, params, k);
      GivesBackMeaning(parts[k], OpenBefore(parts, k, false), params, segments[k]);
    }
  }

  /** For a literal outside any open brace, with no opening brace in a value, that is when
      none of the holes it holds is bound. */
  lemma {:induction false} LiteralGivesBack(part: string, params: map<string, string>, segment: string)
    requires ParseSegment(part).Literal? && forall n :: n in params ==> '{' !in params[n]
    ensures GivesBack(part, false, params, segment) <==> HolesUnbound(part, params)
  {
    StandsAsItIs(part, params);
  }

  // ---------------------------------------------------------------------------
  // Templates whose braces only delimit parameters
  // ---------------------------------------------------------------------------

  /** A literal that opens no brace, or a parameter whose name closes none. */
  predicate CleanSegment(segment: Matcher) {
    match segment
    case Literal(text) => '{' !in text
    case Param(name) => '}' !in name
  }

  lemma {:induction false} CleanIsClosed(part: string, params: map<string, string>)
    requires CleanSegment(ParseSegment(part))
    ensures !Open(part)
    ensures ParseSegment(part).Literal? ==> Render(part, false, params) == part
  {
    match ParseSegment(part)
    case Literal(text) => IndexOfNone(text, '{');
    case Param(name) => ParameterRenders(part, name, params);
  }

  lemma {:induction false} NeverOpen(parts: seq<string>, k: nat)
    requires k <= |parts| && forall i :: 0 <= i < |parts| ==> CleanSegment(ParseSegment(parts[i]))
    ensures !OpenBefore(parts, k, false)
  {
    if k > 0 {
      CleanIsClosed(parts[0], map[]);
      NeverOpen(parts[1..], k - 1);
    }
  }

  /** On such templates the round trip holds exactly when any name the template repeats met
      equal segments. */
  lemma {:induction false} CleanRoundTrip(template: string, path: string)
    requires Matches(ParseSegments(template), SplitPath(path))
    requires forall i :: 0 <= i < |ParseSegments(template)| ==> CleanSegment(ParseSegments(template)[i])
    ensures
      var segments := SplitPath(path);
      var params := Bind(map[], ParseSegments(template), segments);
      SplitPath(Substitute(template, params)) == segments
      <==> Consistent(ParseSegments(template), segments)
  {
    var matchers, segments := ParseSegments(template), SplitPath(path);
    var params := Bind(map[], matchers, segments);
    LocationRoundTrip(template, path);
    BoundEverywhere(matchers, segments);
    CleanAll(SplitPath(template), params, segments);
  }

  lemma {:induction false} CleanAll(parts: seq<string>, params: map<string, string>, segments: seq<string>)
    requires |parts| == |segments|
    requires forall i :: 0 <= i < |parts| ==> CleanSegment(ParseAll(parts)[i])
    requires forall i :: 0 <= i < |parts| && ParseAll(parts)[i].Param? ==> ParseAll(parts)[i].name in params
    ensures AllGiveBack(parts, params, segments) <==> ReadBack(ParseAll(parts), params, segments)
  {
    var matchers := ParseAll(parts);
    forall k | 0 <= k < |parts|
      ensures GivesBack(parts[k], OpenBefore(parts, k, false), params, segments[k])
         <==> (matchers[k].Param? ==> params[matchers[k].name] == segments[k])
    {
      assert matchers[k] == ParseSegment(parts[k]);
      NeverOpen(parts, k);
      CleanGivesBack(parts[k], params, segments[k]);
    }
  }

  lemma {:induction false} CleanGivesBack(part: string, params: map<string, string>, segment: string)
    requires CleanSegment(ParseSegment(part)) && (ParseSegment(part).Param? ==> ParseSegment(part).name in params)
    ensures GivesBack(part, false, params, segment)
       <==> (ParseSegment(part).Param? ==> params[ParseSegment(part).name] == segment)
  {
    CleanIsClosed(part, params);
  }

  /** For a request without an opening brace, and parameter names without a closing one, the
      condition is the same whatever the template's literals are. */
  lemma {:induction false} OrdinaryRoundTrip(template: string, path: string)
    requires Matches(ParseSegments(template), SplitPath(path)) && '{' !in path
    requires forall i :: 0 <= i < |ParseSegments(template)| && ParseSegments(template)[i].Param?
               ==> '}' !in ParseSegments(template)[i].name
    ensures
      var segments := SplitPath(path);
      var params := Bind(map[], ParseSegments(template), segments);
      SplitPath(Substitute(template, params)) == segments
      <==> Consistent(ParseSegments(template), segments)
  {
    var matchers, segments := ParseSegments(template), SplitPath(path);
    SegmentsAvoid(path, '{');
    forall i | 0 <= i < |matchers| ensures CleanSegment(matchers[i]) {
      assert segments[i] in segments;
    }
    CleanRoundTrip(template, path);
  }

  /** A character that is not in a path is in none of its segments. */
  lemma {:induction false} SegmentsAvoid(path: string, c: char)
    requires c !in path
    ensures forall q :: q in SplitPath(path) ==> c !in q
  {
    SplitPathMeaning(path);
    PartsAvoid(path, c);
    forall q | q in SplitPath(path) ensures c !in q {
      NonEmptyMembers(Text.Split(path, '/'), q);
    }
  }

  lemma {:induction false} PartsAvoid(s: string, c: char)
    requires c !in s
    ensures forall q :: q in Text.Split(s, '/') ==> c !in q
  {
    if s != [] {
      assert forall x :: x in s[1..] ==> x in s;
      PartsAvoid(s[1..], c);
      var rest := Text.Split(s[1..], '/');
      assert forall q :: q in rest[1..] ==> q in rest;
      assert rest[0] in rest && s[0] != c;
    }
  }

  /** In particular the round trip holds whenever the parameter names are distinct. */
  lemma {:induction false} DistinctNamesRoundTrip(template: string, path: string)
    requires Matches(ParseSegments(template), SplitPath(path))
    requires forall i :: 0 <= i < |ParseSegments(template)| ==> CleanSegment(ParseSegments(template)[i])
    requires forall i, j :: 0 <= i < j < |ParseSegments(template)| && ParseSegments(template)[i].Param?
               ==> ParseSegments(template)[i] != ParseSegments(template)[j]
    ensures
      var params := Bind(map[], ParseSegments(template), SplitPath(path));
      SplitPath(Substitute(template, params)) == SplitPath(path)
  {
    CleanRoundTrip(template, path);
  }

  lemma {:induction false} RepeatedNameLoses(template: string, path: string, part: string, name: string, x: string, y: string)
    requires SplitPath(template) == [part, part] && ParseSegment(part) == Param(name) && BraceFree(name)
    requires SplitPath(path) == [x, y] && x != y
    ensures Matches(ParseSegments(template), SplitPath(path))
    ensures SplitPath(Substitute(template, Bind(map[], ParseSegments(template), SplitPath(path)))) != SplitPath(path)
  {
    var matchers := ParseSegments(template);
    assert matchers[0] == Param(name) && matchers[1] == Param(name);
    CleanRoundTrip(template, path);
  }

  /** The request matches and its Location leads elsewhere. */
  predicate LeadsAstray(template: string, path: string) {
    && Matches(ParseSegments(template), SplitPath(path))
    && SplitPath(Substitute(template, Bind(map[], ParseSegments(template), SplitPath(path)))) != SplitPath(path)
  }

  /** The failing requests: a repeated name meets two segments and keeps the last. */
  lemma {:induction false} RepeatedName(template: string, path: string, name: string, x: string, y: string)
    requires name != "" && BraceFree(name) && '/' !in name
    requires x != "" && y != "" && '/' !in x && '/' !in y && x != y
    requires template == "/" + ("{" + name + "}") + "/" + ("{" + name + "}") && path == "/" + x + "/" + y
    ensures LeadsAstray(template, path)
  {
    var part := Placeholder(name);
    TwoSegments(template, part, part);
    TwoSegments(path, x, y);
    RepeatedNameLoses(template, path, part, name, x, y);
  }

  lemma {:induction false} Spelled() returns (template: string, path: string)
    ensures template == "/{a}/{a}" && template == "/" + ("{" + "a" + "}") + "/" + ("{" + "a" + "}")
    ensures path == "/x/y" && path == "/" + "x" + "/" + "y"
  {
    template, path := "/{a}/{a}", "/x/y";
  }

  /** One of them. */
  lemma {:induction false} RepeatedNameFails() returns (template: string, path: string)
    ensures template == "/{a}/{a}" && path == "/x/y" && LeadsAstray(template, path)
  {
    template, path := Spelled();
    RepeatedName(template, path, "a", "x", "y");
  }

  /** More failing requests: a literal segment that begins with a bound placeholder. */
  lemma {:induction false} BracesInLiteral(
    template: string, path: string, part: string, name: string, tail: string, x: string)
    requires part == "{" + name + "}" && ParseSegment(part) == Param(name) && BraceFree(name) && '/' !in name
    requires tail != "" && BraceFree(tail) && '/' !in tail
    requires x != "" && '/' !in x && x != part
    requires template == "/" + part + "/" + (part + tail) && path == "/" + x + "/" + (part + tail)
    ensures LeadsAstray(template, path)
  {
    var literal := part + tail;
    assert literal[|literal| - 1] == tail[|tail| - 1] && tail[|tail| - 1] in tail;
    TwoSegments(template, part, literal);
    TwoSegments(path, x, literal);
    LiteralLeadsAstray(template, path, part, name, literal, tail, x);
  }

  lemma {:induction false} LiteralLeadsAstray(
    template: string, path: string, part: string, name: string, literal: string, tail: string, x: string)
    requires SplitPath(template) == [part, literal] && SplitPath(path) == [x, literal]
    requires part == "{" + name + "}" && ParseSegment(part) == Param(name) && '}' !in name && x != part
    requires literal == part + tail && ParseSegment(literal) == Literal(literal) && '}' !in tail
    ensures LeadsAstray(template, path)
  {
    var parts, matchers, segments := SplitPath(template), ParseSegments(template), SplitPath(path);
    assert matchers[0] == Param(name) && matchers[1] == Literal(literal);
    var params := Bind(map[], matchers, segments);
    BindLast(map[], matchers, segments, 0);
    LocationRoundTrip(template, path);
    ParameterRenders(part, name, params);
    LiteralSpoilt(name, tail, params, x);
    assert !OpenBefore(parts, 1, false);
    assert !GivesBack(parts[1], OpenBefore(parts, 1, false), params, segments[1]);
  }

  lemma {:induction false} LiteralSpoilt(name: string, tail: string, params: map<string, string>, x: string)
    requires '}' !in name && '}' !in tail && name in params && params[name] == x && x != "{" + name + "}"
    ensures Render("{" + name + "}" + tail, false, params) != "{" + name + "}" + tail
  {
    SubstitutePlaceholder(name, tail, params);
    NothingCloses(tail, params);
    SameFront(x, "{" + name + "}", tail);
  }

  lemma {:induction false} SameFront(a: string, b: string, tail: string)
    ensures a + tail == b + tail ==> a == b
  {
    assert a == (a + tail)[..|a|] && b == (b + tail)[..|b|];
  }

  lemma {:induction false} SpelledWithTail() returns (template: string, path: string)
    ensures template == "/{a}/{a}.json" && template == "/" + ("{" + "a" + "}") + "/" + ("{" + "a" + "}" + ".json")
    ensures path == "/x/{a}.json" && path == "/" + "x" + "/" + ("{" + "a" + "}" + ".json")
  {
    template, path := "/{a}/{a}.json", "/x/{a}.json";
  }

  lemma {:induction false} BracesInLiteralFail() returns (template: string, path: string)
    ensures template == "/{a}/{a}.json" && path == "/x/{a}.json" && LeadsAstray(template, path)
  {
    template, path := SpelledWithTail();
    var part := Placeholder("a");
    BracesInLiteral(template, path, part, "a", ".json", "x");
  }

  lemma {:induction false} Placeholder(name: string) returns (part: string)
    requires name != "" && '/' !in name
    ensures part == "{" + name + "}" && part != "" && '/' !in part && ParseSegment(part) == Param(name)
  {
    part := "{" + name + "}";
    assert part[1..|part| - 1] == name;
  }

  lemma {:induction false} TwoSegments(s: string, a: string, b: string)
    requires s == "/" + a + "/" + b && a != "" && b != "" && '/' !in a && '/' !in b
    ensures SplitPath(s) == [a, b]
  {
    var front := "" + ['/'] + a;
    SplitPathMeaning(s);
    assert s == front + ['/'] + b;
    Text.SplitAtSeparator(front, b, '/');
    Text.SplitAtSeparator("", a, '/');
    Text.SplitOfPart(a, '/');
    Text.SplitOfPart(b, '/');
    NonEmptyConcat([""] + [a], [b]);
    NonEmptyConcat([""], [a]);
    OneSegment(a);
    OneSegment(b);
  }

  lemma {:induction false} OneSegment(a: string)
    requires a != ""
    ensures NonEmpty([a]) == [a] && NonEmpty([""]) == []
  {
    assert [a][1..] == [] && [""][1..] == [];
  }
}
