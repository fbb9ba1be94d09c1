/** What a JSON pointer means by RFC 6901, on texts, and when the resolver reads one so. */
module Rfc6901 {
  import opened Basics
  import opened JsonModel
  import opened RefSpec
  import opened PointerLaws
  import Text

  // ---------------------------------------------------------------------------
  // Evaluation, sections 3 and 4
  // ---------------------------------------------------------------------------

  /** Every tilde begins an escape. */
  predicate WellEscaped(token: string) {
    forall i :: 0 <= i < |token| && token[i] == '~' ==> i + 1 < |token| && (token[i + 1] == '0' || token[i + 1] == '1')
  }

  /** Digits without a leading zero. */
  predicate IsIndex(token: string) {
    token != "" && Text.AllDigits(token) && (token[0] == '0' ==> token == "0")
  }

  function TokenChild(v: Json, token: string): Option<Json> {
    match v
    case Obj(members) => if WellEscaped(token) then Find(members, Unescape(token)) else None
    case Arr(items) =>
      if IsIndex(token) && Text.DigitsValue(token) < |items| then Some(items[Text.DigitsValue(token)]) else None
    case _ => None
  }

  function Walk(v: Json, tokens: seq<string>): Option<Json>
    decreases |tokens|
  {
    if tokens == [] then Some(v)
    else
      match TokenChild(v, tokens[0])
      case None => None
      case Some(child) => Walk(child, tokens[1..])
  }

  predicate Rooted(text: string) {
    "/" <= text
  }

  function Tokens(text: string): seq<string>
    requires Rooted(text)
  {
    Text.Split(text[1..], '/')
  }

  /** The value a pointer's text evaluates to, if it is a pointer and leads anywhere. */
  function Evaluate(v: Json, text: string): Option<Json> {
    if text == "" then Some(v) else if Rooted(text) then Walk(v, Tokens(text)) else None
  }

  // ---------------------------------------------------------------------------
  // Documents that tell two readings apart
  // ---------------------------------------------------------------------------

  /** A document with a null at the end of the hops and no other name in it. */
  function Nest(hops: seq<Hop>): Json {
    if hops == [] then Null
    else
      match hops[0]
      case Key(name) => Obj([Member(name, Nest(hops[1..]))])
      case Index(i) => Arr(seq(i + 1, _ => Nest(hops[1..])))
  }

  lemma {:induction false} OneName(name: string, x: Json, key: string)
    ensures Find([Member(name, x)], key) == if key == name then Some(x) else None
  {
    assert [Member(name, x)][1..] == [];
  }

  /** The hops are what the tokens say under RFC 6901. */
  predicate Says(token: string, hop: Hop) {
    match hop
    case Key(name) => WellEscaped(token) && name == Unescape(token)
    case Index(i) => IsIndex(token) && i == Text.DigitsValue(token)
  }

  predicate Spell(tokens: seq<string>, hops: seq<Hop>) {
    |tokens| == |hops| && forall k :: 0 <= k < |hops| ==> Says(tokens[k], hops[k])
  }

  lemma {:induction false} WalkFollows(v: Json, tokens: seq<string>, hops: seq<Hop>)
    requires Spell(tokens, hops) && At(v, hops).Some?
    ensures Walk(v, tokens) == At(v, hops)
    decreases |hops|
  {
    if hops != [] {
      var next := if v.Obj? then Find(v.members, hops[0].name).value else v.items[hops[0].i];
      assert Says(tokens[0], hops[0]) && TokenChild(v, tokens[0]) == Some(next);
      WalkFollows(next, tokens[1..], hops[1..]);
    }
  }

  lemma {:induction false} NestHolds(hops: seq<Hop>)
    ensures At(Nest(hops), hops) == Some(Null)
  {
    if hops != [] {
      NestHolds(hops[1..]);
      if hops[0].Key? {
        OneName(hops[0].name, Nest(hops[1..]), hops[0].name);
      }
    }
  }

  /** What a reading must make of each token to reach the null. */
  lemma {:induction false} WalkNeeds(tokens: seq<string>, hops: seq<Hop>)
    requires Walk(Nest(hops), tokens) == Some(Null)
    ensures |tokens| == |hops|
    ensures forall k :: 0 <= k < |hops| ==>
              if hops[k].Key? then WellEscaped(tokens[k]) && hops[k].name == Unescape(tokens[k]) else IsIndex(tokens[k])
    decreases |hops|
  {
    if hops != [] && tokens != [] {
      if hops[0].Key? {
        OneName(hops[0].name, Nest(hops[1..]), Unescape(tokens[0]));
      }
      WalkNeeds(tokens[1..], hops[1..]);
      assert forall k :: 0 < k < |hops| ==> hops[k] == hops[1..][k - 1];
      assert forall k :: 0 < k < |tokens| ==> tokens[k] == tokens[1..][k - 1];
    }
  }

  // ---------------------------------------------------------------------------
  // The pointer written for a place evaluates to it
  // ---------------------------------------------------------------------------

  lemma {:induction false} WellEscapedSum(a: string, b: string)
    requires WellEscaped(a) && WellEscaped(b)
    ensures WellEscaped(a + b)
  {
    var s := a + b;
    forall i | 0 <= i < |s| && s[i] == '~'
      ensures i + 1 < |s| && (s[i + 1] == '0' || s[i + 1] == '1')
    {
      if i < |a| {
        assert a[i] == s[i] && i + 1 < |a| && a[i + 1] == s[i + 1];
      } else {
        assert b[i - |a|] == s[i] && b[i - |a| + 1] == s[i + 1];
      }
    }
  }

  lemma {:induction false} EscapeIsWellEscaped(name: string)
    ensures WellEscaped(Escape(name))
  {
    if name != [] {
      EscapeIsWellEscaped(name[1..]);
      WellEscapedSum(PointerLaws.EscapeChar(name[0]), Escape(name[1..]));
    }
  }

  lemma {:induction false} NatTextIsIndex(n: nat)
    ensures IsIndex(Text.NatText(n)) && Text.DigitsValue(Text.NatText(n)) == n
  {
    DigitsOfText(n);
    if n >= 10 {
      NoLeadingZero(n);
    }
  }

  lemma {:induction false} NoLeadingZero(n: nat)
    requires n >= 1
    ensures Text.NatText(n)[0] != '0'
  {
    if n >= 10 {
      NoLeadingZero(n / 10);
    }
  }

  /** Every place in every document, without exception, is what its pointer evaluates to. */
  lemma {:induction false} EvaluateRoundTrip(root: Json, hops: seq<Hop>, x: Json)
    requires At(root, hops) == Some(x)
    ensures Evaluate(root, PointerText(hops)) == Some(x)
  {
    if hops != [] {
      PartsOfText(hops);
      forall k | 0 <= k < |hops| ensures Says(Parts(hops)[k], hops[k]) {
        match hops[k]
        case Key(name) => EscapeIsWellEscaped(name); UnescapeOfEscape(name);
        case Index(i) => NatTextIsIndex(i);
      }
      assert Tokens(PointerText(hops)) == Parts(hops);
      WalkFollows(root, Parts(hops), hops);
    }
  }

  // ---------------------------------------------------------------------------
  // Unescaping
  // ---------------------------------------------------------------------------

  lemma {:induction false} ReplaceShortens(s: string, a: char, b: char, c: char)
    requires a != b
    ensures |ReplacePair(s, a, b, c)| <= |s|
    ensures |ReplacePair(s, a, b, c)| == |s| ==>
              ReplacePair(s, a, b, c) == s && forall i :: 0 <= i < |s| - 1 ==> !(s[i] == a && s[i + 1] == b)
    decreases |s|
  {
    if |s| >= 2 {
      if s[0] == a && s[1] == b {
        ReplaceShortens(s[2..], a, b, c);
      } else {
        ReplaceShortens(s[1..], a, b, c);
        assert s == [s[0]] + s[1..];
        assert forall i :: 0 < i < |s| - 1 ==> s[i] == s[1..][i - 1] && s[i + 1] == s[1..][i];
      }
    }
  }

  /** A well-formed token is its own name exactly when it holds no tilde. */
  lemma {:induction false} OwnName(token: string)
    requires WellEscaped(token)
    ensures Unescape(token) == token <==> '~' !in token
  {
    var once := ReplacePair(token, '~', '1', '/');
    ReplaceShortens(token, '~', '1', '/');
    ReplaceShortens(once, '~', '0', '~');
    if '~' !in token {
      NothingToReplace(token, '~', '1', '/');
      NothingToReplace(token, '~', '0', '~');
    } else {
      var i :| 0 <= i < |token| && token[i] == '~';
      assert token[i + 1] == '0' || token[i + 1] == '1';
    }
  }

  lemma {:induction false} DigitsAreOwnName(token: string)
    requires Text.AllDigits(token)
    ensures Unescape(token) == token && WellEscaped(token)
  {
    NothingToReplace(token, '~', '1', '/');
    NothingToReplace(token, '~', '0', '~');
  }

  // ---------------------------------------------------------------------------
  // The resolver's reading
  // ---------------------------------------------------------------------------

  /** The array element the resolver takes the token for. */
  function TakenIndex(token: string): Option<nat> {
    Text.ParseUnsigned(Unescape(token), WORD)
  }

  /** A well-formed token that the resolver takes for an index exactly when it is one. */
  predicate ReadAlike(token: string) {
    WellEscaped(token) && (TakenIndex(token).Some? <==> IsIndex(token))
  }

  lemma {:induction false} IndexTaken(token: string)
    requires IsIndex(token)
    ensures TakenIndex(token) == if Text.DigitsValue(token) < WORD then Some(Text.DigitsValue(token)) else None
  {
    DigitsAreOwnName(token);
  }

  lemma {:induction false} ChildAlike(v: Json, token: string)
    requires ReadAlike(token)
    ensures Child(v, token) == TokenChild(v, token)
  {
    if IsIndex(token) {
      IndexTaken(token);
    }
  }

  lemma {:induction false} WalkAlike(v: Json, tokens: seq<string>)
    requires forall k :: 0 <= k < |tokens| ==> ReadAlike(tokens[k])
    ensures Descend(v, tokens) == Walk(v, tokens)
    decreases |tokens|
  {
    if tokens != [] {
      ChildAlike(v, tokens[0]);
      var child := Child(v, tokens[0]);
      if child.Some? {
        WalkAlike(child.value, tokens[1..]);
      }
    }
  }

  /** The hops the resolver can take a token for. */
  predicate Takes(token: string, hop: Hop) {
    match hop
    case Key(name) => name == Unescape(token)
    case Index(i) => TakenIndex(token) == Some(i)
  }

  lemma {:induction false} DescendReaches(tokens: seq<string>, hops: seq<Hop>)
    requires |tokens| == |hops| && forall k :: 0 <= k < |hops| ==> Takes(tokens[k], hops[k])
    ensures Descend(Nest(hops), tokens) == Some(Null)
    decreases |hops|
  {
    if hops != [] {
      assert Takes(tokens[0], hops[0]);
      if hops[0].Key? {
        OneName(hops[0].name, Nest(hops[1..]), hops[0].name);
      }
      DescendReaches(tokens[1..], hops[1..]);
    }
  }

  lemma {:induction false} DescendNeeds(tokens: seq<string>, hops: seq<Hop>)
    requires Descend(Nest(hops), tokens) == Some(Null)
    ensures |tokens| == |hops|
    ensures forall k :: 0 <= k < |hops| && hops[k].Index? ==> TakenIndex(tokens[k]).Some?
    decreases |hops|
  {
    if hops != [] && tokens != [] {
      if hops[0].Key? {
        OneName(hops[0].name, Nest(hops[1..]), Unescape(tokens[0]));
      }
      DescendNeeds(tokens[1..], hops[1..]);
      assert forall k :: 0 < k < |hops| ==> hops[k] == hops[1..][k - 1];
      assert forall k :: 0 < k < |tokens| ==> tokens[k] == tokens[1..][k - 1];
    }
  }

  /** Every token taken for a name. */
  function NamesOf(tokens: seq<string>): (hops: seq<Hop>)
    ensures |hops| == |tokens| && forall k :: 0 <= k < |tokens| ==> hops[k] == Key(Unescape(tokens[k]))
  {
    if tokens == [] then [] else [Key(Unescape(tokens[0]))] + NamesOf(tokens[1..])
  }

  /** A document that a walk and the resolver read differently at a token that is not read
      alike. */
  lemma {:induction false} Telling(tokens: seq<string>, k: nat) returns (v: Json)
    requires k < |tokens| && !ReadAlike(tokens[k])
    ensures Descend(v, tokens) != Walk(v, tokens)
  {
    var names := NamesOf(tokens);
    v := Nest(names);
    DescendReaches(tokens, names);
    if Walk(v, tokens) == Some(Null) {
      WalkNeeds(tokens, names);
      assert names[k].Key?;
      assert WellEscaped(tokens[k]);
      if TakenIndex(tokens[k]).Some? {
        var hops := names[k := Index(TakenIndex(tokens[k]).value)];
        v := Nest(hops);
        DescendReaches(tokens, hops);
        if Walk(v, tokens) == Some(Null) {
          WalkNeeds(tokens, hops);
        }
      } else {
        v := TellingIndex(tokens, names, k);
      }
    }
  }

  lemma {:induction false} TellingIndex(tokens: seq<string>, names: seq<Hop>, k: nat) returns (v: Json)
    requires k < |tokens| && names == NamesOf(tokens) && IsIndex(tokens[k]) && TakenIndex(tokens[k]).None?
    requires forall j :: 0 <= j < |tokens| ==> WellEscaped(tokens[j])
    ensures Descend(v, tokens) != Walk(v, tokens)
  {
    var hops := names[k := Index(Text.DigitsValue(tokens[k]))];
    v := Nest(hops);
    NestHolds(hops);
    assert Spell(tokens, hops);
    WalkFollows(v, tokens, hops);
    if Descend(v, tokens) == Some(Null) {
      DescendNeeds(tokens, hops);
    }
  }

  /** The resolver reads a text as RFC 6901 does, in every document, if and only if the text
      is empty, or is rooted, is not a lone slash, and has only tokens that are well escaped
      and taken for indices exactly when they are. */
  lemma {:induction false} ResolverAgrees(text: string)
    ensures (forall v :: ResolvePointer(v, text) == Evaluate(v, text))
       <==> text == "" || (Rooted(text) && text != "/" && forall k :: 0 <= k < |Tokens(text)| ==> ReadAlike(Tokens(text)[k]))
  {
    if text != "" {
      if !Rooted(text) {
        UnrootedDiffers(text);
      } else if text == "/" {
        LoneSlashDiffers();
      } else {
        RootedAgrees(text);
      }
    }
  }

  lemma {:induction false} UnrootedDiffers(text: string)
    requires text != "" && !Rooted(text)
    ensures exists v :: ResolvePointer(v, text) != Evaluate(v, text)
  {
    var v := Nest(NamesOf(PointerParts(text)));
    DescendReaches(PointerParts(text), NamesOf(PointerParts(text)));
    assert ResolvePointer(v, text) != Evaluate(v, text);
  }

  lemma {:induction false} LoneSlashDiffers()
    ensures exists v :: ResolvePointer(v, "/") != Evaluate(v, "/")
  {
    assert Tokens("/") == [""];
    assert ResolvePointer(Null, "/") != Evaluate(Null, "/");
  }

  lemma {:induction false} RootedAgrees(text: string)
    requires Rooted(text) && text != "/"
    ensures (forall v :: ResolvePointer(v, text) == Evaluate(v, text))
       <==> forall k :: 0 <= k < |Tokens(text)| ==> ReadAlike(Tokens(text)[k])
  {
    var tokens := Tokens(text);
    assert PointerParts(text) == tokens;
    assert forall v :: ResolvePointer(v, text) == Descend(v, tokens) && Evaluate(v, text) == Walk(v, tokens);
    if k :| 0 <= k < |tokens| && !ReadAlike(tokens[k]) {
      var v := Telling(tokens, k);
      assert ResolvePointer(v, text) != Evaluate(v, text);
    } else {
      forall v ensures Descend(v, tokens) == Walk(v, tokens) {
        WalkAlike(v, tokens);
      }
    }
  }

  /** Texts on which the two differ: a leading zero, a sign, and a text without its slash. */
  lemma {:induction false} LenientTexts(list: Json, text: string, token: string)
    requires list.Arr? && |list.items| >= 2
    requires ((token == "01" || token == "+1") && text == "/" + token) || (token == "1" && text == token)
    ensures ResolvePointer(list, text) == Some(list.items[1]) && Evaluate(list, text) == None
  {
    TakenForOne(token);
    LenientToken(list, text, token);
  }

  lemma {:induction false} LenientToken(list: Json, text: string, token: string)
    requires list.Arr? && |list.items| >= 2 && TakenIndex(token) == Some(1) && '/' !in token
    requires (!IsIndex(token) && text == "/" + token) || (token != "" && text == token)
    ensures ResolvePointer(list, text) == Some(list.items[1]) && Evaluate(list, text) == None
  {
    assert token != "";
    Text.SplitOfPart(token, '/');
    var one := [token];
    assert |one[1..]| == 0;
    if text == "/" + token {
      assert text[1..] == token;
      assert Tokens(text) == one;
    } else {
      assert text[0] == token[0] && token[0] in token;
    }
    assert PointerParts(text) == one;
    assert Child(list, one[0]) == Some(list.items[1]);
    assert Descend(list.items[1], one[1..]) == Some(list.items[1]);
    assert Descend(list, one) == Some(list.items[1]);
    assert text != "" && text != "/";
  }

  lemma {:induction false} TakenForOne(token: string)
    requires token == "01" || token == "+1" || token == "1"
    ensures TakenIndex(token) == Some(1)
    ensures token != "1" ==> !IsIndex(token)
  {
    NothingToReplace(token, '~', '1', '/');
    NothingToReplace(token, '~', '0', '~');
    if token == "01" {
      ValueOfOne(token, "0");
    } else if token == "+1" {
      assert token[1..] == "1";
      ValueOfOne(token[1..], "");
    } else {
      ValueOfOne(token, "");
    }
  }

  lemma {:induction false} ValueOfOne(digits: string, zeros: string)
    requires (zeros == "" || zeros == "0") && digits == zeros + "1"
    ensures Text.AllDigits(digits) && Text.DigitsValue(digits) == 1
  {
    assert digits[..|digits| - 1] == zeros;
    if zeros == "0" {
      assert zeros[..0] == "";
    }
    assert Text.DigitsValue(zeros) == 0;
  }
}
