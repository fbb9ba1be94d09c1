/** The pointers that find a resource's identifier, against JSON pointers (RFC 6901). */
module KeyPointers {
  import opened Basics
  import opened JsonModel
  import opened PointerLaws
  import opened Rfc6901
  import opened RuntimeSpec
  import opened SidecarModel
  import RefSpec
  import Store = StoreSpec
  import Text

  /** The segments the runtime follows for a pointer's text. */
  function Followed(text: string): seq<string> {
    if text == "" then [] else PointerSegments(text)
  }

  /** A token that means a member of that very name and nothing else. */
  predicate PlainName(token: string) {
    '~' !in token && !IsIndex(token)
  }

  /** The empty text, or plain names with no empty name in front of others. */
  predicate Simple(text: string) {
    text == ""
    || (Rooted(text)
        && (forall k :: 0 <= k < |Tokens(text)| ==> PlainName(Tokens(text)[k]))
        && (|Tokens(text)| >= 2 ==> Tokens(text)[0] != ""))
  }

  // ---------------------------------------------------------------------------
  // Following segments by name
  // ---------------------------------------------------------------------------

  lemma {:induction false} NamesLead(v: Json, tokens: seq<string>)
    requires forall k :: 0 <= k < |tokens| ==> PlainName(tokens[k])
    ensures Follow(v, tokens) == Walk(v, tokens)
    decreases |tokens|
  {
    if tokens != [] {
      assert PlainName(tokens[0]);
      OwnName(tokens[0]);
      if v.Obj? && Find(v.members, tokens[0]).Some? {
        NamesLead(Find(v.members, tokens[0]).value, tokens[1..]);
      }
    }
  }

  lemma {:induction false} FollowNeeds(segments: seq<string>, hops: seq<Hop>)
    requires Follow(Nest(hops), segments) == Some(Null)
    ensures |segments| == |hops| && forall k :: 0 <= k < |hops| ==> hops[k] == Key(segments[k])
    decreases |hops|
  {
    if hops != [] && segments != [] {
      assert Get(Nest(hops), segments[0]).Some?;
      if hops[0].Key? {
        OneName(hops[0].name, Nest(hops[1..]), segments[0]);
      }
      FollowNeeds(segments[1..], hops[1..]);
      assert forall k :: 0 < k < |hops| ==> hops[k] == hops[1..][k - 1];
      assert forall k :: 0 < k < |segments| ==> segments[k] == segments[1..][k - 1];
    }
  }

  /** Segments taken for names as they are. */
  function AsNames(segments: seq<string>): (hops: seq<Hop>)
    ensures |hops| == |segments| && forall k :: 0 <= k < |hops| ==> hops[k] == Key(segments[k])
  {
    if segments == [] then [] else [Key(segments[0])] + AsNames(segments[1..])
  }

  lemma {:induction false} FollowReaches(segments: seq<string>)
    ensures Follow(Nest(AsNames(segments)), segments) == Some(Null)
    decreases |segments|
  {
    if segments != [] {
      var rest := AsNames(segments[1..]);
      assert AsNames(segments)[1..] == rest;
      OneName(segments[0], Nest(rest), segments[0]);
      FollowReaches(segments[1..]);
    }
  }

  // ---------------------------------------------------------------------------
  // The segments of a text
  // ---------------------------------------------------------------------------

  lemma {:induction false} TrimShortens(s: string)
    ensures |Text.Split(Text.TrimStart(s, '/'), '/')| <= |Text.Split(s, '/')|
  {
    if s != [] && s[0] == '/' {
      TrimShortens(s[1..]);
    }
  }

  /** The front part is empty exactly for an empty text or one that starts with a slash. */
  lemma {:induction false} FrontPart(s: string)
    ensures Text.Split(s, '/')[0] == "" <==> s == "" || s[0] == '/'
    ensures s == "" ==> |Text.Split(s, '/')| == 1
    ensures s != "" && s[0] == '/' ==> |Text.Split(s, '/')| >= 2
  {
  }

  /** Unless an empty name stands in front of others, the segments are the tokens. */
  lemma {:induction false} FollowedTokens(text: string)
    requires Rooted(text)
    ensures |Tokens(text)| == 1 || Tokens(text)[0] != "" ==> Followed(text) == Tokens(text)
    ensures |Tokens(text)| >= 2 && Tokens(text)[0] == "" ==> |Followed(text)| < |Tokens(text)|
  {
    var rest := text[1..];
    FrontPart(rest);
    assert Text.TrimStart(text, '/') == Text.TrimStart(rest, '/');
    if rest != "" && rest[0] == '/' {
      TrimShortens(rest[1..]);
      assert Text.TrimStart(rest, '/') == Text.TrimStart(rest[1..], '/');
      assert Tokens(text) == [""] + Text.Split(rest[1..], '/');
    }
  }

  // ---------------------------------------------------------------------------
  // When the two agree
  // ---------------------------------------------------------------------------

  lemma {:induction false} Differs(text: string, v: Json)
    requires Follow(v, Followed(text)) != Evaluate(v, text)
    ensures !forall u :: Follow(u, Followed(text)) == Evaluate(u, text)
  {
  }

  /** If a null nested under the segments is not where the text leads, they differ. */
  lemma {:induction false} NowhereDiffers(text: string)
    requires Evaluate(Nest(AsNames(Followed(text))), text) != Some(Null)
    ensures !forall v :: Follow(v, Followed(text)) == Evaluate(v, text)
  {
    FollowReaches(Followed(text));
    Differs(text, Nest(AsNames(Followed(text))));
  }

  lemma {:induction false} EscapeDiffers(text: string, k: nat)
    requires Rooted(text) && k < |Tokens(text)| && '~' in Tokens(text)[k]
    ensures !forall v :: Follow(v, Followed(text)) == Evaluate(v, text)
  {
    var tokens := Tokens(text);
    var names := AsNames(Followed(text));
    if Evaluate(Nest(names), text) != Some(Null) {
      NowhereDiffers(text);
    } else {
      WalkNeeds(tokens, names);
      OwnName(tokens[k]);
      FollowedTokens(text);
    }
  }

  lemma {:induction false} IndexDiffers(text: string, k: nat)
    requires Rooted(text) && k < |Tokens(text)| && IsIndex(Tokens(text)[k])
    requires forall j :: 0 <= j < |Tokens(text)| ==> '~' !in Tokens(text)[j]
    ensures !forall v :: Follow(v, Followed(text)) == Evaluate(v, text)
  {
    var tokens := Tokens(text);
    forall j | 0 <= j < |tokens| ensures RefSpec.Unescape(tokens[j]) == tokens[j] {
      OwnName(tokens[j]);
    }
    var hops := NamesOf(tokens)[k := Index(Text.DigitsValue(tokens[k]))];
    assert Spell(tokens, hops);
    NestHolds(hops);
    WalkFollows(Nest(hops), tokens, hops);
    if Follow(Nest(hops), Followed(text)) == Some(Null) {
      FollowNeeds(Followed(text), hops);
    }
    Differs(text, Nest(hops));
  }

  lemma {:induction false} EmptyFrontDiffers(text: string)
    requires Rooted(text) && |Tokens(text)| >= 2 && Tokens(text)[0] == ""
    ensures !forall v :: Follow(v, Followed(text)) == Evaluate(v, text)
  {
    FollowedTokens(text);
    if Evaluate(Nest(AsNames(Followed(text))), text) == Some(Null) {
      WalkNeeds(Tokens(text), AsNames(Followed(text)));
    }
    NowhereDiffers(text);
  }

  /** The runtime reads a key pointer's text as RFC 6901 does, in every document, if and
      only if the text is simple: empty, or rooted names without tildes that are no array
      indices, with no empty name in front of others. */
  lemma {:induction false} KeyPointersAgree(text: string)
    ensures (forall v :: Follow(v, Followed(text)) == Evaluate(v, text)) <==> Simple(text)
  {
    if text == "" {
    } else if !Rooted(text) {
      NowhereDiffers(text);
    } else if k :| 0 <= k < |Tokens(text)| && '~' in Tokens(text)[k] {
      EscapeDiffers(text, k);
    } else if k :| 0 <= k < |Tokens(text)| && IsIndex(Tokens(text)[k]) {
      IndexDiffers(text, k);
    } else if |Tokens(text)| >= 2 && Tokens(text)[0] == "" {
      EmptyFrontDiffers(text);
    } else {
      FollowedTokens(text);
      forall v ensures Follow(v, Followed(text)) == Evaluate(v, text) {
        NamesLead(v, Tokens(text));
      }
    }
  }

  /** Validation accepts exactly the texts that are empty or rooted; no other text evaluates
      to anything, in any document. */
  lemma {:induction false} ValidPointerMeaning(text: string)
    ensures ValidPointer(text) <==> text == "" || Rooted(text)
    ensures !ValidPointer(text) ==> forall v :: Evaluate(v, text) == None
  {
  }

  /** A failing pointer: valid in a sidecar and leading to an element under RFC 6901, it
      finds nothing, so every create keyed by it is answered with a missing resource. */
  lemma {:induction false} IndexPointerMisses(rs: seq<Store.Resource>, limit: nat, use: StoreUse, req: Request, items: seq<Json>)
    requires use.action.Create? && use.keyFrom == Some(KeySource(KeyLocation.Request, "/0"))
    requires req.body == Some(Arr(items)) && items != []
    ensures ValidPointer("/0") && Evaluate(Arr(items), "/0") == Some(items[0])
    ensures ApplyStore(rs, limit, use, req).1 == Err(ResourceNotFound(Namespace(use, req)))
  {
    var token := "0";
    Text.SplitOfPart(token, '/');
    var one := [token];
    assert Tokens("/0") == one && |one[1..]| == 0;
    assert token[..0] == "" && Text.DigitsValue(token) == 0;
    var segments := PointerSegments("/0");
    assert Get(Arr(items), segments[0]) == None;
    assert PointerValue(Arr(items), "/0") == None;
  }
}
