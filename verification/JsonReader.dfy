/** A reader for compact JSON, which recovers every printed value. */
module JsonReader {
  import opened Basics
  import opened JsonModel
  import Scalars
  import Text

  datatype Read<T> = Bad | Got(value: T, rest: string)

  // ---------------------------------------------------------------------------
  // The reader
  // ---------------------------------------------------------------------------

  function HexValue(c: char): Option<nat> {
    if '0' <= c <= '9' then Some(c as int - '0' as int)
    else if 'a' <= c <= 'f' then Some(c as int - 'a' as int + 10)
    else None
  }

  /** The character an escape stands for, and how much of the text it takes. */
  function Escaped(s: string): Option<(char, nat)> {
    if |s| < 2 || s[0] != '\\' then None
    else if s[1] == '\"' then Some(('\"', 2))
    else if s[1] == '\\' then Some(('\\', 2))
    else if s[1] == 'n' then Some(('\n', 2))
    else if s[1] == 'r' then Some(('\r', 2))
    else if s[1] == 't' then Some(('\t', 2))
    else if s[1] == 'b' then Some((8 as char, 2))
    else if s[1] == 'f' then Some((12 as char, 2))
    else if |s| >= 6 && s[1] == 'u' && s[2] == '0' && s[3] == '0' && HexValue(s[4]).Some? && HexValue(s[5]).Some? then
      Some(((16 * HexValue(s[4]).value + HexValue(s[5]).value) as char, 6))
    else None
  }

  /** The rest of a string up to its closing quote. */
  function ReadBody(s: string): (r: Read<string>)
    ensures r.Got? ==> |r.rest| < |s|
    decreases |s|
  {
    if s == "" then Bad
    else if s[0] == '\"' then Got("", s[1..])
    else
      var escaped := Escaped(s);
      var (c, n) := if escaped.Some? then escaped.value else (s[0], 1);
      if (s[0] == '\\' && escaped.None?) || n > |s| then Bad
      else
        match ReadBody(s[n..])
        case Bad => Bad
        case Got(text, rest) => Got([c] + text, rest)
  }

  function NumberSpan(s: string): (n: nat)
    ensures n <= |s|
  {
    if s == "" || !NumberChar(s[0]) then 0 else 1 + NumberSpan(s[1..])
  }

  function ReadNumber(s: string): (r: Read<Json>)
    ensures r.Got? ==> |r.rest| < |s|
  {
    var n := NumberSpan(s);
    var text := s[..n];
    if n == 0 then Bad
    else if ('.' in text || 'e' in text) && text[0] != 'e' then
      assert forall c :: c in text ==> NumberChar(c) by { SpanIsNumber(s); }
      Got(Dec(text), s[n..])
    else if text[0] == '-' && Text.AllDigits(text[1..]) then Got(Int(0 - Text.DigitsValue(text[1..])), s[n..])
    else if Text.AllDigits(text) then Got(Int(Text.DigitsValue(text)), s[n..])
    else Bad
  }

  lemma {:induction false} SpanIsNumber(s: string)
    ensures forall c :: c in s[..NumberSpan(s)] ==> NumberChar(c)
  {
    if s != "" && NumberChar(s[0]) {
      SpanIsNumber(s[1..]);
      assert s[..NumberSpan(s)] == [s[0]] + s[1..][..NumberSpan(s[1..])];
    }
  }

  function ReadValue(s: string): (r: Read<Json>)
    ensures r.Got? ==> |r.rest| < |s|
    decreases |s|, 0
  {
    if s == "" then Bad
    else if "null" <= s then Got(Null, s[4..])
    else if "true" <= s then Got(Bool(true), s[4..])
    else if "false" <= s then Got(Bool(false), s[5..])
    else if s[0] == '\"' then
      match ReadBody(s[1..])
      case Bad => Bad
      case Got(text, rest) => Got(Str(text), rest)
    else if s[0] == '[' then
      if "[]" <= s then Got(Arr([]), s[2..])
      else
        match ReadItems(s[1..])
        case Bad => Bad
        case Got(items, rest) => Got(Arr(items), rest)
    else if s[0] == '{' then
      if "{}" <= s then Got(Obj([]), s[2..])
      else
        match ReadMembers(s[1..])
        case Bad => Bad
        case Got(members, rest) => Got(Obj(members), rest)
    else ReadNumber(s)
  }

  /** Values between commas, up to the closing bracket. */
  function ReadItems(s: string): (r: Read<seq<Json>>)
    ensures r.Got? ==> |r.rest| < |s|
    decreases |s|, 1
  {
    match ReadValue(s)
    case Bad => Bad
    case Got(item, rest) =>
      if "]" <= rest then Got([item], rest[1..])
      else if "," <= rest then
        match ReadItems(rest[1..])
        case Bad => Bad
        case Got(items, rest') => Got([item] + items, rest')
      else Bad
  }

  function ReadMembers(s: string): (r: Read<seq<Member>>)
    ensures r.Got? ==> |r.rest| < |s|
    decreases |s|, 1
  {
    if s == "" || s[0] != '\"' then Bad
    else
      match ReadBody(s[1..])
      case Bad => Bad
      case Got(key, rest) =>
        if !(":" <= rest) then Bad
        else
          match ReadValue(rest[1..])
          case Bad => Bad
          case Got(value, rest') =>
            if "}" <= rest' then Got([Member(key, value)], rest'[1..])
            else if "," <= rest' then
              match ReadMembers(rest'[1..])
              case Bad => Bad
              case Got(members, rest'') => Got([Member(key, value)] + members, rest'')
            else Bad
  }

  // ---------------------------------------------------------------------------
  // Strings
  // ---------------------------------------------------------------------------

  lemma {:induction false} HexReads(d: nat)
    requires d < 16
    ensures HexValue(HexDigit(d)) == Some(d)
  {
  }

  /** One printed character, followed by anything, reads as itself. */
  lemma {:induction false} CharReads(c: char, rest: string)
    ensures
      var q := QuoteChar(c);
      && q != "" && q[0] != '\"'
      && if q[0] == '\\' then Escaped(q + rest) == Some((c, |q|)) else q == [c]
  {
    if c < ' ' {
      HexReads(c as int / 16);
      HexReads(c as int % 16);
    }
  }

  lemma {:induction false} Regroup(a: string, b: string, c: string)
    ensures (a + b) + c == a + (b + c)
  {
  }

  lemma {:induction false} BodyStep(c: char, more: string, text: string, rest: string)
    requires ReadBody(more) == Got(text, rest)
    ensures ReadBody(QuoteChar(c) + more) == Got([c] + text, rest)
  {
    var q := QuoteChar(c);
    var s := q + more;
    CharReads(c, more);
    assert s[0] == q[0] && s[|q|..] == more;
  }

  lemma {:induction false} BodyReads(text: string, rest: string)
    ensures ReadBody(QuoteBody(text) + ("\"" + rest)) == Got(text, rest)
  {
    var close := "\"" + rest;
    if text == "" {
      assert "" + close == close && close[1..] == rest;
    } else {
      var q, body := QuoteChar(text[0]), QuoteBody(text[1..]);
      BodyReads(text[1..], rest);
      BodyStep(text[0], body + close, text[1..], rest);
      Regroup(q, body, close);
      assert text == [text[0]] + text[1..];
    }
  }

  // ---------------------------------------------------------------------------
  // Numbers
  // ---------------------------------------------------------------------------

  /** What may follow a number. */
  predicate Stops(rest: string) {
    rest == "" || !NumberChar(rest[0])
  }

  lemma {:induction false} SpanOfText(text: string, rest: string)
    requires Stops(rest) && forall c :: c in text ==> NumberChar(c)
    ensures NumberSpan(text + rest) == |text|
  {
    if text == "" {
      assert text + rest == rest;
    } else {
      assert (text + rest)[1..] == text[1..] + rest && text[0] in text;
      assert forall c :: c in text[1..] ==> c in text;
      SpanOfText(text[1..], rest);
    }
  }

  /** A number's text is taken whole, and only it. */
  lemma {:induction false} SpanTaken(text: string, rest: string)
    requires Stops(rest) && forall c :: c in text ==> NumberChar(c)
    ensures
      var s := text + rest;
      NumberSpan(s) == |text| && s[..|text|] == text && s[|text|..] == rest
  {
    SpanOfText(text, rest);
  }

  lemma {:induction false} DecimalReads(text: DecimalText, rest: string)
    requires Stops(rest)
    ensures ReadNumber(text + rest) == Got(Dec(text), rest)
  {
    SpanTaken(text, rest);
  }

  lemma {:induction false} DigitsAreNumber(digits: string)
    requires Text.AllDigits(digits)
    ensures forall c :: c in digits ==> '0' <= c <= '9'
  {
    forall c | c in digits ensures '0' <= c <= '9' {
      var i :| 0 <= i < |digits| && digits[i] == c;
    }
  }

  lemma {:induction false} DigitsRead(digits: string, rest: string)
    requires digits != "" && Text.AllDigits(digits) && Stops(rest)
    ensures ReadNumber(digits + rest) == Got(Int(Text.DigitsValue(digits)), rest)
  {
    DigitsAreNumber(digits);
    SpanTaken(digits, rest);
    assert digits[0] in digits;
  }

  lemma {:induction false} SignedRead(digits: string, rest: string)
    requires digits != "" && Text.AllDigits(digits) && Stops(rest)
    ensures ReadNumber("-" + digits + rest) == Got(Int(0 - Text.DigitsValue(digits)), rest)
  {
    var text := "-" + digits;
    DigitsAreNumber(digits);
    assert forall c :: c in text ==> c == '-' || c in digits;
    SpanTaken(text, rest);
    assert text[1..] == digits && text[0] == '-';
  }

  lemma {:induction false} NaturalReads(n: nat, rest: string)
    requires Stops(rest)
    ensures ReadNumber(Text.NatText(n) + rest) == Got(Int(n), rest)
  {
    Scalars.NatTextSpells(n);
    DigitsRead(Text.NatText(n), rest);
  }

  lemma {:induction false} NegativeReads(n: nat, rest: string)
    requires Stops(rest)
    ensures ReadNumber("-" + Text.NatText(n) + rest) == Got(Int(0 - n), rest)
  {
    Scalars.NatTextSpells(n);
    SignedRead(Text.NatText(n), rest);
  }

  lemma {:induction false} IntegerReads(n: int, rest: string)
    requires Stops(rest)
    ensures ReadNumber(Text.IntText(n) + rest) == Got(Int(n), rest)
  {
    if n < 0 {
      NegativeReads(-n, rest);
    } else {
      NaturalReads(n, rest);
    }
  }

  /** A printed number starts with a sign, a point or a digit. */
  lemma {:induction false} NumberStarts(v: Json, rest: string)
    requires v.Int? || v.Dec?
    ensures
      var s := Print(v) + rest;
      s != "" && NumberChar(s[0]) && s[0] != 'e'
  {
    if v.Int? {
      Scalars.IntTextSpells(v.n);
    } else {
      assert v.decimal[0] in v.decimal;
    }
  }

  // ---------------------------------------------------------------------------
  // Values
  // ---------------------------------------------------------------------------

  /** What the first character settles. */
  lemma {:induction false} Dispatch(s: string)
    requires s != ""
    ensures NumberChar(s[0]) && s[0] != 'e' ==> ReadValue(s) == ReadNumber(s)
    ensures s[0] == '\"' ==> ReadValue(s) == match ReadBody(s[1..]) case Bad => Bad case Got(text, rest) => Got(Str(text), rest)
  {
  }

  lemma {:induction false} WordsRead(rest: string)
    ensures ReadValue("null" + rest) == Got(Null, rest)
    ensures ReadValue("true" + rest) == Got(Bool(true), rest)
    ensures ReadValue("false" + rest) == Got(Bool(false), rest)
  {
    assert ("null" + rest)[4..] == rest && ("true" + rest)[4..] == rest && ("false" + rest)[5..] == rest;
    assert ("true" + rest)[0] == 't' && ("false" + rest)[0] == 'f';
  }

  /** Every printed value, followed by anything that cannot go on a number, reads back as
      itself and leaves the rest. */
  lemma {:induction false} PrintReadsBack(v: Json, rest: string)
    requires Stops(rest)
    ensures ReadValue(Print(v) + rest) == Got(v, rest)
    decreases v, 1
  {
    match v
    case Null => WordsRead(rest);
    case Bool(_) => WordsRead(rest);
    case Int(_) => NumberReads(v, rest);
    case Dec(_) => NumberReads(v, rest);
    case Str(text) => StringReads(text, rest);
    case Arr(items) => ArrayReads(items, rest);
    case Obj(members) => ObjectReads(members, rest);
  }

  lemma {:induction false} NumberReads(v: Json, rest: string)
    requires (v.Int? || v.Dec?) && Stops(rest)
    ensures ReadValue(Print(v) + rest) == Got(v, rest)
  {
    NumberStarts(v, rest);
    Dispatch(Print(v) + rest);
    if v.Int? {
      IntegerReads(v.n, rest);
    } else {
      DecimalReads(v.decimal, rest);
    }
  }

  lemma {:induction false} StringReads(text: string, rest: string)
    ensures ReadValue(Quote(text) + rest) == Got(Str(text), rest)
  {
    var s := Quote(text) + rest;
    KeyReads(text, rest);
    Dispatch(s);
  }

  lemma {:induction false} OpenBracket(s: string)
    requires s != "" && s[0] == '[' && !("[]" <= s)
    ensures ReadValue(s) == match ReadItems(s[1..]) case Bad => Bad case Got(items, rest) => Got(Arr(items), rest)
  {
  }

  lemma {:induction false} OpenBrace(s: string)
    requires s != "" && s[0] == '{' && !("{}" <= s)
    ensures ReadValue(s) == match ReadMembers(s[1..]) case Bad => Bad case Got(members, rest) => Got(Obj(members), rest)
  {
  }

  lemma {:induction false} EmptyReads(rest: string)
    ensures ReadValue("[]" + rest) == Got(Arr([]), rest) && ReadValue("{}" + rest) == Got(Obj([]), rest)
  {
    assert ("[]" + rest)[2..] == rest && ("{}" + rest)[2..] == rest;
    assert ("[]" + rest)[0] == '[' && ("{}" + rest)[0] == '{';
  }

  lemma {:induction false} ArrayReads(items: seq<Json>, rest: string)
    requires Stops(rest)
    ensures ReadValue(Print(Arr(items)) + rest) == Got(Arr(items), rest)
    decreases items, 3
  {
    if items == [] {
      assert "[" + "" + "]" == "[]";
      EmptyReads(rest);
    } else {
      var body, close := PrintItems(items), "]" + rest;
      ItemsRead(items, rest);
      FirstOfItems(items, close);
      Regroup("[" + body, "]", rest);
      Regroup("[", body, close);
      var s := "[" + (body + close);
      assert s[1..] == body + close && s[1] == (body + close)[0];
      OpenBracket(s);
    }
  }

  /** A printed value does not begin with a closing bracket or brace. */
  lemma {:induction false} ValueStarts(v: Json)
    ensures Print(v) != "" && Print(v)[0] != ']' && Print(v)[0] != '}'
  {
    if v.Int? || v.Dec? {
      NumberStarts(v, "");
      assert Print(v) + "" == Print(v);
    }
  }

  lemma {:induction false} FirstOfItems(items: seq<Json>, rest: string)
    requires items != []
    ensures PrintItems(items) != "" && (PrintItems(items) + rest)[0] != ']'
  {
    ValueStarts(items[0]);
  }

  /** What follows an element settles whether it is the last. */
  lemma {:induction false} LastItem(s: string, item: Json, after: string)
    requires ReadValue(s) == Got(item, after) && after != "" && after[0] == ']'
    ensures ReadItems(s) == Got([item], after[1..])
  {
  }

  lemma {:induction false} NextItem(s: string, item: Json, after: string, items: seq<Json>, rest: string)
    requires ReadValue(s) == Got(item, after) && after != "" && after[0] == ','
    requires ReadItems(after[1..]) == Got(items, rest)
    ensures ReadItems(s) == Got([item] + items, rest)
  {
    assert !("]" <= after);
  }

  lemma {:induction false} ItemsRead(items: seq<Json>, rest: string)
    requires items != []
    ensures ReadItems(PrintItems(items) + ("]" + rest)) == Got(items, rest)
    decreases items, 2
  {
    var first, close := Print(items[0]), "]" + rest;
    if |items| == 1 {
      assert first + "" == first;
      PrintReadsBack(items[0], close);
      LastItem(first + close, items[0], close);
      assert close[1..] == rest && items == [items[0]];
    } else {
      var others := PrintItems(items[1..]);
      var more := others + close;
      PrintReadsBack(items[0], "," + more);
      ItemsRead(items[1..], rest);
      assert ("," + more)[1..] == more;
      NextItem(first + ("," + more), items[0], "," + more, items[1..], rest);
      Regroup(first, "," + others, close);
      Regroup(",", others, close);
      assert items == [items[0]] + items[1..];
    }
  }

  lemma {:induction false} ObjectReads(members: seq<Member>, rest: string)
    requires Stops(rest)
    ensures ReadValue(Print(Obj(members)) + rest) == Got(Obj(members), rest)
    decreases members, 3
  {
    if members == [] {
      assert "{" + "" + "}" == "{}";
      EmptyReads(rest);
    } else {
      var body, close := PrintMembers(members), "}" + rest;
      MembersRead(members, rest);
      FirstOfMembers(members, close);
      Regroup("{" + body, "}", rest);
      Regroup("{", body, close);
      var s := "{" + (body + close);
      assert s[1..] == body + close && s[1] == (body + close)[0];
      OpenBrace(s);
    }
  }

  lemma {:induction false} FirstOfMembers(members: seq<Member>, rest: string)
    requires members != []
    ensures PrintMembers(members) != "" && (PrintMembers(members) + rest)[0] == '\"'
  {
  }

  lemma {:induction false} QuoteParts(key: string, tail: string)
    ensures Quote(key) + tail == "\"" + (QuoteBody(key) + ("\"" + tail))
  {
    Regroup("\"" + QuoteBody(key), "\"", tail);
    Regroup("\"", QuoteBody(key), "\"" + tail);
  }

  lemma {:induction false} Behind(c: char, s: string)
    ensures ([c] + s)[0] == c && ([c] + s)[1..] == s
  {
  }

  /** A printed key reads as itself, up to its colon. */
  lemma {:induction false} KeyReads(key: string, tail: string)
    ensures
      var s := Quote(key) + tail;
      s != "" && s[0] == '\"' && ReadBody(s[1..]) == Got(key, tail)
  {
    QuoteParts(key, tail);
    Behind('\"', QuoteBody(key) + ("\"" + tail));
    BodyReads(key, tail);
  }

  /** What follows a member settles whether it is the last. */
  lemma {:induction false} LastMember(s: string, tail: string, m: Member, after: string)
    requires s != "" && s[0] == '\"' && ReadBody(s[1..]) == Got(m.key, tail)
    requires tail != "" && tail[0] == ':' && ReadValue(tail[1..]) == Got(m.value, after)
    requires after != "" && after[0] == '}'
    ensures ReadMembers(s) == Got([m], after[1..])
  {
  }

  lemma {:induction false} NextMember(s: string, tail: string, m: Member, after: string, members: seq<Member>, rest: string)
    requires s != "" && s[0] == '\"' && ReadBody(s[1..]) == Got(m.key, tail)
    requires tail != "" && tail[0] == ':' && ReadValue(tail[1..]) == Got(m.value, after)
    requires after != "" && after[0] == ',' && ReadMembers(after[1..]) == Got(members, rest)
    ensures ReadMembers(s) == Got([m] + members, rest)
  {
    assert !("}" <= after);
  }

  lemma {:induction false} MembersRead(members: seq<Member>, rest: string)
    requires members != []
    ensures ReadMembers(PrintMembers(members) + ("}" + rest)) == Got(members, rest)
    decreases members, 2
  {
    var m, close := members[0], "}" + rest;
    var key, value := Quote(m.key), Print(m.value);
    if |members| == 1 {
      var tail := ":" + (value + close);
      PrintReadsBack(m.value, close);
      KeyReads(m.key, tail);
      Behind(':', value + close);
      Behind('}', rest);
      LastMember(key + tail, tail, m, close);
      assert key + ":" + value + "" == key + ":" + value;
      Regroup(key + ":", value, close);
      Regroup(key, ":", value + close);
      assert members == [m];
    } else {
      MoreMembersRead(members, rest);
    }
  }

  lemma {:induction false} MoreMembersRead(members: seq<Member>, rest: string)
    requires |members| > 1
    ensures ReadMembers(PrintMembers(members) + ("}" + rest)) == Got(members, rest)
    decreases members, 1
  {
    var m, close := members[0], "}" + rest;
    var key, value, others := Quote(m.key), Print(m.value), PrintMembers(members[1..]);
    var after := "," + (others + close);
    var tail := ":" + (value + after);
    PrintReadsBack(m.value, after);
    MembersRead(members[1..], rest);
    KeyReads(m.key, tail);
    Behind(':', value + after);
    Behind(',', others + close);
    NextMember(key + tail, tail, m, after, members[1..], rest);
    MembersText(members, close);
    assert members == [m] + members[1..];
  }

  lemma {:induction false} MembersText(members: seq<Member>, close: string)
    requires |members| > 1
    ensures PrintMembers(members) + close
         == Quote(members[0].key) + (":" + (Print(members[0].value) + ("," + (PrintMembers(members[1..]) + close))))
  {
    var key, value, others := Quote(members[0].key), Print(members[0].value), PrintMembers(members[1..]);
    var after := "," + (others + close);
    Regroup(key + ":" + value, "," + others, close);
    Regroup(",", others, close);
    Regroup(key + ":", value, after);
    Regroup(key, ":", value + after);
  }

  /** Different values print differently. */
  lemma {:induction false} PrintInjective(a: Json, b: Json)
    requires Print(a) == Print(b)
    ensures a == b
  {
    PrintReadsBack(a, "");
    PrintReadsBack(b, "");
  }
}
