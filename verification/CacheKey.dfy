/** The byte stream fed to the hasher behind the validator cache key. */
module CacheKey {
  import opened JsonModel
  import Text

  type Byte = b: int | 0 <= b < 256

  type Bytes = seq<Byte>

  const WORD: nat := 0x1_0000_0000_0000_0000

  // ---------------------------------------------------------------------------
  // The encoding
  // ---------------------------------------------------------------------------

  /** UTF-8, section 3 of RFC 3629. */
  function Utf8Char(c: char): Bytes {
    var n := c as int;
    if n < 0x80 then [n]
    else if n < 0x800 then [0xC0 + n / 0x40, 0x80 + n % 0x40]
    else if n < 0x1_0000 then [0xE0 + n / 0x1000, 0x80 + n / 0x40 % 0x40, 0x80 + n % 0x40]
    else [0xF0 + n / 0x4_0000, 0x80 + n / 0x1000 % 0x40, 0x80 + n / 0x40 % 0x40, 0x80 + n % 0x40]
  }

  function Utf8(s: string): Bytes {
    if s == [] then [] else Utf8Char(s[0]) + Utf8(s[1..])
  }

  /** A string is closed by a byte that UTF-8 never uses. */
  function Text8(s: string): Bytes {
    Utf8(s) + [0xFF]
  }

  /** A machine word, least significant byte first. */
  function Word(n: nat, width: nat): (r: Bytes)
    ensures |r| == width
  {
    if width == 0 then [] else [n % 256] + Word(n / 256, width - 1)
  }

  function NumberText(v: Json): string
    requires v.Int? || v.Dec?
  {
    match v
    case Int(n) => Text.IntText(n)
    case Dec(text) => text
  }

  /** Every container's length is a machine word. */
  predicate Sized(v: Json) {
    match v
    case Arr(items) => |items| < WORD && forall i :: 0 <= i < |items| ==> Sized(items[i])
    case Obj(members) => |members| < WORD && forall i :: 0 <= i < |members| ==> Sized(members[i].value)
    case _ => true
  }

  /** A tag, then the payload; containers carry their length. */
  function Stream(v: Json): Bytes {
    match v
    case Null => [0]
    case Bool(flag) => [1, if flag then 1 else 0]
    case Int(_) => [2] + Text8(NumberText(v))
    case Dec(_) => [2] + Text8(NumberText(v))
    case Str(text) => [3] + Text8(text)
    case Arr(items) => [4] + Word(|items|, 8) + ItemStream(items)
    case Obj(members) => [5] + Word(|members|, 8) + MemberStream(members)
  }

  function ItemStream(items: seq<Json>): Bytes {
    if items == [] then [] else Stream(items[0]) + ItemStream(items[1..])
  }

  function MemberStream(members: seq<Member>): Bytes {
    if members == [] then []
    else Text8(members[0].key) + Stream(members[0].value) + MemberStream(members[1..])
  }

  // ---------------------------------------------------------------------------
  // The hasher's input
  // ---------------------------------------------------------------------------

  /** A hasher, seen as everything it has been fed. */
  class Hasher {
    var fed: Bytes

    constructor ()
      ensures fed == []
    {
      fed := [];
    }

    method Write(bytes: Bytes)
      modifies this
      ensures fed == old(fed) + bytes
    {
      fed := fed + bytes;
    }

    method HashJsonValue(v: Json)
      modifies this
      ensures fed == old(fed) + Stream(v)
      decreases v
    {
      match v
      case Null => Write([0]);
      case Bool(flag) =>
        Write([1]);
        Write([if flag then 1 else 0]);
        assert old(fed) + [1] + [if flag then 1 else 0] == old(fed) + Stream(v);
      case Int(_) =>
        Write([2]);
        Write(Text8(NumberText(v)));
        Regroup(old(fed), [2], Text8(NumberText(v)));
      case Dec(_) =>
        Write([2]);
        Write(Text8(NumberText(v)));
        Regroup(old(fed), [2], Text8(NumberText(v)));
      case Str(text) =>
        Write([3]);
        Write(Text8(text));
        Regroup(old(fed), [3], Text8(text));
      case Arr(items) =>
        Write([4]);
        Write(Word(|items|, 8));
        HashItems(items);
        Regroup(old(fed), [4], Word(|items|, 8));
        Regroup(old(fed), [4] + Word(|items|, 8), ItemStream(items));
      case Obj(members) =>
        Write([5]);
        Write(Word(|members|, 8));
        HashMembers(members);
        Regroup(old(fed), [5], Word(|members|, 8));
        Regroup(old(fed), [5] + Word(|members|, 8), MemberStream(members));
    }

    method HashItems(items: seq<Json>)
      modifies this
      ensures fed == old(fed) + ItemStream(items)
      decreases items
    {
      for i := 0 to |items|
        invariant fed + ItemStream(items[i..]) == old(fed) + ItemStream(items)
      {
        assert items[i..][0] == items[i] && items[i..][1..] == items[i + 1..];
        Regroup(fed, Stream(items[i]), ItemStream(items[i + 1..]));
        HashJsonValue(items[i]);
      }
      assert fed + [] == fed;
    }

    method HashMembers(members: seq<Member>)
      modifies this
      ensures fed == old(fed) + MemberStream(members)
      decreases members
    {
      for i := 0 to |members|
        invariant fed + MemberStream(members[i..]) == old(fed) + MemberStream(members)
      {
        assert members[i..][0] == members[i] && members[i..][1..] == members[i + 1..];
        var m := members[i];
        Regroup(fed, Text8(m.key) + Stream(m.value), MemberStream(members[i + 1..]));
        Regroup(fed, Text8(m.key), Stream(m.value));
        Write(Text8(m.key));
        HashJsonValue(m.value);
      }
      assert fed + [] == fed;
    }
  }

  lemma {:induction false} Regroup(a: Bytes, b: Bytes, c: Bytes)
    ensures a + (b + c) == a + b + c
  {
  }

  // ---------------------------------------------------------------------------
  // Unique decodability
  // ---------------------------------------------------------------------------

  /** Two equal streams whose first parts have one length have equal parts. */
  lemma {:induction false} CutEqual(a: Bytes, r: Bytes, b: Bytes, r': Bytes)
    requires a + r == b + r' && |a| == |b|
    ensures a == b && r == r'
  {
    assert a == (a + r)[..|a|] && b == (b + r')[..|b|];
    assert r == (a + r)[|a|..] && r' == (b + r')[|b|..];
  }

  /** The first byte of a character gives its length, and is never the closing byte. */
  lemma {:induction false} LeadByte(c: char)
    ensures
      var bytes, lead := Utf8Char(c), Utf8Char(c)[0];
      && lead != 0xFF
      && |bytes| == if lead < 0x80 then 1 else if lead < 0xE0 then 2 else if lead < 0xF0 then 3 else 4
  {
  }

  lemma {:induction false} Split64(n: nat)
    ensures n / 0x1000 == n / 0x40 / 0x40 && n / 0x4_0000 == n / 0x40 / 0x40 / 0x40
  {
  }

  /** A number is determined by its base-64 digits. */
  lemma {:induction false} Digits64(m: nat, n: nat)
    requires m % 0x40 == n % 0x40 && m / 0x40 == n / 0x40
    ensures m == n
  {
  }

  lemma {:induction false} CharInjective(a: char, b: char)
    requires Utf8Char(a) == Utf8Char(b)
    ensures a == b
  {
    var x, y := Utf8Char(a), Utf8Char(b);
    var m: nat, n: nat := a as int, b as int;
    assert x[0] == y[0] && x[|x| - 1] == y[|y| - 1];
    if |x| == 2 {
      Digits64(m, n);
    } else if |x| > 2 {
      Split64(m);
      Split64(n);
      assert x[|x| - 2] == y[|y| - 2];
      if |x| == 4 {
        assert x[1] == y[1];
        Digits64(m / 0x40 / 0x40, n / 0x40 / 0x40);
      }
      Digits64(m / 0x40, n / 0x40);
      Digits64(m, n);
    }
  }

  lemma {:induction false} CharPrefixFree(a: char, r: Bytes, b: char, r': Bytes)
    requires Utf8Char(a) + r == Utf8Char(b) + r'
    ensures a == b && r == r'
  {
    assert (Utf8Char(a) + r)[0] == Utf8Char(a)[0] && (Utf8Char(b) + r')[0] == Utf8Char(b)[0];
    LeadByte(a);
    LeadByte(b);
    CutEqual(Utf8Char(a), r, Utf8Char(b), r');
    CharInjective(a, b);
  }

  /** Strings are written in prefix-free form. */
  lemma {:induction false} TextPrefixFree(s: string, r: Bytes, t: string, r': Bytes)
    requires Text8(s) + r == Text8(t) + r'
    ensures s == t && r == r'
    decreases |s|
  {
    TextHead(s, r);
    TextHead(t, r');
    if s != [] && t != [] {
      var a, b := Text8(s[1..]) + r, Text8(t[1..]) + r';
      CharPrefixFree(s[0], a, t[0], b);
      TextPrefixFree(s[1..], r, t[1..], r');
      assert s == [s[0]] + s[1..] && t == [t[0]] + t[1..];
    }
  }

  lemma {:induction false} TextHead(s: string, r: Bytes)
    ensures s == [] ==> Text8(s) + r == [0xFF] + r && (Text8(s) + r)[0] == 0xFF && (Text8(s) + r)[1..] == r
    ensures s != [] ==>
              && Text8(s) + r == Utf8Char(s[0]) + (Text8(s[1..]) + r)
              && (Text8(s) + r)[0] != 0xFF
  {
    if s != [] {
      LeadByte(s[0]);
      Regroup(Utf8Char(s[0]), Utf8(s[1..]), [0xFF]);
      Regroup(Utf8Char(s[0]), Text8(s[1..]), r);
    } else {
      assert Text8(s) == [0xFF];
    }
  }

  function Power256(width: nat): nat {
    if width == 0 then 1 else 256 * Power256(width - 1)
  }

  lemma {:induction false} WordInjective(m: nat, n: nat, width: nat)
    requires Word(m, width) == Word(n, width) && m < Power256(width) && n < Power256(width)
    ensures m == n
  {
    if width > 0 {
      var x, y := Word(m, width), Word(n, width);
      assert x[0] == y[0];
      assert x[1..] == Word(m / 256, width - 1) && y[1..] == Word(n / 256, width - 1);
      WordInjective(m / 256, n / 256, width - 1);
    }
  }

  lemma {:induction false} LengthInjective(m: nat, n: nat)
    requires Word(m, 8) == Word(n, 8) && m < WORD && n < WORD
    ensures m == n
  {
    assert Power256(2) == 0x1_0000;
    assert Power256(4) == 0x1_0000_0000;
    assert Power256(6) == 0x1_0000_0000_0000;
    assert Power256(8) == WORD;
    WordInjective(m, n, 8);
  }

  lemma {:induction false} NumberTextInjective(a: Json, b: Json)
    requires (a.Int? || a.Dec?) && (b.Int? || b.Dec?) && NumberText(a) == NumberText(b)
    ensures a == b
  {
    if a.Int? && b.Int? {
      Text.IntTextInjective(a.n, b.n);
    } else {
      IntTextHasNoPoint(if a.Int? then a.n else 0);
      IntTextHasNoPoint(if b.Int? then b.n else 0);
    }
  }

  lemma {:induction false} IntTextHasNoPoint(n: int)
    ensures '.' !in Text.IntText(n) && 'e' !in Text.IntText(n)
  {
    if n < 0 {
      assert Text.IntText(n) == ['-'] + Text.NatText(-n);
    }
  }

  /** Equal streams, each followed by anything, come from equal values with equal remainders. */
  lemma {:induction false} StreamPrefixFree(a: Json, r: Bytes, b: Json, r': Bytes)
    requires Sized(a) && Sized(b) && Stream(a) + r == Stream(b) + r'
    ensures a == b && r == r'
    decreases a
  {
    assert (Stream(a) + r)[0] == Stream(a)[0] && (Stream(b) + r')[0] == Stream(b)[0];
    match a
    case Null => CutEqual(Stream(a), r, Stream(b), r');
    case Bool(_) => CutEqual(Stream(a), r, Stream(b), r');
    case Int(_) => NumberPrefixFree(a, r, b, r');
    case Dec(_) => NumberPrefixFree(a, r, b, r');
    case Str(text) =>
      Regroup([3], Text8(text), r);
      Regroup([3], Text8(b.text), r');
      CutEqual([3], Text8(text) + r, [3], Text8(b.text) + r');
      TextPrefixFree(text, r, b.text, r');
    case Arr(items) =>
      HeaderEqual(4, |items|, ItemStream(items), r, |b.items|, ItemStream(b.items), r');
      ItemsPrefixFree(items, r, b.items, r');
    case Obj(members) =>
      HeaderEqual(5, |members|, MemberStream(members), r, |b.members|, MemberStream(b.members), r');
      MembersPrefixFree(members, r, b.members, r');
  }

  lemma {:induction false} NumberPrefixFree(a: Json, r: Bytes, b: Json, r': Bytes)
    requires (a.Int? || a.Dec?) && (b.Int? || b.Dec?) && Stream(a) + r == Stream(b) + r'
    ensures a == b && r == r'
  {
    Regroup([2], Text8(NumberText(a)), r);
    Regroup([2], Text8(NumberText(b)), r');
    CutEqual([2], Text8(NumberText(a)) + r, [2], Text8(NumberText(b)) + r');
    TextPrefixFree(NumberText(a), r, NumberText(b), r');
    NumberTextInjective(a, b);
  }

  /** Equal containers of one kind have equal lengths, then equal contents to come. */
  lemma {:induction false} HeaderEqual(tag: Byte, m: nat, x: Bytes, r: Bytes, n: nat, y: Bytes, r': Bytes)
    requires m < WORD && n < WORD
    requires [tag] + Word(m, 8) + x + r == [tag] + Word(n, 8) + y + r'
    ensures m == n && x + r == y + r'
  {
    Regroup([tag] + Word(m, 8), x, r);
    Regroup([tag] + Word(n, 8), y, r');
    CutEqual([tag] + Word(m, 8), x + r, [tag] + Word(n, 8), y + r');
    CutEqual([tag], Word(m, 8), [tag], Word(n, 8));
    LengthInjective(m, n);
  }

  lemma {:induction false} ItemsPrefixFree(xs: seq<Json>, r: Bytes, ys: seq<Json>, r': Bytes)
    requires |xs| == |ys| && ItemStream(xs) + r == ItemStream(ys) + r'
    requires forall i :: 0 <= i < |xs| ==> Sized(xs[i]) && Sized(ys[i])
    ensures xs == ys && r == r'
    decreases xs
  {
    if xs == [] {
      assert [] + r == r && [] + r' == r';
    } else {
      Regroup(Stream(xs[0]), ItemStream(xs[1..]), r);
      Regroup(Stream(ys[0]), ItemStream(ys[1..]), r');
      StreamPrefixFree(xs[0], ItemStream(xs[1..]) + r, ys[0], ItemStream(ys[1..]) + r');
      ItemsPrefixFree(xs[1..], r, ys[1..], r');
      assert xs == [xs[0]] + xs[1..] && ys == [ys[0]] + ys[1..];
    }
  }

  lemma {:induction false} MembersPrefixFree(xs: seq<Member>, r: Bytes, ys: seq<Member>, r': Bytes)
    requires |xs| == |ys| && MemberStream(xs) + r == MemberStream(ys) + r'
    requires forall i :: 0 <= i < |xs| ==> Sized(xs[i].value) && Sized(ys[i].value)
    ensures xs == ys && r == r'
    decreases xs
  {
    if xs == [] {
      assert [] + r == r && [] + r' == r';
    } else {
      var a, b := MemberStream(xs[1..]) + r, MemberStream(ys[1..]) + r';
      MemberSplit(xs, r);
      MemberSplit(ys, r');
      TextPrefixFree(xs[0].key, Stream(xs[0].value) + a, ys[0].key, Stream(ys[0].value) + b);
      StreamPrefixFree(xs[0].value, a, ys[0].value, b);
      MembersPrefixFree(xs[1..], r, ys[1..], r');
      assert xs == [xs[0]] + xs[1..] && ys == [ys[0]] + ys[1..];
    }
  }

  lemma {:induction false} MemberSplit(xs: seq<Member>, r: Bytes)
    requires xs != []
    ensures MemberStream(xs) + r == Text8(xs[0].key) + (Stream(xs[0].value) + (MemberStream(xs[1..]) + r))
  {
    var k, v, rest := Text8(xs[0].key), Stream(xs[0].value), MemberStream(xs[1..]);
    Regroup(k + v, rest, r);
    Regroup(k, v, rest + r);
  }

  /** Distinct documents feed the hasher distinct bytes. */
  lemma {:induction false} StreamInjective(a: Json, b: Json)
    requires Sized(a) && Sized(b) && Stream(a) == Stream(b)
    ensures a == b
  {
    StreamPrefixFree(a, [], b, []);
  }

  /** The number a word stands for, least significant byte first. */
  function WordValue(bytes: Bytes): nat {
    if bytes == [] then 0 else bytes[0] + 256 * WordValue(bytes[1..])
  }

  lemma {:induction false} WordReads(n: nat, width: nat)
    requires n < Power256(width)
    ensures WordValue(Word(n, width)) == n
    decreases width
  {
    if width > 0 {
      assert Word(n, width)[1..] == Word(n / 256, width - 1);
      WordReads(n / 256, width - 1);
    }
  }

  /** Each kind of value has its own first byte; a container's length follows it. */
  lemma {:induction false} HeaderReads(v: Json)
    ensures Stream(v)[0] == (match v case Null => 0 case Bool(_) => 1 case Int(_) => 2 case Dec(_) => 2
                                     case Str(_) => 3 case Arr(_) => 4 case Obj(_) => 5)
    ensures v.Arr? && |v.items| < WORD ==> WordValue(Stream(v)[1..9]) == |v.items|
    ensures v.Obj? && |v.members| < WORD ==> WordValue(Stream(v)[1..9]) == |v.members|
  {
    assert Power256(8) == WORD;
    match v
    case Arr(items) =>
      assert Stream(v)[1..9] == Word(|items|, 8);
      if |items| < WORD { WordReads(|items|, 8); }
    case Obj(members) =>
      assert Stream(v)[1..9] == Word(|members|, 8);
      if |members| < WORD { WordReads(|members|, 8); }
    case _ =>
  }
}
