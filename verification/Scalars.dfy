/** What the text of a scalar says, apart from how it is produced. */
module Scalars {
  import opened Basics
  import opened JsonModel
  import PointerLaws
  import Text

  /** Decimal digits without a leading zero, of this value. */
  predicate SpellsNatural(text: string, n: nat) {
    && text != "" && Text.AllDigits(text) && (text[0] == '0' ==> |text| == 1)
    && Text.DigitsValue(text) == n
  }

  /** A minus sign exactly for a negative number, then the digits. */
  predicate SpellsInteger(text: string, n: int) {
    if n < 0 then text != "" && text[0] == '-' && SpellsNatural(text[1..], -n) else SpellsNatural(text, n)
  }

  lemma {:induction false} NoLeadingZero(n: nat)
    requires n >= 1
    ensures Text.NatText(n)[0] != '0'
  {
    if n >= 10 {
      NoLeadingZero(n / 10);
    }
  }

  lemma {:induction false} NatTextSpells(n: nat)
    ensures SpellsNatural(Text.NatText(n), n)
  {
    PointerLaws.DigitsOfText(n);
    if n >= 10 {
      NoLeadingZero(n);
    }
  }

  lemma {:induction false} IntTextSpells(n: int)
    ensures SpellsInteger(Text.IntText(n), n)
  {
    if n < 0 {
      NatTextSpells(-n);
      assert Text.IntText(n)[1..] == Text.NatText(-n);
    } else {
      NatTextSpells(n);
    }
  }

  /** The value of digits is read from the left, ten times for each place. */
  lemma {:induction false} DigitsMeaning(front: string, last: char)
    requires Text.AllDigits(front) && '0' <= last <= '9'
    ensures Text.AllDigits(front + [last])
    ensures Text.DigitsValue(front + [last]) == 10 * Text.DigitsValue(front) + (last as int - '0' as int)
    ensures Text.DigitsValue("") == 0
  {
    var s := front + [last];
    assert s[..|s| - 1] == front;
  }

  /** A text for a scalar: a string is its own, null has none, and the others are spelled. */
  predicate Shows(text: string, v: Json) {
    match v
    case Str(t) => text == t
    case Null => text == ""
    case Bool(flag) => text == if flag then "true" else "false"
    case Dec(t) => text == t
    case Int(n) => SpellsInteger(text, n)
    case _ => false
  }

  /** Printing a scalar that is neither a string nor null shows it. */
  lemma {:induction false} PrintShows(v: Json)
    requires v.Bool? || v.Int? || v.Dec?
    ensures Shows(Print(v), v)
  {
    if v.Int? {
      IntTextSpells(v.n);
    }
  }
}
