/** ASCII letter case. */
module LetterCase {
  import Text

  /** The same character, or the two cases of one ASCII letter. */
  predicate SameLetter(a: char, b: char) {
    || a == b
    || ('A' <= a <= 'Z' && b as int == a as int + 32)
    || ('A' <= b <= 'Z' && a as int == b as int + 32)
  }

  predicate SameUpToCase(a: string, b: string) {
    |a| == |b| && forall i :: 0 <= i < |a| ==> SameLetter(a[i], b[i])
  }

  lemma {:induction false} LowerMeaning(a: string, b: string)
    ensures Text.AsciiLower(a) == Text.AsciiLower(b) <==> SameUpToCase(a, b)
    decreases |a|
  {
    if a != [] && b != [] {
      LowerMeaning(a[1..], b[1..]);
      var x, y := Text.AsciiLower(a), Text.AsciiLower(b);
      assert x[1..] == Text.AsciiLower(a[1..]) && y[1..] == Text.AsciiLower(b[1..]);
      assert x == [x[0]] + x[1..] && y == [y[0]] + y[1..];
      assert SameUpToCase(a, b) <==> SameLetter(a[0], b[0]) && SameUpToCase(a[1..], b[1..]) by {
        assert |a| == |b| ==> forall i :: 0 < i < |a| ==> a[i] == a[1..][i - 1] && b[i] == b[1..][i - 1];
      }
    }
  }

  /** Text without capitals is its own lower case. */
  lemma {:induction false} LowerKeeps(a: string)
    requires forall i :: 0 <= i < |a| ==> !('A' <= a[i] <= 'Z')
    ensures Text.AsciiLower(a) == a
  {
    if a != [] {
      LowerKeeps(a[1..]);
      assert a == [a[0]] + a[1..];
    }
  }

  lemma {:induction false} NoSpaceInLower(a: string)
    ensures ' ' in Text.AsciiLower(a) <==> ' ' in a
  {
    if a != [] {
      NoSpaceInLower(a[1..]);
      assert a == [a[0]] + a[1..];
    }
  }

  lemma {:induction false} LowerOfSum(a: string, b: string)
    ensures Text.AsciiLower(a + b) == Text.AsciiLower(a) + Text.AsciiLower(b)
  {
    if a == [] {
      assert a + b == b;
    } else {
      assert (a + b)[1..] == a[1..] + b;
      LowerOfSum(a[1..], b);
    }
  }

  /** A text lowers to one without capitals exactly when it is that one up to case. */
  lemma {:induction false} LowersTo(a: string, lower: string)
    requires forall i :: 0 <= i < |lower| ==> !('A' <= lower[i] <= 'Z')
    ensures Text.AsciiLower(a) == lower <==> SameUpToCase(a, lower)
  {
    LowerKeeps(lower);
    LowerMeaning(a, lower);
  }
}
