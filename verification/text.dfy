/**
 The pieces of Go's `strings` and `fmt` packages the model relies on, over `seq<char>`:
 prefix and substring tests, single-character replacement, ASCII lower-casing,
 searching for a character, and the decimal rendering of `%d` with its parser.
 */
module Text {
  import opened Wrappers

  /** Go's `strings.HasPrefix`. */
  predicate HasPrefix(s: string, p: string) {
    |p| <= |s| && s[..|p|] == p
  }

  /** `w` occurs in `s` starting at offset `i`. */
  predicate OccursAt(s: string, w: string, i: int) {
    0 <= i && i + |w| <= |s| && s[i..i + |w|] == w
  }

  /** Go's `strings.Contains`. */
  predicate Contains(s: string, w: string) {
    exists i | 0 <= i <= |s| - |w| :: OccursAt(s, w, i)
  }

  /** A word standing between two strings occurs in their concatenation. */
  lemma ContainsInMiddle(a: string, w: string, b: string)
    ensures Contains(a + w + b, w)
  {
    var s := a + w + b;
    assert s[|a|..|a| + |w|] == w;
    assert OccursAt(s, w, |a|);
  }

  /** A word ending a string occurs in it. */
  lemma ContainsSuffix(a: string, w: string)
    ensures Contains(a + w, w)
  {
    assert (a + w)[|a|..|a| + |w|] == w;
    assert OccursAt(a + w, w, |a|);
  }

  /** A word that uses a character the text lacks cannot occur in the text. */
  lemma AbsentCharExcludes(s: string, w: string, c: char)
    requires c in w && c !in s
    ensures !Contains(s, w)
  {
    var k :| 0 <= k < |w| && w[k] == c;
    forall i | 0 <= i <= |s| - |w|
      ensures !OccursAt(s, w, i)
    {
      assert s[i..i + |w|][k] == s[i + k];
      assert s[i + k] in s;
    }
  }

  /** No occurrence of `w` can straddle a separator character that `w` lacks. */
  lemma NoStraddle(a: string, b: string, w: string, c: char)
    requires c !in w
    requires (|a| > 0 && a[|a| - 1] == c) || (|b| > 0 && b[0] == c)
    ensures forall i | 0 <= i < |a| < i + |w| :: !OccursAt(a + b, w, i)
  {
    var ab := a + b;
    forall i | 0 <= i < |a| < i + |w|
      ensures !OccursAt(ab, w, i)
    {
      if i + |w| <= |ab| {
        var window := ab[i..i + |w|];
        if |a| > 0 && a[|a| - 1] == c {
          assert window[|a| - 1 - i] == c;
          assert w[|a| - 1 - i] in w;
        } else {
          assert window[|a| - i] == c;
          assert w[|a| - i] in w;
        }
      }
    }
  }

  /**
   Across a separator character that the word lacks, the word occurs in the
   concatenation exactly when it occurs in one of the two parts.
   */
  lemma {:induction false} ContainsAcrossSeparator(a: string, b: string, w: string, c: char)
    requires c !in w
    requires (|a| > 0 && a[|a| - 1] == c) || (|b| > 0 && b[0] == c)
    ensures Contains(a + b, w) <==> Contains(a, w) || Contains(b, w)
  {
    if Contains(a + b, w) {
      ContainsSplits(a, b, w, c);
    }
    if Contains(a, w) {
      ContainsExtendsRight(a, b, w);
    }
    if Contains(b, w) {
      ContainsExtendsLeft(a, b, w);
    }
  }

  /** An occurrence in `a + b` that cannot straddle the separator lies in `a` or in `b`. */
  lemma ContainsSplits(a: string, b: string, w: string, c: char)
    requires c !in w
    requires (|a| > 0 && a[|a| - 1] == c) || (|b| > 0 && b[0] == c)
    requires Contains(a + b, w)
    ensures Contains(a, w) || Contains(b, w)
  {
    NoStraddle(a, b, w, c);
    var ab := a + b;
    var i :| 0 <= i <= |ab| - |w| && OccursAt(ab, w, i);
    if i + |w| <= |a| {
      assert a[i..i + |w|] == ab[i..i + |w|];
      assert OccursAt(a, w, i);
    } else {
      assert b[i - |a|..i - |a| + |w|] == ab[i..i + |w|];
      assert OccursAt(b, w, i - |a|);
    }
  }

  /** Appending keeps an occurrence. */
  lemma ContainsExtendsRight(a: string, b: string, w: string)
    requires Contains(a, w)
    ensures Contains(a + b, w)
  {
    var i :| 0 <= i <= |a| - |w| && OccursAt(a, w, i);
    assert (a + b)[i..i + |w|] == a[i..i + |w|];
    assert OccursAt(a + b, w, i);
  }

  /** Prepending keeps an occurrence. */
  lemma ContainsExtendsLeft(a: string, b: string, w: string)
    requires Contains(b, w)
    ensures Contains(a + b, w)
  {
    var j :| 0 <= j <= |b| - |w| && OccursAt(b, w, j);
    assert (a + b)[|a| + j..|a| + j + |w|] == b[j..j + |w|];
    assert OccursAt(a + b, w, |a| + j);
  }

  lemma {:induction false} ContainsSkipsLeadingChar(x: char, s: string, w: string)
    requires |w| > 0 && w[0] != x
    ensures Contains([x] + s, w) <==> Contains(s, w)
  {
    var xs := [x] + s;
    assert !OccursAt(xs, w, 0) by {
      if |w| <= |xs| {
        assert xs[0..|w|][0] == x;
      }
    }
    if Contains(xs, w) {
      var i :| 0 <= i <= |xs| - |w| && OccursAt(xs, w, i);
      assert s[i - 1..i - 1 + |w|] == xs[i..i + |w|];
      assert OccursAt(s, w, i - 1);
    }
    if Contains(s, w) {
      var j :| 0 <= j <= |s| - |w| && OccursAt(s, w, j);
      assert xs[j + 1..j + 1 + |w|] == s[j..j + |w|];
      assert OccursAt(xs, w, j + 1);
    }
  }

  /** Go's `strings.ReplaceAll(s, old, new)` for single-character `old` and `new`. */
  function ReplaceChar(s: string, from: char, to: char): (r: string)
    ensures |r| == |s|
    ensures forall i :: 0 <= i < |s| ==> r[i] == (if s[i] == from then to else s[i])
  {
    if |s| == 0 then "" else [if s[0] == from then to else s[0]] + ReplaceChar(s[1..], from, to)
  }

  /** Lower-cases one ASCII letter and leaves every other character alone. */
  function LowerChar(c: char): char {
    if 'A' <= c <= 'Z' then (c as int + 32) as char else c
  }

  /**
   Go's `strings.ToLower`, restricted to ASCII letters. No other character lower-cases
   to one of the letters of "bearer", the only word the model compares against.
   */
  function ToLowerAscii(s: string): (r: string)
    ensures |r| == |s|
    ensures forall i :: 0 <= i < |s| ==> r[i] == LowerChar(s[i])
  {
    if |s| == 0 then "" else [LowerChar(s[0])] + ToLowerAscii(s[1..])
  }

  /** The offset of the first `c` in `s`, the search behind Go's `strings.SplitN(s, sep, 2)`. */
  function IndexOfChar(s: string, c: char): (r: Option<nat>)
    ensures r.Some? ==> r.value < |s| && s[r.value] == c && c !in s[..r.value]
    ensures r.None? ==> c !in s
  {
    if |s| == 0 then None
    else if s[0] == c then Some(0)
    else match IndexOfChar(s[1..], c)
      case None => None
      case Some(j) =>
        assert s[..j + 1] == [s[0]] + s[1..][..j];
        Some(j + 1)
  }

  predicate IsDigit(c: char) {
    '0' <= c <= '9'
  }

  predicate AllDigits(s: string) {
    forall i :: 0 <= i < |s| ==> IsDigit(s[i])
  }

  function DigitChar(d: nat): (c: char)
    requires d < 10
    ensures IsDigit(c)
  {
    (d + 48) as char
  }

  function DigitValue(c: char): (d: nat)
    requires IsDigit(c)
    ensures d < 10
  {
    c as int - 48
  }

  /** The decimal digits of `n`, most significant first, with no leading zero. */
  function NatToDecimal(n: nat): (s: string)
    ensures |s| > 0 && AllDigits(s)
    ensures s[0] == '0' ==> n == 0
    decreases n
  {
    if n < 10 then [DigitChar(n)] else NatToDecimal(n / 10) + [DigitChar(n % 10)]
  }

  /** Go's `fmt.Sprintf("%d", i)`. */
  function IntToDecimal(i: int): string {
    if i < 0 then "-" + NatToDecimal(-i) else NatToDecimal(i)
  }

  /** The value of a string of decimal digits. */
  function DecimalToNat(s: string): nat
    requires AllDigits(s)
    decreases |s|
  {
    if |s| == 0 then 0 else DecimalToNat(s[..|s| - 1]) * 10 + DigitValue(s[|s| - 1])
  }

  /** Reads back an optionally negative decimal integer; the inverse of `IntToDecimal`. */
  function ParseDecimal(s: string): Option<int> {
    if |s| > 0 && AllDigits(s) then Some(DecimalToNat(s))
    else if |s| > 1 && s[0] == '-' && AllDigits(s[1..]) then Some(0 - DecimalToNat(s[1..]) as int)
    else None
  }

  lemma {:induction false} NatDecimalRoundTrip(n: nat)
    ensures DecimalToNat(NatToDecimal(n)) == n
    decreases n
  {
    if n >= 10 {
      var p := NatToDecimal(n / 10);
      NatDecimalRoundTrip(n / 10);
      var s := p + [DigitChar(n % 10)];
      assert s[..|s| - 1] == p;
    }
  }

  /** `%d` loses nothing: the rendering of every integer parses back to it. */
  lemma DecimalRoundTrip(i: int)
    ensures ParseDecimal(IntToDecimal(i)) == Some(i)
  {
    if i < 0 {
      var p := NatToDecimal(-i);
      NatDecimalRoundTrip(-i);
      var s := "-" + p;
      assert s[1..] == p;
      assert !IsDigit(s[0]);
    } else {
      NatDecimalRoundTrip(i);
    }
  }
}
