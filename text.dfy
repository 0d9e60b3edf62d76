/**
 * String operations of the JavaScript runtime that the interpreter relies on:
 * `trim`, `split` on one character, the character classes of its regular
 * expressions, `Number.prototype.toString` on integers, `padStart(2, "0")` and
 * the UTF-16 `length` of a string.
 */
module Text {

  /** WhiteSpace and LineTerminator code points, the characters `String.prototype.trim` removes. */
  predicate IsJsWhitespace(c: char) {
    || c == '\t' || c == '\n' || c == '\U{000B}' || c == '\U{000C}' || c == '\r' || c == ' '
    || c == '\U{00A0}' || c == '\U{1680}' || ('\U{2000}' <= c <= '\U{200A}')
    || c == '\U{2028}' || c == '\U{2029}' || c == '\U{202F}' || c == '\U{205F}'
    || c == '\U{3000}' || c == '\U{FEFF}'
  }

  /** The characters that `.` in a regular expression without the `s` flag does not match. */
  predicate IsLineTerminator(c: char) {
    c == '\n' || c == '\r' || c == '\U{2028}' || c == '\U{2029}'
  }

  /** The class `[가-힣]`: a precomposed Hangul syllable, U+AC00 to U+D7A3. */
  predicate IsHangul(c: char) {
    '가' <= c <= '힣'
  }

  /** The class `\d` without the `u` flag: an ASCII digit. */
  predicate IsDigit(c: char) {
    '0' <= c <= '9'
  }

  predicate AllWhitespace(s: string) {
    forall k :: 0 <= k < |s| ==> IsJsWhitespace(s[k])
  }

  predicate AllHangul(s: string) {
    forall k :: 0 <= k < |s| ==> IsHangul(s[k])
  }

  predicate AllDigits(s: string) {
    forall k :: 0 <= k < |s| ==> IsDigit(s[k])
  }

  /** True when `s` has nothing for `trim` to remove. */
  predicate IsTrimmed(s: string) {
    s == [] || (!IsJsWhitespace(s[0]) && !IsJsWhitespace(s[|s| - 1]))
  }

  // ---------------------------------------------------------------- trim

  function TrimStart(s: string): (r: string)
    ensures |r| <= |s| && r == s[|s| - |r|..]
    ensures forall k :: 0 <= k < |s| - |r| ==> IsJsWhitespace(s[k])
    ensures r == [] || !IsJsWhitespace(r[0])
  {
    if s != [] && IsJsWhitespace(s[0]) then TrimStart(s[1..]) else s
  }

  function TrimEnd(s: string): (r: string)
    ensures |r| <= |s| && r == s[..|r|]
    ensures forall k :: |r| <= k < |s| ==> IsJsWhitespace(s[k])
    ensures r == [] || !IsJsWhitespace(r[|r| - 1])
  {
    if s != [] && IsJsWhitespace(s[|s| - 1]) then TrimEnd(s[..|s| - 1]) else s
  }

  /** `s.trim()`: `s` without its leading and trailing whitespace. */
  function Trim(s: string): (r: string)
    ensures |r| <= |s|
    ensures IsTrimmed(r)
    ensures r == [] <==> AllWhitespace(s)
    ensures exists i, j :: 0 <= i <= j <= |s| && r == s[i..j] && AllWhitespace(s[..i]) && AllWhitespace(s[j..])
  {
    var t := TrimStart(s);
    var r := TrimEnd(t);
    var i := |s| - |t|;
    StripBothEnds(s, t, r, i, i + |r|, IsJsWhitespace);
    assert r == s[i..i + |r|] && AllWhitespace(s[..i]) && AllWhitespace(s[i + |r|..]);
    assert r != [] ==> !IsJsWhitespace(r[0]) by {
      if r != [] { assert r[0] == t[0]; }
    }
    assert t != [] ==> r != [] by {
      if t != [] {
        assert !IsJsWhitespace(t[0]);
      }
    }
    r
  }

  /**
   * Dropping a prefix of `s` whose elements all satisfy `strip`, then a suffix of
   * what remains with the same property, keeps one stretch of `s`.
   */
  lemma StripBothEnds<T>(s: seq<T>, t: seq<T>, r: seq<T>, i: nat, j: nat, strip: T -> bool)
    requires |t| <= |s| && i == |s| - |t| && t == s[i..]
    requires forall k :: 0 <= k < i ==> strip(s[k])
    requires |r| <= |t| && r == t[..|r|] && j == i + |r|
    requires forall k :: |r| <= k < |t| ==> strip(t[k])
    ensures j <= |s| && r == s[i..j]
    ensures forall k :: 0 <= k < i ==> strip(s[..i][k])
    ensures forall k :: 0 <= k < |s| - j ==> strip(s[j..][k])
  {
    forall k | 0 <= k < |s| - j
      ensures s[j..][k] == t[|r| + k]
    {
    }
  }

  /** Trimming text that has nothing to remove gives it back unchanged. */
  lemma TrimOfTrimmed(s: string)
    requires IsTrimmed(s)
    ensures Trim(s) == s
  {
  }

  /** `trim` is idempotent. */
  lemma TrimIdempotent(s: string)
    ensures Trim(Trim(s)) == Trim(s)
  {
    TrimOfTrimmed(Trim(s));
  }

  // ---------------------------------------------------------------- split

  /** Number of occurrences of `c` in `s`. */
  function Count(s: string, c: char): nat {
    if s == [] then 0 else (if s[0] == c then 1 else 0) + Count(s[1..], c)
  }

  /** Index of the first occurrence of `c` in `s`. */
  function IndexOf(s: string, c: char): (i: nat)
    requires c in s
    ensures i < |s| && s[i] == c && c !in s[..i]
  {
    if s[0] == c then 0
    else
      var j := IndexOf(s[1..], c);
      assert s[..j + 1] == [s[0]] + s[1..][..j];
      j + 1
  }

  /** `s.split(sep)` for a one-character separator: the pieces between separators, in order. */
  function Split(s: string, sep: char): (parts: seq<string>)
    ensures |parts| >= 1
    ensures forall k :: 0 <= k < |parts| ==> sep !in parts[k]
    decreases |s|
  {
    if sep in s then
      var i := IndexOf(s, sep);
      [s[..i]] + Split(s[i + 1..], sep)
    else
      [s]
  }

  /** The first piece runs to the first separator, or is the whole text when there is none. */
  lemma SplitFirst(s: string, sep: char)
    ensures Split(s, sep)[0] == if sep in s then s[..IndexOf(s, sep)] else s
  {
  }

  /** `parts.join(sep)`, the inverse of `Split`. */
  function Join(parts: seq<string>, sep: char): string
    requires |parts| >= 1
  {
    if |parts| == 1 then parts[0] else parts[0] + [sep] + Join(parts[1..], sep)
  }

  /** Splitting loses nothing: joining the pieces with the separator gives the text back. */
  lemma {:induction false} JoinSplit(s: string, sep: char)
    ensures Join(Split(s, sep), sep) == s
    decreases |s|
  {
    if sep in s {
      var i := IndexOf(s, sep);
      JoinSplit(s[i + 1..], sep);
      SplitAt(s, sep, i);
      JoinCons(s[..i], Split(s[i + 1..], sep), sep);
      assert s == s[..i] + [sep] + s[i + 1..];
    }
  }

  /** Joining a first piece and more pieces puts the separator after the first. */
  lemma JoinCons(x: string, rest: seq<string>, sep: char)
    requires |rest| >= 1
    ensures Join([x] + rest, sep) == x + [sep] + Join(rest, sep)
  {
    assert ([x] + rest)[1..] == rest;
  }

  lemma {:induction false} CountAppend(a: string, b: string, c: char)
    ensures Count(a + b, c) == Count(a, c) + Count(b, c)
  {
    if a == [] {
      assert a + b == b;
    } else {
      assert (a + b)[0] == a[0];
      assert (a + b)[1..] == a[1..] + b;
      CountAppend(a[1..], b, c);
    }
  }

  lemma {:induction false} CountAbsent(s: string, c: char)
    requires c !in s
    ensures Count(s, c) == 0
  {
    if s != [] {
      CountAbsent(s[1..], c);
    }
  }

  /** Splitting gives one more piece than there are separators. */
  lemma {:induction false} SplitCount(s: string, sep: char)
    ensures |Split(s, sep)| == Count(s, sep) + 1
    decreases |s|
  {
    if sep in s {
      var i := IndexOf(s, sep);
      SplitCount(s[i + 1..], sep);
      assert s == s[..i] + ([sep] + s[i + 1..]);
      CountAppend(s[..i], [sep] + s[i + 1..], sep);
      CountAbsent(s[..i], sep);
      assert ([sep] + s[i + 1..])[1..] == s[i + 1..];
    } else {
      CountAbsent(s, sep);
    }
  }

  /** The first two pieces of a split: the text before the first separator, and the text up to the next one. */
  lemma SplitHead(x: string, sep: char, y: string)
    requires sep !in x
    ensures var parts := Split(x + [sep] + y, sep);
      |parts| >= 2 && parts[0] == x && parts[1] == Split(y, sep)[0]
  {
    var s := x + [sep] + y;
    assert s[|x|] == sep;
    var i := IndexOf(s, sep);
    assert i == |x|;
    assert s[..i] == x;
    assert s[i + 1..] == y;
  }

  /** The first occurrence is the only one with none before it. */
  lemma IndexOfUnique(s: string, c: char, i: nat)
    requires i < |s| && s[i] == c && c !in s[..i]
    ensures IndexOf(s, c) == i
  {
    var j := IndexOf(s, c);
    assert forall m :: 0 <= m < i ==> s[..i][m] == s[m];
    assert forall m :: 0 <= m < j ==> s[..j][m] == s[m];
  }

  /** A separator with none before it ends the first piece. */
  lemma SplitAt(s: string, sep: char, i: nat)
    requires i < |s| && s[i] == sep && sep !in s[..i]
    ensures Split(s, sep) == [s[..i]] + Split(s[i + 1..], sep)
  {
    IndexOfUnique(s, sep, i);
  }

  /** Splitting `a sep b` splits `a` and `b` separately: the pieces of `a`, then those of `b`. */
  lemma {:induction false} SplitConcat(a: string, sep: char, b: string)
    ensures Split(a + [sep] + b, sep) == Split(a, sep) + Split(b, sep)
    decreases |a|
  {
    if sep in a {
      var i := IndexOf(a, sep);
      SplitConcat(a[i + 1..], sep, b);
      SplitConcatStep(a, sep, b, i);
    } else {
      SplitConcatLast(a, sep, b);
    }
  }

  /** The inductive step: the first piece of `a` comes first, the rest splits as before. */
  lemma SplitConcatStep(a: string, sep: char, b: string, i: nat)
    requires i < |a| && a[i] == sep && sep !in a[..i]
    requires Split(a[i + 1..] + [sep] + b, sep) == Split(a[i + 1..], sep) + Split(b, sep)
    ensures Split(a + [sep] + b, sep) == Split(a, sep) + Split(b, sep)
  {
    SplitAtInFirst(a, sep, b, i);
    SplitAt(a, sep, i);
    Regroup(Split(a + [sep] + b, sep), Split(a, sep), [a[..i]], Split(a[i + 1..], sep), Split(b, sep));
  }

  /** `x = h + (r1 + r2)` and `y = h + r1` give `x = y + r2`. */
  lemma Regroup<T>(x: seq<T>, y: seq<T>, h: seq<T>, r1: seq<T>, r2: seq<T>)
    requires x == h + (r1 + r2) && y == h + r1
    ensures x == y + r2
  {
  }

  /** A separator inside `a` ends the first piece of `a sep b` as it ends that of `a`. */
  lemma SplitAtInFirst(a: string, sep: char, b: string, i: nat)
    requires i < |a| && a[i] == sep && sep !in a[..i]
    ensures Split(a + [sep] + b, sep) == [a[..i]] + Split(a[i + 1..] + [sep] + b, sep)
  {
    var s := a + [sep] + b;
    assert s[..i] == a[..i];
    assert s[i + 1..] == a[i + 1..] + [sep] + b;
    SplitAt(s, sep, i);
  }

  /** When `a` has no separator, it is the first piece and `b` splits on its own. */
  lemma SplitConcatLast(a: string, sep: char, b: string)
    requires sep !in a
    ensures Split(a + [sep] + b, sep) == Split(a, sep) + Split(b, sep)
  {
    var s := a + [sep] + b;
    assert s[..|a|] == a;
    SplitAt(s, sep, |a|);
    assert s[|a| + 1..] == b;
  }

  /** A character absent from the text is absent from every piece of its split. */
  lemma {:induction false} SplitAvoids(s: string, sep: char, c: char)
    requires c !in s
    ensures forall k :: 0 <= k < |Split(s, sep)| ==> c !in Split(s, sep)[k]
    decreases |s|
  {
    if sep in s {
      var i := IndexOf(s, sep);
      assert forall x :: x in s[..i] ==> x in s;
      assert forall x :: x in s[i + 1..] ==> x in s;
      SplitAvoids(s[i + 1..], sep, c);
    }
  }

  // ---------------------------------------------------------------- runs of a character class

  /** The two character classes the patterns repeat: `[가-힣]` and `\d`. */
  datatype CharClass = HangulClass | DigitClass

  predicate InClass(c: char, cls: CharClass) {
    match cls
    case HangulClass => IsHangul(c)
    case DigitClass => IsDigit(c)
  }

  /** Length of the longest run of characters of class `cls` that starts at `from`. */
  function RunLength(s: string, from: nat, cls: CharClass): (n: nat)
    requires from <= |s|
    ensures from + n <= |s|
    ensures forall k :: from <= k < from + n ==> InClass(s[k], cls)
    ensures from + n == |s| || !InClass(s[from + n], cls)
    decreases |s| - from
  {
    if from < |s| && InClass(s[from], cls) then 1 + RunLength(s, from + 1, cls) else 0
  }

  /** The run found by `RunLength` is the only run of the class that ends at another character or the end. */
  lemma RunLengthUnique(s: string, from: nat, cls: CharClass, n: nat)
    requires from + n <= |s|
    requires forall k :: from <= k < from + n ==> InClass(s[k], cls)
    requires from + n == |s| || !InClass(s[from + n], cls)
    ensures RunLength(s, from, cls) == n
  {
  }

  // ---------------------------------------------------------------- numbers as text

  function DigitChar(d: nat): (c: char)
    requires d < 10
    ensures IsDigit(c)
  {
    (('0' as int) + d) as char
  }

  function DigitValue(c: char): nat
    requires IsDigit(c)
  {
    (c as int) - ('0' as int)
  }

  /**
   * `n.toString()` for a non-negative integer below 10^21 that a JavaScript number
   * holds exactly: its decimal digits, without leading zeros.
   */
  function Decimal(n: nat): (s: string)
    ensures 1 <= |s| && AllDigits(s)
    ensures (|s| == 1) == (n < 10)
    ensures s[0] == '0' ==> n == 0
  {
    if n < 10 then [DigitChar(n)] else Decimal(n / 10) + [DigitChar(n % 10)]
  }

  /** The number a string of decimal digits denotes. */
  function DigitsValue(s: string): nat
    requires AllDigits(s)
  {
    if s == [] then 0 else 10 * DigitsValue(s[..|s| - 1]) + DigitValue(s[|s| - 1])
  }

  /** A digit string that does not start with zero denotes a positive number. */
  lemma {:induction false} PositiveDigits(s: string)
    requires s != [] && AllDigits(s) && s[0] != '0'
    ensures DigitsValue(s) >= 1
    decreases |s|
  {
    if |s| > 1 {
      PositiveDigits(s[..|s| - 1]);
    }
  }

  /** A digit string without a leading zero is what `Decimal` writes for the number it denotes. */
  lemma {:induction false} DecimalOfDigits(s: string)
    requires s != [] && AllDigits(s) && (s[0] != '0' || |s| == 1)
    ensures Decimal(DigitsValue(s)) == s
    decreases |s|
  {
    var t, last := s[..|s| - 1], s[|s| - 1];
    assert DigitChar(DigitValue(last)) == last;
    if |s| > 1 {
      PositiveDigits(t);
      DecimalOfDigits(t);
      var n := DigitsValue(s);
      assert n == 10 * DigitsValue(t) + DigitValue(last);
      assert n / 10 == DigitsValue(t) && n % 10 == DigitValue(last);
      assert s == t + [last];
    }
  }

  /** Reading the digits `Decimal` writes gives the number back. */
  lemma {:induction false} DecimalRoundTrip(n: nat)
    ensures DigitsValue(Decimal(n)) == n
  {
    if n >= 10 {
      DecimalRoundTrip(n / 10);
      var s := Decimal(n);
      assert s[..|s| - 1] == Decimal(n / 10);
    }
  }

  /** Different numbers are written differently. */
  lemma DecimalInjective(m: nat, n: nat)
    requires Decimal(m) == Decimal(n)
    ensures m == n
  {
    DecimalRoundTrip(m);
    DecimalRoundTrip(n);
  }

  /** `s.padStart(2, "0")`. */
  function PadStart2(s: string): (r: string)
    ensures |r| == if |s| < 2 then 2 else |s|
    ensures r[|r| - |s|..] == s
    ensures forall k :: 0 <= k < |r| - |s| ==> r[k] == '0'
  {
    if |s| >= 2 then s else seq(2 - |s|, _ => '0') + s
  }

  // ---------------------------------------------------------------- length in UTF-16 code units

  /**
   * JavaScript's `s.length`: code points above U+FFFF take two UTF-16 code units.
   * A `char` here is a Unicode scalar value, so a lone surrogate has no string to stand in.
   */
  function Utf16Length(s: string): (n: nat)
    ensures |s| <= n <= 2 * |s|
  {
    if s == [] then 0 else (if s[0] as int > 0xFFFF then 2 else 1) + Utf16Length(s[1..])
  }

  predicate InBasicPlane(s: string) {
    forall k :: 0 <= k < |s| ==> s[k] as int <= 0xFFFF
  }

  /** The JavaScript length is the number of characters exactly when none lies outside the basic plane. */
  lemma {:induction false} Utf16LengthBasicPlane(s: string)
    ensures Utf16Length(s) == |s| <==> InBasicPlane(s)
  {
    if s != [] {
      Utf16LengthBasicPlane(s[1..]);
      if InBasicPlane(s[1..]) && s[0] as int <= 0xFFFF {
        forall k | 0 <= k < |s| ensures s[k] as int <= 0xFFFF {
          if k > 0 { assert s[k] == s[1..][k - 1]; }
        }
      }
    }
  }
}
