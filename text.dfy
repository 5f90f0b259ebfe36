/** String helpers shared by the importers and the ledger: Python's
    `str.split()`, `str.strip()`, `' '.join`, `str.lower()`, `in` on strings
    and the decimal rendering of integers, over `seq<char>`. */
module Text {

  /** The characters Python's `str.isspace()` accepts (the Latin-1 and the
      common Unicode separators). */
  predicate IsSpace(c: char) {
    || c == ' ' || c == '\t' || c == '\n' || c == '\r' || c == '\U{B}' || c == '\U{C}'
    || ('\U{1C}' <= c <= '\U{1F}') || c == '\U{85}' || c == '\U{A0}' || c == '\U{1680}'
    || ('\U{2000}' <= c <= '\U{200A}') || c == '\U{2028}' || c == '\U{2029}'
    || c == '\U{202F}' || c == '\U{205F}' || c == '\U{3000}'
  }

  predicate NoSpace(w: string) {
    forall i :: 0 <= i < |w| ==> !IsSpace(w[i])
  }

  predicate AllSpace(w: string) {
    forall i :: 0 <= i < |w| ==> IsSpace(w[i])
  }

  predicate IsDigit(c: char) {
    '0' <= c <= '9'
  }

  predicate AllDigits(w: string) {
    forall i :: 0 <= i < |w| ==> IsDigit(w[i])
  }

  /** The longest prefix of `s` that holds no white space. */
  function LeadingWord(s: string): (w: string)
    ensures w <= s && NoSpace(w)
    ensures |w| < |s| ==> IsSpace(s[|w|])
  {
    if s == [] || IsSpace(s[0]) then [] else [s[0]] + LeadingWord(s[1..])
  }

  /** Python's `s.split()`: the maximal runs of non-white-space characters,
      left to right. */
  function Split(s: string): (parts: seq<string>)
    ensures forall k :: 0 <= k < |parts| ==> parts[k] != [] && NoSpace(parts[k])
    decreases |s|
  {
    if s == [] then []
    else if IsSpace(s[0]) then Split(s[1..])
    else
      var w := LeadingWord(s);
      [w] + Split(s[|w|..])
  }

  /** Python's `sep.join(parts)`. */
  function Join(parts: seq<string>, sep: string): string
  {
    if parts == [] then []
    else if |parts| == 1 then parts[0]
    else parts[0] + sep + Join(parts[1..], sep)
  }

  /** `s.split(c)[0]`: the text before the first `c` (all of it when there
      is none). */
  function PrefixBefore(s: string, c: char): (r: string)
    ensures |r| <= |s| && r == s[..|r|]
    ensures forall i :: 0 <= i < |r| ==> r[i] != c
    ensures |r| < |s| ==> s[|r|] == c
  {
    if s == [] || s[0] == c then [] else [s[0]] + PrefixBefore(s[1..], c)
  }

  /** The text before a first `c` that follows `w`. */
  lemma {:induction false} PrefixBeforeOf(w: string, c: char, rest: string)
    requires forall i :: 0 <= i < |w| ==> w[i] != c
    requires rest != [] && rest[0] == c
    ensures PrefixBefore(w + rest, c) == w
  {
    if w == [] {
      assert w + rest == rest;
    } else {
      assert (w + rest)[0] == w[0];
      assert (w + rest)[1..] == w[1..] + rest;
      PrefixBeforeOf(w[1..], c, rest);
    }
  }

  /** Python's `s.lstrip()`. */
  function TrimLeft(s: string): (r: string)
    ensures |r| <= |s| && r == s[|s| - |r|..]
    ensures AllSpace(s[..|s| - |r|])
    ensures r == [] || !IsSpace(r[0])
  {
    if s != [] && IsSpace(s[0]) then TrimLeft(s[1..]) else s
  }

  /** Python's `s.rstrip()`. */
  function TrimRight(s: string): (r: string)
    ensures |r| <= |s| && r == s[..|r|]
    ensures AllSpace(s[|r|..])
    ensures r == [] || !IsSpace(r[|r| - 1])
  {
    if s != [] && IsSpace(s[|s| - 1]) then
      var t := TrimRight(s[..|s| - 1]);
      assert s[|t|..] == s[..|s| - 1][|t|..] + [s[|s| - 1]];
      t
    else s
  }

  /** Python's `s.strip()`. */
  function Strip(s: string): string
  {
    TrimRight(TrimLeft(s))
  }

  /** A word followed by nothing or by white space is the leading word. */
  lemma {:induction false} LeadingWordOf(w: string, rest: string)
    requires NoSpace(w)
    requires rest == [] || IsSpace(rest[0])
    ensures LeadingWord(w + rest) == w
  {
    if w != [] {
      assert (w + rest)[0] == w[0];
      assert (w + rest)[1..] == w[1..] + rest;
      LeadingWordOf(w[1..], rest);
    } else {
      assert w + rest == rest;
    }
  }

  /** Joining space-free, non-empty words with one blank and splitting
      again gives the words back. */
  lemma {:induction false} SplitJoin(parts: seq<string>)
    requires forall k :: 0 <= k < |parts| ==> parts[k] != [] && NoSpace(parts[k])
    ensures Split(Join(parts, " ")) == parts
  {
    if |parts| == 1 {
      var w := parts[0];
      LeadingWordOf(w, []);
      assert w + [] == w;
      assert w[|w|..] == [];
    } else if |parts| > 1 {
      var w := parts[0];
      var tail := Join(parts[1..], " ");
      var s := w + " " + tail;
      assert s == w + (" " + tail);
      LeadingWordOf(w, " " + tail);
      assert s[0] == w[0];
      assert s[|w|..] == " " + tail;
      assert (" " + tail)[1..] == tail;
      SplitJoin(parts[1..]);
      assert Split(" " + tail) == Split(tail);
    }
  }

  /** Leading white space does not change the split. */
  lemma {:induction false} SplitTrimLeft(s: string)
    ensures Split(TrimLeft(s)) == Split(s)
  {
    if s != [] && IsSpace(s[0]) {
      SplitTrimLeft(s[1..]);
    }
  }

  /** Trailing white space does not change the leading word. */
  lemma {:induction false} LeadingWordAppendSpace(x: string, y: string)
    requires AllSpace(y)
    ensures LeadingWord(x + y) == LeadingWord(x)
  {
    if x == [] {
      assert x + y == y;
    } else {
      assert (x + y)[0] == x[0];
      if !IsSpace(x[0]) {
        assert (x + y)[1..] == x[1..] + y;
        LeadingWordAppendSpace(x[1..], y);
      }
    }
  }

  /** Trailing white space does not change the split. */
  lemma {:induction false} SplitAppendSpace(x: string, y: string)
    requires AllSpace(y)
    ensures Split(x + y) == Split(x)
    decreases |x| + |y|
  {
    if x == [] {
      assert x + y == y;
      if y != [] {
        SplitAppendSpace([], y[1..]);
        assert [] + y[1..] == y[1..];
      }
    } else if IsSpace(x[0]) {
      assert (x + y)[0] == x[0];
      assert (x + y)[1..] == x[1..] + y;
      SplitAppendSpace(x[1..], y);
    } else {
      assert (x + y)[0] == x[0];
      LeadingWordAppendSpace(x, y);
      var w := LeadingWord(x);
      assert (x + y)[|w|..] == x[|w|..] + y;
      SplitAppendSpace(x[|w|..], y);
    }
  }

  /** `s.strip().split()` is `s.split()`. */
  lemma SplitStrip(s: string)
    ensures Split(Strip(s)) == Split(s)
  {
    var l := TrimLeft(s);
    var r := TrimRight(l);
    assert l == r + l[|r|..];
    SplitAppendSpace(r, l[|r|..]);
    SplitTrimLeft(s);
  }

  /** A string is blank after `strip()` exactly when it splits into nothing. */
  lemma {:induction false} StripEmptyIffNoWords(s: string)
    ensures Strip(s) == [] <==> Split(s) == []
  {
    SplitStrip(s);
    var r := Strip(s);
    if r != [] {
      assert !IsSpace(r[0]);
    }
  }

  // ---------------------------------------------------------------------
  // Case mapping

  /** Lower-casing of one character, for Latin, Cyrillic and the Kazakh
      Cyrillic letters; every other character is left as it is. */
  function LowerChar(c: char): char
  {
    if 'A' <= c <= 'Z' then (c as int + 32) as char
    else if '\U{410}' <= c <= '\U{42F}' then (c as int + 32) as char
    else if '\U{400}' <= c <= '\U{40F}' then (c as int + 80) as char
    else if '\U{48A}' <= c <= '\U{4BF}' && c as int % 2 == 0 then (c as int + 1) as char
    else if '\U{4D0}' <= c <= '\U{4FF}' && c as int % 2 == 0 then (c as int + 1) as char
    else c
  }

  /** Upper-casing of one character, the inverse of `LowerChar` on letters. */
  function UpperChar(c: char): char
  {
    if 'a' <= c <= 'z' then (c as int - 32) as char
    else if '\U{430}' <= c <= '\U{44F}' then (c as int - 32) as char
    else if '\U{450}' <= c <= '\U{45F}' then (c as int - 80) as char
    else if '\U{48A}' <= c <= '\U{4BF}' && c as int % 2 == 1 then (c as int - 1) as char
    else if '\U{4D0}' <= c <= '\U{4FF}' && c as int % 2 == 1 then (c as int - 1) as char
    else c
  }

  /** Python's `s.lower()`. */
  function Lower(s: string): string
  {
    seq(|s|, i requires 0 <= i < |s| => LowerChar(s[i]))
  }

  /** Python's `s.upper()`. */
  function Upper(s: string): string
  {
    seq(|s|, i requires 0 <= i < |s| => UpperChar(s[i]))
  }

  /** Case-insensitive equality (Django's `iexact`). */
  predicate EqualsIgnoringCase(a: string, b: string)
  {
    Lower(a) == Lower(b)
  }

  /** Python's `needle in hay` on strings. */
  predicate IsSubstring(needle: string, hay: string)
  {
    exists i | 0 <= i <= |hay| - |needle| :: OccursAt(needle, hay, i)
  }

  predicate OccursAt(needle: string, hay: string, i: nat)
  {
    i + |needle| <= |hay| && hay[i..i + |needle|] == needle
  }

  // ---------------------------------------------------------------------
  // Decimal rendering of integers (Python's `str(n)` and `f'{n:02d}'`)

  function DigitChar(d: nat): char
    requires d < 10
  {
    ('0' as int + d) as char
  }

  /** The decimal digits of `n`, most significant first, without leading zeros. */
  function NatToString(n: nat): (s: string)
    ensures s != [] && AllDigits(s)
    ensures n >= 10 ==> |s| >= 2
    ensures n < 10 <==> |s| == 1
  {
    if n < 10 then [DigitChar(n)] else NatToString(n / 10) + [DigitChar(n % 10)]
  }

  /** Different numbers have different decimal renderings. */
  lemma {:induction false} NatToStringInjective(a: nat, b: nat)
    requires NatToString(a) == NatToString(b)
    ensures a == b
  {
    if a >= 10 && b >= 10 {
      var sa, sb := NatToString(a), NatToString(b);
      assert sa[|sa| - 1] == sb[|sb| - 1];
      assert a % 10 == b % 10;
      assert sa[..|sa| - 1] == NatToString(a / 10);
      assert sb[..|sb| - 1] == NatToString(b / 10);
      NatToStringInjective(a / 10, b / 10);
    }
  }

  /** Python's `str(i)` for an integer. */
  function IntToString(i: int): string
  {
    if i < 0 then "-" + NatToString(-i) else NatToString(i)
  }

  /** Python's `f'{i:02d}'`: at least two characters, zero-padded on the left
      for 0..9 (a negative number already has two characters from its sign). */
  function PadTwo(i: int): string
  {
    if 0 <= i < 10 then "0" + NatToString(i) else IntToString(i)
  }
}
