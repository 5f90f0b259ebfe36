/** The name handling of the team-leader import script: the username a new
    team-leader account gets from its e-mail address, and the rough
    Cyrillic-to-Latin transliteration used to find a team leader among the
    scanners. */
module TeamLeaderNames {
  import opened Text

  // ---------------------------------------------------------------------
  // Usernames

  /** `email.split('@')[0]`: the text before the first '@' (all of it when
      there is none). */
  function BeforeAt(email: string): (r: string)
    ensures |r| <= |email| && r == email[..|r|]
    ensures forall i :: 0 <= i < |r| ==> r[i] != '@'
    ensures |r| < |email| ==> email[|r|] == '@'
  {
    PrefixBefore(email, '@')
  }

  /** The numbered usernames `base1` … `base(k-1)` are all taken. */
  predicate SuffixesTaken(taken: set<string>, base: string, k: nat)
  {
    forall j :: 1 <= j < k ==> base + NatToString(j) in taken
  }

  /** Different numbers give different numbered usernames. */
  lemma SuffixInjective(base: string, a: nat, b: nat)
    requires base + NatToString(a) == base + NatToString(b)
    ensures a == b
  {
    assert (base + NatToString(a))[|base|..] == NatToString(a);
    assert (base + NatToString(b))[|base|..] == NatToString(b);
    NatToStringInjective(a, b);
  }

  /** `base1` … `base(k-1)`. */
  function Tried(base: string, k: nat): set<string>
  {
    set j | 1 <= j < k :: base + NatToString(j)
  }

  lemma {:induction false} TriedCount(base: string, k: nat)
    requires k >= 1
    ensures |Tried(base, k)| == k - 1
  {
    if k > 1 {
      TriedCount(base, k - 1);
      var x := base + NatToString(k - 1);
      assert Tried(base, k) == Tried(base, k - 1) + {x};
      if x in Tried(base, k - 1) {
        var j :| 1 <= j < k - 1 && x == base + NatToString(j);
        SuffixInjective(base, j, k - 1);
      }
    }
  }

  lemma {:induction false} SubsetCard(a: set<string>, b: set<string>)
    requires a <= b
    ensures |a| <= |b|
    decreases |b|
  {
    if a != {} {
      var x :| x in a;
      SubsetCard(a - {x}, b - {x});
    }
  }

  /** There are only so many taken usernames: once `base1` … `base(k-1)`
      are all taken, `k − 1` is at most their number. */
  lemma TriedBound(taken: set<string>, base: string, k: nat)
    requires k >= 1 && SuffixesTaken(taken, base, k)
    ensures k <= |taken| + 1
  {
    TriedCount(base, k);
    SubsetCard(Tried(base, k), taken);
  }

  /** The least `j ≥ k` whose numbered username is free, given that the
      ones below `k` are taken. */
  function LeastFreeSuffix(taken: set<string>, base: string, k: nat): (r: nat)
    requires k >= 1 && SuffixesTaken(taken, base, k)
    ensures r >= k && base + NatToString(r) !in taken && SuffixesTaken(taken, base, r)
    decreases |taken| + 1 - k
  {
    TriedBound(taken, base, k);
    if base + NatToString(k) !in taken then k
    else
      TriedBound(taken, base, k + 1);
      LeastFreeSuffix(taken, base, k + 1)
  }

  /** The username a new account gets: the base when it is free, otherwise
      the base followed by the least positive number that makes it free. */
  function UsernameFor(taken: set<string>, base: string): string
  {
    if base !in taken then base else base + NatToString(LeastFreeSuffix(taken, base, 1))
  }

  /** The chosen username is free, and it is the first free one in the order
      `base`, `base1`, `base2`, …. */
  lemma UsernameForFacts(taken: set<string>, base: string)
    ensures UsernameFor(taken, base) !in taken
    ensures base !in taken ==> UsernameFor(taken, base) == base
    ensures base in taken ==>
              exists k :: k >= 1 && UsernameFor(taken, base) == base + NatToString(k)
                          && SuffixesTaken(taken, base, k)
  {
    if base in taken {
      var k := LeastFreeSuffix(taken, base, 1);
      assert UsernameFor(taken, base) == base + NatToString(k);
    }
  }

  /** Any free numbered username above only taken ones is the chosen one. */
  lemma LeastFreeUnique(taken: set<string>, base: string, k: nat)
    requires base in taken && k >= 1 && SuffixesTaken(taken, base, k)
    requires base + NatToString(k) !in taken
    ensures UsernameFor(taken, base) == base + NatToString(k)
  {
    var r := LeastFreeSuffix(taken, base, 1);
    assert r == k;
  }

  /** The username loop of `create_team_leader`. */
  method FreshUsername(taken: set<string>, email: string) returns (username: string)
    ensures username == UsernameFor(taken, BeforeAt(email))
  {
    var base := BeforeAt(email);
    username := base;
    if username in taken {
      var counter: nat := 1;
      while username in taken
        invariant counter >= 1 && SuffixesTaken(taken, base, if counter == 1 then 1 else counter - 1)
        invariant username == if counter == 1 then base else base + NatToString(counter - 1)
        decreases |taken| + 2 - counter
      {
        assert SuffixesTaken(taken, base, counter);
        TriedBound(taken, base, counter);
        username := base + NatToString(counter);
        counter := counter + 1;
      }
      LeastFreeUnique(taken, base, counter - 1);
    }
  }

  // ---------------------------------------------------------------------
  // E-mail normalisation

  /** The position of the last '@' of `s`, -1 when there is none. */
  function LastAt(s: string): (r: int)
    ensures -1 <= r < |s|
    ensures r >= 0 ==> s[r] == '@'
    ensures forall i :: r < i < |s| ==> s[i] != '@'
  {
    if s == [] then -1
    else if s[|s| - 1] == '@' then |s| - 1
    else LastAt(s[..|s| - 1])
  }

  /** Django's `normalize_email`, which `create_user` applies to the e-mail
      it stores: `strip()` the address and split it at its last '@'; when
      there is one, the domain after it is lower-cased, otherwise the
      address is kept exactly as given. */
  function NormalizeEmail(email: string): string
  {
    var s := Strip(email);
    var k := LastAt(s);
    if k < 0 then email else s[..k] + "@" + Lower(s[k + 1..])
  }

  lemma StrippedEnds(x: string)
    ensures var s := Strip(x);
            s == [] || (!IsSpace(s[0]) && !IsSpace(s[|s| - 1]))
  {
    var l := TrimLeft(x);
    var s := TrimRight(l);
    if s != [] {
      assert s[0] == l[0];
    }
  }

  lemma StripKeeps(n: string)
    requires n == [] || (!IsSpace(n[0]) && !IsSpace(n[|n| - 1]))
    ensures Strip(n) == n
  {
    assert TrimLeft(n) == n;
  }

  lemma LowerIdempotent(d: string)
    ensures Lower(Lower(d)) == Lower(d)
  {
  }

  lemma LowerConcat(a: string, b: string)
    ensures Lower(a + b) == Lower(a) + Lower(b)
  {
  }

  /** Lower-casing neither makes nor removes an '@' or white space. */
  lemma LowerKeepsClasses(d: string)
    ensures forall i :: 0 <= i < |d| ==> (Lower(d)[i] == '@' <==> d[i] == '@')
    ensures forall i :: 0 <= i < |d| ==> (IsSpace(Lower(d)[i]) <==> IsSpace(d[i]))
  {
  }

  /** The last '@' of a local part, an '@' and a domain without '@' is the
      one between them. */
  lemma {:induction false} LastAtOf(l: string, d: string)
    requires forall i :: 0 <= i < |d| ==> d[i] != '@'
    ensures LastAt(l + "@" + d) == |l|
  {
    if d != [] {
      var d0 := d[..|d| - 1];
      assert (l + "@" + d)[..|l + "@" + d| - 1] == l + "@" + d0;
      LastAtOf(l, d0);
    }
  }

  /** An address without '@' is stored as given. Otherwise the stored
      address is the stripped one with its domain lower-cased: it keeps the
      local part exactly, differs from the stripped address only in case,
      and normalising it again changes nothing. */
  lemma NormalizeEmailFacts(email: string)
    ensures var s, n := Strip(email), NormalizeEmail(email);
            && ((forall i :: 0 <= i < |s| ==> s[i] != '@') ==> n == email)
            && ((exists i :: 0 <= i < |s| && s[i] == '@') ==>
                  && EqualsIgnoringCase(n, s)
                  && s[..LastAt(s)] + "@" <= n
                  && NormalizeEmail(n) == n)
  {
    if LastAt(Strip(email)) >= 0 {
      NormalizedCase(email);
      NormalizedAgain(email);
    }
  }

  lemma NormalizedCase(email: string)
    requires LastAt(Strip(email)) >= 0
    ensures var s, n := Strip(email), NormalizeEmail(email);
            EqualsIgnoringCase(n, s) && s[..LastAt(s)] + "@" <= n
  {
    var s := Strip(email);
    var k := LastAt(s);
    SplitAtLast(s);
    var l, d := s[..k], s[k + 1..];
    NormalizeOf(email, l, d);
    DomainCaseOnly(l, d);
    var n := NormalizeEmail(email);
    assert n == l + "@" + Lower(d);
    assert Lower(n) == Lower(s);
  }

  lemma DomainCaseOnly(l: string, d: string)
    ensures Lower(l + "@" + Lower(d)) == Lower(l + "@" + d)
    ensures l + "@" <= l + "@" + Lower(d)
  {
    LowerConcat(l + "@", d);
    LowerConcat(l + "@", Lower(d));
    LowerIdempotent(d);
  }

  /** An address that strips to a local part, an '@' and a domain without
      '@' is stored with that domain lower-cased. */
  lemma NormalizeOf(x: string, l: string, d: string)
    requires Strip(x) == l + "@" + d
    requires forall i :: 0 <= i < |d| ==> d[i] != '@'
    ensures NormalizeEmail(x) == l + "@" + Lower(d)
  {
    var s := l + "@" + d;
    LastAtOf(l, d);
    assert s[..|l|] == l && s[|l| + 1..] == d;
  }

  /** An address already in normal form: no white space at its ends and a
      lower-case domain. */
  lemma NormalFormKept(l: string, d: string)
    requires forall i :: 0 <= i < |d| ==> d[i] != '@'
    requires l == [] || !IsSpace(l[0])
    requires d == [] || !IsSpace(d[|d| - 1])
    ensures NormalizeEmail(l + "@" + Lower(d)) == l + "@" + Lower(d)
  {
    var n := l + "@" + Lower(d);
    LowerKeepsClasses(d);
    if d != [] {
      assert n[|n| - 1] == Lower(d)[|d| - 1];
    }
    StripKeeps(n);
    NormalizeOf(n, l, Lower(d));
    LowerIdempotent(d);
  }

  lemma StrippedParts(x: string, l: string, d: string)
    requires Strip(x) == l + "@" + d
    ensures l == [] || !IsSpace(l[0])
    ensures d == [] || !IsSpace(d[|d| - 1])
  {
    StrippedEnds(x);
    var s := l + "@" + d;
    if l != [] {
      assert s[0] == l[0];
    }
    if d != [] {
      assert s[|s| - 1] == d[|d| - 1];
    }
  }

  lemma NormalizedAgain(email: string)
    requires LastAt(Strip(email)) >= 0
    ensures NormalizeEmail(NormalizeEmail(email)) == NormalizeEmail(email)
  {
    var s := Strip(email);
    var k := LastAt(s);
    SplitAtLast(s);
    var l, d := s[..k], s[k + 1..];
    NormalizeOf(email, l, d);
    StrippedParts(email, l, d);
    NormalFormKept(l, d);
  }

  /** An address with an '@' is its local part, its last '@' and a domain
      without '@'. */
  lemma SplitAtLast(s: string)
    requires LastAt(s) >= 0
    ensures var k := LastAt(s);
            && s == s[..k] + "@" + s[k + 1..]
            && NoAt(s[k + 1..])
  {
  }

  predicate NoAt(d: string)
  {
    forall i :: 0 <= i < |d| ==> d[i] != '@'
  }

  // ---------------------------------------------------------------------
  // Transliteration

  /** The `ru_to_en` table on the lower-case Russian letters 'а' … 'я'
      (U+0430 … U+044F), in alphabet order; the hard and soft signs map to
      nothing. */
  const Russian: seq<string> :=
    ["a", "b", "v", "g", "d", "e", "zh", "z", "i", "y", "k", "l", "m", "n", "o", "p",
     "r", "s", "t", "u", "f", "kh", "ts", "ch", "sh", "sch", "", "y", "", "e", "yu", "ya"]

  /** `ru_to_en.get(char, char)`: the Russian block through `Russian`, 'ё'
      and the Kazakh letters one by one, every other character kept. */
  function Translit(c: char): string
  {
    if 'а' <= c <= 'я' then Russian[c as int - 'а' as int]
    else
      match c
      case 'ё' => "yo"
      case 'ұ' => "u"
      case 'ү' => "u"
      case 'қ' => "k"
      case 'ғ' => "g"
      case 'ә' => "a"
      case 'і' => "i"
      case 'ң' => "n"
      case 'һ' => "h"
      case 'ө' => "o"
      case _ => [c]
  }

  /** The characters the table replaces. */
  predicate Mapped(c: char)
  {
    || 'а' <= c <= 'я'
    || c == 'ё' || c == 'ұ' || c == 'ү' || c == 'қ' || c == 'ғ'
    || c == 'ә' || c == 'і' || c == 'ң' || c == 'һ' || c == 'ө'
  }

  predicate IsLatinLower(c: char)
  {
    'a' <= c <= 'z'
  }

  /** Every character through the table, in order. */
  function MapChars(s: string): string
  {
    if s == [] then [] else MapChars(s[..|s| - 1]) + Translit(s[|s| - 1])
  }

  /** Python's `str.capitalize()`: the first character upper-case, the rest
      lower-case. */
  function Capitalize(s: string): string
  {
    if s == [] then [] else [UpperChar(s[0])] + Lower(s[1..])
  }

  function Transliterate(text: string): string
  {
    Capitalize(MapChars(Lower(text)))
  }

  /** `transliterate`: the result string is built character by character. */
  method TransliterateText(text: string) returns (r: string)
    ensures r == Transliterate(text)
  {
    var lower := Lower(text);
    var result := "";
    for i := 0 to |lower|
      invariant result == MapChars(lower[..i])
    {
      assert lower[..i + 1][..i] == lower[..i];
      result := result + Translit(lower[i]);
    }
    assert lower[..|lower|] == lower;
    r := Capitalize(result);
  }

  /** What the table produces is lower-case Latin, or the character itself
      when the table does not have it. */
  lemma TranslitOutput(c: char)
    ensures Mapped(c) ==> forall i :: 0 <= i < |Translit(c)| ==> IsLatinLower(Translit(c)[i])
    ensures !Mapped(c) ==> Translit(c) == [c]
  {
    assert |Russian| == 32;
    assert forall k | 0 <= k < 32 :: forall i :: 0 <= i < |Russian[k]| ==> IsLatinLower(Russian[k][i]);
  }

  lemma LatinNotMapped(c: char)
    requires IsLatinLower(c)
    ensures !Mapped(c)
  {
  }

  /** No character of the table is left after the mapping. */
  lemma {:induction false} NoMappedCharLeft(s: string)
    ensures forall i :: 0 <= i < |MapChars(s)| ==> !Mapped(MapChars(s)[i])
  {
    if s != [] {
      NoMappedCharLeft(s[..|s| - 1]);
      var r0, t := MapChars(s[..|s| - 1]), Translit(s[|s| - 1]);
      TranslitOutput(s[|s| - 1]);
      forall i | 0 <= i < |r0 + t| ensures !Mapped((r0 + t)[i]) {
        if i >= |r0| && Mapped(s[|s| - 1]) {
          LatinNotMapped(t[i - |r0|]);
        }
      }
    }
  }

  /** Lower-case Latin text goes through the mapping unchanged. */
  lemma {:induction false} MapCharsLatin(s: string)
    requires forall i :: 0 <= i < |s| ==> IsLatinLower(s[i])
    ensures MapChars(s) == s
  {
    if s != [] {
      var init, c := s[..|s| - 1], s[|s| - 1];
      MapCharsLatin(init);
      LatinNotMapped(c);
      assert MapChars(s) == MapChars(init) + [c];
      assert s == init + [c];
    }
  }

  predicate IsLatinLetter(c: char)
  {
    'a' <= c <= 'z' || 'A' <= c <= 'Z'
  }

  lemma LowerLatinLetter(c: char)
    requires IsLatinLetter(c)
    ensures IsLatinLower(LowerChar(c))
    ensures LowerChar(LowerChar(c)) == LowerChar(c) && UpperChar(LowerChar(c)) == UpperChar(c)
  {
  }

  /** A name already in Latin letters is only capitalised. */
  lemma TransliterateLatin(s: string)
    requires forall i :: 0 <= i < |s| ==> IsLatinLetter(s[i])
    ensures Transliterate(s) == Capitalize(s)
  {
    var l := Lower(s);
    forall i | 0 <= i < |l| ensures IsLatinLower(l[i]) && LowerChar(l[i]) == LowerChar(s[i]) {
      LowerLatinLetter(s[i]);
    }
    MapCharsLatin(l);
    if s != [] {
      LowerLatinLetter(s[0]);
      assert Lower(l[1..]) == Lower(s[1..]);
    }
  }
}
