/** The text rules of the June 2025 import script: recognising a phone
    number in a column-A cell, cutting the phone numbers out to leave a
    name, and matching that name loosely against the team leaders. */
module JuneRules {
  import opened Text
  import opened Schema

  predicate IsSevenOrEight(c: char)
  {
    c == '7' || c == '8'
  }

  /** One of the patterns `\+[78]`, `[78]\d{3}`, `\d{10}` starts at position `i`. */
  predicate PhoneAt(s: string, i: nat)
  {
    || (i + 2 <= |s| && s[i] == '+' && IsSevenOrEight(s[i + 1]))
    || (i + 4 <= |s| && IsSevenOrEight(s[i]) && AllDigits(s[i + 1..i + 4]))
    || (i + 10 <= |s| && AllDigits(s[i..i + 10]))
  }

  /** `has_phone_number`: some phone pattern occurs in the text (never in
      the empty text). */
  predicate HasPhone(s: string)
  {
    exists i | 0 <= i < |s| :: PhoneAt(s, i)
  }

  /** The length of the match of `\+?[78]\d{10}|\d{10}|\+[78]` at the start
      of `s`, 0 when there is none: the alternatives are tried in order and
      the optional '+' is taken when it can be. */
  function CutLength(s: string): (m: nat)
    ensures m <= |s|
    ensures m == 0 || m == 2 || m == 10 || m == 11 || m == 12
  {
    if |s| >= 12 && s[0] == '+' && IsSevenOrEight(s[1]) && AllDigits(s[2..12]) then 12
    else if |s| >= 11 && IsSevenOrEight(s[0]) && AllDigits(s[1..11]) then 11
    else if |s| >= 10 && AllDigits(s[..10]) then 10
    else if |s| >= 2 && s[0] == '+' && IsSevenOrEight(s[1]) then 2
    else 0
  }

  /** `re.sub(..., '', s)` with that pattern: every leftmost, non-overlapping
      match is removed, scanning left to right. */
  function RemovePhones(s: string): (r: string)
    ensures |r| <= |s|
    decreases |s|
  {
    if s == [] then []
    else
      var m := CutLength(s);
      if m > 0 then RemovePhones(s[m..]) else [s[0]] + RemovePhones(s[1..])
  }

  /** `extract_name`: nothing for an empty cell; otherwise the text without
      its phone numbers, stripped. */
  function ExtractName(s: string): Option<string>
  {
    if s == "" then None else Some(Strip(RemovePhones(s)))
  }

  /** Every piece the substitution cuts out is a phone number for
      `has_phone_number`. */
  lemma CutIsPhone(s: string)
    requires CutLength(s) > 0
    ensures PhoneAt(s, 0)
  {
    var m := CutLength(s);
    if m == 11 {
      assert s[1..4] == s[1..11][..3];
    } else if m == 10 {
      assert s[0..10] == s[..10];
    }
  }

  lemma PhoneAtShift(s: string, i: nat)
    requires s != []
    ensures PhoneAt(s[1..], i) <==> PhoneAt(s, i + 1)
  {
    var t := s[1..];
    if i + 4 <= |t| {
      assert t[i + 1..i + 4] == s[i + 2..i + 5];
    }
    if i + 10 <= |t| {
      assert t[i..i + 10] == s[i + 1..i + 11];
    }
  }

  /** Text without a phone number goes through the substitution unchanged. */
  lemma {:induction false} NoPhoneUnchanged(s: string)
    requires !HasPhone(s)
    ensures RemovePhones(s) == s
    decreases |s|
  {
    if s != [] {
      assert CutLength(s) == 0 by {
        if CutLength(s) > 0 {
          CutIsPhone(s);
        }
      }
      forall i | 0 <= i < |s[1..]| ensures !PhoneAt(s[1..], i) {
        PhoneAtShift(s, i);
        assert !PhoneAt(s, i + 1);
      }
      NoPhoneUnchanged(s[1..]);
      assert s == [s[0]] + s[1..];
    }
  }

  /** For a cell without a phone number, `extract_name` is just `strip`. */
  lemma ExtractNameWithoutPhone(s: string)
    requires s != "" && !HasPhone(s)
    ensures ExtractName(s) == Some(Strip(s))
  {
    NoPhoneUnchanged(s);
  }

  // ---------------------------------------------------------------------
  // Loose matching of a name against the team leaders

  /** The parts of a leader's lower-cased "first last". */
  function LeaderParts(u: User): seq<string>
  {
    Split(Lower(u.firstName + " " + u.lastName))
  }

  /** A name part longer than two characters that contains, or is contained
      in, a part of the leader's name. */
  predicate PartsMatch(part: string, leaderPart: string)
  {
    |part| > 2 && (IsSubstring(part, leaderPart) || IsSubstring(leaderPart, part))
  }

  predicate NameMatches(parts: seq<string>, u: User)
  {
    exists i, j | 0 <= i < |parts| && 0 <= j < |LeaderParts(u)| :: PartsMatch(parts[i], LeaderParts(u)[j])
  }

  /** The first leader of `tls` the name parts match. */
  function FirstMatching(parts: seq<string>, tls: seq<User>): (r: Option<User>)
    ensures r.None? <==> forall u :: u in tls ==> !NameMatches(parts, u)
    ensures r.Some? ==> exists k :: 0 <= k < |tls| && tls[k] == r.value && NameMatches(parts, tls[k])
                                    && forall j :: 0 <= j < k ==> !NameMatches(parts, tls[j])
  {
    if tls == [] then None
    else if NameMatches(parts, tls[0]) then Some(tls[0])
    else
      var r := FirstMatching(parts, tls[1..]);
      assert tls == [tls[0]] + tls[1..];
      if r.Some? then
        var k :| 0 <= k < |tls[1..]| && tls[1..][k] == r.value && NameMatches(parts, tls[1..][k])
                 && forall j :: 0 <= j < k ==> !NameMatches(parts, tls[1..][j]);
        assert forall j :: 0 <= j < k + 1 ==> !NameMatches(parts, tls[j]) by {
          forall j | 0 <= j < k + 1 ensures !NameMatches(parts, tls[j]) {
            if j > 0 {
              assert tls[j] == tls[1..][j - 1];
            }
          }
        }
        r
      else r
  }

  /** `find_team_leader`: nothing for an empty name; otherwise the first
      leader, in list order, that the lower-cased name's parts match. */
  function FindTeamLeader(text: string, tls: seq<User>): Option<User>
  {
    if text == "" then None else FirstMatching(Split(Lower(text)), tls)
  }

  /** A name part of one or two characters never matches anything. */
  lemma ShortPartsNeverMatch(parts: seq<string>, u: User)
    requires forall i :: 0 <= i < |parts| ==> |parts[i]| <= 2
    ensures !NameMatches(parts, u)
  {
  }
}
