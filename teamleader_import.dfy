/** The team-leader import script: for each (first name, last name, e-mail)
    entry it looks the person up among the scanners, creates or links the
    team-leader record, and creates a user account in the team-leader group
    unless one with that e-mail exists or the e-mail gives an empty
    username. */
module TeamLeaderImport {
  import opened Text
  import opened Schema
  import ScannerImport
  import opened TeamLeaderNames

  // ---------------------------------------------------------------------
  // create_team_leader

  predicate HasEmail(us: seq<User>, email: string)
  {
    exists i | 0 <= i < |us| :: us[i].email == email
  }

  /** The account a new team leader gets: a fresh username derived from the
      e-mail, the e-mail as `create_user` normalises it, and membership of
      the team-leader group. */
  function LeaderAccount(us: seq<User>, first: string, last: string, email: string): User
  {
    User(NextUserId(us), UsernameFor(Usernames(us), BeforeAt(email)), NormalizeEmail(email), first, last, {TeamLeadersGroup})
  }

  /** `create_team_leader`: the new users and whether an account was made.
      The lookup compares the e-mail exactly as given. `create_user` raises
      a ValueError for an empty username, which the function catches and
      reports as no account. */
  function CreateSpec(us: seq<User>, first: string, last: string, email: string): (seq<User>, bool)
  {
    if HasEmail(us, email) then (us, false)
    else if UsernameFor(Usernames(us), BeforeAt(email)) == "" then (us, false)
    else (us + [LeaderAccount(us, first, last, email)], true)
  }

  method CreateTeamLeader(db: Store, first: string, last: string, email: string) returns (created: bool)
    modifies db`users
    ensures (db.users, created) == CreateSpec(old(db.users), first, last, email)
  {
    if HasEmail(db.users, email) {
      return false;
    }
    var username := FreshUsername(Usernames(db.users), email);
    if username == "" {
      return false;
    }
    db.users := db.users + [User(NextUserId(db.users), username, NormalizeEmail(email), first, last, {TeamLeadersGroup})];
    created := true;
  }

  /** The unique username column. */
  predicate DistinctUsernames(us: seq<User>)
  {
    us == [] || (DistinctUsernames(us[..|us| - 1]) && us[|us| - 1].username !in Usernames(us[..|us| - 1]))
  }

  /** The chosen username is empty exactly when the base is empty and no
      user holds the empty username. */
  lemma EmptyUsername(taken: set<string>, base: string)
    ensures UsernameFor(taken, base) == "" <==> base == "" && "" !in taken
  {
    UsernameForFacts(taken, base);
    if base in taken {
      var k :| k >= 1 && UsernameFor(taken, base) == base + NatToString(k) && SuffixesTaken(taken, base, k);
      assert |UsernameFor(taken, base)| > 0;
    }
  }

  /** An account is created exactly when no user has the e-mail as given
      and the username is not empty, that is, the e-mail has text before
      its '@' or the empty username is taken; otherwise the users stay as
      they were. A created account is a team leader with the entry's names,
      the normalised e-mail and a new username that starts with the
      e-mail's local part, so identifiers and usernames stay unique. */
  lemma CreateFacts(us: seq<User>, first: string, last: string, email: string)
    requires DistinctUserIds(us) && DistinctUsernames(us)
    ensures var (us', created) := CreateSpec(us, first, last, email);
            && (created <==> !HasEmail(us, email) && (BeforeAt(email) != "" || "" in Usernames(us)))
            && (!created ==> us' == us)
            && DistinctUserIds(us') && DistinctUsernames(us')
            && UserIds(us) <= UserIds(us')
            && (created ==>
                  && us' == us + [us'[|us|]]
                  && IsTeamLeader(us'[|us|])
                  && us'[|us|].firstName == first && us'[|us|].lastName == last
                  && us'[|us|].email == NormalizeEmail(email)
                  && us'[|us|].username != ""
                  && us'[|us|].username !in Usernames(us)
                  && BeforeAt(email) <= us'[|us|].username)
  {
    var (us', created) := CreateSpec(us, first, last, email);
    EmptyUsername(Usernames(us), BeforeAt(email));
    if created {
      var u := LeaderAccount(us, first, last, email);
      AppendUserIds(us, u);
      UsernameForFacts(Usernames(us), BeforeAt(email));
      assert us'[..|us|] == us;
    }
  }

  /** As written, the lookup compares the e-mail as given while the account
      stores it normalised. When the two differ, the same entry creates a
      second account, under another username, the next time it is
      imported. */
  lemma SecondAccountForSameEmail(us: seq<User>, first: string, last: string, email: string)
    requires NormalizeEmail(email) != email && BeforeAt(email) != "" && !HasEmail(us, email)
    ensures var (us1, c1) := CreateSpec(us, first, last, email);
            var (us2, c2) := CreateSpec(us1, first, last, email);
            && c1 && c2 && |us2| == |us| + 2
            && us2[|us|].email == us2[|us| + 1].email == NormalizeEmail(email)
            && us2[|us|].username != us2[|us| + 1].username
  {
    var u1 := LeaderAccount(us, first, last, email);
    var us1 := us + [u1];
    CreatedWhenFree(us, first, last, email);
    assert !HasEmail(us1, email) by {
      assert forall i :: 0 <= i < |us| ==> us1[i] == us[i];
    }
    CreatedWhenFree(us1, first, last, email);
    AppendUserIds(us, u1);
    UsernameForFacts(Usernames(us1), BeforeAt(email));
  }

  /** An e-mail nobody holds, with text before its '@', gets an account. */
  lemma CreatedWhenFree(us: seq<User>, first: string, last: string, email: string)
    requires BeforeAt(email) != "" && !HasEmail(us, email)
    ensures CreateSpec(us, first, last, email) == (us + [LeaderAccount(us, first, last, email)], true)
  {
    EmptyUsername(Usernames(us), BeforeAt(email));
  }

  /** An address whose domain has a capital letter is one such e-mail. */
  lemma CapitalDomainRewritten()
    ensures NormalizeEmail("a@B") == "a@b" != "a@B"
    ensures BeforeAt("a@B") == "a"
  {
    StripKeeps("a@B");
    assert "a@B" == "a" + "@" + "B";
    NormalizeOf("a@B", "a", "B");
    assert Lower("B") == "b";
  }

  /** The evidently intended `create_team_leader`: the lookup uses the
      e-mail as it is stored. */
  function CreateIntended(us: seq<User>, first: string, last: string, email: string): (seq<User>, bool)
  {
    if HasEmail(us, NormalizeEmail(email)) then (us, false)
    else if UsernameFor(Usernames(us), BeforeAt(email)) == "" then (us, false)
    else (us + [LeaderAccount(us, first, last, email)], true)
  }

  /** With the intended lookup, importing an entry again, under any names,
      creates no second account: the first import either made an account
      holding the stored form of the e-mail, or found one, or refused the
      empty username again. */
  lemma CreateIntendedOnce(us: seq<User>, first: string, last: string, email: string, first': string, last': string)
    requires BeforeAt(email) != "" || "" in Usernames(us)
    ensures var (us1, c1) := CreateIntended(us, first, last, email);
            && HasEmail(us1, NormalizeEmail(email))
            && CreateIntended(us1, first', last', email) == (us1, false)
  {
    EmptyUsername(Usernames(us), BeforeAt(email));
    var (us1, c1) := CreateIntended(us, first, last, email);
    if c1 {
      assert us1[|us|].email == NormalizeEmail(email);
    }
  }

  // ---------------------------------------------------------------------
  // check_scanner_exists

  /** `.first()` of a scanner query: the matching scanner with the least
      identifier. */
  function LeastIdNamed(ss: seq<Scanner>, first: string, last: string): (r: Option<Scanner>)
    ensures r.None? <==> !ScannerImport.Known(ss, first, last)
    ensures r.Some? ==> r.value in ss && ScannerImport.NamedIgnoringCase(r.value, first, last)
    ensures r.Some? ==> forall i :: 0 <= i < |ss| && ScannerImport.NamedIgnoringCase(ss[i], first, last) ==> r.value.id <= ss[i].id
  {
    if ss == [] then None
    else
      var r0 := LeastIdNamed(ss[..|ss| - 1], first, last);
      var s := ss[|ss| - 1];
      assert forall i :: 0 <= i < |ss| - 1 ==> ss[..|ss| - 1][i] == ss[i];
      if ScannerImport.NamedIgnoringCase(s, first, last) && (r0.None? || s.id < r0.value.id) then Some(s) else r0
  }

  /** A scanner with the same name ignoring case, else one whose name
      matches the transliterated name. */
  function ScannerLookup(ss: seq<Scanner>, first: string, last: string): Option<Scanner>
  {
    var direct := LeastIdNamed(ss, first, last);
    if direct.Some? then direct else LeastIdNamed(ss, Transliterate(first), Transliterate(last))
  }

  method CheckScannerExists(ss: seq<Scanner>, first: string, last: string) returns (r: Option<Scanner>)
    ensures r == ScannerLookup(ss, first, last)
  {
    r := LeastIdNamed(ss, first, last);
    if r.None? {
      var firstEn := TransliterateText(first);
      var lastEn := TransliterateText(last);
      r := LeastIdNamed(ss, firstEn, lastEn);
    }
  }

  /** The direct match wins whenever there is one; the transliterated names
      are tried only otherwise; nothing is found only when both fail. */
  lemma ScannerLookupFacts(ss: seq<Scanner>, first: string, last: string)
    ensures var r := ScannerLookup(ss, first, last);
            && (r.None? <==> !ScannerImport.Known(ss, first, last) && !ScannerImport.Known(ss, Transliterate(first), Transliterate(last)))
            && (ScannerImport.Known(ss, first, last) ==> r.Some? && ScannerImport.NamedIgnoringCase(r.value, first, last))
            && (r.Some? && !ScannerImport.Known(ss, first, last) ==>
                  ScannerImport.NamedIgnoringCase(r.value, Transliterate(first), Transliterate(last)))
            && (r.Some? ==> r.value in ss)
  {
  }

  // ---------------------------------------------------------------------
  // The import loop

  /** One entry of `team_leaders_data`. */
  datatype Entry = Entry(first: string, last: string, email: string)

  datatype Counts = Counts(added: nat, skipped: nat, scannersFound: nat)

  predicate LeaderNamed(r: TeamLeaderRec, first: string, last: string)
  {
    EqualsIgnoringCase(r.firstName, first) && EqualsIgnoringCase(r.lastName, last)
  }

  /** `.first()` of the team-leader query: the earliest matching record
      (the records are kept in primary-key order), -1 when none matches. */
  function FirstLeaderNamed(tls: seq<TeamLeaderRec>, first: string, last: string): (r: int)
    ensures -1 <= r < |tls|
    ensures r == -1 <==> forall i :: 0 <= i < |tls| ==> !LeaderNamed(tls[i], first, last)
    ensures r >= 0 ==> LeaderNamed(tls[r], first, last)
                       && forall j :: 0 <= j < r ==> !LeaderNamed(tls[j], first, last)
  {
    if tls == [] then -1
    else
      var r0 := FirstLeaderNamed(tls[..|tls| - 1], first, last);
      assert forall i :: 0 <= i < |tls| - 1 ==> tls[..|tls| - 1][i] == tls[i];
      if r0 >= 0 then r0
      else if LeaderNamed(tls[|tls| - 1], first, last) then |tls| - 1
      else -1
  }

  function IdOf(s: Option<Scanner>): Option<ScannerId>
  {
    if s.Some? then Some(s.value.id) else None
  }

  /** The team-leader records after one entry: a found record gets the
      scanner only when it has none yet; otherwise a record is appended,
      linked to the scanner when there is one. A new record has no Telegram
      id. */
  function LeadersAfter(tls: seq<TeamLeaderRec>, en: Entry, sc: Option<Scanner>): seq<TeamLeaderRec>
  {
    var k := FirstLeaderNamed(tls, en.first, en.last);
    if k >= 0 then
      if tls[k].scanner.None? && sc.Some? then tls[k := tls[k].(scanner := Some(sc.value.id))] else tls
    else tls + [TeamLeaderRec(en.first, en.last, en.email, "", IdOf(sc))]
  }

  /** An entry with an e-mail, once the scanner lookup gave `sc`. */
  function EntryWith(t: Tables, n: Counts, en: Entry, sc: Option<Scanner>): (Tables, Counts)
  {
    var found := if sc.Some? then n.scannersFound + 1 else n.scannersFound;
    var isNew := FirstLeaderNamed(t.teamLeaders, en.first, en.last) == -1;
    var added := if isNew then n.added + 1 else n.added;
    var us := CreateSpec(t.users, en.first, en.last, en.email).0;
    (t.(teamLeaders := LeadersAfter(t.teamLeaders, en, sc), users := us), Counts(added, n.skipped, found))
  }

  /** One entry of the loop: a blank e-mail is only counted as skipped. */
  function EntryStep(t: Tables, n: Counts, en: Entry): (Tables, Counts)
  {
    if Strip(en.email) == "" then (t, n.(skipped := n.skipped + 1))
    else EntryWith(t, n, en, ScannerLookup(t.scanners, en.first, en.last))
  }

  function Run(t: Tables, entries: seq<Entry>): (Tables, Counts)
  {
    if entries == [] then (t, Counts(0, 0, 0))
    else
      var (t', n) := Run(t, entries[..|entries| - 1]);
      EntryStep(t', n, entries[|entries| - 1])
  }

  /** The lookup and update of the team-leader record; `isNew` tells
      whether a record was appended. */
  method LinkLeader(db: Store, en: Entry, sc: Option<Scanner>) returns (isNew: bool)
    modifies db`teamLeaders
    ensures db.teamLeaders == LeadersAfter(old(db.teamLeaders), en, sc)
    ensures isNew == (FirstLeaderNamed(old(db.teamLeaders), en.first, en.last) == -1)
  {
    var k := FirstLeaderNamed(db.teamLeaders, en.first, en.last);
    isNew := k == -1;
    if k >= 0 {
      if db.teamLeaders[k].scanner.None? && sc.Some? {
        db.teamLeaders := db.teamLeaders[k := db.teamLeaders[k].(scanner := Some(sc.value.id))];
      }
    } else {
      db.teamLeaders := db.teamLeaders + [TeamLeaderRec(en.first, en.last, en.email, "", IdOf(sc))];
    }
  }

  /** The record update and the account creation of one entry. */
  method ApplyEntry(db: Store, n: Counts, en: Entry, sc: Option<Scanner>) returns (n': Counts)
    modifies db`users, db`teamLeaders
    ensures (db.Snapshot(), n') == EntryWith(old(db.Snapshot()), n, en, sc)
  {
    var found := if sc.Some? then n.scannersFound + 1 else n.scannersFound;
    var isNew := LinkLeader(db, en, sc);
    var added := if isNew then n.added + 1 else n.added;
    var _ := CreateTeamLeader(db, en.first, en.last, en.email);
    n' := Counts(added, n.skipped, found);
  }

  method ImportEntry(db: Store, n: Counts, en: Entry) returns (n': Counts)
    modifies db`users, db`teamLeaders
    ensures (db.Snapshot(), n') == EntryStep(old(db.Snapshot()), n, en)
  {
    if Strip(en.email) == "" {
      return n.(skipped := n.skipped + 1);
    }
    var sc := CheckScannerExists(db.scanners, en.first, en.last);
    n' := ApplyEntry(db, n, en, sc);
  }

  /** `import_team_leaders`: returns the added, skipped and scanner-found
      counts. */
  method ImportTeamLeaders(db: Store, entries: seq<Entry>) returns (added: nat, skipped: nat, found: nat)
    modifies db`users, db`teamLeaders
    ensures (db.Snapshot(), Counts(added, skipped, found)) == Run(old(db.Snapshot()), entries)
  {
    var n := Counts(0, 0, 0);
    for i := 0 to |entries|
      invariant (db.Snapshot(), n) == Run(old(db.Snapshot()), entries[..i])
    {
      assert entries[..i + 1][..i] == entries[..i];
      n := ImportEntry(db, n, entries[i]);
    }
    assert entries[..|entries|] == entries;
    added, skipped, found := n.added, n.skipped, n.scannersFound;
  }

  // ---------------------------------------------------------------------
  // Properties

  predicate BlankEmail(en: Entry)
  {
    Strip(en.email) == ""
  }

  function BlankCount(entries: seq<Entry>): nat
  {
    if entries == [] then 0
    else BlankCount(entries[..|entries| - 1]) + (if BlankEmail(entries[|entries| - 1]) then 1 else 0)
  }

  /** Records `new_` grew from `old_`: the old ones keep their names and
      their scanner links, except that a missing link may have been filled
      in with a scanner; new ones are appended. */
  predicate LinkedOrKept(old_: seq<TeamLeaderRec>, new_: seq<TeamLeaderRec>)
  {
    && |old_| <= |new_|
    && forall i :: 0 <= i < |old_| ==>
         || new_[i] == old_[i]
         || (old_[i].scanner.None? && new_[i].scanner.Some? && new_[i] == old_[i].(scanner := new_[i].scanner))
  }

  lemma LinkedOrKeptTrans(a: seq<TeamLeaderRec>, b: seq<TeamLeaderRec>, c: seq<TeamLeaderRec>)
    requires LinkedOrKept(a, b) && LinkedOrKept(b, c)
    ensures LinkedOrKept(a, c)
  {
  }

  /** Every link from a team-leader record points at one of `ids`. */
  predicate LinksRefer(tls: seq<TeamLeaderRec>, ids: set<ScannerId>)
  {
    forall i :: 0 <= i < |tls| && tls[i].scanner.Some? ==> tls[i].scanner.value in ids
  }

  predicate HasLeaderNamed(tls: seq<TeamLeaderRec>, first: string, last: string)
  {
    exists i | 0 <= i < |tls| :: LeaderNamed(tls[i], first, last)
  }

  /** An entry's record update. When a record has the name, ignoring case,
      the first such record keeps its link if it has one and otherwise takes
      the found scanner's id, staying as it was when no scanner was found;
      no other record changes. When none has the name, a record with the
      entry's names and e-mail, no Telegram id and the found scanner's id
      is appended. Links stay valid. */
  lemma LeadersAfterFacts(tls: seq<TeamLeaderRec>, en: Entry, sc: Option<Scanner>, ids: set<ScannerId>)
    ensures var r, k := LeadersAfter(tls, en, sc), FirstLeaderNamed(tls, en.first, en.last);
            && LinkedOrKept(tls, r)
            && |r| == |tls| + (if HasLeaderNamed(tls, en.first, en.last) then 0 else 1)
            && HasLeaderNamed(r, en.first, en.last)
            && (k >= 0 ==>
                  && (forall i :: 0 <= i < |tls| && i != k ==> r[i] == tls[i])
                  && r[k] == tls[k].(scanner := if tls[k].scanner.Some? then tls[k].scanner else IdOf(sc)))
            && (k < 0 ==>
                  && r[..|tls|] == tls
                  && r[|tls|] == TeamLeaderRec(en.first, en.last, en.email, "", IdOf(sc)))
            && (sc.None? ==> r[..|tls|] == tls)
            && (LinksRefer(tls, ids) && (sc.Some? ==> sc.value.id in ids) ==> LinksRefer(r, ids))
  {
    var k := FirstLeaderNamed(tls, en.first, en.last);
    var r := LeadersAfter(tls, en, sc);
    if k >= 0 {
      assert LeaderNamed(r[k], en.first, en.last);
    } else {
      assert LeaderNamed(r[|tls|], en.first, en.last);
    }
  }

  /** The old accounts stay, in place, and unless the username would be
      empty an account with the e-mail, as given or normalised, exists
      afterwards. */
  lemma CreateGrows(us: seq<User>, first: string, last: string, email: string)
    ensures var us' := CreateSpec(us, first, last, email).0;
            && |us| <= |us'| && us'[..|us|] == us
            && (BeforeAt(email) != "" ==> HasEmail(us', email) || HasEmail(us', NormalizeEmail(email)))
  {
    var us' := CreateSpec(us, first, last, email).0;
    EmptyUsername(Usernames(us), BeforeAt(email));
    if us' != us {
      assert us'[|us|].email == NormalizeEmail(email);
      assert us'[..|us|] == us;
    }
  }

  /** An entry with an e-mail leaves a record with its name, ignoring case,
      and, unless the e-mail has nothing before its '@', an account with its
      e-mail as given or as `create_user` stores it. */
  predicate Settled(t: Tables, en: Entry)
  {
    !BlankEmail(en) ==>
      && HasLeaderNamed(t.teamLeaders, en.first, en.last)
      && (BeforeAt(en.email) != "" ==> HasEmail(t.users, en.email) || HasEmail(t.users, NormalizeEmail(en.email)))
  }

  /** What one entry does to the tables and the counters: a blank e-mail
      changes nothing and only counts as skipped; any other entry changes
      only the users and the team-leader records, and settles the entry. */
  lemma StepFacts(t: Tables, n: Counts, en: Entry)
    ensures var (t', n') := EntryStep(t, n, en);
            && (BlankEmail(en) ==> t' == t && n' == n.(skipped := n.skipped + 1))
            && t' == t.(users := t'.users, teamLeaders := t'.teamLeaders)
            && n'.skipped == n.skipped + (if BlankEmail(en) then 1 else 0)
            && n'.added + n'.skipped <= n.added + n.skipped + 1
            && n'.scannersFound + n'.skipped <= n.scannersFound + n.skipped + 1
            && |t'.teamLeaders| == |t.teamLeaders| + n'.added - n.added
            && LinkedOrKept(t.teamLeaders, t'.teamLeaders)
            && |t.users| <= |t'.users| && t'.users[..|t.users|] == t.users
            && Settled(t', en)
  {
    if BlankEmail(en) {
      assert EntryStep(t, n, en) == (t, n.(skipped := n.skipped + 1));
    } else {
      var sc := ScannerLookup(t.scanners, en.first, en.last);
      assert EntryStep(t, n, en) == EntryWith(t, n, en, sc);
      EntryWithFacts(t, n, en, sc);
    }
  }

  lemma EntryWithFacts(t: Tables, n: Counts, en: Entry, sc: Option<Scanner>)
    requires !BlankEmail(en)
    ensures var (t', n') := EntryWith(t, n, en, sc);
            && t' == t.(users := t'.users, teamLeaders := t'.teamLeaders)
            && n'.skipped == n.skipped
            && n'.added <= n.added + 1
            && n'.scannersFound <= n.scannersFound + 1
            && |t'.teamLeaders| == |t.teamLeaders| + n'.added - n.added
            && LinkedOrKept(t.teamLeaders, t'.teamLeaders)
            && |t.users| <= |t'.users| && t'.users[..|t.users|] == t.users
            && Settled(t', en)
  {
    LeadersAfterFacts(t.teamLeaders, en, sc, {});
    CreateGrows(t.users, en.first, en.last, en.email);
  }

  /** The counters of an entry with an e-mail: skipped stays, found grows
      exactly when a scanner was found, added grows exactly when no record
      had the name. */
  lemma StepCounts(t: Tables, n: Counts, en: Entry)
    requires !BlankEmail(en)
    ensures var n' := EntryStep(t, n, en).1;
            && n'.skipped == n.skipped
            && n'.scannersFound == n.scannersFound + (if ScannerLookup(t.scanners, en.first, en.last).Some? then 1 else 0)
            && n'.added == n.added + (if HasLeaderNamed(t.teamLeaders, en.first, en.last) then 0 else 1)
  {
  }

  /** Blank e-mails are exactly the skipped entries; each added record is
      appended; existing records only ever gain a missing scanner link;
      only the users and the team-leader records change. */
  lemma {:induction false} RunFacts(t: Tables, entries: seq<Entry>)
    ensures var (t', n) := Run(t, entries);
            && n.skipped == BlankCount(entries)
            && n.added + n.skipped <= |entries|
            && n.scannersFound + n.skipped <= |entries|
            && |t'.teamLeaders| == |t.teamLeaders| + n.added
            && LinkedOrKept(t.teamLeaders, t'.teamLeaders)
            && t' == t.(users := t'.users, teamLeaders := t'.teamLeaders)
  {
    if entries != [] {
      var init := entries[..|entries| - 1];
      RunFacts(t, init);
      var (t0, n0) := Run(t, init);
      StepFacts(t0, n0, entries[|entries| - 1]);
      var (t1, n1) := EntryStep(t0, n0, entries[|entries| - 1]);
      assert (t1, n1) == Run(t, entries);
      LinkedOrKeptTrans(t.teamLeaders, t0.teamLeaders, t1.teamLeaders);
    }
  }

  lemma SettledGrows(t: Tables, t': Tables, en: Entry)
    requires Settled(t, en) && LinkedOrKept(t.teamLeaders, t'.teamLeaders)
    requires |t.users| <= |t'.users| && t'.users[..|t.users|] == t.users
    ensures Settled(t', en)
  {
    if !BlankEmail(en) {
      var i :| 0 <= i < |t.teamLeaders| && LeaderNamed(t.teamLeaders[i], en.first, en.last);
      assert LeaderNamed(t'.teamLeaders[i], en.first, en.last);
      if BeforeAt(en.email) != "" {
        var j :| 0 <= j < |t.users| && (t.users[j].email == en.email || t.users[j].email == NormalizeEmail(en.email));
        assert t'.users[j] == t.users[j];
      }
    }
  }

  lemma SettledExtend(t0: Tables, t1: Tables, init: seq<Entry>, en: Entry)
    requires forall k :: 0 <= k < |init| ==> Settled(t0, init[k])
    requires Settled(t1, en) && LinkedOrKept(t0.teamLeaders, t1.teamLeaders)
    requires |t0.users| <= |t1.users| && t1.users[..|t0.users|] == t0.users
    ensures forall k :: 0 <= k < |init + [en]| ==> Settled(t1, (init + [en])[k])
  {
    forall k | 0 <= k < |init + [en]| ensures Settled(t1, (init + [en])[k]) {
      if k < |init| {
        SettledGrows(t0, t1, init[k]);
      }
    }
  }

  /** After the run every entry with an e-mail has a team-leader record with
      its name and a user account with its e-mail. */
  lemma {:induction false} RunSettlesEntries(t: Tables, entries: seq<Entry>)
    ensures var t' := Run(t, entries).0;
            && (forall k :: 0 <= k < |entries| ==> Settled(t', entries[k]))
            && LinkedOrKept(t.teamLeaders, t'.teamLeaders)
            && |t.users| <= |t'.users| && t'.users[..|t.users|] == t.users
  {
    if entries != [] {
      var init, en := entries[..|entries| - 1], entries[|entries| - 1];
      assert entries == init + [en];
      RunSettlesEntries(t, init);
      var (t0, n0) := Run(t, init);
      StepFacts(t0, n0, entries[|entries| - 1]);
      var t1 := EntryStep(t0, n0, entries[|entries| - 1]).0;
      assert t1 == Run(t, entries).0;
      SettledExtend(t0, t1, init, entries[|entries| - 1]);
      LinkedOrKeptTrans(t.teamLeaders, t0.teamLeaders, t1.teamLeaders);
      assert t1.users[..|t.users|] == t0.users[..|t.users|];
    }
  }

  /** One entry keeps the tables consistent, the usernames unique and the
      scanner links valid. */
  lemma StepKeepsKeys(t: Tables, n: Counts, en: Entry)
    requires Consistent(t) && DistinctUsernames(t.users) && LinksRefer(t.teamLeaders, ScannerIds(t.scanners))
    ensures var t' := EntryStep(t, n, en).0;
            Consistent(t') && DistinctUsernames(t'.users) && LinksRefer(t'.teamLeaders, ScannerIds(t'.scanners))
  {
    if !BlankEmail(en) {
      CreateFacts(t.users, en.first, en.last, en.email);
      var sc := ScannerLookup(t.scanners, en.first, en.last);
      ScannerLookupFacts(t.scanners, en.first, en.last);
      if sc.Some? {
        var j :| 0 <= j < |t.scanners| && t.scanners[j] == sc.value;
        ScannerIdsMember(t.scanners, j);
      }
      LeadersAfterFacts(t.teamLeaders, en, sc, ScannerIds(t.scanners));
    }
  }

  lemma {:induction false} RunKeepsKeys(t: Tables, entries: seq<Entry>)
    requires Consistent(t) && DistinctUsernames(t.users) && LinksRefer(t.teamLeaders, ScannerIds(t.scanners))
    ensures var t' := Run(t, entries).0;
            Consistent(t') && DistinctUsernames(t'.users) && LinksRefer(t'.teamLeaders, ScannerIds(t'.scanners))
  {
    if entries != [] {
      var init := entries[..|entries| - 1];
      RunKeepsKeys(t, init);
      var (t0, n0) := Run(t, init);
      StepKeepsKeys(t0, n0, entries[|entries| - 1]);
      assert EntryStep(t0, n0, entries[|entries| - 1]).0 == Run(t, entries).0;
    }
  }
}
