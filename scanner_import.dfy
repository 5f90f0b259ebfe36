/** The scanner import script: column B of the scanner sheet holds one full
    name per row; each name of at least two words becomes a scanner unless a
    scanner with the same first and last name, ignoring case, already
    exists. Two counters report what was added and what was skipped. A
    created scanner takes the e-mail column's default, the empty text; since
    that column is unique, a creation while another scanner holds it raises,
    and the exception ends the import. */
module ScannerImport {
  import opened Text
  import opened Schema

  /** One entry of column B once empty cells are dropped: text, or a value
      of another type (a number, a date). */
  datatype Cell = OtherValue | TextCell(text: string)

  /** The two counters, and whether the loop ended on an exception. */
  datatype Counts = Counts(added: nat, skipped: nat, raised: bool)

  /** The e-mail column of a scanner created from a name alone: the field's
      default, the empty text. */
  const CreatedEmail: Option<string> := Some("")

  /** Entries the loop passes over without counting them. */
  predicate Blank(c: Cell)
  {
    c.OtherValue? || Strip(c.text) == ""
  }

  /** The first word, and the other words joined by one space, of a name of
      at least two words. */
  function NameParts(s: string): Option<(string, string)>
  {
    var parts := Split(Strip(s));
    if |parts| >= 2 then Some((parts[0], Join(parts[1..], " "))) else None
  }

  /** A name has parts exactly when it has two words or more; the first name
      is the first word. */
  lemma NamePartsWords(s: string)
    ensures NameParts(s).Some? <==> |Split(s)| >= 2
    ensures NameParts(s).Some? ==> NameParts(s).value.0 == Split(s)[0] && NameParts(s).value.0 != ""
  {
    SplitStrip(s);
  }

  predicate NamedIgnoringCase(sc: Scanner, first: string, last: string)
  {
    EqualsIgnoringCase(sc.firstName, first) && EqualsIgnoringCase(sc.lastName, last)
  }

  /** The `first_name__iexact` and `last_name__iexact` query finds a row. */
  predicate Known(ss: seq<Scanner>, first: string, last: string)
  {
    exists i | 0 <= i < |ss| :: NamedIgnoringCase(ss[i], first, last)
  }

  /** Creating a scanner with e-mail `email` breaks the unique e-mail column. */
  predicate EmailTaken(ss: seq<Scanner>, email: Option<string>)
  {
    email.Some? && email.value in ScannerEmails(ss)
  }

  /** One entry of the loop; created scanners get e-mail `email`. */
  function Step(ss: seq<Scanner>, n: Counts, c: Cell, email: Option<string>): (seq<Scanner>, Counts)
  {
    if Blank(c) then (ss, n)
    else
      var parts := NameParts(c.text);
      if parts.None? then (ss, n.(skipped := n.skipped + 1))
      else AddUnlessKnown(ss, n, parts.value.0, parts.value.1, email)
  }

  /** A name already known is skipped; otherwise a scanner is created, which
      raises when its e-mail is taken. */
  function AddUnlessKnown(ss: seq<Scanner>, n: Counts, first: string, last: string,
                          email: Option<string>): (seq<Scanner>, Counts)
  {
    if Known(ss, first, last) then (ss, n.(skipped := n.skipped + 1))
    else if EmailTaken(ss, email) then (ss, n.(raised := true))
    else (ss + [Scanner(NextScannerId(ss), first, last, email)], n.(added := n.added + 1))
  }

  /** The loop over the entries, from zero counts; an exception ends it, and
      the scanners created before it stay. */
  function Run(ss: seq<Scanner>, cells: seq<Cell>, email: Option<string>): (seq<Scanner>, Counts)
  {
    if cells == [] then (ss, Counts(0, 0, false))
    else
      var run := Run(ss, cells[..|cells| - 1], email);
      if run.1.raised then run
      else Step(run.0, run.1, cells[|cells| - 1], email)
  }

  /** The whole import: a sheet with fewer than two columns changes nothing. */
  function ImportSpec(ss: seq<Scanner>, columns: nat, cells: seq<Cell>, email: Option<string>): (seq<Scanner>, Counts)
  {
    if columns < 2 then (ss, Counts(0, 0, false)) else Run(ss, cells, email)
  }

  // ---------------------------------------------------------------------
  // The script

  method ImportOne(db: Store, n: Counts, c: Cell) returns (n': Counts)
    modifies db`scanners
    ensures (db.scanners, n') == Step(old(db.scanners), n, c, CreatedEmail)
  {
    n' := n;
    if c.OtherValue? || Strip(c.text) == "" {
      return;
    }
    var parts := NameParts(c.text);
    if parts.None? {
      n' := n.(skipped := n.skipped + 1);
      return;
    }
    n' := AddScanner(db, n, parts.value.0, parts.value.1);
  }

  method AddScanner(db: Store, n: Counts, first: string, last: string) returns (n': Counts)
    modifies db`scanners
    ensures (db.scanners, n') == AddUnlessKnown(old(db.scanners), n, first, last, CreatedEmail)
  {
    if Known(db.scanners, first, last) {
      n' := n.(skipped := n.skipped + 1);
    } else if "" in ScannerEmails(db.scanners) {
      n' := n.(raised := true);
    } else {
      db.scanners := db.scanners + [Scanner(NextScannerId(db.scanners), first, last, CreatedEmail)];
      n' := n.(added := n.added + 1);
    }
  }

  /** `import_scanners_from_excel`: the added and skipped counts, and whether
      an exception ended the loop. */
  method ImportScanners(db: Store, columns: nat, cells: seq<Cell>) returns (added: nat, skipped: nat, raised: bool)
    modifies db`scanners
    ensures (db.scanners, Counts(added, skipped, raised)) == ImportSpec(old(db.scanners), columns, cells, CreatedEmail)
  {
    if columns < 2 {
      return 0, 0, false;
    }
    var n := Counts(0, 0, false);
    var i := 0;
    while i < |cells| && !n.raised
      invariant 0 <= i <= |cells|
      invariant (db.scanners, n) == Run(old(db.scanners), cells[..i], CreatedEmail)
    {
      assert cells[..i + 1][..i] == cells[..i];
      n := ImportOne(db, n, cells[i]);
      i := i + 1;
    }
    if n.raised {
      RaisedStays(old(db.scanners), cells, i, CreatedEmail);
    } else {
      assert cells[..i] == cells;
    }
    added, skipped, raised := n.added, n.skipped, n.raised;
  }

  /** Once an entry has raised, the later entries are not read. */
  lemma {:induction false} RaisedStays(ss: seq<Scanner>, cells: seq<Cell>, i: nat, email: Option<string>)
    requires i <= |cells| && Run(ss, cells[..i], email).1.raised
    ensures Run(ss, cells, email) == Run(ss, cells[..i], email)
    decreases |cells| - i
  {
    if i < |cells| {
      assert cells[..i + 1][..i] == cells[..i];
      RaisedStays(ss, cells, i + 1, email);
    } else {
      assert cells[..i] == cells;
    }
  }

  // ---------------------------------------------------------------------
  // Properties

  /** The number of entries that are neither blank nor of another type. */
  function NonBlankCount(cells: seq<Cell>): nat
  {
    if cells == [] then 0
    else NonBlankCount(cells[..|cells| - 1]) + (if Blank(cells[|cells| - 1]) then 0 else 1)
  }

  /** One entry raises exactly when it is a new name of two or more words
      and the e-mail is taken; then nothing changes. Otherwise it counts
      itself once, as added or as skipped, unless it is blank; an addition
      appends one scanner with a fresh identifier, the free e-mail, and a
      name no earlier scanner carries, ignoring case. */
  lemma StepShape(ss: seq<Scanner>, n: Counts, c: Cell, email: Option<string>)
    requires !n.raised
    ensures var st := Step(ss, n, c, email);
            && (st.1.raised <==> !Blank(c) && NameParts(c.text).Some?
                                 && !Known(ss, NameParts(c.text).value.0, NameParts(c.text).value.1)
                                 && EmailTaken(ss, email))
            && (st.1.raised ==> st == (ss, n.(raised := true)))
            && (!st.1.raised ==> st.1.added + st.1.skipped == n.added + n.skipped + (if Blank(c) then 0 else 1))
            && n.added <= st.1.added <= n.added + 1
            && (st.1.added == n.added ==> st.0 == ss)
            && (st.1.added == n.added + 1 ==>
                  && st.0 == ss + [st.0[|ss|]]
                  && st.0[|ss|].id == NextScannerId(ss) && st.0[|ss|].email == email
                  && !EmailTaken(ss, email)
                  && forall i :: 0 <= i < |ss| ==> !SameNameIgnoringCase(ss[i], st.0[|ss|]))
  {
    if !Blank(c) && NameParts(c.text).Some? {
      var first, last := NameParts(c.text).value.0, NameParts(c.text).value.1;
      if !Known(ss, first, last) && !EmailTaken(ss, email) {
        var sc := Scanner(NextScannerId(ss), first, last, email);
        assert Step(ss, n, c, email).0 == ss + [sc];
        forall i | 0 <= i < |ss| ensures !SameNameIgnoringCase(ss[i], sc) {
          assert !NamedIgnoringCase(ss[i], first, last);
        }
      }
    }
  }

  /** Each non-blank entry before an exception is counted once, as added or
      as skipped, so without an exception every one is; the existing
      scanners stay, and one scanner is appended per addition. */
  lemma {:induction false} RunCounts(ss: seq<Scanner>, cells: seq<Cell>, email: Option<string>)
    ensures var run := Run(ss, cells, email);
            && run.1.added + run.1.skipped <= NonBlankCount(cells)
            && (!run.1.raised ==> run.1.added + run.1.skipped == NonBlankCount(cells))
            && |run.0| == |ss| + run.1.added
            && run.0[..|ss|] == ss
  {
    if cells != [] {
      var init := cells[..|cells| - 1];
      RunCounts(ss, init, email);
      var run0 := Run(ss, init, email);
      if !run0.1.raised {
        StepShape(run0.0, run0.1, cells[|cells| - 1], email);
        RunGrows(ss, run0.0, Run(ss, cells, email).0);
      }
    }
  }

  /** Appending to a sequence that starts with `ss` keeps that start. */
  lemma RunGrows(ss: seq<Scanner>, r0: seq<Scanner>, r: seq<Scanner>)
    requires |ss| <= |r0| && r0[..|ss|] == ss
    requires r == r0 || (|r| == |r0| + 1 && r == r0 + [r[|r0|]])
    ensures |ss| <= |r| && r[..|ss|] == ss
  {
    assert r[..|r0|] == r0;
    assert r[..|ss|] == r0[..|ss|];
  }

  /** A name of two or more words belongs, ignoring case, to some scanner. */
  predicate Covered(ss: seq<Scanner>, c: Cell)
  {
    !Blank(c) && NameParts(c.text).Some? ==>
      Known(ss, NameParts(c.text).value.0, NameParts(c.text).value.1)
  }

  lemma CoveredGrows(ss: seq<Scanner>, r: seq<Scanner>, c: Cell)
    requires |ss| <= |r| && r[..|ss|] == ss && Covered(ss, c)
    ensures Covered(r, c)
  {
    if !Blank(c) && NameParts(c.text).Some? {
      var first, last := NameParts(c.text).value.0, NameParts(c.text).value.1;
      var i :| 0 <= i < |ss| && NamedIgnoringCase(ss[i], first, last);
      assert r[i] == ss[i];
    }
  }

  /** An entry that does not raise keeps the scanners before it and leaves
      its own name covered. */
  lemma StepCovers(ss: seq<Scanner>, n: Counts, c: Cell, email: Option<string>)
    requires !Step(ss, n, c, email).1.raised
    ensures var r := Step(ss, n, c, email).0;
            |ss| <= |r| && r[..|ss|] == ss && Covered(r, c)
  {
    var r := Step(ss, n, c, email).0;
    if !Blank(c) && NameParts(c.text).Some? {
      var first, last := NameParts(c.text).value.0, NameParts(c.text).value.1;
      if !Known(ss, first, last) {
        assert NamedIgnoringCase(r[|ss|], first, last);
      }
    }
  }

  /** After a run that did not raise, every name of two or more words in the
      sheet belongs, ignoring case, to some scanner: each one was either
      found or created. */
  lemma {:induction false} RunCoversNames(ss: seq<Scanner>, cells: seq<Cell>, email: Option<string>)
    ensures !Run(ss, cells, email).1.raised ==>
              forall k :: 0 <= k < |cells| ==> Covered(Run(ss, cells, email).0, cells[k])
  {
    if cells != [] && !Run(ss, cells, email).1.raised {
      var init, c := cells[..|cells| - 1], cells[|cells| - 1];
      RunCoversNames(ss, init, email);
      CoversStep(ss, init, c, email);
      assert init + [c] == cells;
    }
  }

  /** One more entry that does not raise keeps the earlier names covered and
      covers its own. */
  lemma CoversStep(ss: seq<Scanner>, init: seq<Cell>, c: Cell, email: Option<string>)
    requires !Run(ss, init + [c], email).1.raised
    requires !Run(ss, init, email).1.raised ==>
               forall k :: 0 <= k < |init| ==> Covered(Run(ss, init, email).0, init[k])
    ensures forall k :: 0 <= k < |init| + 1 ==> Covered(Run(ss, init + [c], email).0, (init + [c])[k])
  {
    var cells := init + [c];
    assert cells[..|cells| - 1] == init;
    var run0 := Run(ss, init, email);
    var r0 := run0.0;
    var r := Step(r0, run0.1, c, email).0;
    assert r == Run(ss, cells, email).0;
    StepCovers(r0, run0.1, c, email);
    forall k | 0 <= k < |init| ensures Covered(r, cells[k]) {
      assert cells[k] == init[k];
      CoveredGrows(r0, r, init[k]);
    }
  }

  /** Two scanners carry the same name when case is ignored. */
  predicate SameNameIgnoringCase(a: Scanner, b: Scanner)
  {
    NamedIgnoringCase(a, b.firstName, b.lastName)
  }

  /** The run never creates a scanner whose name, ignoring case, another
      scanner already carries: neither an old one nor one created earlier in
      the run. */
  lemma {:induction false} NoCaseDuplicatesCreated(ss: seq<Scanner>, cells: seq<Cell>, email: Option<string>)
    ensures NoNamesakesAfter(ss, Run(ss, cells, email).0)
  {
    if cells != [] {
      var init := cells[..|cells| - 1];
      NoCaseDuplicatesCreated(ss, init, email);
      var run0 := Run(ss, init, email);
      if !run0.1.raised {
        StepNoNamesakes(ss, run0.0, run0.1, cells[|cells| - 1], email);
      }
    }
  }

  /** No scanner from position `|ss|` on shares its name, ignoring case,
      with a scanner before it. */
  predicate NoNamesakesAfter(ss: seq<Scanner>, r: seq<Scanner>)
  {
    forall i, j :: 0 <= i < j < |r| && |ss| <= j ==> !SameNameIgnoringCase(r[i], r[j])
  }

  /** One more entry creates no case-insensitive namesake of an earlier
      scanner. */
  lemma StepNoNamesakes(ss: seq<Scanner>, r0: seq<Scanner>, n0: Counts, c: Cell, email: Option<string>)
    requires !n0.raised && NoNamesakesAfter(ss, r0)
    ensures NoNamesakesAfter(ss, Step(r0, n0, c, email).0)
  {
    StepShape(r0, n0, c, email);
    var r := Step(r0, n0, c, email).0;
    if r != r0 {
      AppendNoNamesakes(ss, r0, r[|r0|]);
    }
  }

  /** Appending a scanner whose name no earlier one carries keeps the
      scanners after `ss` free of case-insensitive namesakes. */
  lemma AppendNoNamesakes(ss: seq<Scanner>, r0: seq<Scanner>, x: Scanner)
    requires NoNamesakesAfter(ss, r0)
    requires forall i :: 0 <= i < |r0| ==> !SameNameIgnoringCase(r0[i], x)
    ensures NoNamesakesAfter(ss, r0 + [x])
  {
    var r := r0 + [x];
    forall i, j | 0 <= i < j < |r| && |ss| <= j ensures !SameNameIgnoringCase(r[i], r[j]) {
      if j < |r0| {
        assert r[i] == r0[i] && r[j] == r0[j];
      } else {
        assert r[i] == r0[i];
      }
    }
  }

  /** Identifiers stay unique, and every existing identifier stays, so the
      participations still refer to scanners; a creation whose e-mail is
      taken raises instead, so the e-mail column stays unique. */
  lemma {:induction false} RunKeepsKeys(ss: seq<Scanner>, cells: seq<Cell>, email: Option<string>)
    requires DistinctScannerIds(ss) && DistinctEmails(ss)
    ensures var r := Run(ss, cells, email).0;
            DistinctScannerIds(r) && DistinctEmails(r) && ScannerIds(ss) <= ScannerIds(r)
  {
    if cells != [] {
      var init := cells[..|cells| - 1];
      RunKeepsKeys(ss, init, email);
      var run0 := Run(ss, init, email);
      if !run0.1.raised {
        StepShape(run0.0, run0.1, cells[|cells| - 1], email);
        var r0, r := run0.0, Run(ss, cells, email).0;
        if r != r0 {
          AppendScannerIds(r0, r[|r0|]);
        }
      }
    }
  }

  lemma ImportConsistent(t: Tables, columns: nat, cells: seq<Cell>, email: Option<string>)
    requires Consistent(t)
    ensures Consistent(t.(scanners := ImportSpec(t.scanners, columns, cells, email).0))
  {
    if columns >= 2 {
      RunKeepsKeys(t.scanners, cells, email);
    }
  }

  // ---------------------------------------------------------------------
  // The empty e-mail of created scanners

  /** As written, a created scanner takes the empty e-mail, so of two
      entries with new names the second one raises, unless the first one
      already did: the import never creates two scanners. */
  lemma SecondCreationRaises(ss: seq<Scanner>, c1: Cell, c2: Cell)
    requires !Blank(c1) && NameParts(c1.text).Some?
    requires !Blank(c2) && NameParts(c2.text).Some?
    requires !Known(ss, NameParts(c1.text).value.0, NameParts(c1.text).value.1)
    requires !Known(Step(ss, Counts(0, 0, false), c1, CreatedEmail).0,
                    NameParts(c2.text).value.0, NameParts(c2.text).value.1)
    ensures Run(ss, [c1, c2], CreatedEmail).1.raised
  {
    var n0 := Counts(0, 0, false);
    RunTwo(ss, c1, c2, CreatedEmail);
    var st := Step(ss, n0, c1, CreatedEmail);
    if !st.1.raised {
      CreatedTakesEmptyEmail(ss, n0, c1);
      NewNameRaises(st.0, st.1, c2);
    }
  }

  /** The loop over two entries. */
  lemma RunTwo(ss: seq<Scanner>, c1: Cell, c2: Cell, email: Option<string>)
    ensures var st := Step(ss, Counts(0, 0, false), c1, email);
            Run(ss, [c1, c2], email) == if st.1.raised then st else Step(st.0, st.1, c2, email)
  {
    assert [c1, c2][..1] == [c1];
    assert [c1][..0] == [];
    assert Run(ss, [], email) == (ss, Counts(0, 0, false));
    assert Run(ss, [c1], email) == Step(ss, Counts(0, 0, false), c1, email);
  }

  /** A new name that does not raise creates a scanner holding the empty
      e-mail. */
  lemma CreatedTakesEmptyEmail(ss: seq<Scanner>, n: Counts, c: Cell)
    requires !Blank(c) && NameParts(c.text).Some?
    requires !Known(ss, NameParts(c.text).value.0, NameParts(c.text).value.1)
    requires !Step(ss, n, c, CreatedEmail).1.raised
    ensures EmailTaken(Step(ss, n, c, CreatedEmail).0, CreatedEmail)
  {
    var first, last := NameParts(c.text).value.0, NameParts(c.text).value.1;
    var sc := Scanner(NextScannerId(ss), first, last, CreatedEmail);
    assert Step(ss, n, c, CreatedEmail).0 == ss + [sc];
    AppendScannerIds(ss, sc);
  }

  /** Once the empty e-mail is taken, a new name raises. */
  lemma NewNameRaises(ss: seq<Scanner>, n: Counts, c: Cell)
    requires !Blank(c) && NameParts(c.text).Some?
    requires !Known(ss, NameParts(c.text).value.0, NameParts(c.text).value.1)
    requires EmailTaken(ss, CreatedEmail)
    ensures Step(ss, n, c, CreatedEmail).1.raised
  {
  }

  /** As intended, created scanners have no e-mail: then the import never
      raises, and every name of two or more words in the sheet ends up
      belonging to some scanner, ignoring case. */
  lemma {:induction false} WithoutEmailEveryNameCovered(ss: seq<Scanner>, cells: seq<Cell>)
    ensures !Run(ss, cells, None).1.raised
    ensures forall k :: 0 <= k < |cells| ==> Covered(Run(ss, cells, None).0, cells[k])
  {
    NeverRaisesWithoutEmail(ss, cells);
    RunCoversNames(ss, cells, None);
  }

  lemma {:induction false} NeverRaisesWithoutEmail(ss: seq<Scanner>, cells: seq<Cell>)
    ensures !Run(ss, cells, None).1.raised
  {
    if cells != [] {
      var init := cells[..|cells| - 1];
      NeverRaisesWithoutEmail(ss, init);
      var run0 := Run(ss, init, None);
      StepShape(run0.0, run0.1, cells[|cells| - 1], None);
    }
  }
}
