/** The workbook import of the web application (`import_excel`): every sheet
    but the scanner list is read row by row from its second row. A row whose
    first five cells are filled is an event (team leader's full name, event
    name, date, scanners wanted, hours); a row with only its first cell
    filled names a participant of the current event. Leaders, events,
    scanners and participations are get-or-created, and the view reports
    how many participations it added. */
module ExcelImport {
  import opened Text
  import opened Schema
  import opened Numeric
  import JuneImport

  /** A cell as the workbook reader returns it: empty, text, a number
      (carrying the text Python's `str` gives for it) or a date-time. */
  datatype Cell =
    | Blank
    | TextValue(s: string)
    | NumberValue(x: real, shown: string)
    | DateTimeValue(year: nat, month: nat, day: nat)

  datatype Sheet = Sheet(name: string, rows: seq<seq<Cell>>)

  /** The conversions the view calls on text: `dateparser.parse` (day first,
      fuzzy), `float` and `int`; `None` where they fail. */
  datatype Parsers = Parsers(parseDate: string -> Option<Day>,
                             parseFloat: string -> Option<real>,
                             parseInt: string -> Option<int>)

  /** What the row loop carries: the current event and its hours
      (`current_leader` is assigned but never read). */
  datatype Cursor = Cursor(event: Option<EventId>, hours: real)

  const Start: Cursor := Cursor(None, 0.0)

  /** The row loop goes on with a participation count, or an exception ended
      the import; the changes made until then stay. */
  datatype Progress = Running(t: Tables, cur: Cursor, added: nat) | Stopped(t: Tables)

  /** The same at the level of sheets. */
  datatype Outcome = Going(t: Tables, added: nat) | Ended(t: Tables)

  /** Python truthiness of a cell value. */
  predicate Truthy(c: Cell)
  {
    match c
    case Blank => false
    case TextValue(s) => s != ""
    case NumberValue(x, _) => x != 0.0
    case DateTimeValue(_, _, _) => true
  }

  /** `f'{n:04d}'`. */
  function Pad4(n: nat): (r: string)
    ensures r != [] && AllDigits(r)
  {
    if n < 10 then "000" + NatToString(n)
    else if n < 100 then "00" + NatToString(n)
    else if n < 1000 then "0" + NatToString(n)
    else NatToString(n)
  }

  /** Python's `str` of a cell value; a date-time prints as
      `YYYY-MM-DD 00:00:00`. */
  function Str(c: Cell): string
  {
    match c
    case Blank => "None"
    case TextValue(s) => s
    case NumberValue(_, shown) => shown
    case DateTimeValue(y, m, d) => Pad4(y) + DateTail(m, d)
  }

  /** What follows the year in the text of a date-time cell: `-MM-DD 00:00:00`. */
  function DateTail(m: nat, d: nat): string
  {
    "-" + PadTwo(m) + "-" + PadTwo(d) + " 00:00:00"
  }

  // ---------------------------------------------------------------------
  // Row kinds

  /** `all(row[i] for i in range(5))`, from position `i` on: `None` when it
      raises, that is when the row ends before the fifth cell without a
      falsy cell before its end. */
  function FirstFiveTruthy(row: seq<Cell>, i: nat): (r: Option<bool>)
    requires i <= 5 && i <= |row|
    ensures r == Some(true) <==> |row| >= 5 && forall k :: i <= k < 5 ==> Truthy(row[k])
    ensures r.None? <==> |row| < 5 && forall k :: i <= k < |row| ==> Truthy(row[k])
    decreases 5 - i
  {
    if i == 5 then Some(true)
    else if i == |row| then None
    else if !Truthy(row[i]) then Some(false)
    else FirstFiveTruthy(row, i + 1)
  }

  /** `row[0] and not any(row[1:])`: a participant's name and nothing else. */
  predicate NameRow(row: seq<Cell>)
  {
    |row| >= 1 && Truthy(row[0]) && forall k :: 1 <= k < |row| ==> !Truthy(row[k])
  }

  // ---------------------------------------------------------------------
  // Dates

  /** The day number of a proleptic Gregorian date (days since 1970-01-01). */
  function DaysFromCivil(y: int, m: int, d: int): Day
  {
    var y' := if m <= 2 then y - 1 else y;
    var era := y' / 400;
    var yoe := y' - era * 400;
    var mp := if m > 2 then m - 3 else m + 9;
    var doy := (153 * mp + 2) / 5 + d - 1;
    var doe := yoe * 365 + yoe / 4 - yoe / 100 + doy;
    era * 146097 + doe - 719468
  }

  /** The text handed to the date parser: when the cell's text holds a '-',
      the first word of what precedes the first '-'; otherwise all of it.
      `None` when there is no such word (`IndexError`). */
  function DateText(c: Cell): Option<string>
  {
    var s := Str(c);
    if '-' in s then
      var words := Split(PrefixBefore(s, '-'));
      if words == [] then None else Some(words[0])
    else Some(s)
  }

  /** The date step of an event row: it raises, the parse fails, or a date. */
  datatype DateOutcome = Raises | Unparsed | Dated(day: Day)

  /** The date as the code computes it: every cell through its text. */
  function EventDateAsWritten(c: Cell, parse: string -> Option<Day>): DateOutcome
  {
    match DateText(c)
    case None => Raises
    case Some(text) => if parse(text).Some? then Dated(parse(text).value) else Unparsed
  }

  /** The date as evidently intended: a date-time cell is its own date, any
      other cell goes through its text as the code does. */
  function EventDate(c: Cell, parse: string -> Option<Day>): DateOutcome
  {
    if c.DateTimeValue? then Dated(DaysFromCivil(c.year, c.month, c.day))
    else EventDateAsWritten(c, parse)
  }

  // ---------------------------------------------------------------------
  // Numbers and names

  /** `float(x)`: a number as is, text through the parser; a date-time raises. */
  function AsFloat(c: Cell, ps: Parsers): Option<real>
  {
    match c
    case NumberValue(x, _) => Some(x)
    case TextValue(s) => ps.parseFloat(s)
    case _ => None
  }

  /** `int(x)`: a number truncated toward zero, text through the parser; a
      date-time raises. */
  function AsInt(c: Cell, ps: Parsers): Option<int>
  {
    match c
    case NumberValue(x, _) => Some(Trunc(x))
    case TextValue(s) => ps.parseInt(s)
    case _ => None
  }

  /** `str(x).strip().split()`, then the first word and the others joined by
      one blank (`''` for a single word). `None` when there is no word
      (`IndexError`). */
  function SplitName(s: string): Option<(string, string)>
  {
    var words := Split(Strip(s));
    if words == [] then None
    else Some((words[0], if |words| > 1 then Join(words[1..], " ") else ""))
  }

  /** A name splits when it has a word, and its two parts split back into
      the words of the name. */
  lemma SplitNameWords(s: string)
    ensures SplitName(s).None? <==> Split(s) == []
    ensures SplitName(s).Some? ==> Split(s) == [SplitName(s).value.0] + Split(SplitName(s).value.1)
  {
    SplitStrip(s);
    var words := Split(s);
    if words != [] {
      SplitJoin(words[1..]);
      assert words == [words[0]] + words[1..];
    }
  }

  const Domain: string := "@tiketon.local"

  /** The synthetic e-mail of a person: both name parts lower-cased. */
  function EmailFor(first: string, last: string): string
  {
    Lower(first) + "." + Lower(last) + Domain
  }

  // ---------------------------------------------------------------------
  // get_or_create

  /** The positions of the users with this e-mail. */
  function UserMatches(us: seq<User>, email: string): (r: seq<nat>)
    ensures forall j :: 0 <= j < |r| ==> r[j] < |us| && us[r[j]].email == email
    ensures forall i :: 0 <= i < |us| && us[i].email == email ==> i in r
  {
    if us == [] then []
    else UserMatches(us[..|us| - 1], email) + (if us[|us| - 1].email == email then [|us| - 1] else [])
  }

  /** `User.objects.get_or_create(email=…)` with the e-mail as username and
      the name parts, then membership of the team-leader group. `None` when
      it raises: several users have the e-mail, or a new account's username
      is taken. */
  function LeaderGetOrCreate(us: seq<User>, first: string, last: string, email: string)
    : Option<(seq<User>, UserId)>
  {
    var found := UserMatches(us, email);
    if |found| > 1 then None
    else if found == [] then
      if email in Usernames(us) then None
      else
        var u := User(NextUserId(us), email, email, first, last, {TeamLeadersGroup});
        Some((us + [u], u.id))
    else
      var k := found[0];
      Some((us[k := us[k].(groups := us[k].groups + {TeamLeadersGroup})], us[k].id))
  }

  /** `Event.objects.get_or_create(name, date, leader, defaults)`: an existing
      event is kept as it is. `None` when it raises: several events match,
      or a negative number of scanners meets the non-negative column. */
  function EventGetOrCreate(es: seq<Event>, name: string, date: Day, leader: UserId, count: int, hours: real)
    : Option<(seq<Event>, EventId)>
  {
    var found := JuneImport.EventMatches(es, name, date, leader);
    if |found| > 1 then None
    else if found == [] then
      if count < 0 then None
      else
        var e := Event(NextEventId(es), name, date, count, leader, Some(hours));
        Some((es + [e], e.id))
    else Some((es, es[found[0]].id))
  }

  /** The position of a scanner with this e-mail, or -1 (the unique e-mail
      column leaves at most one). */
  function IndexOfEmail(ss: seq<Scanner>, email: string): (r: int)
    ensures -1 <= r < |ss|
    ensures r == -1 <==> email !in ScannerEmails(ss)
    ensures r >= 0 ==> ss[r].email == Some(email)
  {
    if ss == [] then -1
    else if ss[|ss| - 1].email == Some(email) then |ss| - 1
    else IndexOfEmail(ss[..|ss| - 1], email)
  }

  /** `Volunteer.objects.filter(email=…).first()`, created with the name and
      the e-mail when there is none. */
  function VolunteerFor(ss: seq<Scanner>, first: string, last: string, email: string): (seq<Scanner>, ScannerId)
  {
    var k := IndexOfEmail(ss, email);
    if k >= 0 then (ss, ss[k].id)
    else
      var s := Scanner(NextScannerId(ss), first, last, Some(email));
      (ss + [s], s.id)
  }

  // ---------------------------------------------------------------------
  // The row loop

  /** An event row: a date that does not parse, or numbers that do not
      convert, clear the current event; otherwise the leader and the event
      are get-or-created and become current, with the row's hours. */
  function EventRowStep(t: Tables, cur: Cursor, added: nat, row: seq<Cell>, ps: Parsers): Progress
    requires |row| >= 5
  {
    EventRowWith(t, cur, added, row, EventDateAsWritten(row[2], ps.parseDate), AsFloat(row[4], ps), AsInt(row[3], ps))
  }

  /** An event row once its date and numbers are read. */
  function EventRowWith(t: Tables, cur: Cursor, added: nat, row: seq<Cell>,
                        d: DateOutcome, hours: Option<real>, count: Option<int>): Progress
    requires |row| >= 5
  {
    if d.Raises? then Stopped(t)
    else if d.Unparsed? then Running(t, cur.(event := None), added)
    else if hours.None? || count.None? then Running(t, cur.(event := None), added)
    else
      var leader := SplitName(Str(row[0]));
      if leader.None? then Stopped(t)
      else OpenEvent(t, added, leader.value.0, leader.value.1, Str(row[1]), d.day, count.value, hours.value)
  }

  /** The team leader and then the event of an event row are get-or-created;
      the event becomes current, with the row's hours. Only the users and
      the events change. */
  function OpenEvent(t: Tables, added: nat, first: string, last: string,
                     name: string, date: Day, count: int, hours: real): (q: Progress)
    ensures q.t.scanners == t.scanners && q.t.participants == t.participants && q.t.logs == t.logs
    ensures q.Running? ==> q.added == added && q.cur == Cursor(q.cur.event, hours) && q.cur.event.Some?
  {
    var lr := LeaderGetOrCreate(t.users, first, last, EmailFor(first, last));
    if lr.None? then Stopped(t)
    else
      var us, leader := lr.value.0, lr.value.1;
      var er := EventGetOrCreate(t.events, name, date, leader, count, hours);
      if er.None? then Stopped(t.(users := us))
      else Running(t.(users := us, events := er.value.0), Cursor(Some(er.value.1), hours), added)
  }

  /** A participant row of the current event: the scanner is found by its
      synthetic e-mail or created, and a participation with the event's
      hours is added, and counted, unless the pair already has one. */
  function NameRowStep(t: Tables, cur: Cursor, added: nat, row: seq<Cell>): Progress
    requires cur.event.Some? && |row| >= 1
  {
    var name := SplitName(Str(row[0]));
    if name.None? then Stopped(t) else Enrol(t, cur, added, name.value.0, name.value.1)
  }

  /** The volunteer of a participant row is found or created, and enrolled
      in the current event unless already enrolled there. */
  function Enrol(t: Tables, cur: Cursor, added: nat, first: string, last: string): Progress
    requires cur.event.Some?
  {
    var found := VolunteerFor(t.scanners, first, last, EmailFor(first, last));
    var ss, s := found.0, found.1;
    if (cur.event.value, s) in Keys(t.participants) then Running(t.(scanners := ss), cur, added)
    else
      var p := Participant(cur.event.value, s, false, None, cur.hours);
      Running(t.(scanners := ss, participants := t.participants + [p]), cur, added + 1)
  }

  /** One row: an event row, a participant row, or nothing. */
  function RowStep(p: Progress, row: seq<Cell>, ps: Parsers): Progress
  {
    match p
    case Stopped(_) => p
    case Running(t, cur, added) =>
      match FirstFiveTruthy(row, 0)
      case None => Stopped(t)
      case Some(true) => EventRowStep(t, cur, added, row, ps)
      case Some(false) =>
        if cur.event.Some? && NameRow(row) then NameRowStep(t, cur, added, row) else p
  }

  function RunRows(p: Progress, rows: seq<seq<Cell>>, ps: Parsers): Progress
  {
    if rows == [] then p else RowStep(RunRows(p, rows[..|rows| - 1], ps), rows[|rows| - 1], ps)
  }

  const ScannerListSheet: string := "список сканеров"

  /** The sheet the import leaves alone, whatever the case of its name. */
  predicate Skipped(sh: Sheet)
  {
    Lower(sh.name) == ScannerListSheet
  }

  /** `iter_rows(min_row=2)`: the rows below the header. */
  function DataRows(sh: Sheet): seq<seq<Cell>>
  {
    if sh.rows == [] then [] else sh.rows[1..]
  }

  /** One sheet, from no current event. */
  function SheetStep(o: Outcome, sh: Sheet, ps: Parsers): Outcome
  {
    match o
    case Ended(_) => o
    case Going(t, added) =>
      if Skipped(sh) then o
      else
        match RunRows(Running(t, Start, added), DataRows(sh), ps)
        case Running(t', _, added') => Going(t', added')
        case Stopped(t') => Ended(t')
  }

  /** The whole import, from a participation count of zero. */
  function ImportSpec(t: Tables, sheets: seq<Sheet>, ps: Parsers): Outcome
  {
    if sheets == [] then Going(t, 0)
    else SheetStep(ImportSpec(t, sheets[..|sheets| - 1], ps), sheets[|sheets| - 1], ps)
  }

  // ---------------------------------------------------------------------
  // The view

  method ImportEventRow(db: Store, cur: Cursor, added: nat, row: seq<Cell>, ps: Parsers) returns (p: Progress)
    requires |row| >= 5
    modifies db`users, db`events
    ensures p == EventRowStep(old(db.Snapshot()), cur, added, row, ps) && db.Snapshot() == p.t
  {
    var date := EventDateAsWritten(row[2], ps.parseDate);
    if date.Raises? {
      return Stopped(db.Snapshot());
    }
    if date.Unparsed? {
      return Running(db.Snapshot(), cur.(event := None), added);
    }
    var hours, count := AsFloat(row[4], ps), AsInt(row[3], ps);
    if hours.None? || count.None? {
      return Running(db.Snapshot(), cur.(event := None), added);
    }
    var name := SplitName(Str(row[0]));
    if name.None? {
      return Stopped(db.Snapshot());
    }
    p := OpenEventIn(db, added, name.value.0, name.value.1, Str(row[1]), date.day, count.value, hours.value);
  }

  method OpenEventIn(db: Store, added: nat, first: string, last: string,
                     name: string, date: Day, count: int, hours: real) returns (p: Progress)
    modifies db`users, db`events
    ensures p == OpenEvent(old(db.Snapshot()), added, first, last, name, date, count, hours) && db.Snapshot() == p.t
  {
    var leader := LeaderGetOrCreate(db.users, first, last, EmailFor(first, last));
    if leader.None? {
      return Stopped(db.Snapshot());
    }
    db.users := leader.value.0;
    var event := EventGetOrCreate(db.events, name, date, leader.value.1, count, hours);
    if event.None? {
      return Stopped(db.Snapshot());
    }
    db.events := event.value.0;
    p := Running(db.Snapshot(), Cursor(Some(event.value.1), hours), added);
  }

  method ImportNameRow(db: Store, cur: Cursor, added: nat, row: seq<Cell>) returns (p: Progress)
    requires cur.event.Some? && |row| >= 1
    modifies db`scanners, db`participants
    ensures p == NameRowStep(old(db.Snapshot()), cur, added, row) && db.Snapshot() == p.t
  {
    var name := SplitName(Str(row[0]));
    if name.None? {
      return Stopped(db.Snapshot());
    }
    var first, last := name.value.0, name.value.1;
    var found := VolunteerFor(db.scanners, first, last, EmailFor(first, last));
    var s := found.1;
    db.scanners := found.0;
    if (cur.event.value, s) in Keys(db.participants) {
      return Running(db.Snapshot(), cur, added);
    }
    db.participants := db.participants + [Participant(cur.event.value, s, false, None, cur.hours)];
    p := Running(db.Snapshot(), cur, added + 1);
  }

  method ImportRow(db: Store, cur: Cursor, added: nat, row: seq<Cell>, ps: Parsers) returns (p: Progress)
    modifies db`users, db`scanners, db`events, db`participants
    ensures p == RowStep(Running(old(db.Snapshot()), cur, added), row, ps) && db.Snapshot() == p.t
  {
    var kind := FirstFiveTruthy(row, 0);
    if kind.None? {
      p := Stopped(db.Snapshot());
    } else if kind.value {
      p := ImportEventRow(db, cur, added, row, ps);
    } else if cur.event.Some? && NameRow(row) {
      p := ImportNameRow(db, cur, added, row);
    } else {
      p := Running(db.Snapshot(), cur, added);
    }
  }

  /** A stopped loop stays stopped. */
  lemma {:induction false} StoppedStays(p: Progress, rows: seq<seq<Cell>>, i: nat, ps: Parsers)
    requires i <= |rows| && RunRows(p, rows[..i], ps).Stopped?
    ensures RunRows(p, rows, ps) == RunRows(p, rows[..i], ps)
    decreases |rows| - i
  {
    if i < |rows| {
      assert rows[..i + 1][..i] == rows[..i];
      StoppedStays(p, rows, i + 1, ps);
    } else {
      assert rows[..i] == rows;
    }
  }

  /** The rows of one sheet, from no current event. */
  method ImportRows(db: Store, added: nat, rows: seq<seq<Cell>>, ps: Parsers) returns (p: Progress)
    modifies db`users, db`scanners, db`events, db`participants
    ensures p == RunRows(Running(old(db.Snapshot()), Start, added), rows, ps) && db.Snapshot() == p.t
  {
    p := Running(db.Snapshot(), Start, added);
    ghost var p0 := p;
    for i := 0 to |rows|
      invariant p == RunRows(p0, rows[..i], ps) && db.Snapshot() == p.t
    {
      assert rows[..i + 1][..i] == rows[..i];
      if p.Stopped? {
        StoppedStays(p0, rows, i, ps);
        return;
      }
      p := ImportRow(db, p.cur, p.added, rows[i], ps);
    }
    assert rows[..|rows|] == rows;
  }

  /** An ended import stays ended. */
  lemma {:induction false} EndedStays(t: Tables, sheets: seq<Sheet>, i: nat, ps: Parsers)
    requires i <= |sheets| && ImportSpec(t, sheets[..i], ps).Ended?
    ensures ImportSpec(t, sheets, ps) == ImportSpec(t, sheets[..i], ps)
    decreases |sheets| - i
  {
    if i < |sheets| {
      assert sheets[..i + 1][..i] == sheets[..i];
      EndedStays(t, sheets, i + 1, ps);
    } else {
      assert sheets[..i] == sheets;
    }
  }

  /** `import_excel` on an uploaded workbook: whether it completed and the
      number of participations it reports. */
  method ImportExcel(db: Store, sheets: seq<Sheet>, ps: Parsers) returns (completed: bool, participants: nat)
    modifies db`users, db`scanners, db`events, db`participants
    ensures var o := ImportSpec(old(db.Snapshot()), sheets, ps);
            db.Snapshot() == o.t && completed == o.Going? && (completed ==> participants == o.added)
  {
    ghost var t0 := db.Snapshot();
    participants := 0;
    for i := 0 to |sheets|
      invariant ImportSpec(t0, sheets[..i], ps) == Going(db.Snapshot(), participants)
    {
      assert sheets[..i + 1][..i] == sheets[..i];
      var sheet := sheets[i];
      ghost var next := SheetStep(Going(db.Snapshot(), participants), sheet, ps);
      assert ImportSpec(t0, sheets[..i + 1], ps) == next;
      if Lower(sheet.name) == ScannerListSheet {
        continue;
      }
      var p := ImportRows(db, participants, DataRows(sheet), ps);
      assert next == if p.Stopped? then Ended(p.t) else Going(p.t, p.added);
      if p.Stopped? {
        EndedStays(t0, sheets, i + 1, ps);
        return false, participants;
      }
      participants := p.added;
    }
    assert sheets[..|sheets|] == sheets;
    completed := true;
  }

  // ---------------------------------------------------------------------
  // Properties: row kinds and the current event

  /** An event row is never taken for a participant row. */
  lemma EventRowIsNoNameRow(row: seq<Cell>)
    requires FirstFiveTruthy(row, 0) == Some(true)
    ensures !NameRow(row)
  {
    assert Truthy(row[1]);
  }

  lemma {:induction false} RunRowsAppend(p: Progress, xs: seq<seq<Cell>>, ys: seq<seq<Cell>>, ps: Parsers)
    ensures RunRows(p, xs + ys, ps) == RunRows(RunRows(p, xs, ps), ys, ps)
  {
    if ys == [] {
      assert xs + ys == xs;
    } else {
      RunRowsAppend(p, xs, ys[..|ys| - 1], ps);
      assert (xs + ys)[..|xs + ys| - 1] == xs + ys[..|ys| - 1];
    }
  }

  /** Without a current event, rows that are not event rows change nothing. */
  lemma {:induction false} NoEventIgnoresRows(t: Tables, cur: Cursor, added: nat, rows: seq<seq<Cell>>, ps: Parsers)
    requires cur.event.None?
    requires forall k :: 0 <= k < |rows| ==> FirstFiveTruthy(rows[k], 0) == Some(false)
    ensures RunRows(Running(t, cur, added), rows, ps) == Running(t, cur, added)
  {
    if rows != [] {
      NoEventIgnoresRows(t, cur, added, rows[..|rows| - 1], ps);
    }
  }

  /** An event row whose date or numbers do not convert clears the current
      event, so the participant rows after it are ignored up to the next
      event row. */
  lemma FailedParseSkipsNames(t: Tables, cur: Cursor, added: nat, ev: seq<Cell>, rows: seq<seq<Cell>>, ps: Parsers)
    requires |ev| >= 5 && FirstFiveTruthy(ev, 0) == Some(true)
    requires var d := EventDateAsWritten(ev[2], ps.parseDate);
             d.Unparsed? || (d.Dated? && (AsFloat(ev[4], ps).None? || AsInt(ev[3], ps).None?))
    requires forall k :: 0 <= k < |rows| ==> FirstFiveTruthy(rows[k], 0) == Some(false)
    ensures RunRows(Running(t, cur, added), [ev] + rows, ps) == Running(t, cur.(event := None), added)
  {
    var p := Running(t, cur, added);
    RunRowsAppend(p, [ev], rows, ps);
    assert [ev][..0] == [];
    assert RunRows(p, [ev], ps) == Running(t, cur.(event := None), added);
    NoEventIgnoresRows(t, cur.(event := None), added, rows, ps);
  }

  // ---------------------------------------------------------------------
  // Properties: the participation count

  /** The participations of `t` are the first ones of `t'`. */
  predicate Kept(t: Tables, t': Tables)
  {
    |t.participants| <= |t'.participants| && t'.participants[..|t.participants|] == t.participants
  }

  /** An event row leaves the participations and the count alone. */
  lemma EventRowKeepsParticipants(t: Tables, cur: Cursor, added: nat, row: seq<Cell>, ps: Parsers)
    requires |row| >= 5
    ensures var q := EventRowStep(t, cur, added, row, ps);
            q.t.participants == t.participants && (q.Running? ==> q.added == added)
  {
    EventRowCases(t, cur, added, row, ps);
  }

  /** A participant row appends at most one participation, and counts it. */
  lemma NameRowCounts(t: Tables, cur: Cursor, added: nat, row: seq<Cell>)
    requires cur.event.Some? && |row| >= 1
    ensures var q := NameRowStep(t, cur, added, row);
            && Kept(t, q.t)
            && (q.Running? ==> q.added >= added && |q.t.participants| == |t.participants| + (q.added - added))
            && (q.Stopped? ==> q.t.participants == t.participants)
  {
    var name := SplitName(Str(row[0]));
    if name.Some? {
      EnrolCounts(t, cur, added, name.value.0, name.value.1);
    }
  }

  lemma EnrolCounts(t: Tables, cur: Cursor, added: nat, first: string, last: string)
    requires cur.event.Some?
    ensures var q := Enrol(t, cur, added, first, last);
            && q.Running? && Kept(t, q.t)
            && q.added >= added && |q.t.participants| == |t.participants| + (q.added - added)
  {
    var q := Enrol(t, cur, added, first, last);
    var found := VolunteerFor(t.scanners, first, last, EmailFor(first, last));
    var ss, s := found.0, found.1;
    var e := cur.event.value;
    if (e, s) !in Keys(t.participants) {
      var p := Participant(e, s, false, None, cur.hours);
      assert q == Running(t.(scanners := ss, participants := t.participants + [p]), cur, added + 1);
      assert q.t.participants[..|t.participants|] == t.participants;
    } else {
      assert q == Running(t.(scanners := ss), cur, added);
    }
  }

  /** A row keeps the participations; a running loop counts exactly the rows
      it appends, and a row that raises appends none. */
  lemma RowStepCounts(p: Progress, row: seq<Cell>, ps: Parsers)
    requires p.Running?
    ensures var q := RowStep(p, row, ps);
            && Kept(p.t, q.t)
            && (q.Running? ==> q.added >= p.added && |q.t.participants| == |p.t.participants| + (q.added - p.added))
  {
    var kind := FirstFiveTruthy(row, 0);
    if kind == Some(true) {
      EventRowKeepsParticipants(p.t, p.cur, p.added, row, ps);
    } else if kind == Some(false) && p.cur.event.Some? && NameRow(row) {
      NameRowCounts(p.t, p.cur, p.added, row);
    }
  }

  lemma {:induction false} RunRowsCounts(p: Progress, rows: seq<seq<Cell>>, ps: Parsers)
    requires p.Running?
    ensures var q := RunRows(p, rows, ps);
            && Kept(p.t, q.t)
            && (q.Running? ==> q.added >= p.added && |q.t.participants| == |p.t.participants| + (q.added - p.added))
  {
    if rows != [] {
      var init := rows[..|rows| - 1];
      RunRowsCounts(p, init, ps);
      var q0 := RunRows(p, init, ps);
      if q0.Running? {
        RowStepCounts(q0, rows[|rows| - 1], ps);
        var q := RunRows(p, rows, ps);
        assert q.t.participants[..|q0.t.participants|] == q0.t.participants;
        assert q.t.participants[..|p.t.participants|] == q0.t.participants[..|p.t.participants|];
      }
    }
  }

  /** The count the view reports is the number of participations the import
      appended; the existing ones stay, also when the import raised. */
  lemma {:induction false} ImportCounts(t: Tables, sheets: seq<Sheet>, ps: Parsers)
    ensures var o := ImportSpec(t, sheets, ps);
            && Kept(t, o.t)
            && (o.Going? ==> |o.t.participants| == |t.participants| + o.added)
  {
    if sheets != [] {
      var init := sheets[..|sheets| - 1];
      ImportCounts(t, init, ps);
      var o0 := ImportSpec(t, init, ps);
      if o0.Going? && !Skipped(sheets[|sheets| - 1]) {
        var p := Running(o0.t, Start, o0.added);
        RunRowsCounts(p, DataRows(sheets[|sheets| - 1]), ps);
        var o := ImportSpec(t, sheets, ps);
        assert o.t.participants[..|t.participants|] == o.t.participants[..|o0.t.participants|][..|t.participants|];
      }
    }
  }

  // ---------------------------------------------------------------------
  // Properties: the scanner list is skipped

  /** The sheets the import reads, in order. */
  function Imported(sheets: seq<Sheet>): seq<Sheet>
  {
    if sheets == [] then []
    else Imported(sheets[..|sheets| - 1]) + (if Skipped(sheets[|sheets| - 1]) then [] else [sheets[|sheets| - 1]])
  }

  /** The scanner list, in whatever case, has no effect on the import. */
  lemma {:induction false} SkippedSheetsIgnored(t: Tables, sheets: seq<Sheet>, ps: Parsers)
    ensures ImportSpec(t, sheets, ps) == ImportSpec(t, Imported(sheets), ps)
  {
    if sheets != [] {
      var init, last := sheets[..|sheets| - 1], sheets[|sheets| - 1];
      SkippedSheetsIgnored(t, init, ps);
      if Skipped(last) {
        assert Imported(sheets) == Imported(init) + [];
        assert Imported(init) + [] == Imported(init);
      } else {
        var im := Imported(init) + [last];
        assert Imported(sheets) == im;
        assert im[..|im| - 1] == Imported(init) && im[|im| - 1] == last;
      }
    }
  }

  lemma UpperCaseListSkipped(rows: seq<seq<Cell>>)
    ensures Skipped(Sheet("СПИСОК СКАНЕРОВ", rows))
  {
    var n := Lower("СПИСОК СКАНЕРОВ");
    assert |n| == |ScannerListSheet|;
    assert forall i | 0 <= i < |n| :: n[i] == ScannerListSheet[i];
  }

  // ---------------------------------------------------------------------
  // Properties: get_or_create and consistency

  lemma {:induction false} UpdateKeepsUserIds(us: seq<User>, k: nat, u: User)
    requires k < |us| && u.id == us[k].id
    ensures UserIds(us[k := u]) == UserIds(us)
    ensures DistinctUserIds(us) ==> DistinctUserIds(us[k := u])
  {
    var n := |us| - 1;
    if k == n {
      assert us[k := u][..n] == us[..n];
    } else {
      UpdateKeepsUserIds(us[..n], k, u);
      assert us[k := u][..n] == us[..n][k := u];
    }
  }

  /** The leader step yields a team-leader account with the synthetic e-mail;
      identifiers stay unique, none disappears, and an existing account only
      gains the group. */
  lemma LeaderFacts(us: seq<User>, first: string, last: string, email: string)
    requires DistinctUserIds(us)
    ensures var r := LeaderGetOrCreate(us, first, last, email);
            r.Some? ==>
              && DistinctUserIds(r.value.0) && UserIds(us) <= UserIds(r.value.0)
              && r.value.1 in UserIds(r.value.0)
              && (exists k :: 0 <= k < |r.value.0| && r.value.0[k].id == r.value.1
                              && r.value.0[k].email == email && IsTeamLeader(r.value.0[k]))
              && |us| <= |r.value.0|
              && (forall k :: 0 <= k < |us| ==> (r.value.0[k] == us[k]
                    || r.value.0[k] == us[k].(groups := us[k].groups + {TeamLeadersGroup})))
  {
    var r := LeaderGetOrCreate(us, first, last, email);
    var found := UserMatches(us, email);
    if r.Some? {
      var us' := r.value.0;
      if found == [] {
        var u := User(NextUserId(us), email, email, first, last, {TeamLeadersGroup});
        AppendUserIds(us, u);
        assert us'[|us|] == u;
      } else {
        var k := found[0];
        UpdateKeepsUserIds(us, k, us[k].(groups := us[k].groups + {TeamLeadersGroup}));
        UserIdsMember(us, k);
        assert us'[k].email == email;
      }
    }
  }

  /** The event step yields an event with the row's name, date and leader;
      identifiers stay unique, none disappears, and a created event is the
      only new row. */
  lemma EventFacts(es: seq<Event>, name: string, date: Day, leader: UserId, count: int, hours: real)
    requires DistinctEventIds(es)
    ensures var r := EventGetOrCreate(es, name, date, leader, count, hours);
            r.Some? ==>
              && DistinctEventIds(r.value.0) && EventIds(es) <= EventIds(r.value.0)
              && r.value.1 in EventIds(r.value.0)
              && (exists k :: 0 <= k < |r.value.0| && r.value.0[k].id == r.value.1
                              && JuneImport.SameEvent(r.value.0[k], name, date, leader))
              && (forall x :: x in r.value.0 ==> x in es || x.leader == leader)
  {
    var r := EventGetOrCreate(es, name, date, leader, count, hours);
    var found := JuneImport.EventMatches(es, name, date, leader);
    if r.Some? {
      if found == [] {
        var e := Event(NextEventId(es), name, date, count, leader, Some(hours));
        AppendEventIds(es, e);
        assert r.value.0[|es|] == e;
      } else {
        EventIdsMember(es, found[0]);
      }
    }
  }

  /** What the event get-or-create writes. A new event takes the row's count
      and hours, gets a fresh identifier and is the only new row; a matching
      event is returned as it is and the events stay unchanged. */
  lemma EventGetOrCreateValues(es: seq<Event>, name: string, date: Day, leader: UserId, count: int, hours: real)
    ensures var r := EventGetOrCreate(es, name, date, leader, count, hours);
            r.Some? ==>
              && ((forall i :: 0 <= i < |es| ==> !JuneImport.SameEvent(es[i], name, date, leader)) ==>
                    && r.value.1 == NextEventId(es) && r.value.1 !in EventIds(es) && count >= 0
                    && r.value.0 == es + [Event(r.value.1, name, date, count, leader, Some(hours))])
              && (forall k :: 0 <= k < |es| && JuneImport.SameEvent(es[k], name, date, leader) ==>
                    r.value == (es, es[k].id))
  {
    var found := JuneImport.EventMatches(es, name, date, leader);
    var r := EventGetOrCreate(es, name, date, leader, count, hours);
    if r.Some? && found != [] {
      forall k | 0 <= k < |es| && JuneImport.SameEvent(es[k], name, date, leader) ensures k == found[0] {
        assert k in found;
      }
    }
  }

  /** The event get-or-create raises exactly when two events match, or no
      event matches and the count is negative. */
  lemma EventGetOrCreateRaises(es: seq<Event>, name: string, date: Day, leader: UserId, count: int, hours: real)
    ensures EventGetOrCreate(es, name, date, leader, count, hours).None?
            <==> (exists i, j :: 0 <= i < j < |es| && JuneImport.SameEvent(es[i], name, date, leader)
                                 && JuneImport.SameEvent(es[j], name, date, leader))
                 || ((forall i :: 0 <= i < |es| ==> !JuneImport.SameEvent(es[i], name, date, leader)) && count < 0)
  {
    var found := JuneImport.EventMatches(es, name, date, leader);
    if |found| > 1 {
      assert JuneImport.SameEvent(es[found[0]], name, date, leader) && JuneImport.SameEvent(es[found[1]], name, date, leader);
    } else if |found| == 1 {
      assert JuneImport.SameEvent(es[found[0]], name, date, leader);
      forall i, j | 0 <= i < j < |es| && JuneImport.SameEvent(es[i], name, date, leader)
        ensures !JuneImport.SameEvent(es[j], name, date, leader)
      {
        assert i in found;
      }
    }
  }

  lemma {:induction false} ScannerEmailsMember(ss: seq<Scanner>, k: nat)
    requires k < |ss| && ss[k].email.Some?
    ensures ss[k].email.value in ScannerEmails(ss)
  {
    if k < |ss| - 1 {
      ScannerEmailsMember(ss[..|ss| - 1], k);
    }
  }

  /** The unique e-mail column read as "no two scanners share an e-mail". */
  lemma {:induction false} EmailsUnique(ss: seq<Scanner>)
    requires DistinctEmails(ss)
    ensures forall i, j :: 0 <= i < j < |ss| && ss[i].email.Some? ==> ss[i].email != ss[j].email
  {
    if ss != [] {
      var init := ss[..|ss| - 1];
      EmailsUnique(init);
      forall i | 0 <= i < |init| && ss[i].email.Some? ensures ss[i].email != ss[|ss| - 1].email {
        ScannerEmailsMember(init, i);
      }
    }
  }

  /** The scanner step yields a scanner with the synthetic e-mail, found
      when one exists and created otherwise; the scanners before stay, and
      identifiers and e-mails stay unique. */
  lemma VolunteerFacts(ss: seq<Scanner>, first: string, last: string, email: string)
    requires DistinctScannerIds(ss) && DistinctEmails(ss)
    ensures var (ss', s) := VolunteerFor(ss, first, last, email);
            && DistinctScannerIds(ss') && DistinctEmails(ss')
            && ScannerIds(ss) <= ScannerIds(ss') && s in ScannerIds(ss')
            && |ss| <= |ss'| && ss'[..|ss|] == ss
            && (exists k :: 0 <= k < |ss'| && ss'[k].id == s && ss'[k].email == Some(email))
            && (email in ScannerEmails(ss) ==> ss' == ss)
  {
    var (ss', s) := VolunteerFor(ss, first, last, email);
    var k := IndexOfEmail(ss, email);
    if k >= 0 {
      ScannerIdsMember(ss, k);
    } else {
      var sc := Scanner(NextScannerId(ss), first, last, Some(email));
      AppendScannerIds(ss, sc);
      assert ss'[|ss|] == sc;
    }
  }

  /** The current event, when there is one, exists. */
  predicate CursorOk(t: Tables, cur: Cursor)
  {
    cur.event.Some? ==> cur.event.value in EventIds(t.events)
  }

  lemma KeysAppend(ps: seq<Participant>, p: Participant)
    ensures Keys(ps + [p]) == Keys(ps) + {Key(p)}
  {
    assert (ps + [p])[..|ps|] == ps;
  }

  /** An event row keeps the database consistent and touches neither the
      scanners nor the participations. */
  lemma EventRowConsistent(t: Tables, cur: Cursor, added: nat, row: seq<Cell>, ps: Parsers)
    requires Consistent(t) && |row| >= 5
    ensures var q := EventRowStep(t, cur, added, row, ps);
            && Consistent(q.t)
            && (q.Running? ==> (CursorOk(t, cur) ==> CursorOk(q.t, q.cur)))
  {
    var d := EventDateAsWritten(row[2], ps.parseDate);
    var hours, count := AsFloat(row[4], ps), AsInt(row[3], ps);
    var leader := SplitName(Str(row[0]));
    EventRowCases(t, cur, added, row, ps);
    if d.Dated? && hours.Some? && count.Some? && leader.Some? {
      OpenEventConsistent(t, added, leader.value.0, leader.value.1, Str(row[1]), d.day, count.value, hours.value);
    }
  }

  /** An event row either opens its event or leaves the tables as they are,
      with no current event when it goes on. */
  lemma EventRowCases(t: Tables, cur: Cursor, added: nat, row: seq<Cell>, ps: Parsers)
    requires |row| >= 5
    ensures var d, hours, count := EventDateAsWritten(row[2], ps.parseDate), AsFloat(row[4], ps), AsInt(row[3], ps);
            var leader := SplitName(Str(row[0]));
            var q := EventRowStep(t, cur, added, row, ps);
            if d.Dated? && hours.Some? && count.Some? && leader.Some?
            then q == OpenEvent(t, added, leader.value.0, leader.value.1, Str(row[1]), d.day, count.value, hours.value)
            else q.t == t && (q.Running? ==> q.cur.event.None?)
  {
    var d, hours, count := EventDateAsWritten(row[2], ps.parseDate), AsFloat(row[4], ps), AsInt(row[3], ps);
    var leader := SplitName(Str(row[0]));
    var q := EventRowStep(t, cur, added, row, ps);
    assert q == EventRowWith(t, cur, added, row, d, hours, count);
    if d.Raises? || (d.Dated? && (hours.Some? && count.Some?) && leader.None?) {
      assert q == Stopped(t);
    } else if d.Unparsed? || hours.None? || count.None? {
      assert q == Running(t, cur.(event := None), added);
    }
  }

  lemma OpenEventConsistent(t: Tables, added: nat, first: string, last: string,
                            name: string, date: Day, count: int, hours: real)
    requires Consistent(t)
    ensures var q := OpenEvent(t, added, first, last, name, date, count, hours);
            && Consistent(q.t)
            && (q.Running? ==> CursorOk(q.t, q.cur))
  {
    var q := OpenEvent(t, added, first, last, name, date, count, hours);
    var lr := LeaderGetOrCreate(t.users, first, last, EmailFor(first, last));
    if lr.Some? {
      LeaderFacts(t.users, first, last, EmailFor(first, last));
      var us, leader := lr.value.0, lr.value.1;
      var t1 := t.(users := us);
      GrowUsersConsistent(t, us);
      var er := EventGetOrCreate(t.events, name, date, leader, count, hours);
      EventFacts(t.events, name, date, leader, count, hours);
      if er.Some? {
        GrowEventsConsistent(t1, er.value.0);
        assert q.t == t1.(events := er.value.0);
      } else {
        assert q.t == t1;
      }
    }
  }

  /** A participant row keeps the database consistent and touches neither
      the users nor the events. */
  lemma NameRowConsistent(t: Tables, cur: Cursor, added: nat, row: seq<Cell>)
    requires Consistent(t) && CursorOk(t, cur) && cur.event.Some? && |row| >= 1
    ensures var q := NameRowStep(t, cur, added, row);
            Consistent(q.t) && q.t.events == t.events
  {
    var name := SplitName(Str(row[0]));
    if name.Some? {
      EnrolConsistent(t, cur, added, name.value.0, name.value.1);
    }
  }

  lemma EnrolConsistent(t: Tables, cur: Cursor, added: nat, first: string, last: string)
    requires Consistent(t) && CursorOk(t, cur) && cur.event.Some?
    ensures var q := Enrol(t, cur, added, first, last);
            Consistent(q.t) && q.t.events == t.events
  {
    var q := Enrol(t, cur, added, first, last);
    VolunteerFacts(t.scanners, first, last, EmailFor(first, last));
    var found := VolunteerFor(t.scanners, first, last, EmailFor(first, last));
    var ss, s := found.0, found.1;
    var t1 := t.(scanners := ss);
    GrowScannersConsistent(t, ss);
    var e := cur.event.value;
    if (e, s) !in Keys(t.participants) {
      var p := Participant(e, s, false, None, cur.hours);
      AddParticipantConsistent(t1, p);
      assert q.t == t1.(participants := t1.participants + [p]);
    } else {
      assert q.t == t1;
    }
  }

  lemma RowStepConsistent(p: Progress, row: seq<Cell>, ps: Parsers)
    requires p.Running? && Consistent(p.t) && CursorOk(p.t, p.cur)
    ensures var q := RowStep(p, row, ps);
            Consistent(q.t) && (q.Running? ==> CursorOk(q.t, q.cur))
  {
    var kind := FirstFiveTruthy(row, 0);
    if kind == Some(true) {
      EventRowConsistent(p.t, p.cur, p.added, row, ps);
    } else if kind == Some(false) && p.cur.event.Some? && NameRow(row) {
      NameRowConsistent(p.t, p.cur, p.added, row);
    }
  }

  lemma {:induction false} RunRowsConsistent(p: Progress, rows: seq<seq<Cell>>, ps: Parsers)
    requires p.Running? && Consistent(p.t) && CursorOk(p.t, p.cur)
    ensures var q := RunRows(p, rows, ps);
            Consistent(q.t) && (q.Running? ==> CursorOk(q.t, q.cur))
  {
    if rows != [] {
      RunRowsConsistent(p, rows[..|rows| - 1], ps);
      var q0 := RunRows(p, rows[..|rows| - 1], ps);
      if q0.Running? {
        RowStepConsistent(q0, rows[|rows| - 1], ps);
      }
    }
  }

  /** The import keeps the database consistent, also when it raises. */
  lemma {:induction false} ImportConsistent(t: Tables, sheets: seq<Sheet>, ps: Parsers)
    requires Consistent(t)
    ensures Consistent(ImportSpec(t, sheets, ps).t)
  {
    if sheets != [] {
      ImportConsistent(t, sheets[..|sheets| - 1], ps);
      var o0 := ImportSpec(t, sheets[..|sheets| - 1], ps);
      if o0.Going? && !Skipped(sheets[|sheets| - 1]) {
        RunRowsConsistent(Running(o0.t, Start, o0.added), DataRows(sheets[|sheets| - 1]), ps);
      }
    }
  }

  // ---------------------------------------------------------------------
  // Properties: one person, one participation

  /** Some scanner with this e-mail takes part in event `e`. */
  predicate Enrolled(t: Tables, e: EventId, email: string)
  {
    exists k :: 0 <= k < |t.scanners| && t.scanners[k].email == Some(email)
                && (e, t.scanners[k].id) in Keys(t.participants)
  }

  /** Enrolling leaves the person enrolled in the current event under the
      synthetic e-mail; the only new pair is that of the event and the
      scanner found or created. */
  lemma EnrolEnrols(t: Tables, cur: Cursor, added: nat, first: string, last: string)
    requires cur.event.Some?
    requires DistinctScannerIds(t.scanners) && DistinctEmails(t.scanners)
    ensures var q := Enrol(t, cur, added, first, last);
            && q.Running? && Enrolled(q.t, cur.event.value, EmailFor(first, last))
            && Keys(q.t.participants)
               == Keys(t.participants) + {(cur.event.value, VolunteerFor(t.scanners, first, last, EmailFor(first, last)).1)}
  {
    var email := EmailFor(first, last);
    VolunteerFacts(t.scanners, first, last, email);
    var vr := VolunteerFor(t.scanners, first, last, email);
    var ss, s := vr.0, vr.1;
    var e := cur.event.value;
    var q := Enrol(t, cur, added, first, last);
    if (e, s) !in Keys(t.participants) {
      var p := Participant(e, s, false, None, cur.hours);
      KeysAppend(t.participants, p);
      assert q == Running(t.(scanners := ss, participants := t.participants + [p]), cur, added + 1);
    } else {
      assert q == Running(t.(scanners := ss), cur, added);
    }
    var k :| 0 <= k < |ss| && ss[k].id == s && ss[k].email == Some(email);
    assert q.t.scanners[k] == ss[k];
  }

  /** Two participant rows of one event whose names agree up to case make one
      participation: the second row finds the scanner the first one found or
      created, and changes nothing. */
  lemma SameNameTwice(t: Tables, cur: Cursor, added: nat, r1: seq<Cell>, r2: seq<Cell>)
    requires DistinctScannerIds(t.scanners) && DistinctEmails(t.scanners)
    requires cur.event.Some? && |r1| >= 1 && |r2| >= 1
    requires SplitName(Str(r1[0])).Some? && SplitName(Str(r2[0])).Some?
    requires EqualsIgnoringCase(SplitName(Str(r1[0])).value.0, SplitName(Str(r2[0])).value.0)
    requires EqualsIgnoringCase(SplitName(Str(r1[0])).value.1, SplitName(Str(r2[0])).value.1)
    ensures var q := NameRowStep(t, cur, added, r1);
            NameRowStep(q.t, cur, q.added, r2) == q
  {
    var n1, n2 := SplitName(Str(r1[0])).value, SplitName(Str(r2[0])).value;
    assert EmailFor(n2.0, n2.1) == EmailFor(n1.0, n1.1);
    EnrolAgain(t, cur, added, n1.0, n1.1, n2.0, n2.1);
    var q := Enrol(t, cur, added, n1.0, n1.1);
    assert NameRowStep(t, cur, added, r1) == q;
    assert NameRowStep(q.t, cur, q.added, r2) == Enrol(q.t, cur, q.added, n2.0, n2.1);
  }

  /** Enrolling a second time under the same synthetic e-mail changes nothing. */
  lemma EnrolAgain(t: Tables, cur: Cursor, added: nat, f1: string, l1: string, f2: string, l2: string)
    requires DistinctScannerIds(t.scanners) && DistinctEmails(t.scanners)
    requires cur.event.Some? && EmailFor(f2, l2) == EmailFor(f1, l1)
    ensures var q := Enrol(t, cur, added, f1, l1);
            Enrol(q.t, cur, q.added, f2, l2) == q
  {
    var email := EmailFor(f1, l1);
    EnrolEnrols(t, cur, added, f1, l1);
    VolunteerFacts(t.scanners, f1, l1, email);
    var found := VolunteerFor(t.scanners, f1, l1, email);
    var ss, s := found.0, found.1;
    var q := Enrol(t, cur, added, f1, l1);
    assert q.t.scanners == ss;
    var k :| 0 <= k < |ss| && ss[k].id == s && ss[k].email == Some(email);
    ScannerEmailsMember(ss, k);
    EmailsUnique(ss);
    var j := IndexOfEmail(ss, email);
    assert j == k;
    assert VolunteerFor(ss, f2, l2, email) == (ss, s);
  }

  // ---------------------------------------------------------------------
  // Properties: the date of an event row

  /** As written, a date-time cell hands the parser its year alone: the
      text before the first '-' of `YYYY-MM-DD 00:00:00`. */
  lemma DateTimeTextIsYear(y: nat, m: nat, d: nat)
    ensures DateText(DateTimeValue(y, m, d)) == Some(Pad4(y))
  {
    YearBeforeDash(y, m, d);
    var yy := Pad4(y);
    assert forall i :: 0 <= i < |yy| ==> !IsSpace(yy[i]) by {
      assert AllDigits(yy);
    }
    SplitJoin([yy]);
  }

  /** The text of a date-time cell holds a '-', and the year comes before the first one. */
  lemma YearBeforeDash(y: nat, m: nat, d: nat)
    ensures var s := Str(DateTimeValue(y, m, d));
            '-' in s && PrefixBefore(s, '-') == Pad4(y)
  {
    var yy, rest := Pad4(y), DateTail(m, d);
    var s := yy + rest;
    assert rest[0] == '-';
    assert s[|yy|] == '-';
    assert forall i :: 0 <= i < |yy| ==> yy[i] != '-' by {
      assert AllDigits(yy);
    }
    PrefixBeforeOf(yy, '-', rest);
  }

  lemma Pad2025()
    ensures Pad4(2025) == "2025"
  {
    assert DigitChar(2) == '2' && DigitChar(0) == '0' && DigitChar(5) == '5';
    assert NatToString(2) == ['2'];
    assert NatToString(20) == NatToString(2) + ['0'];
    assert NatToString(202) == NatToString(20) + ['2'];
    assert NatToString(2025) == NatToString(202) + ['5'];
  }

  /** A cell dated any day of 2025 reaches the parser as "2025". */
  lemma Year2025ReadsAsYear(m: nat, d: nat)
    ensures DateText(DateTimeValue(2025, m, d)) == Some("2025")
  {
    DateTimeTextIsYear(2025, m, d);
    Pad2025();
  }

  /** So, as written, every date-time cell of one year gives its event the
      same date, whatever its month and day. */
  lemma AsWrittenDatesCollapse(y: nat, m1: nat, d1: nat, m2: nat, d2: nat, parse: string -> Option<Day>)
    ensures EventDateAsWritten(DateTimeValue(y, m1, d1), parse) == EventDateAsWritten(DateTimeValue(y, m2, d2), parse)
  {
    DateTimeTextIsYear(y, m1, d1);
    DateTimeTextIsYear(y, m2, d2);
  }

  /** As intended, the days of a month get consecutive day numbers, so date
      cells of different days give different dates. */
  lemma IntendedDatesDistinct(y: nat, m: nat, d1: nat, d2: nat, parse: string -> Option<Day>)
    ensures EventDate(DateTimeValue(y, m, d1), parse).Dated?
    ensures EventDate(DateTimeValue(y, m, d2), parse).day - EventDate(DateTimeValue(y, m, d1), parse).day == d2 - d1
  {
  }

  /** As intended, a date cell of June 2025 falls in the window the June
      script refreshes. */
  lemma JuneCellsInJune(d: nat, parse: string -> Option<Day>)
    requires 1 <= d <= 30
    ensures var r := EventDate(DateTimeValue(2025, 6, d), parse);
            r.Dated? && JuneImport.JuneFirst <= r.day < JuneImport.JulyFirst
  {
  }
}
