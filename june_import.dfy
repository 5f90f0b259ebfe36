/** The June 2025 import script: a loop over the rows of one sheet that
    tracks the current team leader and the current event, get-or-creates
    events, scanners and participations, and finally recomputes the hours
    of every participant of the events dated in June 2025. */
module JuneImport {
  import opened Text
  import opened Schema
  import opened Numeric
  import opened JuneRules
  import Ledger

  /** Column C: empty, a date value, or text to parse. */
  datatype DateCell = NoDate | DateValue(day: Day) | DateText(text: string)

  /** Columns D and E: a number, or anything else. */
  datatype NumberCell = NotNumber | NumberValue(x: real)

  /** One sheet row: column A as text ("" when empty), the event name (""
      when empty), the date, the number of scanners and the hours. */
  datatype Row = Row(a: string, eventName: string, date: DateCell, scanners: NumberCell, hours: NumberCell)

  /** The variables the loop carries from row to row. */
  datatype Cursor = Cursor(leader: Option<User>, event: Option<EventId>)

  /** The loop either goes on, or an exception ended the import; the changes
      made until then stay. */
  datatype Progress = Running(t: Tables, cur: Cursor) | Stopped(t: Tables)

  predicate DateTruthy(c: DateCell)
  {
    c.DateValue? || (c.DateText? && c.text != "")
  }

  /** The date a date cell stands for: a date value as is, text through the
      `%Y-%m-%d`-then-`%d.%m.%Y` parser. */
  function ResolveDate(c: DateCell, parse: string -> Option<Day>): Option<Day>
  {
    match c
    case NoDate => None
    case DateValue(d) => Some(d)
    case DateText(s) => parse(s)
  }

  /** A column-A cell holding a phone number names the current team leader
      (possibly none found); an empty extracted name keeps the current one. */
  function NextLeader(a: string, current: Option<User>, tls: seq<User>): Option<User>
  {
    if a != "" && HasPhone(a) then
      match ExtractName(a)
      case Some(name) => if name != "" then FindTeamLeader(name, tls) else current
      case None => current
    else current
  }

  // ---------------------------------------------------------------------
  // get_or_create

  predicate SameEvent(e: Event, name: string, date: Day, leader: UserId)
  {
    e.name == name && e.date == date && e.leader == leader
  }

  /** The positions of the event rows with this name, date and leader. */
  function EventMatches(es: seq<Event>, name: string, date: Day, leader: UserId): (r: seq<nat>)
    ensures forall j :: 0 <= j < |r| ==> r[j] < |es| && SameEvent(es[r[j]], name, date, leader)
    ensures forall i :: 0 <= i < |es| && SameEvent(es[i], name, date, leader) ==> i in r
    ensures forall a, b :: 0 <= a < b < |r| ==> r[a] < r[b]
  {
    if es == [] then []
    else EventMatches(es[..|es| - 1], name, date, leader)
         + (if SameEvent(es[|es| - 1], name, date, leader) then [|es| - 1] else [])
  }

  /** `int(x)` of a numeric cell. */
  function CountOf(c: NumberCell, otherwise: int): int
  {
    if c.NumberValue? then Trunc(c.x) else otherwise
  }

  /** `Event.objects.get_or_create(name, date, leader, defaults)` followed,
      for an existing row, by the update of the numeric columns. `None` when
      it raises: more than one row matches, or a negative number of scanners
      meets the non-negative column. */
  function EventGetOrCreate(es: seq<Event>, name: string, date: Day, leader: UserId, row: Row)
    : Option<(seq<Event>, EventId)>
  {
    var found := EventMatches(es, name, date, leader);
    if |found| > 1 then None
    else if found == [] then
      var n := CountOf(row.scanners, 0);
      if n < 0 then None
      else
        var e := Event(NextEventId(es), name, date, n, leader,
                       Some(if row.hours.NumberValue? then row.hours.x else 0.0));
        Some((es + [e], e.id))
    else
      var e := es[found[0]];
      var n := CountOf(row.scanners, e.volunteersRequired);
      if n < 0 then None
      else
        var e' := e.(volunteersRequired := n,
                     duration := if row.hours.NumberValue? then Some(row.hours.x) else e.duration);
        Some((es[found[0] := e'], e.id))
  }

  predicate NamedScanner(s: Scanner, first: string, last: string)
  {
    s.firstName == first && s.lastName == last
  }

  /** The positions of the scanners with exactly this first and last name. */
  function ScannerMatches(ss: seq<Scanner>, first: string, last: string): (r: seq<nat>)
    ensures forall j :: 0 <= j < |r| ==> r[j] < |ss| && NamedScanner(ss[r[j]], first, last)
    ensures forall i :: 0 <= i < |ss| && NamedScanner(ss[i], first, last) ==> i in r
    ensures forall a, b :: 0 <= a < b < |r| ==> r[a] < r[b]
  {
    if ss == [] then []
    else ScannerMatches(ss[..|ss| - 1], first, last)
         + (if NamedScanner(ss[|ss| - 1], first, last) then [|ss| - 1] else [])
  }

  /** `Scanner.objects.get_or_create(first_name, last_name)`: `None` when it
      raises. That happens when more than one scanner has that name, or when
      a scanner has to be created while another one already holds the empty
      e-mail: a created scanner gets the e-mail column's default, "", and
      the column is unique. */
  function ScannerGetOrCreate(ss: seq<Scanner>, first: string, last: string): Option<(seq<Scanner>, ScannerId)>
  {
    var found := ScannerMatches(ss, first, last);
    if |found| > 1 then None
    else if found == [] then
      if "" in ScannerEmails(ss) then None
      else
        var s := Scanner(NextScannerId(ss), first, last, Some(""));
        Some((ss + [s], s.id))
    else Some((ss, ss[found[0]].id))
  }

  /** The get-or-create raises exactly when the name is ambiguous, or when it
      is new and the empty e-mail is already taken. */
  lemma ScannerGetOrCreateRaises(ss: seq<Scanner>, first: string, last: string)
    ensures ScannerGetOrCreate(ss, first, last).None?
            <==> (exists i, j :: 0 <= i < j < |ss| && NamedScanner(ss[i], first, last) && NamedScanner(ss[j], first, last))
                 || ((forall i :: 0 <= i < |ss| ==> !NamedScanner(ss[i], first, last)) && "" in ScannerEmails(ss))
  {
    var found := ScannerMatches(ss, first, last);
    if |found| > 1 {
      assert NamedScanner(ss[found[0]], first, last) && NamedScanner(ss[found[1]], first, last);
    } else if |found| == 1 {
      assert NamedScanner(ss[found[0]], first, last);
      forall i, j | 0 <= i < j < |ss| && NamedScanner(ss[i], first, last)
        ensures !NamedScanner(ss[j], first, last)
      {
        assert i in found;
      }
    }
  }

  /** The duration of the event with this identifier, if it has one. */
  function EventDuration(es: seq<Event>, id: EventId): Option<real>
  {
    if es == [] then None
    else if es[|es| - 1].id == id then es[|es| - 1].duration
    else EventDuration(es[..|es| - 1], id)
  }

  /** `EventParticipant.objects.get_or_create(event, volunteer)`, then, when
      the event's duration is set and non-zero, the row's hours. */
  function Enrol(ps: seq<Participant>, e: EventId, s: ScannerId, duration: Option<real>): seq<Participant>
  {
    var k := IndexOfPair(ps, e, s);
    var ps1 := if k == -1 then ps + [NewParticipant(e, s)] else ps;
    var k1 := if k == -1 then |ps| else k;
    if duration.Some? && duration.value != 0.0 then
      ps1[k1 := ps1[k1].(hours := Ledger.AwardedHours(duration.value, ps1[k1].lateMinutes))]
    else ps1
  }

  /** A scanner row of event `e`: the stripped cell is split into a first
      name and the rest; the scanner and the participation are
      get-or-created. `None` when that raises. */
  function ScannerRow(t: Tables, e: EventId, a: string): Option<Tables>
  {
    var name := Strip(a);
    var parts := Split(name);
    if name == "" || parts == [] then Some(t)
    else
      match ScannerGetOrCreate(t.scanners, parts[0], Join(parts[1..], " "))
      case None => None
      case Some((ss, s)) =>
        Some(t.(scanners := ss, participants := Enrol(t.participants, e, s, EventDuration(t.events, e))))
  }

  // ---------------------------------------------------------------------
  // The row loop

  /** One row: first the leader cell, then an event row (name, date and a
      current leader; an unparseable date skips the rest of the row), else a
      scanner row (a current event, a column-A cell without a phone number
      and no event name). */
  function RowStep(t: Tables, cur: Cursor, row: Row, tls: seq<User>, parse: string -> Option<Day>): Progress
  {
    var leader := NextLeader(row.a, cur.leader, tls);
    if row.eventName != "" && DateTruthy(row.date) && leader.Some? then
      match ResolveDate(row.date, parse)
      case None => Running(t, Cursor(leader, cur.event))
      case Some(d) =>
        match EventGetOrCreate(t.events, row.eventName, d, leader.value.id, row)
        case None => Stopped(t)
        case Some((es, id)) => Running(t.(events := es), Cursor(leader, Some(id)))
    else if cur.event.Some? && row.a != "" && !HasPhone(row.a) && row.eventName == "" then
      match ScannerRow(t, cur.event.value, row.a)
      case None => Stopped(t)
      case Some(t') => Running(t', Cursor(leader, cur.event))
    else Running(t, Cursor(leader, cur.event))
  }

  /** The loop over `rows`, from no leader and no event. */
  function RunRows(t: Tables, rows: seq<Row>, tls: seq<User>, parse: string -> Option<Day>): Progress
  {
    if rows == [] then Running(t, Cursor(None, None))
    else
      match RunRows(t, rows[..|rows| - 1], tls, parse)
      case Stopped(t') => Stopped(t')
      case Running(t', cur) => RowStep(t', cur, rows[|rows| - 1], tls, parse)
  }

  // ---------------------------------------------------------------------
  // The closing pass over June 2025

  /** 1 June 2025 and 1 July 2025 as day numbers. */
  const JuneFirst: Day := 20240
  const JulyFirst: Day := 20270

  /** An event whose participants the closing pass recomputes: dated in June
      2025, with a set, non-zero duration. */
  predicate Refreshed(e: Event)
  {
    JuneFirst <= e.date < JulyFirst && e.duration.Some? && e.duration.value != 0.0
  }

  /** The participants after the closing pass over the events `es`, in order. */
  function JuneHours(ps: seq<Participant>, es: seq<Event>): seq<Participant>
  {
    if es == [] then ps
    else
      var ps' := JuneHours(ps, es[..|es| - 1]);
      var e := es[|es| - 1];
      if Refreshed(e) then Ledger.Recomputed(ps', e.id, e.duration.value) else ps'
  }

  /** The database after the script, and whether it got through every row. */
  function JuneSpec(t: Tables, rows: seq<Row>, parse: string -> Option<Day>): (Tables, bool)
  {
    match RunRows(t, rows, TeamLeaders(t.users), parse)
    case Stopped(t') => (t', false)
    case Running(t', _) => (t'.(participants := JuneHours(t'.participants, t'.events)), true)
  }

  // ---------------------------------------------------------------------
  // The script

  method ImportRow(db: Store, cur: Cursor, row: Row, tls: seq<User>, parse: string -> Option<Day>)
    returns (ok: bool, next: Cursor)
    modifies db`events, db`scanners, db`participants
    ensures RowStep(old(db.Snapshot()), cur, row, tls, parse)
            == (if ok then Running(db.Snapshot(), next) else Stopped(db.Snapshot()))
  {
    var leader := NextLeader(row.a, cur.leader, tls);
    next := Cursor(leader, cur.event);
    ok := true;
    if row.eventName != "" && DateTruthy(row.date) && leader.Some? {
      var day := ResolveDate(row.date, parse);
      if day.Some? {
        var r := EventGetOrCreate(db.events, row.eventName, day.value, leader.value.id, row);
        if r.None? {
          ok := false;
        } else {
          db.events := r.value.0;
          next := Cursor(leader, Some(r.value.1));
        }
      }
    } else if cur.event.Some? && row.a != "" && !HasPhone(row.a) && row.eventName == "" {
      var r := ScannerRow(db.Snapshot(), cur.event.value, row.a);
      if r.None? {
        ok := false;
      } else {
        db.scanners, db.participants := r.value.scanners, r.value.participants;
      }
    }
  }

  /** An import that stopped stays stopped. */
  lemma {:induction false} StoppedStays(t: Tables, rows: seq<Row>, i: nat, tls: seq<User>, parse: string -> Option<Day>)
    requires i <= |rows| && RunRows(t, rows[..i], tls, parse).Stopped?
    ensures RunRows(t, rows, tls, parse) == RunRows(t, rows[..i], tls, parse)
    decreases |rows| - i
  {
    if i < |rows| {
      assert rows[..i + 1][..i] == rows[..i];
      StoppedStays(t, rows, i + 1, tls, parse);
    } else {
      assert rows[..i] == rows;
    }
  }

  /** The closing pass. */
  method RefreshJuneHours(db: Store)
    modifies db`participants
    ensures db.participants == JuneHours(old(db.participants), db.events)
  {
    for i := 0 to |db.events|
      invariant db.participants == JuneHours(old(db.participants), db.events[..i])
    {
      assert db.events[..i + 1][..i] == db.events[..i];
      var e := db.events[i];
      if Refreshed(e) {
        Ledger.RecomputeHours(db, e.id, e.duration.value);
      }
    }
    assert db.events[..|db.events|] == db.events;
  }

  /** `main`: the rows of the sheet, then the closing pass. */
  method ImportJune(db: Store, rows: seq<Row>, parse: string -> Option<Day>) returns (completed: bool)
    modifies db`events, db`scanners, db`participants
    ensures (db.Snapshot(), completed) == JuneSpec(old(db.Snapshot()), rows, parse)
  {
    ghost var t0 := db.Snapshot();
    var tls := TeamLeaders(db.users);
    var cur := Cursor(None, None);
    for i := 0 to |rows|
      invariant db.users == t0.users && db.teamLeaders == t0.teamLeaders && db.logs == t0.logs
      invariant RunRows(t0, rows[..i], tls, parse) == Running(db.Snapshot(), cur)
    {
      assert rows[..i + 1][..i] == rows[..i];
      var ok, next := ImportRow(db, cur, rows[i], tls, parse);
      if !ok {
        StoppedStays(t0, rows, i + 1, tls, parse);
        return false;
      }
      cur := next;
    }
    assert rows[..|rows|] == rows;
    RefreshJuneHours(db);
    completed := true;
  }

  // ---------------------------------------------------------------------
  // Properties

  /** The leader after a row is the one before it, none, or a team leader. */
  lemma NextLeaderFrom(a: string, current: Option<User>, tls: seq<User>)
    ensures var l := NextLeader(a, current, tls);
            l == current || l.None? || l.value in tls
  {
    var l := NextLeader(a, current, tls);
    if l != current && l.Some? {
      var k :| 0 <= k < |tls| && tls[k] == l.value;
    }
  }

  /** A successful event get-or-create leaves exactly one row with that
      name, date and leader, the one whose identifier it returns. */
  lemma EventGetOrCreateUnique(es: seq<Event>, name: string, date: Day, leader: UserId, row: Row)
    ensures var r := EventGetOrCreate(es, name, date, leader, row);
            r.Some? ==>
              && (exists i :: 0 <= i < |r.value.0| && r.value.0[i].id == r.value.1
                               && SameEvent(r.value.0[i], name, date, leader))
              && (forall i, j :: 0 <= i < j < |r.value.0| && SameEvent(r.value.0[i], name, date, leader)
                                 ==> !SameEvent(r.value.0[j], name, date, leader))
  {
    var found := EventMatches(es, name, date, leader);
    var r := EventGetOrCreate(es, name, date, leader, row);
    if r.Some? {
      var es' := r.value.0;
      if found == [] {
        assert es'[|es|].id == r.value.1 && SameEvent(es'[|es|], name, date, leader);
        forall i | 0 <= i < |es| ensures !SameEvent(es'[i], name, date, leader) {
          assert es'[i] == es[i];
        }
      } else {
        var k := found[0];
        assert |found| == 1;
        assert es'[k].id == r.value.1 && SameEvent(es'[k], name, date, leader);
        forall i | 0 <= i < |es'| && i != k ensures !SameEvent(es'[i], name, date, leader) {
          assert es'[i] == es[i];
        }
      }
    }
  }

  /** What the event get-or-create writes. A new event takes the sheet's
      count (0 for a non-numeric cell) and hours (0.0 likewise) and is the
      only new row; a matching event keeps its identifier and takes only the
      numeric cells, every other row staying as it was. */
  lemma EventGetOrCreateValues(es: seq<Event>, name: string, date: Day, leader: UserId, row: Row)
    ensures var r := EventGetOrCreate(es, name, date, leader, row);
            r.Some? ==>
              && ((forall i :: 0 <= i < |es| ==> !SameEvent(es[i], name, date, leader)) ==>
                    && r.value.1 == NextEventId(es) && r.value.1 !in EventIds(es)
                    && r.value.0 == es + [Event(r.value.1, name, date, CountOf(row.scanners, 0), leader,
                                                Some(if row.hours.NumberValue? then row.hours.x else 0.0))])
              && (forall k :: 0 <= k < |es| && SameEvent(es[k], name, date, leader) ==>
                    && r.value.1 == es[k].id && |r.value.0| == |es|
                    && r.value.0[k].volunteersRequired == CountOf(row.scanners, es[k].volunteersRequired)
                    && r.value.0[k].duration == (if row.hours.NumberValue? then Some(row.hours.x) else es[k].duration)
                    && r.value.0[k] == es[k].(volunteersRequired := r.value.0[k].volunteersRequired,
                                              duration := r.value.0[k].duration)
                    && (forall i :: 0 <= i < |es| && i != k ==> r.value.0[i] == es[i]))
  {
    var found := EventMatches(es, name, date, leader);
    var r := EventGetOrCreate(es, name, date, leader, row);
    if r.Some? && found != [] {
      assert |found| == 1;
      forall k | 0 <= k < |es| && SameEvent(es[k], name, date, leader) ensures k == found[0] {
        assert k in found;
      }
    }
  }

  /** The event get-or-create raises exactly when two events match, or the
      number-of-scanners cell holds a negative number. */
  lemma EventGetOrCreateRaises(es: seq<Event>, name: string, date: Day, leader: UserId, row: Row)
    ensures EventGetOrCreate(es, name, date, leader, row).None?
            <==> (exists i, j :: 0 <= i < j < |es| && SameEvent(es[i], name, date, leader) && SameEvent(es[j], name, date, leader))
                 || (row.scanners.NumberValue? && Trunc(row.scanners.x) < 0)
  {
    var found := EventMatches(es, name, date, leader);
    if |found| > 1 {
      assert SameEvent(es[found[0]], name, date, leader) && SameEvent(es[found[1]], name, date, leader);
    } else if |found| == 1 {
      forall i, j | 0 <= i < j < |es| && SameEvent(es[i], name, date, leader)
        ensures !SameEvent(es[j], name, date, leader)
      {
        assert i in found;
      }
    }
  }

  /** A successful scanner get-or-create leaves exactly one scanner with that
      name, the one whose identifier it returns. It creates one only when there
      was none, and the created scanner holds the empty e-mail `Some("")`. */
  lemma ScannerGetOrCreateUnique(ss: seq<Scanner>, first: string, last: string)
    ensures var r := ScannerGetOrCreate(ss, first, last);
            r.Some? ==>
              && (exists i :: 0 <= i < |r.value.0| && r.value.0[i].id == r.value.1
                               && NamedScanner(r.value.0[i], first, last))
              && (forall i, j :: 0 <= i < j < |r.value.0| && NamedScanner(r.value.0[i], first, last)
                                 ==> !NamedScanner(r.value.0[j], first, last))
              && (r.value.0 == ss || r.value.0 == ss + [Scanner(r.value.1, first, last, Some(""))])
  {
    var found := ScannerMatches(ss, first, last);
    var r := ScannerGetOrCreate(ss, first, last);
    if r.Some? {
      var ss' := r.value.0;
      if found == [] {
        assert ss'[|ss|].id == r.value.1 && NamedScanner(ss'[|ss|], first, last);
        forall i | 0 <= i < |ss| ensures !NamedScanner(ss'[i], first, last) {
          assert ss'[i] == ss[i];
        }
      } else {
        assert |found| == 1;
      }
    }
  }

  /** Enrolling keeps one row per (event, scanner) pair and adds the pair;
      rows of other pairs stay as they were; with a set, non-zero duration
      the pair's row gets `max(d − late/60, 0)` hours. */
  lemma EnrolKeys(ps: seq<Participant>, e: EventId, s: ScannerId, duration: Option<real>)
    requires DistinctPairs(ps)
    ensures DistinctPairs(Enrol(ps, e, s, duration))
    ensures Keys(Enrol(ps, e, s, duration)) == Keys(ps) + {(e, s)}
  {
    var k := IndexOfPair(ps, e, s);
    var ps1 := if k == -1 then ps + [NewParticipant(e, s)] else ps;
    if k == -1 {
      AppendPreservesDistinct(ps, NewParticipant(e, s));
    }
    var r := Enrol(ps, e, s, duration);
    assert SameKeys(ps1, r);
    SameKeysPreserve(ps1, r);
  }

  lemma EnrolRows(ps: seq<Participant>, e: EventId, s: ScannerId, duration: Option<real>)
    requires DistinctPairs(ps)
    ensures forall p :: p in Enrol(ps, e, s, duration) && Key(p) != (e, s) ==> p in ps
    ensures forall p :: p in ps && Key(p) != (e, s) ==> p in Enrol(ps, e, s, duration)
    ensures duration.Some? && duration.value != 0.0 ==>
              forall p :: p in Enrol(ps, e, s, duration) && Key(p) == (e, s)
                          ==> p.hours == Ledger.AwardedHours(duration.value, p.lateMinutes)
  {
    var k := IndexOfPair(ps, e, s);
    var ps1 := if k == -1 then ps + [NewParticipant(e, s)] else ps;
    var k1 := if k == -1 then |ps| else k;
    var r := Enrol(ps, e, s, duration);
    assert Key(ps1[k1]) == (e, s);
    forall p | p in r && Key(p) != (e, s) ensures p in ps {
      var i :| 0 <= i < |r| && r[i] == p;
      assert i != k1 && r[i] == ps1[i];
    }
    forall p | p in ps && Key(p) != (e, s) ensures p in r {
      var i :| 0 <= i < |ps| && ps[i] == p;
      assert i != k1 && r[i] == ps1[i] == ps[i];
    }
    if duration.Some? && duration.value != 0.0 {
      forall p | p in r && Key(p) == (e, s)
        ensures p.hours == Ledger.AwardedHours(duration.value, p.lateMinutes)
      {
        var i :| 0 <= i < |r| && r[i] == p;
        EnrolKeys(ps, e, s, duration);
        AtMostOneRowPerPair(r);
        assert i == k1;
      }
    }
  }

  /** The loop's cursor points at a team leader and an existing event. */
  predicate CursorOk(t: Tables, cur: Cursor, tls: seq<User>)
  {
    && (cur.leader.Some? ==> cur.leader.value in tls)
    && (cur.event.Some? ==> cur.event.value in EventIds(t.events))
  }

  lemma EventGetOrCreateConsistent(t: Tables, name: string, date: Day, leader: UserId, row: Row)
    requires Consistent(t) && leader in UserIds(t.users)
    ensures var r := EventGetOrCreate(t.events, name, date, leader, row);
            r.Some? ==> Consistent(t.(events := r.value.0)) && r.value.1 in EventIds(r.value.0)
  {
    var found := EventMatches(t.events, name, date, leader);
    var r := EventGetOrCreate(t.events, name, date, leader, row);
    if r.Some? {
      if found == [] {
        var e := r.value.0[|t.events|];
        assert r.value.0 == t.events + [e];
        AppendEventIds(t.events, e);
      } else {
        var k := found[0];
        assert SameEventIdentity(t.events, r.value.0);
        EventsRewritten(t, r.value.0);
        SameEventIdentityPreserve(t.events, r.value.0);
        EventIdsMember(t.events, k);
      }
    }
  }

  lemma ScannerGetOrCreateConsistent(t: Tables, first: string, last: string)
    requires Consistent(t)
    ensures var r := ScannerGetOrCreate(t.scanners, first, last);
            r.Some? ==> Consistent(t.(scanners := r.value.0)) && r.value.1 in ScannerIds(r.value.0)
  {
    var found := ScannerMatches(t.scanners, first, last);
    var r := ScannerGetOrCreate(t.scanners, first, last);
    if r.Some? {
      if found == [] {
        var sc := r.value.0[|t.scanners|];
        assert r.value.0 == t.scanners + [sc];
        AppendScannerIds(t.scanners, sc);
      } else {
        ScannerIdsMember(t.scanners, found[0]);
      }
    }
  }

  lemma ScannerRowConsistent(t: Tables, e: EventId, a: string)
    requires Consistent(t) && e in EventIds(t.events)
    ensures var r := ScannerRow(t, e, a);
            r.Some? ==> Consistent(r.value) && r.value.events == t.events && r.value.users == t.users
  {
    var name := Strip(a);
    var parts := Split(name);
    if name != "" && parts != [] {
      var first, last := parts[0], Join(parts[1..], " ");
      ScannerGetOrCreateConsistent(t, first, last);
      var g := ScannerGetOrCreate(t.scanners, first, last);
      if g.Some? {
        var t1 := t.(scanners := g.value.0);
        var s := g.value.1;
        var ps := Enrol(t.participants, e, s, EventDuration(t.events, e));
        EnrolKeys(t.participants, e, s, EventDuration(t.events, e));
        EnrolRows(t.participants, e, s, EventDuration(t.events, e));
        assert ParticipantsRefer(ps, EventIds(t1.events), ScannerIds(t1.scanners));
      }
    }
  }

  /** Every row keeps the database consistent and the cursor valid; a row
      that raises changes nothing. */
  lemma RowStepConsistent(t: Tables, cur: Cursor, row: Row, tls: seq<User>, parse: string -> Option<Day>)
    requires Consistent(t) && CursorOk(t, cur, tls) && forall u :: u in tls ==> u in t.users
    ensures match RowStep(t, cur, row, tls, parse)
            case Running(t', cur') => Consistent(t') && CursorOk(t', cur', tls) && t'.users == t.users
            case Stopped(t') => t' == t
  {
    var leader := NextLeader(row.a, cur.leader, tls);
    NextLeaderFrom(row.a, cur.leader, tls);
    if row.eventName != "" && DateTruthy(row.date) && leader.Some? {
      var d := ResolveDate(row.date, parse);
      if d.Some? {
        var k :| 0 <= k < |t.users| && t.users[k] == leader.value;
        UserIdsMember(t.users, k);
        EventGetOrCreateConsistent(t, row.eventName, d.value, leader.value.id, row);
      }
    } else if cur.event.Some? && row.a != "" && !HasPhone(row.a) && row.eventName == "" {
      ScannerRowConsistent(t, cur.event.value, row.a);
    }
  }

  lemma {:induction false} RunRowsConsistent(t: Tables, rows: seq<Row>, tls: seq<User>, parse: string -> Option<Day>)
    requires Consistent(t) && forall u :: u in tls ==> u in t.users
    ensures match RunRows(t, rows, tls, parse)
            case Running(t', cur') => Consistent(t') && CursorOk(t', cur', tls) && t'.users == t.users
            case Stopped(t') => Consistent(t')
  {
    if rows != [] {
      RunRowsConsistent(t, rows[..|rows| - 1], tls, parse);
      match RunRows(t, rows[..|rows| - 1], tls, parse)
      case Stopped(_) =>
      case Running(t', cur) =>
        RowStepConsistent(t', cur, rows[|rows| - 1], tls, parse);
    }
  }

  lemma {:induction false} JuneHoursKeys(ps: seq<Participant>, es: seq<Event>)
    ensures SameKeys(ps, JuneHours(ps, es))
  {
    if es != [] {
      JuneHoursKeys(ps, es[..|es| - 1]);
    }
  }

  /** The whole script keeps the database consistent, whether or not it gets
      through every row. */
  lemma JuneSpecConsistent(t: Tables, rows: seq<Row>, parse: string -> Option<Day>)
    requires Consistent(t)
    ensures Consistent(JuneSpec(t, rows, parse).0)
  {
    var tls := TeamLeaders(t.users);
    RunRowsConsistent(t, rows, tls, parse);
    match RunRows(t, rows, tls, parse)
    case Stopped(_) =>
    case Running(t', _) =>
      JuneHoursKeys(t'.participants, t'.events);
      ParticipantsRewritten(t', JuneHours(t'.participants, t'.events));
  }

  /** The closing pass gives every participant of a June 2025 event with a
      set, non-zero duration `max(d − late/60, 0)` hours and leaves every
      other row as it was. */
  lemma {:induction false} JuneHoursFacts(ps: seq<Participant>, es: seq<Event>)
    requires DistinctEventIds(es)
    ensures |JuneHours(ps, es)| == |ps|
    ensures forall k, e :: 0 <= k < |ps| && e in es && e.id == ps[k].event && Refreshed(e) ==>
              JuneHours(ps, es)[k] == ps[k].(hours := Ledger.AwardedHours(e.duration.value, ps[k].lateMinutes))
    ensures forall k :: 0 <= k < |ps| && (forall e :: e in es && e.id == ps[k].event ==> !Refreshed(e)) ==>
              JuneHours(ps, es)[k] == ps[k]
  {
    if es != [] {
      var init, last := es[..|es| - 1], es[|es| - 1];
      assert es == init + [last];
      JuneHoursFacts(ps, init);
      var r0 := JuneHours(ps, init);
      var r := JuneHours(ps, es);
      forall k, e | 0 <= k < |ps| && e in init && e.id == ps[k].event
        ensures e.id != last.id
      {
        var j :| 0 <= j < |init| && init[j] == e;
        EventIdsMember(init, j);
      }
    }
  }
}
