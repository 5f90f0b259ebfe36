/** Certificates of thanks: for one participation, for every participant of
    an event, and for one scanner across all their events. Each certificate
    shows the rounded hours, and issuing it resets the hours it covers to 0.
    The renderer (PDF or PNG) is a parameter: it says whether rendering a
    certificate went through or raised. */
module Certificates {
  import opened Schema
  import opened Numeric
  import opened Text

  datatype Format = Pdf | Png

  /** One line of a scanner's certificate: an event and the hours it carried. */
  datatype Item = Item(eventName: string, date: Day, hours: real)

  /** What is handed to the renderer. */
  datatype Certificate =
    | EventCertificate(fullName: string, hours: int, eventName: string, date: Day,
                       leaderName: string, format: Format)
    | PeriodCertificate(fullName: string, hours: int, first: Day, last: Day,
                        items: seq<Item>, format: Format)

  /** Every failure is caught and answered with an error response. */
  datatype IssueError = NoSuchRecord | NoParticipations | RenderRaised

  datatype Issued = Issued(certificates: seq<Certificate>) | Refused(error: IssueError)

  /** The `format` query parameter: anything but "png", missing included, is PDF. */
  function NormalizeFormat(requested: Option<string>): (f: Format)
    ensures f == Png <==> requested == Some("png")
  {
    if requested == Some("png") then Png else Pdf
  }

  /** The upper-cased "first last" of a scanner. */
  function FullName(s: Scanner): string
  {
    Upper(s.firstName + " " + s.lastName)
  }

  /** The tables a certificate reads besides the participations, with their
      foreign keys in place. */
  predicate Directory(ss: seq<Scanner>, es: seq<Event>, us: seq<User>)
  {
    EventsRefer(es, UserIds(us))
  }

  /** Every participation and every event can be resolved to its rows. */
  predicate Resolvable(t: Tables)
  {
    Directory(t.scanners, t.events, t.users)
    && ParticipantsRefer(t.participants, EventIds(t.events), ScannerIds(t.scanners))
  }

  predicate Refers(p: Participant, ss: seq<Scanner>, es: seq<Event>)
  {
    p.event in EventIds(es) && p.scanner in ScannerIds(ss)
  }

  /** The certificate for one participation row. */
  function CertFor(ss: seq<Scanner>, es: seq<Event>, us: seq<User>, p: Participant, f: Format): (c: Certificate)
    requires Directory(ss, es, us) && Refers(p, ss, es)
    ensures c.EventCertificate? && c.hours == RoundHalfEven(p.hours) && c.format == f
  {
    var ev := EventWithId(es, p.event);
    var leader := UserWithId(us, ev.leader);
    EventCertificate(FullName(ScannerWithId(ss, p.scanner)), RoundHalfEven(p.hours), ev.name, ev.date,
                     leader.firstName + " " + leader.lastName, f)
  }

  // ---------------------------------------------------------------------
  // One participation

  /** Issuing for the (e, s) participation: render, then reset its hours. */
  function IssueOneSpec(t: Tables, e: EventId, s: ScannerId, format: Option<string>,
                        render: Certificate -> bool): (Tables, Issued)
    requires Consistent(t)
  {
    var k := IndexOfPair(t.participants, e, s);
    if k < 0 then (t, Refused(NoSuchRecord))
    else
      var c := CertFor(t.scanners, t.events, t.users, t.participants[k], NormalizeFormat(format));
      if !render(c) then (t, Refused(RenderRaised))
      else (t.(participants := t.participants[k := t.participants[k].(hours := 0.0)]), Issued([c]))
  }

  /** Single issuance hands the renderer `round(hours)` of that row and then
      sets exactly that row's hours to 0; a missing row or a renderer that
      raises changes nothing. */
  lemma IssueOneFacts(t: Tables, e: EventId, s: ScannerId, format: Option<string>,
                      render: Certificate -> bool)
    requires Consistent(t)
    ensures var (t', res) := IssueOneSpec(t, e, s, format, render);
      && Consistent(t')
      && t'.events == t.events && t'.scanners == t.scanners && t'.users == t.users && t'.logs == t.logs
      && ((e, s) !in Keys(t.participants) ==> res == Refused(NoSuchRecord) && t' == t)
      && (res.Refused? ==> t' == t)
      && (res.Issued? ==>
            exists k :: 0 <= k < |t.participants| && Key(t.participants[k]) == (e, s)
              && res.certificates == [CertFor(t.scanners, t.events, t.users, t.participants[k], NormalizeFormat(format))]
              && res.certificates[0].hours == RoundHalfEven(t.participants[k].hours)
              && t'.participants == t.participants[k := t.participants[k].(hours := 0.0)])
      && (forall k :: 0 <= k < |t.participants| && Key(t.participants[k]) == (e, s) ==>
            var c := CertFor(t.scanners, t.events, t.users, t.participants[k], NormalizeFormat(format));
            && (res.Issued? <==> render(c))
            && (res == Refused(RenderRaised) <==> !render(c)))
  {
    var k := IndexOfPair(t.participants, e, s);
    AtMostOneRowPerPair(t.participants);
    forall j | 0 <= j < |t.participants| && Key(t.participants[j]) == (e, s)
      ensures j == k
    {
      KeysMember(t.participants, j);
    }
    if k >= 0 {
      var ps' := t.participants[k := t.participants[k].(hours := 0.0)];
      ParticipantsRewritten(t, ps');
    }
  }

  method IssueForParticipation(db: Store, e: EventId, s: ScannerId, format: Option<string>,
                               render: Certificate -> bool) returns (res: Issued)
    requires db.Valid()
    modifies db`participants
    ensures (db.Snapshot(), res) == IssueOneSpec(old(db.Snapshot()), e, s, format, render)
  {
    var f := NormalizeFormat(format);
    var k := IndexOfPair(db.participants, e, s);
    if k < 0 {
      return Refused(NoSuchRecord);
    }
    var p := db.participants[k];
    var c := CertFor(db.scanners, db.events, db.users, p, f);
    if !render(c) {
      return Refused(RenderRaised);
    }
    db.participants := db.participants[k := p.(hours := 0.0)];
    res := Issued([c]);
  }

  // ---------------------------------------------------------------------
  // Every participant of an event

  /** The rows of event `e` among the first `bound` rows, in order. */
  function EventRowsBefore(ps: seq<Participant>, e: EventId, bound: nat): (r: seq<Participant>)
    requires bound <= |ps|
    ensures forall p :: p in r ==> p in ps && p.event == e
    ensures |r| == |set k | 0 <= k < bound && ps[k].event == e|
    ensures |r| <= bound
  {
    if bound == 0 then []
    else
      EventIndicesStep(ps, e, bound);
      EventRowsBefore(ps, e, bound - 1) + (if ps[bound - 1].event == e then [ps[bound - 1]] else [])
  }

  /** The selection is the subsequence of the event's rows, in order: the
      selection below a smaller bound is a prefix, and each row of the event
      sits right after the rows of the event before it. So every row of the
      event below the bound is selected. */
  lemma EventRowsBeforeInOrder(ps: seq<Participant>, e: EventId, bound: nat)
    requires bound <= |ps|
    ensures var r := EventRowsBefore(ps, e, bound);
      && (forall k :: 0 <= k <= bound ==> EventRowsBefore(ps, e, k) <= r)
      && (forall k :: 0 <= k < bound && ps[k].event == e ==>
            |EventRowsBefore(ps, e, k)| < |r| && r[|EventRowsBefore(ps, e, k)|] == ps[k])
      && (forall k :: 0 <= k < bound && ps[k].event == e ==> ps[k] in r)
  {
    var r := EventRowsBefore(ps, e, bound);
    forall k | 0 <= k <= bound ensures EventRowsBefore(ps, e, k) <= r {
      EventRowsBeforePrefix(ps, e, k, bound);
    }
    forall k | 0 <= k < bound && ps[k].event == e
      ensures |EventRowsBefore(ps, e, k)| < |r| && r[|EventRowsBefore(ps, e, k)|] == ps[k]
    {
      EventRowsBeforePrefix(ps, e, k + 1, bound);
      assert EventRowsBefore(ps, e, k + 1) == EventRowsBefore(ps, e, k) + [ps[k]];
    }
  }

  /** The selection below `k` is a prefix of the selection below `bound`. */
  lemma {:induction false} EventRowsBeforePrefix(ps: seq<Participant>, e: EventId, k: nat, bound: nat)
    requires k <= bound <= |ps|
    ensures EventRowsBefore(ps, e, k) <= EventRowsBefore(ps, e, bound)
    decreases bound - k
  {
    if k < bound {
      EventRowsBeforePrefix(ps, e, k, bound - 1);
      var r0, r := EventRowsBefore(ps, e, bound - 1), EventRowsBefore(ps, e, bound);
      assert r == r0 + (if ps[bound - 1].event == e then [ps[bound - 1]] else []);
      assert r0 <= r;
    }
  }

  /** The positions of event `e` below `bound` gain at most the last one. */
  lemma EventIndicesStep(ps: seq<Participant>, e: EventId, bound: nat)
    requires 0 < bound <= |ps|
    ensures |set k | 0 <= k < bound && ps[k].event == e|
            == |set k | 0 <= k < bound - 1 && ps[k].event == e| + (if ps[bound - 1].event == e then 1 else 0)
  {
    var a := set k | 0 <= k < bound - 1 && ps[k].event == e;
    if ps[bound - 1].event == e {
      assert (set k | 0 <= k < bound && ps[k].event == e) == a + {bound - 1};
    } else {
      assert (set k | 0 <= k < bound && ps[k].event == e) == a;
    }
  }

  /** The certificates of the rows of event `e` among the first `bound` rows, in order. */
  function BatchCerts(t: Tables, e: EventId, f: Format, bound: nat): seq<Certificate>
    requires Resolvable(t) && bound <= |t.participants|
  {
    if bound == 0 then []
    else BatchCerts(t, e, f, bound - 1)
         + (if t.participants[bound - 1].event == e
            then [CertFor(t.scanners, t.events, t.users, t.participants[bound - 1], f)] else [])
  }

  /** The batch holds one certificate per row of the event, in order, each
      showing `round` of that row's hours. */
  lemma {:induction false} BatchCertsMatchRows(t: Tables, e: EventId, f: Format, bound: nat)
    requires Resolvable(t) && bound <= |t.participants|
    ensures var cs, rows := BatchCerts(t, e, f, bound), EventRowsBefore(t.participants, e, bound);
      && |cs| == |rows|
      && forall j :: 0 <= j < |rows| ==>
           cs[j] == CertFor(t.scanners, t.events, t.users, rows[j], f) && cs[j].hours == RoundHalfEven(rows[j].hours)
  {
    if bound > 0 {
      BatchCertsMatchRows(t, e, f, bound - 1);
      var ps := t.participants;
      var cs0, rows0 := BatchCerts(t, e, f, bound - 1), EventRowsBefore(ps, e, bound - 1);
      if ps[bound - 1].event == e {
        var c := CertFor(t.scanners, t.events, t.users, ps[bound - 1], f);
        var cs, rows := cs0 + [c], rows0 + [ps[bound - 1]];
        assert BatchCerts(t, e, f, bound) == cs;
        assert EventRowsBefore(ps, e, bound) == rows;
        forall j | 0 <= j < |rows|
          ensures cs[j] == CertFor(t.scanners, t.events, t.users, rows[j], f) && cs[j].hours == RoundHalfEven(rows[j].hours)
        {
          if j < |rows0| {
            assert cs[j] == cs0[j] && rows[j] == rows0[j];
          }
        }
      } else {
        assert BatchCerts(t, e, f, bound) == cs0;
        assert EventRowsBefore(ps, e, bound) == rows0;
      }
    }
  }

  /** The first row of event `e` at or after `from` whose certificate the renderer refuses, or `|ps|`. */
  function FirstRenderFailure(t: Tables, e: EventId, f: Format, render: Certificate -> bool, from: nat): (r: nat)
    requires Resolvable(t) && from <= |t.participants|
    ensures from <= r <= |t.participants|
    ensures r < |t.participants| ==>
      t.participants[r].event == e && !render(CertFor(t.scanners, t.events, t.users, t.participants[r], f))
    ensures forall j :: from <= j < r && t.participants[j].event == e ==>
      render(CertFor(t.scanners, t.events, t.users, t.participants[j], f))
    decreases |t.participants| - from
  {
    if from == |t.participants| then from
    else if t.participants[from].event == e
            && !render(CertFor(t.scanners, t.events, t.users, t.participants[from], f)) then from
    else FirstRenderFailure(t, e, f, render, from + 1)
  }

  /** The rows after those of event `e` among the first `bound` rows were
      reset to 0 hours, one row at a time. */
  function ZeroedEventRows(ps: seq<Participant>, e: EventId, bound: nat): (zs: seq<Participant>)
    requires bound <= |ps|
    ensures |zs| == |ps|
  {
    if bound == 0 then ps
    else
      var zs := ZeroedEventRows(ps, e, bound - 1);
      if ps[bound - 1].event == e then zs[bound - 1 := ps[bound - 1].(hours := 0.0)] else zs
  }

  /** Row by row: the rows of event `e` before `bound` are at 0 hours, and
      nothing else changes. */
  lemma {:induction false} ZeroedEventRowsAt(ps: seq<Participant>, e: EventId, bound: nat)
    requires bound <= |ps|
    ensures var zs := ZeroedEventRows(ps, e, bound);
            && |zs| == |ps|
            && forall k :: 0 <= k < |ps| ==>
                 zs[k] == if k < bound && ps[k].event == e then ps[k].(hours := 0.0) else ps[k]
  {
    if bound > 0 {
      ZeroedEventRowsAt(ps, e, bound - 1);
    }
  }

  /** The rows of event `e` before `bound` are at 0 hours, and the rows from
      `bound` on are untouched. */
  lemma ZeroedBefore(ps: seq<Participant>, e: EventId, bound: nat)
    requires bound <= |ps|
    ensures var zs := ZeroedEventRows(ps, e, bound);
            && (forall k :: 0 <= k < bound && ps[k].event == e ==> zs[k].hours == 0.0)
            && zs[bound..] == ps[bound..]
  {
    ZeroedEventRowsAt(ps, e, bound);
    var zs := ZeroedEventRows(ps, e, bound);
    assert forall i :: 0 <= i < |ps| - bound ==> zs[bound..][i] == zs[bound + i] == ps[bound + i];
  }

  /** With every row passed, every row of event `e` is reset. */
  lemma ZeroedAll(ps: seq<Participant>, e: EventId)
    ensures forall k :: 0 <= k < |ps| && ps[k].event == e ==>
              ZeroedEventRows(ps, e, |ps|)[k] == ps[k].(hours := 0.0)
  {
    ZeroedEventRowsAt(ps, e, |ps|);
  }

  /** Where the loop stands relative to the first failing row. */
  lemma FirstRenderFailureStep(t: Tables, e: EventId, f: Format, render: Certificate -> bool, i: nat)
    requires Resolvable(t) && i < |t.participants| && i <= FirstRenderFailure(t, e, f, render, 0)
    ensures var fails := t.participants[i].event == e
                         && !render(CertFor(t.scanners, t.events, t.users, t.participants[i], f));
      (fails ==> FirstRenderFailure(t, e, f, render, 0) == i)
      && (!fails ==> i + 1 <= FirstRenderFailure(t, e, f, render, 0))
  {
  }

  /** Issuing for every participant of event `e`, row by row: each row is
      rendered and then reset, so a renderer that raises half way leaves the
      earlier rows reset and returns an error. */
  function IssueEventSpec(t: Tables, e: EventId, format: Option<string>,
                          render: Certificate -> bool): (Tables, Issued)
    requires Consistent(t)
  {
    if e !in EventIds(t.events) then (t, Refused(NoSuchRecord))
    else
      var f := NormalizeFormat(format);
      var b := FirstRenderFailure(t, e, f, render, 0);
      (t.(participants := ZeroedEventRows(t.participants, e, b)),
       if b < |t.participants| then Refused(RenderRaised)
       else Issued(BatchCerts(t, e, f, |t.participants|)))
  }

  /** The batch keeps the database consistent, touches only hours, and never
      touches a row of another event. */
  lemma IssueEventConsistent(t: Tables, e: EventId, format: Option<string>, render: Certificate -> bool)
    requires Consistent(t)
    ensures var t' := IssueEventSpec(t, e, format, render).0;
      && Consistent(t')
      && t'.events == t.events && t'.scanners == t.scanners && t'.users == t.users && t'.logs == t.logs
      && |t'.participants| == |t.participants|
      && (forall k :: 0 <= k < |t.participants| ==>
            Key(t'.participants[k]) == Key(t.participants[k])
            && (t.participants[k].event != e ==> t'.participants[k] == t.participants[k]))
  {
    if e in EventIds(t.events) {
      var b := FirstRenderFailure(t, e, NormalizeFormat(format), render, 0);
      ZeroedEventRowsAt(t.participants, e, b);
      ParticipantsRewritten(t, ZeroedEventRows(t.participants, e, b));
    }
  }

  /** A successful batch holds one certificate per participant of the event,
      in order, each with `round(hours)` of its row, and leaves every row of
      the event at 0 hours. The batch fails exactly when the render of some
      row of the event raises; it then failed at the first such row: every
      earlier row of the event rendered and is at 0, and that row and all
      later rows are as they were. */
  lemma IssueEventOutcome(t: Tables, e: EventId, format: Option<string>, render: Certificate -> bool)
    requires Consistent(t) && e in EventIds(t.events)
    ensures var (t', res) := IssueEventSpec(t, e, format, render);
      var f := NormalizeFormat(format);
      && (res.Refused? <==> exists k :: 0 <= k < |t.participants| && t.participants[k].event == e
                                         && !render(CertFor(t.scanners, t.events, t.users, t.participants[k], f)))
      && (res.Issued? ==>
            var rows := EventRowsBefore(t.participants, e, |t.participants|);
            && res.certificates == BatchCerts(t, e, f, |t.participants|)
            && |res.certificates| == |rows|
            && (forall j :: 0 <= j < |rows| ==> res.certificates[j].hours == RoundHalfEven(rows[j].hours))
            && (forall k :: 0 <= k < |t.participants| && t.participants[k].event == e ==>
                  t'.participants[k] == t.participants[k].(hours := 0.0)))
      && (res.Refused? ==>
            res.error == RenderRaised
            && (exists b :: 0 <= b < |t.participants| && t.participants[b].event == e
                  && !render(CertFor(t.scanners, t.events, t.users, t.participants[b], f))
                  && (forall k :: 0 <= k < b && t.participants[k].event == e ==>
                        render(CertFor(t.scanners, t.events, t.users, t.participants[k], f))
                        && t'.participants[k].hours == 0.0)
                  && t'.participants[b..] == t.participants[b..]))
  {
    IssueEventFailsExactly(t, e, format, render);
    IssuedOutcome(t, e, format, render);
    RefusedOutcome(t, e, format, render);
  }

  /** The batch is refused exactly when the render of some row of the event
      raises. */
  lemma IssueEventFailsExactly(t: Tables, e: EventId, format: Option<string>, render: Certificate -> bool)
    requires Consistent(t) && e in EventIds(t.events)
    ensures var res := IssueEventSpec(t, e, format, render).1;
      var f := NormalizeFormat(format);
      res.Refused? <==> exists k :: 0 <= k < |t.participants| && t.participants[k].event == e
                                    && !render(CertFor(t.scanners, t.events, t.users, t.participants[k], f))
  {
    var f := NormalizeFormat(format);
    var b := FirstRenderFailure(t, e, f, render, 0);
    if b < |t.participants| {
      assert t.participants[b].event == e && !render(CertFor(t.scanners, t.events, t.users, t.participants[b], f));
    }
  }

  lemma IssuedOutcome(t: Tables, e: EventId, format: Option<string>, render: Certificate -> bool)
    requires Consistent(t) && e in EventIds(t.events)
    ensures var (t', res) := IssueEventSpec(t, e, format, render);
      res.Issued? ==>
        var rows := EventRowsBefore(t.participants, e, |t.participants|);
        && res.certificates == BatchCerts(t, e, NormalizeFormat(format), |t.participants|)
        && |res.certificates| == |rows|
        && (forall j :: 0 <= j < |rows| ==> res.certificates[j].hours == RoundHalfEven(rows[j].hours))
        && (forall k :: 0 <= k < |t.participants| && t.participants[k].event == e ==>
              t'.participants[k] == t.participants[k].(hours := 0.0))
  {
    var f := NormalizeFormat(format);
    var b := FirstRenderFailure(t, e, f, render, 0);
    if b == |t.participants| {
      IssuedFacts(t, e, f);
    }
  }

  lemma RefusedOutcome(t: Tables, e: EventId, format: Option<string>, render: Certificate -> bool)
    requires Consistent(t) && e in EventIds(t.events)
    ensures var (t', res) := IssueEventSpec(t, e, format, render);
      var f := NormalizeFormat(format);
      res.Refused? ==>
        res.error == RenderRaised
        && (exists b :: 0 <= b < |t.participants| && t.participants[b].event == e
              && !render(CertFor(t.scanners, t.events, t.users, t.participants[b], f))
              && (forall k :: 0 <= k < b && t.participants[k].event == e ==>
                    render(CertFor(t.scanners, t.events, t.users, t.participants[k], f))
                    && t'.participants[k].hours == 0.0)
              && t'.participants[b..] == t.participants[b..])
  {
    var f := NormalizeFormat(format);
    var b := FirstRenderFailure(t, e, f, render, 0);
    if b < |t.participants| {
      var zs := ZeroedEventRows(t.participants, e, b);
      ZeroedBefore(t.participants, e, b);
      assert forall k :: 0 <= k < b && t.participants[k].event == e ==>
               render(CertFor(t.scanners, t.events, t.users, t.participants[k], f)) && zs[k].hours == 0.0;
    }
  }

  lemma IssuedFacts(t: Tables, e: EventId, f: Format)
    requires Resolvable(t)
    ensures var ps, rows, cs := t.participants, EventRowsBefore(t.participants, e, |t.participants|), BatchCerts(t, e, f, |t.participants|);
            && |cs| == |rows|
            && (forall j :: 0 <= j < |rows| ==> cs[j].hours == RoundHalfEven(rows[j].hours))
            && (forall k :: 0 <= k < |ps| && ps[k].event == e ==> ZeroedEventRows(ps, e, |ps|)[k] == ps[k].(hours := 0.0))
  {
    BatchCertsMatchRows(t, e, f, |t.participants|);
    ZeroedAll(t.participants, e);
  }

  method IssueForEvent(db: Store, e: EventId, format: Option<string>,
                       render: Certificate -> bool) returns (res: Issued)
    requires db.Valid()
    modifies db`participants
    ensures (db.Snapshot(), res) == IssueEventSpec(old(db.Snapshot()), e, format, render)
  {
    if e !in EventIds(db.events) {
      return Refused(NoSuchRecord);
    }
    res := IssueEventRows(db, e, NormalizeFormat(format), render);
  }

  /** The loop over the event's rows: render, then reset, row by row. */
  method IssueEventRows(db: Store, e: EventId, f: Format, render: Certificate -> bool) returns (res: Issued)
    requires Resolvable(db.Snapshot())
    modifies db`participants
    ensures var t0 := old(db.Snapshot());
      var b := FirstRenderFailure(t0, e, f, render, 0);
      && db.participants == ZeroedEventRows(t0.participants, e, b)
      && res == if b < |t0.participants| then Refused(RenderRaised)
                else Issued(BatchCerts(t0, e, f, |t0.participants|))
  {
    ghost var t0 := db.Snapshot();
    var rows, scanners, events, users := db.participants, db.scanners, db.events, db.users;
    assert t0.users == users && t0.scanners == scanners && t0.events == events && t0.participants == rows;
    var certs: seq<Certificate> := [];
    var i := 0;
    while i < |rows|
      invariant 0 <= i <= |rows| == |db.participants| && rows == t0.participants
      invariant i <= FirstRenderFailure(t0, e, f, render, 0)
      invariant db.participants == ZeroedEventRows(rows, e, i)
      invariant certs == BatchCerts(t0, e, f, i)
    {
      var p := rows[i];
      FirstRenderFailureStep(t0, e, f, render, i);
      if p.event == e {
        var c := CertFor(scanners, events, users, p, f);
        if !render(c) {
          return Refused(RenderRaised);
        }
        db.participants := db.participants[i := p.(hours := 0.0)];
        certs := certs + [c];
        assert certs == BatchCerts(t0, e, f, i + 1);
      } else {
        assert certs == BatchCerts(t0, e, f, i + 1);
      }
      i := i + 1;
    }
    res := Issued(certs);
  }

  // ---------------------------------------------------------------------
  // One scanner, across all their events

  /** The rows of scanner `s`, in order. */
  function ScannerRows(ps: seq<Participant>, s: ScannerId): (r: seq<Participant>)
    ensures forall p :: p in r ==> p in ps && p.scanner == s
    ensures |r| == |set k | 0 <= k < |ps| && ps[k].scanner == s|
  {
    if ps == [] then []
    else
      ScannerIndicesStep(ps, s);
      ScannerRows(ps[..|ps| - 1], s) + (if ps[|ps| - 1].scanner == s then [ps[|ps| - 1]] else [])
  }

  /** The selection is the subsequence of the scanner's rows, in order: the
      selection of a prefix of the rows is a prefix, and each row of the
      scanner sits right after the rows of the scanner before it. So every
      row of the scanner is selected. */
  lemma ScannerRowsInOrder(ps: seq<Participant>, s: ScannerId)
    ensures var r := ScannerRows(ps, s);
      && (forall k :: 0 <= k <= |ps| ==> ScannerRows(ps[..k], s) <= r)
      && (forall k :: 0 <= k < |ps| && ps[k].scanner == s ==>
            |ScannerRows(ps[..k], s)| < |r| && r[|ScannerRows(ps[..k], s)|] == ps[k])
      && (forall k :: 0 <= k < |ps| && ps[k].scanner == s ==> ps[k] in r)
  {
    var r := ScannerRows(ps, s);
    forall k | 0 <= k <= |ps| ensures ScannerRows(ps[..k], s) <= r {
      ScannerRowsPrefix(ps, s, k);
    }
    forall k | 0 <= k < |ps| && ps[k].scanner == s
      ensures |ScannerRows(ps[..k], s)| < |r| && r[|ScannerRows(ps[..k], s)|] == ps[k]
    {
      ScannerRowsPrefix(ps, s, k + 1);
      var p := ps[..k + 1];
      assert p[..|p| - 1] == ps[..k] && p[|p| - 1] == ps[k];
      assert ScannerRows(p, s) == ScannerRows(ps[..k], s) + [ps[k]];
    }
  }

  /** The selection of the first `k` rows is a prefix of the selection of all of them. */
  lemma {:induction false} ScannerRowsPrefix(ps: seq<Participant>, s: ScannerId, k: nat)
    requires k <= |ps|
    ensures ScannerRows(ps[..k], s) <= ScannerRows(ps, s)
    decreases |ps|
  {
    if k < |ps| {
      var init := ps[..|ps| - 1];
      ScannerRowsPrefix(init, s, k);
      assert init[..k] == ps[..k];
    } else {
      assert ps[..k] == ps;
    }
  }

  /** The positions of scanner `s` gain at most the last one. */
  lemma ScannerIndicesStep(ps: seq<Participant>, s: ScannerId)
    requires ps != []
    ensures var init := ps[..|ps| - 1];
            |set k | 0 <= k < |ps| && ps[k].scanner == s|
            == |set k | 0 <= k < |init| && init[k].scanner == s| + (if ps[|ps| - 1].scanner == s then 1 else 0)
  {
    var init := ps[..|ps| - 1];
    var a := set k | 0 <= k < |init| && init[k].scanner == s;
    assert a == set k | 0 <= k < |ps| - 1 && ps[k].scanner == s;
    if ps[|ps| - 1].scanner == s {
      assert (set k | 0 <= k < |ps| && ps[k].scanner == s) == a + {|ps| - 1};
    } else {
      assert (set k | 0 <= k < |ps| && ps[k].scanner == s) == a;
    }
  }

  /** The certificate's list: each row's event name and date with the row's hours. */
  function ItemsOf(es: seq<Event>, rows: seq<Participant>): (items: seq<Item>)
    requires forall p :: p in rows ==> p.event in EventIds(es)
    ensures |items| == |rows|
    ensures forall j :: 0 <= j < |rows| ==> items[j].hours == rows[j].hours
  {
    seq(|rows|, j requires 0 <= j < |rows| =>
      var ev := EventWithId(es, rows[j].event); Item(ev.name, ev.date, rows[j].hours))
  }

  /** `Sum('hours_awarded')` over the listed rows. */
  function SumHours(items: seq<Item>): real
  {
    if items == [] then 0.0 else SumHours(items[..|items| - 1]) + items[|items| - 1].hours
  }

  /** The earliest date on the list. */
  function MinDate(items: seq<Item>): (d: Day)
    requires items != []
    ensures exists j :: 0 <= j < |items| && items[j].date == d
    ensures forall j :: 0 <= j < |items| ==> d <= items[j].date
  {
    if |items| == 1 then items[0].date
    else
      var m := MinDate(items[..|items| - 1]);
      if items[|items| - 1].date < m then items[|items| - 1].date else m
  }

  /** The latest date on the list. */
  function MaxDate(items: seq<Item>): (d: Day)
    requires items != []
    ensures exists j :: 0 <= j < |items| && items[j].date == d
    ensures forall j :: 0 <= j < |items| ==> items[j].date <= d
  {
    if |items| == 1 then items[0].date
    else
      var m := MaxDate(items[..|items| - 1]);
      if items[|items| - 1].date > m then items[|items| - 1].date else m
  }

  /** The rows after those of scanner `s` before `bound` were reset to 0 hours. */
  function ZeroedScannerRows(ps: seq<Participant>, s: ScannerId, bound: nat): seq<Participant>
  {
    seq(|ps|, i requires 0 <= i < |ps| => if i < bound && ps[i].scanner == s then ps[i].(hours := 0.0) else ps[i])
  }

  /** The certificate for scanner `s`, who has at least one participation. */
  function PeriodCertFor(t: Tables, s: ScannerId, f: Format): Certificate
    requires Resolvable(t) && s in ScannerIds(t.scanners) && ScannerRows(t.participants, s) != []
  {
    var items := ItemsOf(t.events, ScannerRows(t.participants, s));
    PeriodCertificate(FullName(ScannerWithId(t.scanners, s)), RoundHalfEven(SumHours(items)),
                      MinDate(items), MaxDate(items), items, f)
  }

  /** The scanner certificate shows `round` of the total over its list, runs
      from the earliest to the latest event date on the list, and lists one
      item per participation of the scanner, in order, with its hours. */
  lemma PeriodCertFacts(t: Tables, s: ScannerId, f: Format)
    requires Resolvable(t) && s in ScannerIds(t.scanners) && ScannerRows(t.participants, s) != []
    ensures var c, rows := PeriodCertFor(t, s, f), ScannerRows(t.participants, s);
      && c.PeriodCertificate? && c.format == f
      && c.hours == RoundHalfEven(SumHours(c.items))
      && |c.items| == |rows|
      && (forall j :: 0 <= j < |c.items| ==> c.items[j].hours == rows[j].hours)
      && c.first <= c.last
      && (forall j :: 0 <= j < |c.items| ==> c.first <= c.items[j].date <= c.last)
  {
    var items := ItemsOf(t.events, ScannerRows(t.participants, s));
    assert MinDate(items) <= items[0].date <= MaxDate(items);
  }

  /** Issuing for scanner `s`: one certificate for all their participations,
      then every one of those rows is reset. */
  function IssueScannerSpec(t: Tables, s: ScannerId, format: Option<string>,
                            render: Certificate -> bool): (Tables, Issued)
    requires Consistent(t)
  {
    if s !in ScannerIds(t.scanners) then (t, Refused(NoSuchRecord))
    else if ScannerRows(t.participants, s) == [] then (t, Refused(NoParticipations))
    else
      var c := PeriodCertFor(t, s, NormalizeFormat(format));
      if !render(c) then (t, Refused(RenderRaised))
      else (t.(participants := ZeroedScannerRows(t.participants, s, |t.participants|)), Issued([c]))
  }

  /** Scanner issuance keeps the database consistent and changes at most
      the hours of participations; when it is refused, nothing changes. */
  lemma IssueScannerConsistent(t: Tables, s: ScannerId, format: Option<string>, render: Certificate -> bool)
    requires Consistent(t)
    ensures var (t', res) := IssueScannerSpec(t, s, format, render);
      && Consistent(t')
      && t'.events == t.events && t'.scanners == t.scanners && t'.users == t.users && t'.logs == t.logs
      && (res.Refused? ==> t' == t)
  {
    if s in ScannerIds(t.scanners) && ScannerRows(t.participants, s) != [] {
      ParticipantsRewritten(t, ZeroedScannerRows(t.participants, s, |t.participants|));
    }
  }

  /** An unknown scanner, and a scanner without participations, is refused;
      otherwise issuance succeeds exactly when the period certificate
      renders. A successful issuance hands over the one period certificate,
      and afterwards every row of the scanner is at 0 while no other row has
      changed. */
  lemma IssueScannerOutcome(t: Tables, s: ScannerId, format: Option<string>, render: Certificate -> bool)
    requires Consistent(t)
    ensures var (t', res) := IssueScannerSpec(t, s, format, render);
      && (s !in ScannerIds(t.scanners) ==> res == Refused(NoSuchRecord))
      && (s in ScannerIds(t.scanners) && ScannerRows(t.participants, s) == [] ==> res == Refused(NoParticipations))
      && (s in ScannerIds(t.scanners) && ScannerRows(t.participants, s) != [] ==>
            && (res.Issued? <==> render(PeriodCertFor(t, s, NormalizeFormat(format))))
            && (res == Refused(RenderRaised) <==> !render(PeriodCertFor(t, s, NormalizeFormat(format)))))
      && (res.Issued? ==>
            && res.certificates == [PeriodCertFor(t, s, NormalizeFormat(format))]
            && |t'.participants| == |t.participants|
            && (forall k :: 0 <= k < |t.participants| ==>
                  t'.participants[k] == if t.participants[k].scanner == s
                                        then t.participants[k].(hours := 0.0) else t.participants[k]))
  {
  }

  /** Every hours value on the list is 0, so is their sum. */
  lemma {:induction false} SumOfZeros(items: seq<Item>)
    requires forall j :: 0 <= j < |items| ==> items[j].hours == 0.0
    ensures SumHours(items) == 0.0
  {
    if items != [] {
      SumOfZeros(items[..|items| - 1]);
    }
  }

  /** Resetting rows keeps them resolvable. */
  lemma ZeroedScannerResolvable(t: Tables, s: ScannerId)
    requires Resolvable(t)
    ensures Resolvable(t.(participants := ZeroedScannerRows(t.participants, s, |t.participants|)))
  {
    var ps' := ZeroedScannerRows(t.participants, s, |t.participants|);
    forall q | q in ps' ensures q.event in EventIds(t.events) && q.scanner in ScannerIds(t.scanners) {
      var k :| 0 <= k < |ps'| && ps'[k] == q;
      assert t.participants[k] in t.participants;
    }
  }

  /** The list of a scanner whose rows were reset: the same events and dates, 0 hours. */
  lemma ZeroedScannerItems(t: Tables, s: ScannerId)
    requires Resolvable(t)
    ensures var t' := t.(participants := ZeroedScannerRows(t.participants, s, |t.participants|));
      Resolvable(t') &&
      var items, items' := ItemsOf(t.events, ScannerRows(t.participants, s)), ItemsOf(t'.events, ScannerRows(t'.participants, s));
      && |items'| == |items|
      && forall j :: 0 <= j < |items| ==> items'[j].date == items[j].date && items'[j].hours == 0.0
  {
    ZeroedScannerResolvable(t, s);
    ZeroedScannerRowsOf(t.participants, s);
  }

  /** After the rows of a scanner are reset, the scanner still has the same
      participations, and their certificate shows 0 hours over the same
      period. */
  lemma ReissueCertifiesNothing(t: Tables, s: ScannerId, f: Format)
    requires Resolvable(t) && s in ScannerIds(t.scanners) && ScannerRows(t.participants, s) != []
    ensures var t' := t.(participants := ZeroedScannerRows(t.participants, s, |t.participants|));
      && Resolvable(t')
      && ScannerRows(t'.participants, s) != []
      && PeriodCertFor(t', s, f).hours == 0
      && PeriodCertFor(t', s, f).first == PeriodCertFor(t, s, f).first
      && PeriodCertFor(t', s, f).last == PeriodCertFor(t, s, f).last
  {
    var t' := t.(participants := ZeroedScannerRows(t.participants, s, |t.participants|));
    ZeroedScannerItems(t, s);
    var items, items' := ItemsOf(t.events, ScannerRows(t.participants, s)), ItemsOf(t'.events, ScannerRows(t'.participants, s));
    SumOfZeros(items');
    SameDatesSameRange(items, items');
    var c, c' := PeriodCertFor(t, s, f), PeriodCertFor(t', s, f);
    assert c.items == items && c'.items == items';
    assert c'.hours == RoundHalfEven(0.0) == 0;
  }

  /** Resetting a scanner's rows resets the rows listed for them, one for one. */
  lemma {:induction false} ZeroedScannerRowsOf(ps: seq<Participant>, s: ScannerId)
    ensures var rows, rows' := ScannerRows(ps, s), ScannerRows(ZeroedScannerRows(ps, s, |ps|), s);
      && |rows'| == |rows|
      && forall j :: 0 <= j < |rows| ==> rows'[j] == rows[j].(hours := 0.0)
  {
    if ps != [] {
      var init, last := ps[..|ps| - 1], ps[|ps| - 1];
      ZeroedScannerRowsOf(init, s);
      var z, zi := ZeroedScannerRows(ps, s, |ps|), ZeroedScannerRows(init, s, |init|);
      assert z[..|z| - 1] == zi;
      var rows, rowsI := ScannerRows(ps, s), ScannerRows(init, s);
      var rows', rowsI' := ScannerRows(z, s), ScannerRows(zi, s);
      if last.scanner == s {
        assert rows == rowsI + [last];
        assert rows' == rowsI' + [last.(hours := 0.0)];
      } else {
        assert rows == rowsI;
        assert rows' == rowsI';
      }
    }
  }

  /** Two lists with the same dates have the same earliest and latest date. */
  lemma {:induction false} SameDatesSameRange(items: seq<Item>, items': seq<Item>)
    requires items != [] && |items'| == |items|
    requires forall j :: 0 <= j < |items| ==> items'[j].date == items[j].date
    ensures MinDate(items') == MinDate(items) && MaxDate(items') == MaxDate(items)
  {
    if |items| > 1 {
      SameDatesSameRange(items[..|items| - 1], items'[..|items'| - 1]);
    }
  }

  method IssueForScanner(db: Store, s: ScannerId, format: Option<string>,
                         render: Certificate -> bool) returns (res: Issued)
    requires db.Valid()
    modifies db`participants
    ensures (db.Snapshot(), res) == IssueScannerSpec(old(db.Snapshot()), s, format, render)
  {
    var f := NormalizeFormat(format);
    if s !in ScannerIds(db.scanners) {
      return Refused(NoSuchRecord);
    }
    if ScannerRows(db.participants, s) == [] {
      return Refused(NoParticipations);
    }
    var c := PeriodCertFor(db.Snapshot(), s, f);
    if !render(c) {
      return Refused(RenderRaised);
    }
    ResetScannerRows(db, s);
    res := Issued([c]);
  }

  /** Sets every row of scanner `s` to 0 hours, one row at a time. */
  method ResetScannerRows(db: Store, s: ScannerId)
    modifies db`participants
    ensures db.participants == ZeroedScannerRows(old(db.participants), s, |old(db.participants)|)
  {
    ghost var ps0 := db.participants;
    var i := 0;
    while i < |db.participants|
      invariant 0 <= i <= |ps0| == |db.participants|
      invariant db.participants == ZeroedScannerRows(ps0, s, i)
    {
      if db.participants[i].scanner == s {
        db.participants := db.participants[i := db.participants[i].(hours := 0.0)];
      }
      i := i + 1;
    }
  }
}
