/** The team leader's event page: adding a scanner to an event, saving who was
    late and by how much, and setting the event's duration, which recomputes
    the hours of every participant of the event; and the "h:mm" column of the
    participants export. */
module Ledger {
  import opened Schema
  import opened Numeric
  import opened Text

  /** A submitted integer field: absent, present but empty, accepted by
      `int(...)`, or other text `int(...)` rejects. An empty field is falsy
      for `if volunteer_id` and rejected by `int('')`. */
  datatype IntField = Missing | Empty | Given(value: int) | Garbage

  /** The lateness part of the form: the ticked "late" boxes and the typed
      minutes, both per scanner of the event. */
  datatype LateForm = LateForm(ticked: set<ScannerId>, minutes: map<ScannerId, IntField>)

  /** Which buttons the POST carries and what came with them. */
  datatype EditPost = EditPost(addVolunteer: bool, volunteer: IntField,
                               saveParticipants: bool, late: LateForm,
                               setDuration: bool, duration: Option<real>)

  datatype EditRequest = Get | Post(post: EditPost)

  /** `Failed` is an uncaught exception (a server error). */
  datatype EditOutcome = Shown | Redirected | Failed

  // ---------------------------------------------------------------------
  // Adding a scanner

  /** The `add_volunteer` action on event `e`: nothing happens without an id
      or when the pair is already there; an id that is not a scanner breaks
      the foreign key. */
  function AddSpec(t: Tables, e: EventId, volunteer: IntField): (Tables, EditOutcome)
  {
    match volunteer
    case Missing => (t, Redirected)
    case Empty => (t, Redirected)
    case Garbage => (t, Failed)
    case Given(v) =>
      if v >= 0 && (e, v as nat) in Keys(t.participants) then (t, Redirected)
      else if v >= 0 && v as nat in ScannerIds(t.scanners) then
        (t.(participants := t.participants + [NewParticipant(e, v as nat)]), Redirected)
      else (t, Failed)
  }

  /** Adding creates exactly one row, a fresh one, when an id of a scanner
      not yet on the event is given; otherwise the tables are unchanged. The
      request fails exactly when the id is text `int` rejects, or a number
      that is no scanner's id; it redirects otherwise. The database stays
      consistent, in particular one row per pair. */
  lemma AddSpecFacts(t: Tables, e: EventId, volunteer: IntField)
    requires Consistent(t) && e in EventIds(t.events)
    ensures var (t', out) := AddSpec(t, e, volunteer);
      && (out == Failed <==>
            volunteer.Garbage?
            || (volunteer.Given? && (volunteer.value < 0 || volunteer.value as nat !in ScannerIds(t.scanners))))
      && (out == Failed || out == Redirected)
      && Consistent(t')
      && (if volunteer.Given? && volunteer.value >= 0
             && (e, volunteer.value as nat) !in Keys(t.participants)
             && volunteer.value as nat in ScannerIds(t.scanners)
          then t' == t.(participants := t.participants + [Participant(e, volunteer.value as nat, false, None, 0.0)])
          else t' == t)
  {
    if volunteer.Given? {
      var v := volunteer.value;
      if v >= 0 && (e, v as nat) in Keys(t.participants) {
        var k := KeysWitness(t.participants, (e, v as nat));
        assert t.participants[k] in t.participants;
      }
      if v >= 0 && (e, v as nat) !in Keys(t.participants) && v as nat in ScannerIds(t.scanners) {
        var p := NewParticipant(e, v as nat);
        AppendPreservesDistinct(t.participants, p);
      }
    }
  }

  method AddVolunteer(db: Store, e: EventId, volunteer: IntField) returns (out: EditOutcome)
    modifies db`participants
    ensures (db.Snapshot(), out) == AddSpec(old(db.Snapshot()), e, volunteer)
  {
    match volunteer
    case Missing =>
      out := Redirected;
    case Empty =>
      out := Redirected;
    case Garbage =>
      out := Failed;
    case Given(v) =>
      if v >= 0 && IndexOfPair(db.participants, e, v as nat) >= 0 {
        out := Redirected;
      } else if v >= 0 && v as nat in ScannerIds(db.scanners) {
        db.participants := db.participants + [NewParticipant(e, v as nat)];
        out := Redirected;
      } else {
        out := Failed;
      }
  }

  // ---------------------------------------------------------------------
  // Saving lateness

  /** The minutes stored for scanner `s`: 0 when the box is not ticked or no
      minutes field came (the default 0); `None` when `int(...)` raises, on an
      empty field too, or the value is negative (the column only holds
      non-negative numbers). */
  function LateValue(form: LateForm, s: ScannerId): Option<nat>
  {
    if s !in form.ticked || s !in form.minutes then Some(0)
    else match form.minutes[s]
      case Missing => Some(0)
      case Empty => None
      case Given(m) => if m >= 0 then Some(m) else None
      case Garbage => None
  }

  /** The row of event `e` whose save raises. */
  predicate Rejected(p: Participant, e: EventId, form: LateForm)
  {
    p.event == e && LateValue(form, p.scanner).None?
  }

  /** The first row at or after `from` whose save raises, or `|ps|`. */
  function FirstRejected(ps: seq<Participant>, e: EventId, form: LateForm, from: nat): (r: nat)
    requires from <= |ps|
    ensures from <= r <= |ps|
    ensures r < |ps| ==> Rejected(ps[r], e, form)
    ensures forall j :: from <= j < r ==> !Rejected(ps[j], e, form)
    decreases |ps| - from
  {
    if from == |ps| then |ps|
    else if Rejected(ps[from], e, form) then from
    else FirstRejected(ps, e, form, from + 1)
  }

  /** Row `p` after its lateness is saved: the box state and the minutes. */
  function ApplyLate(p: Participant, form: LateForm): Participant
  {
    match LateValue(form, p.scanner)
    case Some(m) => p.(isLate := p.scanner in form.ticked, lateMinutes := Some(m))
    case None => p
  }

  /** The rows after the loop saved the rows of `e` before position `bound`. */
  function SavedLate(ps: seq<Participant>, e: EventId, form: LateForm, bound: nat): seq<Participant>
  {
    seq(|ps|, i requires 0 <= i < |ps| =>
      if i < bound && ps[i].event == e then ApplyLate(ps[i], form) else ps[i])
  }

  /** The `save_participants` action: rows are saved one at a time, so a row
      that raises leaves the earlier ones saved. */
  function SaveSpec(t: Tables, e: EventId, form: LateForm): (Tables, EditOutcome)
  {
    var b := FirstRejected(t.participants, e, form, 0);
    (t.(participants := SavedLate(t.participants, e, form, b)),
     if b < |t.participants| then Failed else Redirected)
  }

  /** Saving lateness keeps the database consistent, changes neither keys
      nor hours, and leaves every row of other events as it was. */
  lemma SaveSpecFrame(t: Tables, e: EventId, form: LateForm)
    requires Consistent(t)
    ensures var (t', _) := SaveSpec(t, e, form);
      && Consistent(t')
      && t'.events == t.events && t'.scanners == t.scanners && t'.users == t.users && t'.logs == t.logs
      && |t'.participants| == |t.participants|
      && (forall k :: 0 <= k < |t.participants| ==>
            var p, p' := t.participants[k], t'.participants[k];
            Key(p') == Key(p) && p'.hours == p.hours && (p.event != e ==> p' == p))
  {
    var b := FirstRejected(t.participants, e, form, 0);
    ParticipantsRewritten(t, SavedLate(t.participants, e, form, b));
  }

  /** When the save goes through, every row of the event holds the box state
      and the submitted minutes (0 without the box); when it raises, it
      raised at a row of the event whose minutes are unusable, the rows of
      the event before it are saved and the rest are untouched. */
  lemma SaveSpecFacts(t: Tables, e: EventId, form: LateForm)
    ensures var (t', out) := SaveSpec(t, e, form);
      && (out == Redirected ==>
            forall k :: 0 <= k < |t.participants| && t.participants[k].event == e ==>
              var s := t.participants[k].scanner;
              && t'.participants[k].isLate == (s in form.ticked)
              && t'.participants[k].lateMinutes == LateValue(form, s)
              && (s !in form.ticked ==> t'.participants[k].lateMinutes == Some(0)))
      && (out == Failed ==>
            exists b :: 0 <= b < |t.participants| && Rejected(t.participants[b], e, form)
              && t'.participants[b..] == t.participants[b..]
              && forall k :: 0 <= k < b && t.participants[k].event == e ==>
                   t'.participants[k].lateMinutes == LateValue(form, t.participants[k].scanner))
  {
    var b := FirstRejected(t.participants, e, form, 0);
    var ps' := SavedLate(t.participants, e, form, b);
    if b < |t.participants| {
      assert ps'[b..] == t.participants[b..];
    }
  }

  /** The minutes of a row are rejected exactly when its box is ticked and
      its minutes field came but is empty, text `int` rejects, or a negative
      number. */
  lemma LateValueRejects(form: LateForm, s: ScannerId)
    ensures LateValue(form, s).None? <==>
              s in form.ticked && s in form.minutes
              && (form.minutes[s].Empty? || form.minutes[s].Garbage?
                  || (form.minutes[s].Given? && form.minutes[s].value < 0))
  {
  }

  /** The save raises exactly when some row of the event has rejected
      minutes; a ticked box with an empty minutes field is one. */
  lemma {:induction false} SaveFailsExactly(t: Tables, e: EventId, form: LateForm)
    ensures SaveSpec(t, e, form).1 == Failed <==>
              exists k :: 0 <= k < |t.participants| && Rejected(t.participants[k], e, form)
  {
    var b := FirstRejected(t.participants, e, form, 0);
    if b == |t.participants| {
      forall k | 0 <= k < |t.participants| ensures !Rejected(t.participants[k], e, form) {
      }
    }
  }

  method SaveParticipants(db: Store, e: EventId, form: LateForm) returns (out: EditOutcome)
    modifies db`participants
    ensures (db.Snapshot(), out) == SaveSpec(old(db.Snapshot()), e, form)
  {
    ghost var ps0 := db.participants;
    var i := 0;
    while i < |db.participants|
      invariant 0 <= i <= |ps0| == |db.participants|
      invariant i <= FirstRejected(ps0, e, form, 0)
      invariant db.participants == SavedLate(ps0, e, form, i)
    {
      var p := db.participants[i];
      if p.event == e {
        if LateValue(form, p.scanner).None? {
          return Failed;
        }
        db.participants := db.participants[i := ApplyLate(p, form)];
      }
      i := i + 1;
    }
    out := Redirected;
  }

  // ---------------------------------------------------------------------
  // Setting the duration

  /** Lateness in hours; missing lateness counts as none. */
  function LateHours(late: Option<nat>): (h: real)
    ensures 0.0 <= h
  {
    match late
    case None => 0.0
    case Some(m) => m as real / 60.0
  }

  /** `max(duration − late/60, 0)`. */
  function AwardedHours(duration: real, late: Option<nat>): (h: real)
    ensures 0.0 <= h
    ensures 0.0 <= duration ==> h <= duration
    ensures (late.None? || late == Some(0)) ==> h == Max(duration, 0.0)
  {
    Max(duration - LateHours(late), 0.0)
  }

  /** Being later never earns more hours. */
  lemma AwardedHoursAntitone(duration: real, a: nat, b: nat)
    requires a <= b
    ensures AwardedHours(duration, Some(b)) <= AwardedHours(duration, Some(a))
  {
    assert LateHours(Some(a)) <= LateHours(Some(b));
  }

  /** The event rows after event `e`'s duration is set to `d`. */
  function WithDuration(es: seq<Event>, e: EventId, d: real): seq<Event>
  {
    seq(|es|, i requires 0 <= i < |es| => if es[i].id == e then es[i].(duration := Some(d)) else es[i])
  }

  /** The participant rows after every row of `e` gets its hours from `d`. */
  function Recomputed(ps: seq<Participant>, e: EventId, d: real): seq<Participant>
  {
    seq(|ps|, i requires 0 <= i < |ps| =>
      if ps[i].event == e then ps[i].(hours := AwardedHours(d, ps[i].lateMinutes)) else ps[i])
  }

  /** The `set_duration` action: `None` is a duration `float(...)` rejects. */
  function SetSpec(t: Tables, e: EventId, duration: Option<real>): (Tables, EditOutcome)
  {
    match duration
    case None => (t, Failed)
    case Some(d) =>
      (t.(events := WithDuration(t.events, e, d), participants := Recomputed(t.participants, e, d)),
       Redirected)
  }

  /** Setting the duration stores it on the event and gives every participant
      of the event `max(d − late/60, 0)` hours, which lies in [0, d] when
      d ≥ 0; the rows of other events, lateness and keys are unchanged, and
      the database stays consistent. */
  lemma SetSpecFacts(t: Tables, e: EventId, d: real)
    requires Consistent(t)
    ensures var (t', out) := SetSpec(t, e, Some(d));
      && out == Redirected
      && Consistent(t')
      && (forall x :: x in t'.events && x.id == e ==> x.duration == Some(d))
      && |t'.participants| == |t.participants|
      && (forall k :: 0 <= k < |t.participants| ==>
            var p, p' := t.participants[k], t'.participants[k];
            && Key(p') == Key(p) && p'.lateMinutes == p.lateMinutes && p'.isLate == p.isLate
            && (p.event == e ==> p'.hours == Max(d - LateHours(p.lateMinutes), 0.0)
                                 && 0.0 <= p'.hours && (0.0 <= d ==> p'.hours <= d))
            && (p.event != e ==> p' == p))
  {
    var t1 := t.(events := WithDuration(t.events, e, d));
    EventsRewritten(t, t1.events);
    ParticipantsRewritten(t1, Recomputed(t.participants, e, d));
  }

  method SetDuration(db: Store, e: EventId, duration: Option<real>) returns (out: EditOutcome)
    modifies db`events, db`participants
    ensures (db.Snapshot(), out) == SetSpec(old(db.Snapshot()), e, duration)
  {
    if duration.None? {
      return Failed;
    }
    var d := duration.value;
    db.events := WithDuration(db.events, e, d);
    RecomputeHours(db, e, d);
    out := Redirected;
  }

  /** The loop over the participants of event `e` that awards each one
      `max(d − late/60, 0)` hours and saves the row. */
  method RecomputeHours(db: Store, e: EventId, d: real)
    modifies db`participants
    ensures db.participants == Recomputed(old(db.participants), e, d)
  {
    ghost var ps0 := db.participants;
    var i := 0;
    while i < |db.participants|
      invariant 0 <= i <= |ps0| == |db.participants|
      invariant forall k :: 0 <= k < i ==> db.participants[k] == Recomputed(ps0, e, d)[k]
      invariant forall k :: i <= k < |ps0| ==> db.participants[k] == ps0[k]
    {
      var p := db.participants[i];
      if p.event == e {
        db.participants := db.participants[i := p.(hours := AwardedHours(d, p.lateMinutes))];
      }
      i := i + 1;
    }
    assert db.participants == Recomputed(ps0, e, d);
  }

  // ---------------------------------------------------------------------
  // The whole page

  /** One request to the event page of event `e`: a missing event raises;
      "add" is handled alone; otherwise lateness is saved and then, unless
      that raised, the duration is set. */
  function EditSpec(t: Tables, e: EventId, req: EditRequest): (Tables, EditOutcome)
  {
    if e !in EventIds(t.events) then (t, Failed)
    else match req
      case Get => (t, Shown)
      case Post(f) =>
        if f.addVolunteer then AddSpec(t, e, f.volunteer)
        else
          var (t1, o1) := if f.saveParticipants then SaveSpec(t, e, f.late) else (t, Redirected);
          if o1 == Failed then (t1, Failed)
          else if f.setDuration then SetSpec(t1, e, f.duration)
          else (t1, Redirected)
  }

  /** `t'` is consistent, has the users, scanners and log of `t`, and keeps
      every participation of the events other than `e`. */
  predicate Confined(t: Tables, t': Tables, e: EventId)
  {
    && Consistent(t')
    && t'.users == t.users && t'.scanners == t.scanners && t'.logs == t.logs
    && (forall p :: p in t.participants && p.event != e ==> p in t'.participants)
  }

  lemma SaveConfined(t: Tables, e: EventId, form: LateForm)
    requires Consistent(t)
    ensures Confined(t, SaveSpec(t, e, form).0, e)
  {
    SaveSpecFrame(t, e, form);
    var t1 := SaveSpec(t, e, form).0;
    forall p | p in t.participants && p.event != e ensures p in t1.participants {
      var k :| 0 <= k < |t.participants| && t.participants[k] == p;
      assert t1.participants[k] == p;
    }
  }

  lemma SetConfined(t: Tables, e: EventId, d: real)
    requires Consistent(t)
    ensures Confined(t, SetSpec(t, e, Some(d)).0, e)
  {
    SetSpecFacts(t, e, d);
    var t2 := SetSpec(t, e, Some(d)).0;
    forall p | p in t.participants && p.event != e ensures p in t2.participants {
      var k :| 0 <= k < |t.participants| && t.participants[k] == p;
      assert t2.participants[k] == p;
    }
  }

  /** Every request keeps the database consistent and touches only the
      participations of its own event and that event's row. */
  lemma EditSpecFacts(t: Tables, e: EventId, req: EditRequest)
    requires Consistent(t)
    ensures Confined(t, EditSpec(t, e, req).0, e)
  {
    if e in EventIds(t.events) && req.Post? {
      var f := req.post;
      if f.addVolunteer {
        AddSpecFacts(t, e, f.volunteer);
      } else {
        var (t1, o1) := if f.saveParticipants then SaveSpec(t, e, f.late) else (t, Redirected);
        if f.saveParticipants {
          SaveConfined(t, e, f.late);
        }
        assert Confined(t, t1, e);
        if o1 != Failed && f.setDuration && f.duration.Some? {
          SetConfined(t1, e, f.duration.value);
        }
      }
    }
  }

  method EditEvent(db: Store, e: EventId, req: EditRequest) returns (out: EditOutcome)
    requires db.Valid()
    modifies db`events, db`participants
    ensures db.Valid()
    ensures (db.Snapshot(), out) == EditSpec(old(db.Snapshot()), e, req)
  {
    EditSpecFacts(db.Snapshot(), e, req);
    if e !in EventIds(db.events) {
      return Failed;
    }
    match req
    case Get =>
      out := Shown;
    case Post(f) =>
      if f.addVolunteer {
        out := AddVolunteer(db, e, f.volunteer);
      } else {
        out := Redirected;
        if f.saveParticipants {
          out := SaveParticipants(db, e, f.late);
        }
        if out != Failed && f.setDuration {
          out := SetDuration(db, e, f.duration);
        }
      }
  }

  // ---------------------------------------------------------------------
  // The "h:mm" column of the participants export

  /** The column as written: whole hours `int(h)` and minutes
      `round((h − int(h))·60)`. The two together always give the rounded
      total of minutes, but the minutes are not carried: they can be 60. */
  function ExportedHoursMinutes(h: real): (hm: (int, int))
    ensures 0.0 <= h ==> 0 <= hm.0 && 0 <= hm.1 <= 60
    ensures 0.0 <= h ==> hm.0 * 60 + hm.1 == RoundHalfEven(h * 60.0)
  {
    var whole := Trunc(h);
    var minutes := RoundHalfEven((h - whole as real) * 60.0);
    if 0.0 <= h then
      RoundHalfEvenShift((h - whole as real) * 60.0, whole * 60);
      assert (h - whole as real) * 60.0 + (whole * 60) as real == h * 60.0;
      (whole, minutes)
    else (whole, minutes)
  }

  function ExportTimeString(h: real): string
  {
    var (hours, minutes) := ExportedHoursMinutes(h);
    IntToString(hours) + ":" + PadTwo(minutes)
  }

  /** 1.995 hours is exported as "1:60". */
  lemma ExportShowsSixtyMinutes()
    ensures ExportedHoursMinutes(1.995) == (1, 60)
    ensures ExportTimeString(1.995) == "1:60"
  {
    assert Trunc(1.995) == 1;
    assert (1.995 - 1.0) * 60.0 == 59.7;
    assert RoundHalfEven(59.7) == 60;
    assert NatToString(6) == "6";
    assert NatToString(60) == "60";
  }

  /** Hours and minutes with the minutes carried into the hours: the rounded
      total of minutes split into whole hours and 0..59 minutes. */
  function CarriedHoursMinutes(h: real): (hm: (int, int))
    requires 0.0 <= h
    ensures 0 <= hm.0 && 0 <= hm.1 < 60
    ensures hm.0 * 60 + hm.1 == RoundHalfEven(h * 60.0)
  {
    var total := RoundHalfEven(h * 60.0);
    (total / 60, total % 60)
  }

  function CarriedTimeString(h: real): string
    requires 0.0 <= h
  {
    var (hours, minutes) := CarriedHoursMinutes(h);
    IntToString(hours) + ":" + PadTwo(minutes)
  }

  /** The carried split agrees with the exported one whenever the exported
      minutes are below 60, and turns "H:60" into "H+1:00". */
  lemma {:induction false} CarriedAgreesWithExport(h: real)
    requires 0.0 <= h
    ensures var (hours, minutes) := ExportedHoursMinutes(h);
      if minutes < 60 then CarriedHoursMinutes(h) == (hours, minutes)
      else CarriedHoursMinutes(h) == (hours + 1, 0)
  {
    var (hours, minutes) := ExportedHoursMinutes(h);
    var total := hours * 60 + minutes;
    if minutes < 60 {
      assert total / 60 == hours && total % 60 == minutes;
    } else {
      assert total == (hours + 1) * 60;
    }
  }
}
