/** The data model shared by the web views, the purge command and the import
    scripts: scanners (volunteers), events led by a team-leader user,
    participation rows keyed by (event, scanner), team-leader records with a
    Telegram id, and the notification log. The database is the class `Store`,
    one field per table. */
module Schema {
  import opened Text

  datatype Option<T> = None | Some(value: T)

  type UserId = nat
  type ScannerId = nat
  type EventId = nat

  /** A calendar date as a day number: days since 1970-01-01. */
  type Day = int

  /** The name of the group whose members are team leaders. */
  const TeamLeadersGroup: string := "Тимлидеры"

  datatype User = User(id: UserId, username: string, email: string,
                       firstName: string, lastName: string, groups: set<string>)

  datatype Scanner = Scanner(id: ScannerId, firstName: string, lastName: string,
                             email: Option<string>)

  /** `leader` is the user who created the event (its team leader). */
  datatype Event = Event(id: EventId, name: string, date: Day, volunteersRequired: nat,
                         leader: UserId, duration: Option<real>)

  datatype Participant = Participant(event: EventId, scanner: ScannerId, isLate: bool,
                                     lateMinutes: Option<nat>, hours: real)

  /** The team-leader record the purge command reads Telegram ids from. */
  datatype TeamLeaderRec = TeamLeaderRec(firstName: string, lastName: string, email: string,
                                         telegramId: string, scanner: Option<ScannerId>)

  datatype Channel = TelegramChannel | EmailChannel

  /** The content of a notification; the wording around it is not modelled. */
  datatype Message =
    | ExpiryWarning(leaderName: string, daysBefore: int, events: seq<(string, Day)>)
    | DeletionSummary(count: nat, cutoff: Day)

  datatype NotificationLog = NotificationLog(recipient: string, channel: Channel,
                                             message: Message, isTest: bool)

  /** The contents of every table at one moment. */
  datatype Tables = Tables(users: seq<User>, scanners: seq<Scanner>, events: seq<Event>,
                           participants: seq<Participant>, teamLeaders: seq<TeamLeaderRec>,
                           logs: seq<NotificationLog>)

  function Key(p: Participant): (EventId, ScannerId)
  {
    (p.event, p.scanner)
  }

  /** The row a freshly created participation starts as: no hours, not late,
      lateness unknown. */
  function NewParticipant(e: EventId, s: ScannerId): Participant
  {
    Participant(e, s, false, None, 0.0)
  }

  predicate IsTeamLeader(u: User)
  {
    TeamLeadersGroup in u.groups
  }

  // ---------------------------------------------------------------------
  // Identifier sets and uniqueness, defined from the last row backwards

  function UserIds(us: seq<User>): set<UserId>
  {
    if us == [] then {} else UserIds(us[..|us| - 1]) + {us[|us| - 1].id}
  }

  function ScannerIds(ss: seq<Scanner>): set<ScannerId>
  {
    if ss == [] then {} else ScannerIds(ss[..|ss| - 1]) + {ss[|ss| - 1].id}
  }

  function EventIds(es: seq<Event>): set<EventId>
  {
    if es == [] then {} else EventIds(es[..|es| - 1]) + {es[|es| - 1].id}
  }

  function Keys(ps: seq<Participant>): set<(EventId, ScannerId)>
  {
    if ps == [] then {} else Keys(ps[..|ps| - 1]) + {Key(ps[|ps| - 1])}
  }

  function Usernames(us: seq<User>): set<string>
  {
    if us == [] then {} else Usernames(us[..|us| - 1]) + {us[|us| - 1].username}
  }

  function ScannerEmails(ss: seq<Scanner>): set<string>
  {
    if ss == [] then {}
    else ScannerEmails(ss[..|ss| - 1])
         + (if ss[|ss| - 1].email.Some? then {ss[|ss| - 1].email.value} else {})
  }

  predicate DistinctUserIds(us: seq<User>)
  {
    us == [] || (DistinctUserIds(us[..|us| - 1]) && us[|us| - 1].id !in UserIds(us[..|us| - 1]))
  }

  predicate DistinctScannerIds(ss: seq<Scanner>)
  {
    ss == [] || (DistinctScannerIds(ss[..|ss| - 1]) && ss[|ss| - 1].id !in ScannerIds(ss[..|ss| - 1]))
  }

  predicate DistinctEventIds(es: seq<Event>)
  {
    es == [] || (DistinctEventIds(es[..|es| - 1]) && es[|es| - 1].id !in EventIds(es[..|es| - 1]))
  }

  /** The `unique_together = ('event', 'volunteer')` constraint. */
  predicate DistinctPairs(ps: seq<Participant>)
  {
    ps == [] || (DistinctPairs(ps[..|ps| - 1]) && Key(ps[|ps| - 1]) !in Keys(ps[..|ps| - 1]))
  }

  /** The unique e-mail column: no two scanners share a present e-mail. */
  predicate DistinctEmails(ss: seq<Scanner>)
  {
    ss == []
    || (DistinctEmails(ss[..|ss| - 1])
        && (ss[|ss| - 1].email.Some? ==> ss[|ss| - 1].email.value !in ScannerEmails(ss[..|ss| - 1])))
  }

  /** Every participation points at an existing event and scanner. */
  predicate ParticipantsRefer(ps: seq<Participant>, events: set<EventId>, scanners: set<ScannerId>)
  {
    forall p :: p in ps ==> p.event in events && p.scanner in scanners
  }

  /** Every event points at an existing leader user. */
  predicate EventsRefer(es: seq<Event>, users: set<UserId>)
  {
    forall e :: e in es ==> e.leader in users
  }

  /** The database constraints of the schema. */
  predicate Consistent(t: Tables)
  {
    && DistinctUserIds(t.users)
    && DistinctScannerIds(t.scanners)
    && DistinctEventIds(t.events)
    && DistinctPairs(t.participants)
    && DistinctEmails(t.scanners)
    && ParticipantsRefer(t.participants, EventIds(t.events), ScannerIds(t.scanners))
    && EventsRefer(t.events, UserIds(t.users))
  }

  // ---------------------------------------------------------------------
  // Membership lemmas

  lemma {:induction false} KeysMember(ps: seq<Participant>, k: nat)
    requires k < |ps|
    ensures Key(ps[k]) in Keys(ps)
  {
    if k < |ps| - 1 {
      KeysMember(ps[..|ps| - 1], k);
    }
  }

  lemma {:induction false} EventIdsMember(es: seq<Event>, k: nat)
    requires k < |es|
    ensures es[k].id in EventIds(es)
  {
    if k < |es| - 1 {
      EventIdsMember(es[..|es| - 1], k);
    }
  }

  lemma {:induction false} ScannerIdsMember(ss: seq<Scanner>, k: nat)
    requires k < |ss|
    ensures ss[k].id in ScannerIds(ss)
  {
    if k < |ss| - 1 {
      ScannerIdsMember(ss[..|ss| - 1], k);
    }
  }

  lemma {:induction false} UserIdsMember(us: seq<User>, k: nat)
    requires k < |us|
    ensures us[k].id in UserIds(us)
  {
    if k < |us| - 1 {
      UserIdsMember(us[..|us| - 1], k);
    }
  }

  /** A key in `Keys(ps)` is the key of some row. */
  lemma {:induction false} KeysWitness(ps: seq<Participant>, key: (EventId, ScannerId)) returns (k: nat)
    requires key in Keys(ps)
    ensures k < |ps| && Key(ps[k]) == key
  {
    if Key(ps[|ps| - 1]) == key {
      k := |ps| - 1;
    } else {
      k := KeysWitness(ps[..|ps| - 1], key);
    }
  }

  /** The uniqueness constraint read as "at most one row per (event, scanner) pair". */
  lemma {:induction false} AtMostOneRowPerPair(ps: seq<Participant>)
    requires DistinctPairs(ps)
    ensures forall i, j :: 0 <= i < j < |ps| ==> Key(ps[i]) != Key(ps[j])
  {
    if ps != [] {
      var init := ps[..|ps| - 1];
      AtMostOneRowPerPair(init);
      forall i | 0 <= i < |init| ensures Key(ps[i]) != Key(ps[|ps| - 1]) {
        KeysMember(init, i);
      }
    }
  }

  /** Two row sequences with the same keys, row by row. */
  predicate SameKeys(ps: seq<Participant>, qs: seq<Participant>)
  {
    |ps| == |qs| && forall k :: 0 <= k < |ps| ==> Key(ps[k]) == Key(qs[k])
  }

  /** Rewriting the non-key columns of rows keeps the key set and the uniqueness constraint. */
  lemma {:induction false} SameKeysPreserve(ps: seq<Participant>, qs: seq<Participant>)
    requires SameKeys(ps, qs)
    ensures Keys(qs) == Keys(ps)
    ensures DistinctPairs(ps) ==> DistinctPairs(qs)
  {
    if ps != [] {
      SameKeysPreserve(ps[..|ps| - 1], qs[..|qs| - 1]);
    }
  }

  /** Rewriting participation rows without touching their keys keeps the database consistent. */
  lemma ParticipantsRewritten(t: Tables, qs: seq<Participant>)
    requires Consistent(t) && SameKeys(t.participants, qs)
    ensures Consistent(t.(participants := qs))
  {
    SameKeysPreserve(t.participants, qs);
    forall q | q in qs ensures q.event in EventIds(t.events) && q.scanner in ScannerIds(t.scanners) {
      var k :| 0 <= k < |qs| && qs[k] == q;
      assert Key(qs[k]) == Key(t.participants[k]);
    }
  }

  /** Two event sequences with the same identifier and leader, row by row. */
  predicate SameEventIdentity(es: seq<Event>, fs: seq<Event>)
  {
    |es| == |fs| && forall k :: 0 <= k < |es| ==> es[k].id == fs[k].id && es[k].leader == fs[k].leader
  }

  lemma {:induction false} SameEventIdentityPreserve(es: seq<Event>, fs: seq<Event>)
    requires SameEventIdentity(es, fs)
    ensures EventIds(fs) == EventIds(es)
    ensures DistinctEventIds(es) ==> DistinctEventIds(fs)
  {
    if es != [] {
      SameEventIdentityPreserve(es[..|es| - 1], fs[..|fs| - 1]);
    }
  }

  /** Rewriting event rows without touching identifiers and leaders keeps the database consistent. */
  lemma EventsRewritten(t: Tables, fs: seq<Event>)
    requires Consistent(t) && SameEventIdentity(t.events, fs)
    ensures Consistent(t.(events := fs))
  {
    SameEventIdentityPreserve(t.events, fs);
  }

  /** Appending a row whose key is new keeps the uniqueness constraint. */
  lemma AppendPreservesDistinct(ps: seq<Participant>, p: Participant)
    requires DistinctPairs(ps) && Key(p) !in Keys(ps)
    ensures DistinctPairs(ps + [p]) && Keys(ps + [p]) == Keys(ps) + {Key(p)}
  {
    assert (ps + [p])[..|ps|] == ps;
  }

  lemma AppendEventIds(es: seq<Event>, e: Event)
    ensures EventIds(es + [e]) == EventIds(es) + {e.id}
    ensures DistinctEventIds(es) && e.id !in EventIds(es) ==> DistinctEventIds(es + [e])
  {
    assert (es + [e])[..|es|] == es;
  }

  lemma AppendScannerIds(ss: seq<Scanner>, s: Scanner)
    ensures ScannerIds(ss + [s]) == ScannerIds(ss) + {s.id}
    ensures DistinctScannerIds(ss) && s.id !in ScannerIds(ss) ==> DistinctScannerIds(ss + [s])
    ensures ScannerEmails(ss + [s]) == ScannerEmails(ss) + (if s.email.Some? then {s.email.value} else {})
    ensures DistinctEmails(ss) && (s.email.Some? ==> s.email.value !in ScannerEmails(ss))
            ==> DistinctEmails(ss + [s])
  {
    assert (ss + [s])[..|ss|] == ss;
  }

  lemma AppendUserIds(us: seq<User>, u: User)
    ensures UserIds(us + [u]) == UserIds(us) + {u.id}
    ensures Usernames(us + [u]) == Usernames(us) + {u.username}
    ensures DistinctUserIds(us) && u.id !in UserIds(us) ==> DistinctUserIds(us + [u])
  {
    assert (us + [u])[..|us|] == us;
  }

  /** Replacing the users by a sequence with unique identifiers that keeps
      every old identifier keeps the database consistent. */
  lemma GrowUsersConsistent(t: Tables, us: seq<User>)
    requires Consistent(t) && DistinctUserIds(us) && UserIds(t.users) <= UserIds(us)
    ensures Consistent(t.(users := us))
  {
  }

  lemma GrowScannersConsistent(t: Tables, ss: seq<Scanner>)
    requires Consistent(t) && DistinctScannerIds(ss) && DistinctEmails(ss)
    requires ScannerIds(t.scanners) <= ScannerIds(ss)
    ensures Consistent(t.(scanners := ss))
  {
  }

  lemma GrowEventsConsistent(t: Tables, es: seq<Event>)
    requires Consistent(t) && DistinctEventIds(es) && EventIds(t.events) <= EventIds(es)
    requires EventsRefer(es, UserIds(t.users))
    ensures Consistent(t.(events := es))
  {
  }

  /** Appending a participation with a new pair, of an existing event and
      scanner, keeps the database consistent. */
  lemma AddParticipantConsistent(t: Tables, p: Participant)
    requires Consistent(t) && Key(p) !in Keys(t.participants)
    requires p.event in EventIds(t.events) && p.scanner in ScannerIds(t.scanners)
    ensures Consistent(t.(participants := t.participants + [p]))
  {
    AppendPreservesDistinct(t.participants, p);
  }

  // ---------------------------------------------------------------------
  // Lookups

  /** The position of the (e, s) row, or -1 when there is none. */
  function IndexOfPair(ps: seq<Participant>, e: EventId, s: ScannerId): (r: int)
    ensures -1 <= r < |ps|
    ensures r == -1 <==> (e, s) !in Keys(ps)
    ensures r >= 0 ==> Key(ps[r]) == (e, s)
  {
    if ps == [] then -1
    else if Key(ps[|ps| - 1]) == (e, s) then |ps| - 1
    else IndexOfPair(ps[..|ps| - 1], e, s)
  }

  /** The event with identifier `id`, the last such row (there is only one in
      a consistent table). */
  function EventWithId(es: seq<Event>, id: EventId): (r: Event)
    requires id in EventIds(es)
    ensures r in es && r.id == id
  {
    if es[|es| - 1].id == id then es[|es| - 1] else EventWithId(es[..|es| - 1], id)
  }

  function ScannerWithId(ss: seq<Scanner>, id: ScannerId): (r: Scanner)
    requires id in ScannerIds(ss)
    ensures r in ss && r.id == id
  {
    if ss[|ss| - 1].id == id then ss[|ss| - 1] else ScannerWithId(ss[..|ss| - 1], id)
  }

  function UserWithId(us: seq<User>, id: UserId): (r: User)
    requires id in UserIds(us)
    ensures r in us && r.id == id
  {
    if us[|us| - 1].id == id then us[|us| - 1] else UserWithId(us[..|us| - 1], id)
  }

  /** The smallest identifier above every identifier in use (a fresh primary key). */
  function NextEventId(es: seq<Event>): (r: EventId)
    ensures forall id :: id in EventIds(es) ==> id < r
  {
    if es == [] then 0
    else
      var r0 := NextEventId(es[..|es| - 1]);
      if es[|es| - 1].id + 1 > r0 then es[|es| - 1].id + 1 else r0
  }

  function NextScannerId(ss: seq<Scanner>): (r: ScannerId)
    ensures forall id :: id in ScannerIds(ss) ==> id < r
  {
    if ss == [] then 0
    else
      var r0 := NextScannerId(ss[..|ss| - 1]);
      if ss[|ss| - 1].id + 1 > r0 then ss[|ss| - 1].id + 1 else r0
  }

  function NextUserId(us: seq<User>): (r: UserId)
    ensures forall id :: id in UserIds(us) ==> id < r
  {
    if us == [] then 0
    else
      var r0 := NextUserId(us[..|us| - 1]);
      if us[|us| - 1].id + 1 > r0 then us[|us| - 1].id + 1 else r0
  }

  /** `User.objects.filter(groups__name='Тимлидеры')`: the team leaders, in table order. */
  function TeamLeaders(us: seq<User>): (r: seq<User>)
    ensures forall u :: u in r <==> u in us && IsTeamLeader(u)
    ensures |r| <= |us|
  {
    if us == [] then []
    else TeamLeaders(us[..|us| - 1]) + (if IsTeamLeader(us[|us| - 1]) then [us[|us| - 1]] else [])
  }

  // ---------------------------------------------------------------------
  // Cascading deletes (on_delete=CASCADE)

  /** The events whose identifier is not in `doomed`, in order. */
  function KeepEvents(es: seq<Event>, doomed: set<EventId>): seq<Event>
  {
    if es == [] then []
    else KeepEvents(es[..|es| - 1], doomed) + (if es[|es| - 1].id in doomed then [] else [es[|es| - 1]])
  }

  /** The participations whose event is not in `doomed`, in order. */
  function KeepParticipantsOfEvents(ps: seq<Participant>, doomed: set<EventId>): seq<Participant>
  {
    if ps == [] then []
    else KeepParticipantsOfEvents(ps[..|ps| - 1], doomed)
         + (if ps[|ps| - 1].event in doomed then [] else [ps[|ps| - 1]])
  }

  /** The participations whose scanner is not `s`, in order. */
  function KeepParticipantsOfOthers(ps: seq<Participant>, s: ScannerId): seq<Participant>
  {
    if ps == [] then []
    else KeepParticipantsOfOthers(ps[..|ps| - 1], s)
         + (if ps[|ps| - 1].scanner == s then [] else [ps[|ps| - 1]])
  }

  /** Deleting events: the rows go, and with them every participation of those events. */
  function DeleteEvents(t: Tables, doomed: set<EventId>): Tables
  {
    t.(events := KeepEvents(t.events, doomed),
       participants := KeepParticipantsOfEvents(t.participants, doomed))
  }

  /** Deleting a scanner: the row goes, and with it every participation of that scanner. */
  function DeleteScanner(t: Tables, s: ScannerId): Tables
  {
    t.(scanners := KeepScanners(t.scanners, s),
       participants := KeepParticipantsOfOthers(t.participants, s))
  }

  function KeepScanners(ss: seq<Scanner>, s: ScannerId): seq<Scanner>
  {
    if ss == [] then []
    else KeepScanners(ss[..|ss| - 1], s) + (if ss[|ss| - 1].id == s then [] else [ss[|ss| - 1]])
  }

  function KeepUsers(us: seq<User>, u: UserId): seq<User>
  {
    if us == [] then []
    else KeepUsers(us[..|us| - 1], u) + (if us[|us| - 1].id == u then [] else [us[|us| - 1]])
  }

  /** The identifiers of the events led by user `u`. */
  function EventsLedBy(es: seq<Event>, u: UserId): set<EventId>
  {
    if es == [] then {}
    else EventsLedBy(es[..|es| - 1], u) + (if es[|es| - 1].leader == u then {es[|es| - 1].id} else {})
  }

  /** Deleting a leader user: the user goes, with their events and those events' participations. */
  function DeleteUser(t: Tables, u: UserId): Tables
  {
    DeleteEvents(t, EventsLedBy(t.events, u)).(users := KeepUsers(t.users, u))
  }

  lemma {:induction false} KeepEventsFacts(es: seq<Event>, doomed: set<EventId>)
    ensures EventIds(KeepEvents(es, doomed)) == EventIds(es) - doomed
    ensures DistinctEventIds(es) ==> DistinctEventIds(KeepEvents(es, doomed))
  {
    if es != [] {
      var init, last := es[..|es| - 1], es[|es| - 1];
      KeepEventsFacts(init, doomed);
      var kept := KeepEvents(init, doomed);
      if last.id in doomed {
        assert KeepEvents(es, doomed) == kept;
      } else {
        assert KeepEvents(es, doomed) == kept + [last];
        AppendEventIds(kept, last);
      }
    }
  }

  lemma {:induction false} KeepEventsMember(es: seq<Event>, doomed: set<EventId>)
    ensures forall e :: e in KeepEvents(es, doomed) <==> e in es && e.id !in doomed
  {
    if es != [] {
      var init, last := es[..|es| - 1], es[|es| - 1];
      KeepEventsMember(init, doomed);
      assert es == init + [last];
    }
  }

  lemma {:induction false} KeepParticipantsOfEventsFacts(ps: seq<Participant>, doomed: set<EventId>)
    ensures Keys(KeepParticipantsOfEvents(ps, doomed)) <= Keys(ps)
    ensures DistinctPairs(ps) ==> DistinctPairs(KeepParticipantsOfEvents(ps, doomed))
  {
    if ps != [] {
      var init, last := ps[..|ps| - 1], ps[|ps| - 1];
      KeepParticipantsOfEventsFacts(init, doomed);
      var kept := KeepParticipantsOfEvents(init, doomed);
      if last.event in doomed {
        assert KeepParticipantsOfEvents(ps, doomed) == kept;
      } else {
        assert KeepParticipantsOfEvents(ps, doomed) == kept + [last];
        assert (kept + [last])[..|kept|] == kept;
      }
    }
  }

  lemma {:induction false} KeepParticipantsOfEventsMember(ps: seq<Participant>, doomed: set<EventId>)
    ensures forall p :: p in KeepParticipantsOfEvents(ps, doomed) <==> p in ps && p.event !in doomed
  {
    if ps != [] {
      var init, last := ps[..|ps| - 1], ps[|ps| - 1];
      KeepParticipantsOfEventsMember(init, doomed);
      assert ps == init + [last];
    }
  }

  lemma {:induction false} KeepParticipantsOfOthersFacts(ps: seq<Participant>, s: ScannerId)
    ensures Keys(KeepParticipantsOfOthers(ps, s)) <= Keys(ps)
    ensures DistinctPairs(ps) ==> DistinctPairs(KeepParticipantsOfOthers(ps, s))
  {
    if ps != [] {
      var init, last := ps[..|ps| - 1], ps[|ps| - 1];
      KeepParticipantsOfOthersFacts(init, s);
      var kept := KeepParticipantsOfOthers(init, s);
      if last.scanner == s {
        assert KeepParticipantsOfOthers(ps, s) == kept;
      } else {
        assert KeepParticipantsOfOthers(ps, s) == kept + [last];
        assert (kept + [last])[..|kept|] == kept;
      }
    }
  }

  lemma {:induction false} KeepParticipantsOfOthersMember(ps: seq<Participant>, s: ScannerId)
    ensures forall p :: p in KeepParticipantsOfOthers(ps, s) <==> p in ps && p.scanner != s
  {
    if ps != [] {
      var init, last := ps[..|ps| - 1], ps[|ps| - 1];
      KeepParticipantsOfOthersMember(init, s);
      assert ps == init + [last];
    }
  }

  lemma {:induction false} KeepScannersFacts(ss: seq<Scanner>, s: ScannerId)
    ensures ScannerIds(KeepScanners(ss, s)) == ScannerIds(ss) - {s}
    ensures ScannerEmails(KeepScanners(ss, s)) <= ScannerEmails(ss)
    ensures DistinctScannerIds(ss) ==> DistinctScannerIds(KeepScanners(ss, s))
    ensures DistinctEmails(ss) ==> DistinctEmails(KeepScanners(ss, s))
  {
    if ss != [] {
      var init, last := ss[..|ss| - 1], ss[|ss| - 1];
      KeepScannersFacts(init, s);
      var kept := KeepScanners(init, s);
      if last.id == s {
        assert KeepScanners(ss, s) == kept;
      } else {
        assert KeepScanners(ss, s) == kept + [last];
        AppendScannerIds(kept, last);
      }
    }
  }

  lemma {:induction false} KeepUsersFacts(us: seq<User>, u: UserId)
    ensures UserIds(KeepUsers(us, u)) == UserIds(us) - {u}
    ensures DistinctUserIds(us) ==> DistinctUserIds(KeepUsers(us, u))
  {
    if us != [] {
      var init, last := us[..|us| - 1], us[|us| - 1];
      KeepUsersFacts(init, u);
      var kept := KeepUsers(init, u);
      if last.id == u {
        assert KeepUsers(us, u) == kept;
      } else {
        assert KeepUsers(us, u) == kept + [last];
        AppendUserIds(kept, last);
      }
    }
  }

  /** Deleting events keeps the database consistent and removes exactly the
      participations of the deleted events. */
  lemma DeleteEventsConsistent(t: Tables, doomed: set<EventId>)
    requires Consistent(t)
    ensures Consistent(DeleteEvents(t, doomed))
    ensures forall p :: p in DeleteEvents(t, doomed).participants <==> p in t.participants && p.event !in doomed
    ensures forall e :: e in DeleteEvents(t, doomed).events <==> e in t.events && e.id !in doomed
  {
    var t' := DeleteEvents(t, doomed);
    KeepEventsFacts(t.events, doomed);
    KeepEventsMember(t.events, doomed);
    KeepParticipantsOfEventsFacts(t.participants, doomed);
    KeepParticipantsOfEventsMember(t.participants, doomed);
  }

  /** Deleting a scanner keeps the database consistent and removes exactly that
      scanner's participations. */
  lemma DeleteScannerConsistent(t: Tables, s: ScannerId)
    requires Consistent(t)
    ensures Consistent(DeleteScanner(t, s))
    ensures forall p :: p in DeleteScanner(t, s).participants <==> p in t.participants && p.scanner != s
  {
    var t' := DeleteScanner(t, s);
    KeepScannersFacts(t.scanners, s);
    KeepParticipantsOfOthersFacts(t.participants, s);
    KeepParticipantsOfOthersMember(t.participants, s);
  }

  /** With distinct identifiers, an event's identifier is among those led by
      `u` exactly when `u` leads that event. */
  lemma {:induction false} EventsLedByExact(es: seq<Event>, u: UserId)
    requires DistinctEventIds(es)
    ensures EventsLedBy(es, u) <= EventIds(es)
    ensures forall e :: e in es ==> (e.id in EventsLedBy(es, u) <==> e.leader == u)
  {
    if es != [] {
      var init, last := es[..|es| - 1], es[|es| - 1];
      EventsLedByExact(init, u);
      assert es == init + [last];
      forall e | e in init ensures e.id != last.id {
        var j :| 0 <= j < |init| && init[j] == e;
        EventIdsMember(init, j);
      }
    }
  }

  /** Deleting a leader user keeps the database consistent. The user row goes;
      exactly the events they lead go, the events of other leaders stay; the
      participations of their events go and all other participations stay;
      scanners are untouched. */
  lemma DeleteUserConsistent(t: Tables, u: UserId)
    requires Consistent(t)
    ensures Consistent(DeleteUser(t, u))
    ensures UserIds(DeleteUser(t, u).users) == UserIds(t.users) - {u}
    ensures forall e :: e in DeleteUser(t, u).events <==> e in t.events && e.leader != u
    ensures forall p :: p in DeleteUser(t, u).participants
                        <==> p in t.participants && p.event !in EventsLedBy(t.events, u)
    ensures forall e, p :: e in t.events && e.leader == u && p in t.participants && p.event == e.id
                           ==> p !in DeleteUser(t, u).participants
    ensures DeleteUser(t, u).scanners == t.scanners
  {
    var doomed := EventsLedBy(t.events, u);
    DeleteEventsConsistent(t, doomed);
    EventsLedByExact(t.events, u);
    KeepUsersFacts(t.users, u);
  }

  /** The database: one field per table. */
  class Store {
    var users: seq<User>
    var scanners: seq<Scanner>
    var events: seq<Event>
    var participants: seq<Participant>
    var teamLeaders: seq<TeamLeaderRec>
    var logs: seq<NotificationLog>

    function Snapshot(): Tables
      reads this
    {
      Tables(users, scanners, events, participants, teamLeaders, logs)
    }

    predicate Valid()
      reads this
    {
      Consistent(Snapshot())
    }

    constructor ()
      ensures Snapshot() == Tables([], [], [], [], [], [])
      ensures Valid()
    {
      users, scanners, events, participants, teamLeaders, logs := [], [], [], [], [], [];
    }
  }
}
