/** The retention purge command (`purge_events`): events dated more than a
    year before today are deleted together with their participations; the
    creators of events that will cross that line within the next N days are
    warned first, by Telegram with an e-mail fallback, and every notification
    that went out is logged. */
module Purge {
  import opened Schema

  // ---------------------------------------------------------------------
  // Settings and modes

  /** The settings row: how many days ahead creators are warned, and whether
      the automatic purge is switched on. */
  datatype PurgeSettings = PurgeSettings(notificationDaysBefore: int, active: bool)

  /** The command-line flags `--dry-run` and `--notify-only`. */
  datatype Mode = Mode(dryRun: bool, notifyOnly: bool)

  /** The warning horizon in days: 7 when the settings table is empty. */
  function DaysBefore(s: Option<PurgeSettings>): int
  {
    if s.None? then 7 else s.value.notificationDaysBefore
  }

  /** Whether the purge is switched on: it is when the settings table is empty. */
  predicate IsActive(s: Option<PurgeSettings>)
  {
    s.None? || s.value.active
  }

  // ---------------------------------------------------------------------
  // The two windows

  /** One year (365 days) before today. */
  function Cutoff(today: Day): Day
  {
    today - 365
  }

  predicate IsExpired(e: Event, today: Day)
  {
    e.date < Cutoff(today)
  }

  predicate IsWarned(e: Event, today: Day, n: int)
  {
    Cutoff(today) <= e.date <= Cutoff(today) + n
  }

  /** The delete set, in table order. */
  function ExpiredEvents(es: seq<Event>, today: Day): seq<Event>
  {
    if es == [] then []
    else ExpiredEvents(es[..|es| - 1], today)
         + (if IsExpired(es[|es| - 1], today) then [es[|es| - 1]] else [])
  }

  /** The warning set, in table order. */
  function WarnedEvents(es: seq<Event>, today: Day, n: int): seq<Event>
  {
    if es == [] then []
    else WarnedEvents(es[..|es| - 1], today, n)
         + (if IsWarned(es[|es| - 1], today, n) then [es[|es| - 1]] else [])
  }

  function IdsOf(es: seq<Event>): set<EventId>
  {
    set e | e in es :: e.id
  }

  lemma {:induction false} ExpiredEventsMember(es: seq<Event>, today: Day)
    ensures forall e :: e in ExpiredEvents(es, today) <==> e in es && IsExpired(e, today)
  {
    if es != [] {
      ExpiredEventsMember(es[..|es| - 1], today);
      assert es == es[..|es| - 1] + [es[|es| - 1]];
    }
  }

  lemma {:induction false} WarnedEventsMember(es: seq<Event>, today: Day, n: int)
    ensures forall e :: e in WarnedEvents(es, today, n) <==> e in es && IsWarned(e, today, n)
  {
    if es != [] {
      WarnedEventsMember(es[..|es| - 1], today, n);
      assert es == es[..|es| - 1] + [es[|es| - 1]];
    }
  }

  /** No event is both deleted and warned about in the same run. */
  lemma WindowsDisjoint(es: seq<Event>, today: Day, n: int)
    ensures forall e :: e in ExpiredEvents(es, today) ==> e !in WarnedEvents(es, today, n)
  {
    ExpiredEventsMember(es, today);
    WarnedEventsMember(es, today, n);
  }

  /** A warned event survives today's run and is past the cutoff of the run
      n + 1 days later. */
  lemma WarnedExpiresWithinHorizon(e: Event, today: Day, n: int)
    requires IsWarned(e, today, n)
    ensures !IsExpired(e, today) && IsExpired(e, today + n + 1)
  {
  }

  // ---------------------------------------------------------------------
  // Grouping the warned events by creator

  /** One entry of the grouping dictionary: a creator and their warned
      events, in query order. */
  datatype Group = Group(leader: UserId, events: seq<Event>)

  /** The position of the creator's entry, or -1 when there is none yet. */
  function GroupIndex(gs: seq<Group>, l: UserId): (r: int)
    ensures -1 <= r < |gs|
    ensures r >= 0 ==> gs[r].leader == l
    ensures r == -1 <==> forall i :: 0 <= i < |gs| ==> gs[i].leader != l
  {
    if gs == [] then -1
    else if gs[|gs| - 1].leader == l then |gs| - 1
    else GroupIndex(gs[..|gs| - 1], l)
  }

  /** Filing one event: appended to its creator's entry, or a new entry at
      the end for a creator seen for the first time. */
  function File(gs: seq<Group>, e: Event): seq<Group>
  {
    var k := GroupIndex(gs, e.leader);
    if k == -1 then gs + [Group(e.leader, [e])]
    else gs[k := Group(e.leader, gs[k].events + [e])]
  }

  /** The dictionary after filing every event of `es` in order. */
  function Grouped(es: seq<Event>): seq<Group>
  {
    if es == [] then [] else File(Grouped(es[..|es| - 1]), es[|es| - 1])
  }

  /** The events of `es` created by `l`, in order: the independent reference
      for a creator's list. */
  function CreatedBy(es: seq<Event>, l: UserId): seq<Event>
  {
    if es == [] then []
    else CreatedBy(es[..|es| - 1], l) + (if es[|es| - 1].leader == l then [es[|es| - 1]] else [])
  }

  predicate DistinctLeaders(gs: seq<Group>)
  {
    forall i, j :: 0 <= i < j < |gs| ==> gs[i].leader != gs[j].leader
  }

  lemma {:induction false} CreatedByMember(es: seq<Event>, l: UserId)
    ensures forall e :: e in CreatedBy(es, l) <==> e in es && e.leader == l
  {
    if es != [] {
      CreatedByMember(es[..|es| - 1], l);
      assert es == es[..|es| - 1] + [es[|es| - 1]];
    }
  }

  lemma {:induction false} CreatedByNone(es: seq<Event>, l: UserId)
    requires forall x :: x in es ==> x.leader != l
    ensures CreatedBy(es, l) == []
  {
    if es != [] {
      CreatedByNone(es[..|es| - 1], l);
    }
  }

  /** The loop over the warned events (building the `team_leaders` dictionary). */
  method GroupByCreator(es: seq<Event>) returns (gs: seq<Group>)
    ensures gs == Grouped(es)
  {
    gs := [];
    for i := 0 to |es|
      invariant gs == Grouped(es[..i])
    {
      assert es[..i + 1][..i] == es[..i];
      ghost var before := gs;
      var k := GroupIndex(gs, es[i].leader);
      if k == -1 {
        gs := gs + [Group(es[i].leader, [])];
        k := |gs| - 1;
        assert gs[k].events + [es[i]] == [es[i]];
      }
      gs := gs[k := Group(gs[k].leader, gs[k].events + [es[i]])];
      FileFacts(before, es[i]);
      assert gs == File(before, es[i]);
    }
    assert es[..|es|] == es;
  }

  /** Filing keeps the existing entries' creators in place, and either
      appends to the creator's entry or adds one entry at the end. */
  lemma FileFacts(gs: seq<Group>, e: Event)
    ensures var k := GroupIndex(gs, e.leader);
            k == -1 ==> File(gs, e) == gs + [Group(e.leader, [e])]
    ensures var k := GroupIndex(gs, e.leader);
            k != -1 ==> |File(gs, e)| == |gs| && File(gs, e)[k] == Group(e.leader, gs[k].events + [e])
                        && forall i :: 0 <= i < |gs| && i != k ==> File(gs, e)[i] == gs[i]
    ensures forall i :: 0 <= i < |gs| ==> File(gs, e)[i].leader == gs[i].leader
  {
  }

  /** One entry per creator, and every event's creator has one. */
  lemma {:induction false} GroupedLeaders(es: seq<Event>)
    ensures DistinctLeaders(Grouped(es))
    ensures forall e :: e in es ==> GroupIndex(Grouped(es), e.leader) >= 0
  {
    if es != [] {
      var init, e := es[..|es| - 1], es[|es| - 1];
      assert es == init + [e];
      GroupedLeaders(init);
      var gs := Grouped(init);
      var gs' := Grouped(es);
      FileFacts(gs, e);
      forall x | x in es ensures GroupIndex(gs', x.leader) >= 0 {
        if x != e {
          var j := GroupIndex(gs, x.leader);
          assert gs'[j].leader == x.leader;
        }
      }
    }
  }

  /** Each entry lists exactly its creator's events, in their original order. */
  lemma {:induction false} GroupedLists(es: seq<Event>)
    ensures forall i :: 0 <= i < |Grouped(es)| ==> Grouped(es)[i].events == CreatedBy(es, Grouped(es)[i].leader)
  {
    if es != [] {
      var init, e := es[..|es| - 1], es[|es| - 1];
      assert es == init + [e];
      GroupedLists(init);
      GroupedLeaders(init);
      var gs := Grouped(init);
      var gs' := Grouped(es);
      var k := GroupIndex(gs, e.leader);
      FileFacts(gs, e);
      if k == -1 {
        forall x | x in init ensures x.leader != e.leader {
          assert GroupIndex(gs, x.leader) >= 0;
        }
        CreatedByNone(init, e.leader);
      }
      forall i | 0 <= i < |gs'| ensures gs'[i].events == CreatedBy(es, gs'[i].leader) {
        if i < |gs| && i != k {
          assert gs'[i] == gs[i];
          assert gs[i].leader != e.leader;
        }
      }
    }
  }

  /** Every warned event is in its creator's list. Together with
      `ListsHoldOwnEvents` and `GroupedLeaders` (one entry per creator): every
      warned event is in exactly one list. */
  lemma EventInCreatorsList(es: seq<Event>)
    ensures forall e :: e in es ==>
      GroupIndex(Grouped(es), e.leader) >= 0 && e in Grouped(es)[GroupIndex(Grouped(es), e.leader)].events
  {
    var gs := Grouped(es);
    GroupedLeaders(es);
    GroupedLists(es);
    forall e | e in es
      ensures GroupIndex(gs, e.leader) >= 0 && e in gs[GroupIndex(gs, e.leader)].events
    {
      var i := GroupIndex(gs, e.leader);
      assert gs[i].events == CreatedBy(es, e.leader);
      CreatedByMember(es, e.leader);
    }
  }

  /** A creator's list holds only warned events of that creator. */
  lemma ListsHoldOwnEvents(es: seq<Event>)
    ensures forall e, i :: 0 <= i < |Grouped(es)| && e in Grouped(es)[i].events ==>
      e in es && Grouped(es)[i].leader == e.leader
  {
    var gs := Grouped(es);
    GroupedLists(es);
    forall e, i | 0 <= i < |gs| && e in gs[i].events
      ensures e in es && gs[i].leader == e.leader
    {
      assert gs[i].events == CreatedBy(es, gs[i].leader);
      CreatedByMember(es, gs[i].leader);
    }
  }

  // ---------------------------------------------------------------------
  // Contacts and delivery

  /** A creator's contact details as the command collects them. */
  datatype Contact = Contact(name: string, email: string, telegramId: Option<string>)

  predicate NamedAs(l: TeamLeaderRec, first: string, last: string)
  {
    l.firstName == first && l.lastName == last
  }

  /** The first team-leader record with exactly this first and last name. */
  function FirstNamed(tls: seq<TeamLeaderRec>, first: string, last: string): (r: Option<TeamLeaderRec>)
    ensures r.None? <==> forall l :: l in tls ==> !NamedAs(l, first, last)
    ensures r.Some? ==> exists i :: 0 <= i < |tls| && tls[i] == r.value && NamedAs(tls[i], first, last)
                                    && forall j :: 0 <= j < i ==> !NamedAs(tls[j], first, last)
  {
    if tls == [] then None
    else if NamedAs(tls[0], first, last) then Some(tls[0])
    else
      var r := FirstNamed(tls[1..], first, last);
      assert tls == [tls[0]] + tls[1..];
      if r.Some? then
        var i :| 0 <= i < |tls[1..]| && tls[1..][i] == r.value && NamedAs(tls[1..][i], first, last)
                 && forall j :: 0 <= j < i ==> !NamedAs(tls[1..][j], first, last);
        assert forall j :: 0 <= j < i + 1 ==> !NamedAs(tls[j], first, last) by {
          forall j | 0 <= j < i + 1 ensures !NamedAs(tls[j], first, last) {
            if j > 0 {
              assert tls[j] == tls[1..][j - 1];
            }
          }
        }
        r
      else r
  }

  /** The user row with this identifier, if any. */
  function FindUser(us: seq<User>, id: UserId): (r: Option<User>)
    ensures r.Some? ==> r.value in us && r.value.id == id
    ensures r.None? ==> id !in UserIds(us)
  {
    if us == [] then None
    else if us[|us| - 1].id == id then Some(us[|us| - 1])
    else FindUser(us[..|us| - 1], id)
  }

  /** The creator's name and e-mail, and the Telegram id of the first
      team-leader record with the same first and last name, when it is set. */
  function ContactOf(u: User, tls: seq<TeamLeaderRec>): Contact
  {
    var l := FirstNamed(tls, u.firstName, u.lastName);
    Contact(u.firstName + " " + u.lastName, u.email,
            if l.Some? && l.value.telegramId != "" then Some(l.value.telegramId) else None)
  }

  /** What the Telegram wrapper depends on: whether a bot token is set, the
      chat ids from the settings (the admins' chats), and whether one send to
      one chat goes through; a send that raises counts as not delivered, since
      the wrapper catches it. */
  datatype Telegram = Telegram(hasToken: bool, settingsChatIds: seq<string>,
                               deliver: (string, Message) -> bool)

  /** The deployment the command runs in: Telegram, the `ADMINS` e-mail
      addresses, and whether `send_mail` to a recipient list returns without
      raising. */
  datatype Env = Env(telegram: Telegram, admins: seq<string>, mail: (seq<string>, Message) -> bool)

  function AnyDelivered(tg: Telegram, msg: Message, ids: seq<string>): (ok: bool)
    ensures ok <==> exists i :: 0 <= i < |ids| && ids[i] != "" && tg.deliver(ids[i], msg)
  {
    if ids == [] then false
    else AnyDelivered(tg, msg, ids[..|ids| - 1]) || (ids[|ids| - 1] != "" && tg.deliver(ids[|ids| - 1], msg))
  }

  /** `send_telegram_message`: no token gives false; an empty id list falls
      back to the settings' ids, and false when those are empty or just "";
      empty ids are skipped; true iff some send went through. */
  function SendTelegram(tg: Telegram, msg: Message, chatIds: seq<string>): bool
  {
    if !tg.hasToken then false
    else if chatIds == [] then
      if tg.settingsChatIds == [] || tg.settingsChatIds == [""] then false
      else AnyDelivered(tg, msg, tg.settingsChatIds)
    else AnyDelivered(tg, msg, chatIds)
  }

  /** The wrapper's promise: true exactly when there is a token and the
      message reached some non-empty chat id of the list in use. */
  lemma SendTelegramMeaning(tg: Telegram, msg: Message, chatIds: seq<string>)
    ensures var ids := if chatIds == [] then tg.settingsChatIds else chatIds;
            SendTelegram(tg, msg, chatIds)
            <==> tg.hasToken && exists i :: 0 <= i < |ids| && ids[i] != "" && tg.deliver(ids[i], msg)
  {
    var ids := if chatIds == [] then tg.settingsChatIds else chatIds;
    if tg.hasToken && chatIds == [] && tg.settingsChatIds == [""] {
      assert forall i :: 0 <= i < |ids| ==> ids[i] == "";
    }
  }

  function TelegramLog(id: string, msg: Message): NotificationLog
  {
    NotificationLog(id, TelegramChannel, msg, false)
  }

  function EmailLog(address: string, msg: Message): NotificationLog
  {
    NotificationLog(address, EmailChannel, msg, false)
  }

  /** The rows logged for one creator: Telegram when they have an id and it
      went through; otherwise e-mail, when they have an address and the mail
      did not raise. */
  function WarningLogs(env: Env, c: Contact, msg: Message): seq<NotificationLog>
  {
    match c.telegramId
    case Some(id) =>
      if SendTelegram(env.telegram, msg, [id]) then [TelegramLog(id, msg)]
      else if c.email != "" && env.mail([c.email], msg) then [EmailLog(c.email, msg)]
      else []
    case None =>
      if c.email != "" && env.mail([c.email], msg) then [EmailLog(c.email, msg)] else []
  }

  /** At most one row per creator; a Telegram row exactly when the creator
      has a Telegram id the message reached; an e-mail row exactly when
      Telegram was absent or failed, the creator has an address and the mail
      went out. */
  lemma DispatchFacts(env: Env, c: Contact, msg: Message)
    requires c.telegramId.Some? ==> c.telegramId.value != ""
    ensures |WarningLogs(env, c, msg)| <= 1
    ensures var sent := c.telegramId.Some? && env.telegram.hasToken
                        && env.telegram.deliver(c.telegramId.value, msg);
            && (sent <==> c.telegramId.Some? && WarningLogs(env, c, msg) == [TelegramLog(c.telegramId.value, msg)])
            && (!sent && c.email != "" && env.mail([c.email], msg)
                <==> WarningLogs(env, c, msg) == [EmailLog(c.email, msg)])
  {
    if c.telegramId.Some? {
      var id := c.telegramId.value;
      SendTelegramMeaning(env.telegram, msg, [id]);
      assert [id][0] == id;
    }
  }

  /** One Telegram row per non-empty chat id, in order. */
  function TelegramLogs(ids: seq<string>, msg: Message): seq<NotificationLog>
  {
    if ids == [] then []
    else TelegramLogs(ids[..|ids| - 1], msg)
         + (if ids[|ids| - 1] != "" then [TelegramLog(ids[|ids| - 1], msg)] else [])
  }

  /** One e-mail row per address, in order. */
  function EmailLogs(addresses: seq<string>, msg: Message): seq<NotificationLog>
  {
    if addresses == [] then []
    else EmailLogs(addresses[..|addresses| - 1], msg) + [EmailLog(addresses[|addresses| - 1], msg)]
  }

  lemma {:induction false} TelegramLogsMember(ids: seq<string>, msg: Message)
    ensures forall r :: r in TelegramLogs(ids, msg) <==> r.recipient in ids && r.recipient != "" && r == TelegramLog(r.recipient, msg)
  {
    if ids != [] {
      TelegramLogsMember(ids[..|ids| - 1], msg);
      assert ids == ids[..|ids| - 1] + [ids[|ids| - 1]];
    }
  }

  lemma {:induction false} EmailLogsShape(addresses: seq<string>, msg: Message)
    ensures |EmailLogs(addresses, msg)| == |addresses|
    ensures forall i :: 0 <= i < |addresses| ==> EmailLogs(addresses, msg)[i] == EmailLog(addresses[i], msg)
  {
    if addresses != [] {
      EmailLogsShape(addresses[..|addresses| - 1], msg);
    }
  }

  /** The rows logged by the notice to the admins about a deletion. */
  function AdminLogs(env: Env, msg: Message): seq<NotificationLog>
  {
    var ids := env.telegram.settingsChatIds;
    if ids == [] || ids == [""] then []
    else if SendTelegram(env.telegram, msg, ids) then TelegramLogs(ids, msg)
    else if env.admins != [] && env.mail(env.admins, msg) then EmailLogs(env.admins, msg)
    else []
  }

  /** The admin notice is only attempted when admin chats are configured;
      Telegram success logs one row per non-empty chat id; otherwise a
      successful fallback mail logs one row per admin address. */
  lemma AdminFacts(env: Env, msg: Message)
    ensures var ids := env.telegram.settingsChatIds;
            (ids == [] || ids == [""]) ==> AdminLogs(env, msg) == []
    ensures var ids := env.telegram.settingsChatIds;
            var sent := env.telegram.hasToken && exists i :: 0 <= i < |ids| && ids[i] != "" && env.telegram.deliver(ids[i], msg);
            ids != [] && ids != [""] && sent ==>
              forall r :: r in AdminLogs(env, msg) <==> r.recipient in ids && r.recipient != "" && r == TelegramLog(r.recipient, msg)
    ensures var ids := env.telegram.settingsChatIds;
            var sent := env.telegram.hasToken && exists i :: 0 <= i < |ids| && ids[i] != "" && env.telegram.deliver(ids[i], msg);
            ids != [] && ids != [""] && !sent && env.admins != [] && env.mail(env.admins, msg) ==>
              |AdminLogs(env, msg)| == |env.admins|
              && forall i :: 0 <= i < |env.admins| ==> AdminLogs(env, msg)[i] == EmailLog(env.admins[i], msg)
  {
    var ids := env.telegram.settingsChatIds;
    if ids != [] {
      SendTelegramMeaning(env.telegram, msg, ids);
    }
    TelegramLogsMember(ids, msg);
    EmailLogsShape(env.admins, msg);
  }

  // ---------------------------------------------------------------------
  // The whole run

  /** The event list of a warning: name and date of each event. */
  function Listing(es: seq<Event>): seq<(string, Day)>
  {
    seq(|es|, i requires 0 <= i < |es| => (es[i].name, es[i].date))
  }

  /** The rows logged while warning one creator. The creator row always
      exists in a consistent database; without it nothing is sent. */
  function CreatorLogs(users: seq<User>, tls: seq<TeamLeaderRec>, g: Group, n: int, env: Env): seq<NotificationLog>
  {
    match FindUser(users, g.leader)
    case None => []
    case Some(u) =>
      var c := ContactOf(u, tls);
      WarningLogs(env, c, ExpiryWarning(c.name, n, Listing(g.events)))
  }

  function GroupLogs(users: seq<User>, tls: seq<TeamLeaderRec>, gs: seq<Group>, n: int, env: Env): seq<NotificationLog>
  {
    if gs == [] then []
    else GroupLogs(users, tls, gs[..|gs| - 1], n, env) + CreatorLogs(users, tls, gs[|gs| - 1], n, env)
  }

  /** The database after the warnings: the rows logged while warning every
      creator of a warned event, none in a dry run. */
  function WarningStage(t: Tables, today: Day, n: int, dryRun: bool, env: Env): Tables
  {
    if dryRun then t
    else t.(logs := t.logs + GroupLogs(t.users, t.teamLeaders, Grouped(WarnedEvents(t.events, today, n)), n, env))
  }

  /** The database after the deletion: the admin notice is logged, then the
      expired events and their participations go. */
  function DeletionStage(t: Tables, expired: seq<Event>, today: Day, env: Env): Tables
  {
    DeleteEvents(t.(logs := t.logs + AdminLogs(env, DeletionSummary(|expired|, Cutoff(today)))), IdsOf(expired))
  }

  /** The database after one run of the command on `today`. */
  function PurgeSpec(t: Tables, today: Day, s: Option<PurgeSettings>, mode: Mode, env: Env): Tables
  {
    var n := DaysBefore(s);
    if !IsActive(s) && !(mode.dryRun || mode.notifyOnly) then t
    else
      var t1 := WarningStage(t, today, n, mode.dryRun, env);
      var expired := ExpiredEvents(t.events, today);
      if mode.notifyOnly || |expired| == 0 || mode.dryRun then t1
      else DeletionStage(t1, expired, today, env)
  }

  /** Warning one creator. */
  method WarnCreator(db: Store, g: Group, n: int, env: Env)
    modifies db`logs
    ensures db.logs == old(db.logs) + CreatorLogs(db.users, db.teamLeaders, g, n, env)
  {
    var u := FindUser(db.users, g.leader);
    if u.None? {
      return;
    }
    var c := ContactOf(u.value, db.teamLeaders);
    var msg := ExpiryWarning(c.name, n, Listing(g.events));
    if c.telegramId.Some? {
      var ok := SendTelegram(env.telegram, msg, [c.telegramId.value]);
      if ok {
        db.logs := db.logs + [TelegramLog(c.telegramId.value, msg)];
      } else if c.email != "" {
        var mailed := env.mail([c.email], msg);
        if mailed {
          db.logs := db.logs + [EmailLog(c.email, msg)];
        }
      }
    } else if c.email != "" {
      var mailed := env.mail([c.email], msg);
      if mailed {
        db.logs := db.logs + [EmailLog(c.email, msg)];
      }
    }
  }

  /** The loop over the creators' entries. */
  method WarnCreators(db: Store, gs: seq<Group>, n: int, env: Env)
    modifies db`logs
    ensures db.logs == old(db.logs) + GroupLogs(db.users, db.teamLeaders, gs, n, env)
  {
    for i := 0 to |gs|
      invariant db.logs == old(db.logs) + GroupLogs(db.users, db.teamLeaders, gs[..i], n, env)
    {
      assert gs[..i + 1][..i] == gs[..i];
      WarnCreator(db, gs[i], n, env);
    }
    assert gs[..|gs|] == gs;
  }

  method LogTelegramRows(db: Store, ids: seq<string>, msg: Message)
    modifies db`logs
    ensures db.logs == old(db.logs) + TelegramLogs(ids, msg)
  {
    for i := 0 to |ids|
      invariant db.logs == old(db.logs) + TelegramLogs(ids[..i], msg)
    {
      assert ids[..i + 1][..i] == ids[..i];
      if ids[i] != "" {
        db.logs := db.logs + [TelegramLog(ids[i], msg)];
      }
    }
    assert ids[..|ids|] == ids;
  }

  method LogEmailRows(db: Store, addresses: seq<string>, msg: Message)
    modifies db`logs
    ensures db.logs == old(db.logs) + EmailLogs(addresses, msg)
  {
    for i := 0 to |addresses|
      invariant db.logs == old(db.logs) + EmailLogs(addresses[..i], msg)
    {
      assert addresses[..i + 1][..i] == addresses[..i];
      db.logs := db.logs + [EmailLog(addresses[i], msg)];
    }
    assert addresses[..|addresses|] == addresses;
  }

  /** The notice to the admins about a deletion. */
  method NotifyAdmins(db: Store, msg: Message, env: Env)
    modifies db`logs
    ensures db.logs == old(db.logs) + AdminLogs(env, msg)
  {
    var ids := env.telegram.settingsChatIds;
    if ids != [] && ids != [""] {
      var ok := SendTelegram(env.telegram, msg, ids);
      if ok {
        LogTelegramRows(db, ids, msg);
      } else if env.admins != [] {
        var mailed := env.mail(env.admins, msg);
        if mailed {
          LogEmailRows(db, env.admins, msg);
        }
      }
    }
  }

  /** The warnings, from the window query to the last logged row. */
  method SendWarnings(db: Store, today: Day, n: int, dryRun: bool, env: Env)
    modifies db`logs
    ensures db.Snapshot() == WarningStage(old(db.Snapshot()), today, n, dryRun, env)
  {
    var warned := WarnedEvents(db.events, today, n);
    if |warned| > 0 && !dryRun {
      var gs := GroupByCreator(warned);
      WarnCreators(db, gs, n, env);
    }
  }

  /** The admin notice and the deletion itself. */
  method DeleteExpired(db: Store, expired: seq<Event>, today: Day, env: Env)
    requires db.Valid()
    modifies db`events, db`participants, db`logs
    ensures db.Snapshot() == DeletionStage(old(db.Snapshot()), expired, today, env)
    ensures db.Valid()
  {
    NotifyAdmins(db, DeletionSummary(|expired|, Cutoff(today)), env);
    var doomed := IdsOf(expired);
    DeleteEventsConsistent(db.Snapshot(), doomed);
    db.events, db.participants := KeepEvents(db.events, doomed), KeepParticipantsOfEvents(db.participants, doomed);
  }

  /** `handle`: one run of the command. */
  method Purge(db: Store, today: Day, s: Option<PurgeSettings>, mode: Mode, env: Env)
    requires db.Valid()
    modifies db`events, db`participants, db`logs
    ensures db.Snapshot() == PurgeSpec(old(db.Snapshot()), today, s, mode, env)
    ensures db.Valid()
  {
    var n := DaysBefore(s);
    if !IsActive(s) && !(mode.dryRun || mode.notifyOnly) {
      return;
    }
    var expired := ExpiredEvents(db.events, today);
    SendWarnings(db, today, n, mode.dryRun, env);
    if !mode.notifyOnly && |expired| > 0 && !mode.dryRun {
      DeleteExpired(db, expired, today, env);
    }
  }

  // ---------------------------------------------------------------------
  // Properties of a run

  /** Two events of a consistent table with the same identifier are the same row. */
  lemma {:induction false} SameIdSameEvent(es: seq<Event>, a: Event, b: Event)
    requires DistinctEventIds(es) && a in es && b in es && a.id == b.id
    ensures a == b
  {
    var init, last := es[..|es| - 1], es[|es| - 1];
    assert es == init + [last];
    if a != last && b != last {
      SameIdSameEvent(init, a, b);
    } else if a != last {
      var k :| 0 <= k < |init| && init[k] == a;
      EventIdsMember(init, k);
    } else if b != last {
      var k :| 0 <= k < |init| && init[k] == b;
      EventIdsMember(init, k);
    }
  }

  /** A switched-off run without flags, and any dry run, change nothing. */
  lemma QuietRuns(t: Tables, today: Day, s: Option<PurgeSettings>, mode: Mode, env: Env)
    requires (!IsActive(s) && !mode.dryRun && !mode.notifyOnly) || mode.dryRun
    ensures PurgeSpec(t, today, s, mode, env) == t
  {
  }

  /** A run only appends non-test rows to the log and never touches users,
      scanners or team-leader records; with `--notify-only` no event and no
      participation goes. */
  lemma PurgeFrame(t: Tables, today: Day, s: Option<PurgeSettings>, mode: Mode, env: Env)
    ensures var t' := PurgeSpec(t, today, s, mode, env);
            t'.users == t.users && t'.scanners == t.scanners && t'.teamLeaders == t.teamLeaders
            && |t.logs| <= |t'.logs| && t'.logs[..|t.logs|] == t.logs
    ensures var t' := PurgeSpec(t, today, s, mode, env);
            forall i :: |t.logs| <= i < |t'.logs| ==> !t'.logs[i].isTest
    ensures var t' := PurgeSpec(t, today, s, mode, env);
            mode.notifyOnly ==> t'.events == t.events && t'.participants == t.participants
  {
    var n := DaysBefore(s);
    var expired := ExpiredEvents(t.events, today);
    GroupLogsNotTest(t.users, t.teamLeaders, Grouped(WarnedEvents(t.events, today, n)), n, env);
    AdminLogsNotTest(env, DeletionSummary(|expired|, Cutoff(today)));
  }

  /** No row of `ls` is marked as a test. */
  predicate NoTestRows(ls: seq<NotificationLog>)
  {
    forall i :: 0 <= i < |ls| ==> !ls[i].isTest
  }

  lemma {:induction false} TelegramLogsNotTest(ids: seq<string>, msg: Message)
    ensures NoTestRows(TelegramLogs(ids, msg))
  {
    if ids != [] {
      TelegramLogsNotTest(ids[..|ids| - 1], msg);
    }
  }

  lemma AdminLogsNotTest(env: Env, msg: Message)
    ensures NoTestRows(AdminLogs(env, msg))
  {
    TelegramLogsNotTest(env.telegram.settingsChatIds, msg);
    EmailLogsShape(env.admins, msg);
  }

  lemma {:induction false} GroupLogsNotTest(users: seq<User>, tls: seq<TeamLeaderRec>, gs: seq<Group>, n: int, env: Env)
    ensures NoTestRows(GroupLogs(users, tls, gs, n, env))
  {
    if gs != [] {
      GroupLogsNotTest(users, tls, gs[..|gs| - 1], n, env);
    }
  }

  /** Every run keeps the database consistent. */
  lemma PurgeConsistent(t: Tables, today: Day, s: Option<PurgeSettings>, mode: Mode, env: Env)
    requires Consistent(t)
    ensures Consistent(PurgeSpec(t, today, s, mode, env))
  {
    var n := DaysBefore(s);
    var expired := ExpiredEvents(t.events, today);
    if IsActive(s) && !mode.notifyOnly && |expired| > 0 && !mode.dryRun {
      var t1 := WarningStage(t, today, n, false, env);
      DeleteEventsConsistent(t1.(logs := t1.logs + AdminLogs(env, DeletionSummary(|expired|, Cutoff(today)))), IdsOf(expired));
    }
  }

  /** A normal run of a switched-on purge removes exactly the events dated
      before the cutoff and exactly their participations, whatever happened
      to the notifications. */
  lemma NormalRunDeletesExpired(t: Tables, today: Day, s: Option<PurgeSettings>, env: Env)
    requires Consistent(t) && IsActive(s)
    ensures var t' := PurgeSpec(t, today, s, Mode(false, false), env);
            forall e :: e in t'.events <==> e in t.events && !IsExpired(e, today)
    ensures var t' := PurgeSpec(t, today, s, Mode(false, false), env);
            forall p :: p in t'.participants <==>
              p in t.participants && forall e :: e in t.events && e.id == p.event ==> !IsExpired(e, today)
  {
    var n := DaysBefore(s);
    var expired := ExpiredEvents(t.events, today);
    var doomed := IdsOf(expired);
    var t' := PurgeSpec(t, today, s, Mode(false, false), env);
    ExpiredEventsMember(t.events, today);
    if |expired| == 0 {
      assert t'.events == t.events && t'.participants == t.participants;
    } else {
      var t1 := WarningStage(t, today, n, false, env);
      var t2 := t1.(logs := t1.logs + AdminLogs(env, DeletionSummary(|expired|, Cutoff(today))));
      assert t' == DeleteEvents(t2, doomed);
      DeleteEventsConsistent(t2, doomed);
      forall e | e in t.events ensures e.id in doomed <==> IsExpired(e, today) {
        if e.id in doomed {
          var x :| x in expired && x.id == e.id;
          SameIdSameEvent(t.events, x, e);
        }
      }
      forall p | p in t.participants
        ensures p.event !in doomed <==> forall e :: e in t.events && e.id == p.event ==> !IsExpired(e, today)
      {
        if p.event in doomed {
          var x :| x in expired && x.id == p.event;
        }
      }
    }
  }
}
