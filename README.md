# Tiketon volunteer-hours ledger, in Dafny

Tiketon is a Django application for a ticket-scanning volunteer team. Team
leaders create events and add scanners (volunteers) to them. On the event
page they record who was late and by how many minutes. Setting the event's
duration awards every participant `max(duration − late/60, 0)` hours.
Scanners collect those hours as certificates of thanks. A certificate is
issued for one participation, for a whole event, or for a scanner over all
their events. Each one shows the rounded hours and then resets the covered
rows to zero.

A nightly purge command deletes events older than one year. Before it does,
it warns each event's creator by Telegram or e-mail and logs each delivery
in a notification log. Four import scripts fill the tables from
spreadsheets:
- the web view `import_excel`;
- the June 2025 import;
- the scanner list import;
- the team-leader list import.

This project models those parts as Dafny modules:

| module | file | models |
|---|---|---|
| `Text` | text.dfy | Python's `split`, `strip`, `' '.join`, `lower`, `in` on strings, `str(int)` and `{:02d}` |
| `Numeric` | numeric.dfy | `int(x)` (truncation) and `round(x)` (half to even) on reals |
| `Schema` | schema.dfy | the tables, their constraints, cascading deletes, and the database as the class `Store` |
| `Ledger` | ledger.dfy | `event_edit` (add, save lateness, set duration) and the `h:mm` export column |
| `Certificates` | certificates.dfy | the three certificate views |
| `Purge` | purge.dfy | the `purge_events` command |
| `JuneRules`, `JuneImport` | june_rules.dfy, june_import.dfy | `import_june_2025.py` |
| `ScannerImport` | scanner_import.dfy | `import_scanners.py` |
| `TeamLeaderNames`, `TeamLeaderImport` | teamleader_names.dfy, teamleader_import.dfy | `import_teamleaders.py` |
| `ExcelImport` | excel_import.dfy | `import_excel` |

The database is the class `Schema.Store`, with one `seq` field per table.
`Snapshot()` reads all the tables as one `Tables` value. Each operation
that changes rows is a method with a `modifies` clause. Its `ensures` ties
the new snapshot, and what it returns, to a specification function of the
old snapshot: `AddSpec`, `SaveSpec`, `SetSpec`, `IssueOneSpec`, `PurgeSpec`,
`RunRows` and so on. Loops become `while` or `for` loops with invariants
over those functions. The properties are lemmas about the specification
functions.

Modelling choices:
- Dates are day numbers counted from 1970-01-01.
- Hours are `real`. Lateness is `nat`.
- A participation is identified by its (event, scanner) pair, because the
  uniqueness constraint makes that pair unique.
- Things that are outside the code are parameters:
  - the date and number parsers, and the certificate renderer
    (`Certificate -> bool`: whether rendering raised);
  - Telegram delivery per chat id, and whether `send_mail` raises;
  - today's date;
  - the workbook contents.

The source files come from different generations of the schema. The
views say `Volunteer` while the models say `Scanner`. The purge command
reads `created_by`, `PurgeSettings`, `TeamLeader` and `NotificationLog`,
none of which are in `core/models.py`. The model has one schema for all
of them: an event's creator is its `leader`.

Where the design description and the code disagree, the model follows the
code:
- Certificate issuance does not refuse a row that already has zero hours.
- The single and scanner certificates are rendered first and the rows are
  reset afterwards.
- The event batch is not atomic: a render failure at row k leaves the
  earlier rows of the event reset.
- The duration rule is always `max(duration − late/60, 0)`. There is no
  leader bonus and no alternative rule.
- When a creator's Telegram message fails and the e-mail fallback
  succeeds, only the e-mail delivery is logged. Nothing is logged for a
  failed channel.

The imports follow the code as written, including the three defects listed
under "## Findings" that concern them. The intended behaviour is proved
beside each of them.

## Model

| member | source | states |
|---|---|---|
| Schema.Store.constructor | core/models.py:6-32 | an empty database, which satisfies every table constraint |
| Schema.AtMostOneRowPerPair | core/models.py:31-32 | the `unique_together` constraint means no two participation rows share an (event, scanner) pair |
| Schema.AddParticipantConsistent | core/models.py:24-32 | appending a participation whose pair is new, and whose event and scanner exist, keeps every constraint |
| Schema.ParticipantsRewritten | core/models.py:27-32 | rewriting the non-key columns of participations (lateness, hours) keeps every constraint |
| Schema.EventsRewritten | core/models.py:14-19 | rewriting event rows without changing their identifier or leader keeps every constraint |
| Schema.DeleteEventsConsistent | core/models.py:25 | deleting events cascades: exactly the participations of the deleted events go, the rest stay, and the database stays consistent |
| Schema.DeleteScannerConsistent | core/models.py:26 | deleting a scanner removes exactly that scanner's participations and keeps the database consistent |
| Schema.DeleteUserConsistent | core/models.py:18 | deleting a user keeps the database consistent: the user row goes; exactly the events they lead go and the events of other leaders stay; exactly the participations of their events go and all others stay; scanners are untouched |
| Schema.EventsLedByExact | core/models.py:18 | with distinct event ids, an event is among those the cascade deletes exactly when the user leads it |
| Schema.TeamLeaders | core/models.py:38-41 | the team leaders are exactly the users in the group 'Тимлидеры' |
| Schema.IndexOfPair | core/views.py:115 | the position of the (event, scanner) row; -1 exactly when the pair has no row |
| Numeric.Trunc | core/views.py:176 | `int(h)` truncates toward zero: for h ≥ 0 it is the whole part, for h < 0 the result is ≤ 0 and less than 1 above h |
| Numeric.RoundHalfEven | tiketon/core/views.py:289 | `round(x)` is within 0.5 of x, and is even when x is exactly halfway between two integers |
| Numeric.RoundHalfEvenUnique | tiketon/core/views.py:289 | any integer with those two properties is `round(x)`, so the definition is the only one that fits |
| Numeric.RoundHalfEvenShift | core/views.py:177 | shifting x by an even integer shifts `round(x)` by the same amount |
| Ledger.AddSpecFacts | core/views.py:113-117 | adding creates exactly one fresh row (not late, no hours) when a scanner id not yet on the event is given; an absent or empty id, or a pair already present, changes nothing; the request fails exactly when the id is text `int` rejects or a number that is no scanner's id, and redirects otherwise; the database stays consistent |
| Ledger.AddVolunteer | core/views.py:113-117 | the `add_volunteer` branch changes the tables as `AddSpec` says |
| Ledger.FirstRejected | core/views.py:119-124 | the first row of the event whose minutes are rejected (a ticked box whose minutes field is empty or text `int(...)` rejects, or a negative value), with every earlier row of the event accepted |
| Ledger.SaveSpecFacts | core/views.py:118-124 | after a save that goes through, every row of the event holds its late box and its minutes (the submitted ones, 0 without the box or without a minutes field); after a failed save, it failed at a rejected row of the event, the event's rows before it are saved and the rows from it on are untouched |
| Ledger.SaveSpecFrame | core/views.py:118-124 | a save keeps the database consistent, changes no keys and no hours, and leaves the rows of other events as they were |
| Ledger.LateValueRejects | core/views.py:120-121 | a row's minutes are rejected exactly when its box is ticked and its minutes field came empty, as text `int` rejects, or as a negative number |
| Ledger.SaveFailsExactly | core/views.py:118-124 | the save fails exactly when some row of the event has rejected minutes, so a ticked box with an empty minutes field fails it |
| Ledger.SaveParticipants | core/views.py:118-124 | the row loop saves rows one at a time, as `SaveSpec` says |
| Ledger.LateHours | core/views.py:131-132 | missing lateness counts as none, and lateness in hours is never negative |
| Ledger.AwardedHours | core/views.py:130-134 | `max(d − late/60, 0)` lies in [0, d] when d ≥ 0 and equals `max(d, 0)` without lateness |
| Ledger.AwardedHoursAntitone | core/views.py:130-134 | being later never earns more hours |
| Ledger.SetSpecFacts | core/views.py:125-135 | setting the duration stores it on the event and gives each of its participants `max(d − late/60, 0)`; other events' rows, lateness and keys are unchanged |
| Ledger.SetDuration | core/views.py:125-128 | the `set_duration` branch changes the tables as `SetSpec` says; a duration `float` rejects raises |
| Ledger.RecomputeHours | core/views.py:129-135 | the participant loop leaves exactly the recomputed rows |
| Ledger.SaveConfined | core/views.py:118-124 | saving lateness keeps the database consistent and the participations of other events |
| Ledger.SetConfined | core/views.py:125-135 | setting the duration keeps the database consistent and the participations of other events |
| Ledger.EditSpecFacts | core/views.py:108-136 | every request to the event page keeps the database consistent and touches only that event's row and its participations |
| Ledger.EditEvent | core/views.py:108-141 | one request: a missing event raises; a POST either adds a volunteer, or saves lateness and then sets the duration unless the save raised |
| Ledger.ExportedHoursMinutes | core/views.py:176-178 | as written, hours and minutes for h ≥ 0 total the rounded minutes of h, but the minutes can reach 60 |
| Ledger.ExportShowsSixtyMinutes | core/views.py:176-178 | 1.995 hours is exported as "1:60" |
| Ledger.CarriedHoursMinutes | core/views.py:176-178 | the carried split: the same total of rounded minutes, with minutes in 0..59 |
| Ledger.CarriedAgreesWithExport | core/views.py:176-178 | the carried split equals the exported one when its minutes are below 60, and turns "H:60" into "H+1:00" |
| Certificates.NormalizeFormat | tiketon/core/views.py:276-279 | the format is PNG exactly when "png" was asked for; anything else, a missing value included, is PDF |
| Certificates.CertFor | tiketon/core/views.py:286-294 | a participation's certificate carries `round(hours)` of that row and the chosen format |
| Certificates.IssueOneFacts | tiketon/core/views.py:281-320 | an unknown participation is refused with nothing changed; for an existing row, issuance succeeds exactly when its certificate renders and is refused with a render error exactly when it does not, changing nothing; on success the one certificate shows `round(hours)` of that row, and only that row is reset to 0 |
| Certificates.IssueForParticipation | tiketon/core/views.py:271-320 | single issuance changes the tables as `IssueOneSpec` says |
| Certificates.EventRowsBefore | tiketon/core/views.py:334 | the rows selected are rows of the event, and there are exactly as many as there are positions of the event below the bound |
| Certificates.EventRowsBeforeInOrder | tiketon/core/views.py:334 | the selection is the rows of the event in table order: a smaller bound selects a prefix, each row of the event sits right after the event's earlier rows, so every row of the event is selected |
| Certificates.BatchCertsMatchRows | tiketon/core/views.py:340-362 | the batch holds one certificate per row of the event, in order, each with `round` of that row's hours |
| Certificates.FirstRenderFailure | tiketon/core/views.py:340-366 | the first row of the event whose render raises; every earlier row of the event renders |
| Certificates.ZeroedEventRowsAt | tiketon/core/views.py:365-366 | after the loop has passed position b, each row of the event before b is at 0 hours and every other row is unchanged |
| Certificates.ZeroedBefore | tiketon/core/views.py:365-366 | rows of the event before b are at 0 hours, and the rows from b on are untouched |
| Certificates.ZeroedAll | tiketon/core/views.py:365-366 | once every row has been passed, every row of the event is reset |
| Certificates.IssueEventConsistent | tiketon/core/views.py:333-366 | the batch keeps the database consistent, changes only hours, and never touches other events' rows |
| Certificates.IssueEventOutcome | tiketon/core/views.py:340-383 | the batch fails exactly when the render of some row of the event raises; success returns the batch of certificates, one per row of the event in order with `round(hours)`, and resets every row of the event; failure is an error at the first row whose render raised: every earlier row of the event rendered and is reset, and the rows from it on are untouched |
| Certificates.IssuedOutcome | tiketon/core/views.py:340-370 | the success half: the batch of certificates, one per row of the event in order with `round(hours)`, and every row of the event reset |
| Certificates.RefusedOutcome | tiketon/core/views.py:356-383 | the failure half: the error comes from a row of the event whose render raised, every earlier row of the event rendered and stays reset with no rollback, and the rows from that one on are untouched |
| Certificates.IssueEventFailsExactly | tiketon/core/views.py:356-383 | the batch is refused exactly when the render of some row of the event raises |
| Certificates.IssueForEvent | tiketon/core/views.py:323-383 | batch issuance changes the tables as `IssueEventSpec` says |
| Certificates.IssueEventRows | tiketon/core/views.py:340-366 | the row loop resets rows up to the first render failure and returns the batch or the error |
| Certificates.ScannerRows | tiketon/core/views.py:399 | the rows selected are rows of that scanner, and there are exactly as many as there are positions of that scanner |
| Certificates.ScannerRowsInOrder | tiketon/core/views.py:399 | the selection is the scanner's rows in table order: the first rows select a prefix, each row of the scanner sits right after the scanner's earlier rows, so every participation is selected |
| Certificates.ItemsOf | tiketon/core/views.py:422-428 | one list entry per participation, carrying its hours before the reset |
| Certificates.MinDate | tiketon/core/views.py:411-415 | the earliest listed date: on the list and not after any entry |
| Certificates.MaxDate | tiketon/core/views.py:411-416 | the latest listed date: on the list and not before any entry |
| Certificates.PeriodCertFacts | tiketon/core/views.py:405-434 | the scanner certificate shows `round` of the listed hours' sum; the period runs from the earliest to the latest event date; there is one entry per participation with its hours |
| Certificates.IssueScannerConsistent | tiketon/core/views.py:396-451 | scanner issuance changes only hours and keeps the database consistent; a refusal changes nothing |
| Certificates.IssueScannerOutcome | tiketon/core/views.py:396-451 | an unknown scanner and a scanner without participations are refused; otherwise issuance succeeds exactly when the period certificate renders, and is refused with a render error exactly when it does not; success gives the period certificate and resets exactly that scanner's rows |
| Certificates.SumOfZeros | tiketon/core/views.py:405-408 | a list whose hours are all 0 sums to 0 |
| Certificates.ZeroedScannerItems | tiketon/core/views.py:422-451 | after the reset the scanner's list has the same events and dates, each with 0 hours |
| Certificates.ReissueCertifiesNothing | tiketon/core/views.py:405-451 | issuing again right after a scanner certificate shows 0 hours over the same period |
| Certificates.ZeroedScannerRowsOf | tiketon/core/views.py:449-451 | resetting a scanner's rows resets each listed row, one for one |
| Certificates.SameDatesSameRange | tiketon/core/views.py:411-416 | lists with the same dates have the same period |
| Certificates.IssueForScanner | tiketon/core/views.py:386-463 | scanner issuance changes the tables as `IssueScannerSpec` says |
| Purge.ExpiredEventsMember | core/management/commands/purge_events.py:53-59 | the delete set is exactly the events dated before today − 365 |
| Purge.WarnedEventsMember | core/management/commands/purge_events.py:56-66 | the warning set is exactly the events dated in [today − 365, today − 365 + N] |
| Purge.WindowsDisjoint | core/management/commands/purge_events.py:59-66 | no event is both deleted and warned about |
| Purge.WarnedExpiresWithinHorizon | core/management/commands/purge_events.py:53-66 | a warned event survives today's run and is expired by the run N + 1 days later |
| Purge.GroupIndex | core/management/commands/purge_events.py:75 | the dictionary entry of a creator; -1 exactly when there is none |
| Purge.CreatedByMember | core/management/commands/purge_events.py:72-97 | the reference list of a creator's events holds exactly their events |
| Purge.GroupByCreator | core/management/commands/purge_events.py:72-97 | the grouping loop builds the dictionary `Grouped` describes |
| Purge.FileFacts | core/management/commands/purge_events.py:75-97 | filing an event appends it to its creator's entry, or opens a new entry at the end; no other entry changes |
| Purge.GroupedLeaders | core/management/commands/purge_events.py:72-97 | there is one entry per creator, and every warned event's creator has one |
| Purge.GroupedLists | core/management/commands/purge_events.py:72-97 | each entry lists exactly its creator's warned events, in table order |
| Purge.EventInCreatorsList | core/management/commands/purge_events.py:93-97 | every warned event is in its creator's list |
| Purge.ListsHoldOwnEvents | core/management/commands/purge_events.py:93-97 | a creator's list holds only warned events of that creator |
| Purge.FirstNamed | core/management/commands/purge_events.py:84-87 | the first team-leader record with the creator's exact first and last name; none when no record has it |
| Purge.FindUser | core/management/commands/purge_events.py:77-78 | the creator's user row, found by identifier |
| Purge.AnyDelivered | core/utils.py:31-44 | true exactly when some non-empty chat id received the message |
| Purge.SendTelegramMeaning | core/utils.py:20-44 | `send_telegram_message` is true exactly when a token is set and some non-empty id of the list (the settings' list when empty) received the message |
| Purge.DispatchFacts | core/management/commands/purge_events.py:117-182 | at most one log row per creator: a Telegram row exactly when the Telegram send succeeded; an e-mail row exactly when it did not and the creator's e-mail was sent without raising |
| Purge.TelegramLogsMember | core/management/commands/purge_events.py:205-212 | one Telegram row per non-empty admin chat id |
| Purge.EmailLogsShape | core/management/commands/purge_events.py:231-237 | one e-mail row per admin address, in order |
| Purge.AdminFacts | core/management/commands/purge_events.py:196-241 | no admin notice without admin chat ids; a Telegram success logs one row per non-empty id; a failure with admin e-mails that were sent logs one row per address |
| Purge.WarnCreator | core/management/commands/purge_events.py:100-182 | warning one creator appends exactly that creator's log rows |
| Purge.WarnCreators | core/management/commands/purge_events.py:100-182 | the loop over the creators appends each creator's rows, in dictionary order |
| Purge.LogTelegramRows | core/management/commands/purge_events.py:205-212 | the admin Telegram loop appends one row per non-empty id |
| Purge.LogEmailRows | core/management/commands/purge_events.py:231-237 | the admin e-mail loop appends one row per address |
| Purge.NotifyAdmins | core/management/commands/purge_events.py:196-243 | the admin notice appends exactly `AdminLogs` |
| Purge.SendWarnings | core/management/commands/purge_events.py:62-186 | the warning stage changes only the log, as `WarningStage` says |
| Purge.DeleteExpired | core/management/commands/purge_events.py:195-247 | the deletion stage logs the admin notice and deletes the expired events with their participations, keeping the database consistent |
| Purge.Purge | core/management/commands/purge_events.py:29-251 | one run changes the tables as `PurgeSpec` says and keeps the database consistent |
| Purge.QuietRuns | core/management/commands/purge_events.py:34-193 | a switched-off run without flags changes nothing, and neither does a dry run |
| Purge.PurgeFrame | core/management/commands/purge_events.py:117-246 | a run only appends rows to the log, none of them marked as a test, and never touches users, scanners or team-leader records; in notify-only mode no event or participation is deleted |
| Purge.PurgeConsistent | core/management/commands/purge_events.py:29-251 | every run keeps the database consistent |
| Purge.NormalRunDeletesExpired | core/management/commands/purge_events.py:189-246 | a normal run of an active purge removes exactly the expired events and exactly their participations, whatever the notifications did |
| JuneRules.CutLength | import_june_2025.py:34 | the length of the phone match at the start of the text: 0 (none), 2, 10, 11 or 12 characters |
| JuneRules.RemovePhones | import_june_2025.py:34 | removing the phone numbers never makes the text longer |
| JuneRules.CutIsPhone | import_june_2025.py:23-34 | every piece that `extract_name` cuts out is a phone number for `has_phone_number` |
| JuneRules.NoPhoneUnchanged | import_june_2025.py:17-36 | text without a phone number passes through the substitution unchanged |
| JuneRules.ExtractNameWithoutPhone | import_june_2025.py:25-36 | for a non-empty cell without a phone number, `extract_name` is just `strip` |
| JuneRules.FirstMatching | import_june_2025.py:43-59 | the first leader, in list order, whose name a part matches; none exactly when no leader matches |
| JuneRules.ShortPartsNeverMatch | import_june_2025.py:52 | parts of one or two characters never match |
| JuneImport.EventMatches | import_june_2025.py:126-134 | the positions of exactly the events with that name, date and leader, in increasing order |
| JuneImport.ScannerMatches | import_june_2025.py:163-166 | the positions of exactly the scanners with that first and last name |
| JuneImport.ImportRow | import_june_2025.py:89-189 | one row changes the tables and the cursor as `RowStep` says, including stopping when a scanner get-or-create raises on the empty e-mail |
| JuneImport.StoppedStays | import_june_2025.py:208-211 | once a row raises, the rest of the sheet is not read |
| JuneImport.RefreshJuneHours | import_june_2025.py:193-205 | the closing pass recomputes the participants of the June 2025 events, event by event |
| JuneImport.ImportJune | import_june_2025.py:61-211 | the script changes the tables as `JuneSpec` says: a row that raises ends the script before the closing pass |
| JuneImport.NextLeaderFrom | import_june_2025.py:102-106 | after a column-A cell the current leader is unchanged, none, or one of the team leaders |
| JuneImport.EventGetOrCreateValues | import_june_2025.py:126-145 | a new event takes `int` of the scanners cell (0 if not numeric) and the hours cell (0.0 if not numeric), has a fresh identifier and is the only new row; a matching event keeps its identifier, only the numeric cells replace its count and duration, and every other row stays |
| JuneImport.EventGetOrCreateRaises | import_june_2025.py:126-145 | the event step raises exactly when two events have that name, date and leader, or the scanners cell is a number whose `int` is negative |
| JuneImport.EventGetOrCreateUnique | import_june_2025.py:126-134 | when the event get-or-create succeeds, exactly one event has that name, date and leader, and the cursor points at it |
| JuneImport.ScannerGetOrCreateUnique | import_june_2025.py:163-166 | when the scanner get-or-create succeeds, exactly one scanner has that name; the scanner list is unchanged or grew by that one scanner, with the empty e-mail |
| JuneImport.ScannerGetOrCreateRaises | import_june_2025.py:163-166 | the get-or-create raises exactly when two scanners have that name, or when none has it and a scanner already holds the empty e-mail that the unique column allows once |
| JuneImport.EnrolKeys | import_june_2025.py:172-175 | enrolling keeps one row per pair and adds exactly the (event, scanner) pair |
| JuneImport.EnrolRows | import_june_2025.py:172-188 | rows of other pairs are kept; with a non-zero duration the enrolled row gets `max(duration − late/60, 0)` |
| JuneImport.EventGetOrCreateConsistent | import_june_2025.py:126-145 | the event get-or-create keeps the database consistent |
| JuneImport.ScannerGetOrCreateConsistent | import_june_2025.py:163-166 | the scanner get-or-create keeps the database consistent |
| JuneImport.ScannerRowConsistent | import_june_2025.py:150-188 | a scanner row keeps the database consistent and leaves events and users alone |
| JuneImport.RowStepConsistent | import_june_2025.py:89-189 | a row keeps the database consistent and the cursor valid; a row that raises changes nothing |
| JuneImport.RunRowsConsistent | import_june_2025.py:89-189 | the row loop keeps the database consistent |
| JuneImport.JuneHoursKeys | import_june_2025.py:193-205 | the closing pass changes no keys |
| JuneImport.JuneSpecConsistent | import_june_2025.py:61-211 | the whole script keeps the database consistent |
| JuneImport.JuneHoursFacts | import_june_2025.py:193-205 | after the closing pass, a participant of a June 2025 event with a non-zero duration holds `max(duration − late/60, 0)`; every other participant is unchanged |
| ScannerImport.NamePartsWords | import_scanners.py:40-44 | a name has parts exactly when it has at least two words; the first name is the first word |
| ScannerImport.ImportOne | import_scanners.py:34-64 | one entry changes the scanners and counters as `Step` says, with created scanners taking the empty e-mail |
| ScannerImport.AddScanner | import_scanners.py:47-61 | a known name, ignoring case, is skipped; otherwise a scanner with the empty e-mail is created and counted, or the creation raises because that e-mail is taken |
| ScannerImport.ImportScanners | import_scanners.py:13-71 | the script changes the scanners and returns the counts and whether it raised, as `ImportSpec` says; fewer than two columns change nothing; an exception ends the loop and keeps the scanners created before it |
| ScannerImport.RaisedStays | import_scanners.py:34-71 | once an entry has raised, the later entries are not read |
| ScannerImport.StepShape | import_scanners.py:34-64 | one entry raises exactly when it is a new name of two or more words whose e-mail is taken, and then changes nothing; otherwise it counts itself once unless blank, and an addition appends one scanner with a fresh id, a free e-mail, and a name no earlier scanner has, ignoring case |
| ScannerImport.RunCounts | import_scanners.py:34-64 | added + skipped is at most the number of non-blank text entries, and equal to it when nothing raised; existing scanners stay; one scanner is appended per addition |
| ScannerImport.CoveredGrows | import_scanners.py:47-49 | a name that matches a scanner still matches once more scanners are appended |
| ScannerImport.StepCovers | import_scanners.py:42-61 | after an entry that does not raise, a name of two or more words belongs to some scanner, ignoring case |
| ScannerImport.RunCoversNames | import_scanners.py:34-64 | after a run that did not raise, every name of two or more words in the sheet belongs to some scanner, ignoring case |
| ScannerImport.CoversStep | import_scanners.py:34-64 | one more entry that does not raise keeps the earlier names covered and covers its own |
| ScannerImport.NoCaseDuplicatesCreated | import_scanners.py:34-64 | no created scanner shares its name, ignoring case, with an earlier scanner, old or new |
| ScannerImport.StepNoNamesakes | import_scanners.py:47-61 | one entry creates no case-insensitive namesake |
| ScannerImport.AppendNoNamesakes | import_scanners.py:56-59 | appending a scanner whose name no earlier one has keeps the created scanners free of namesakes |
| ScannerImport.RunKeepsKeys | import_scanners.py:56-59 | identifiers stay unique and existing ones stay; e-mails stay unique, because a creation whose e-mail is taken raises instead |
| ScannerImport.ImportConsistent | import_scanners.py:13-64 | the import keeps the database consistent |
| ScannerImport.SecondCreationRaises | import_scanners.py:56-59 | as written, of two entries with new names the second one raises, unless the first one already did, so the import never creates two scanners |
| ScannerImport.CreatedTakesEmptyEmail | import_scanners.py:56-59 | as written, a scanner created from a name holds the empty e-mail afterwards |
| ScannerImport.NeverRaisesWithoutEmail | import_scanners.py:34-64 | with created scanners given no e-mail, the import never raises |
| ScannerImport.WithoutEmailEveryNameCovered | import_scanners.py:34-64 | with created scanners given no e-mail, every name of two or more words in the sheet ends up belonging to some scanner, ignoring case |
| TeamLeaderNames.BeforeAt | import_teamleaders.py:21 | the text before the first '@': a prefix without '@', followed by '@' when shorter than the e-mail |
| TeamLeaderNames.TriedBound | import_teamleaders.py:28-30 | while the numbered usernames below k are all taken, k − 1 is at most the number of taken names, so the loop ends |
| TeamLeaderNames.LeastFreeSuffix | import_teamleaders.py:28-30 | the least k at or above the start whose numbered username is free |
| TeamLeaderNames.UsernameForFacts | import_teamleaders.py:21-30 | the username is free: the base when it is free, otherwise base+k with every base+j for 1 ≤ j < k taken |
| TeamLeaderNames.LeastFreeUnique | import_teamleaders.py:26-30 | any free base+k with all lower suffixes taken is the chosen username |
| TeamLeaderNames.FreshUsername | import_teamleaders.py:21-30 | the counter loop returns the username `UsernameFor` defines |
| TeamLeaderNames.LastAt | import_teamleaders.py:33-39 | the last '@' of the address, with no '@' after it; -1 exactly when the address has none |
| TeamLeaderNames.NormalizeOf | import_teamleaders.py:33-39 | an address that strips to local@domain, the domain without '@', is stored as the local part, '@' and the lower-cased domain |
| TeamLeaderNames.NormalizeEmailFacts | import_teamleaders.py:33-39 | the e-mail `create_user` stores: the address as given when its stripped form has no '@'; otherwise the stripped address with its domain lower-cased, which keeps the local part, equals the stripped address ignoring case, and is unchanged by normalising again |
| TeamLeaderNames.TransliterateText | import_teamleaders.py:80-84 | the character loop returns the lower-cased text mapped through the table and then capitalised |
| TeamLeaderNames.TranslitOutput | import_teamleaders.py:70-83 | a table character becomes lower-case Latin letters; any other character is kept |
| TeamLeaderNames.NoMappedCharLeft | import_teamleaders.py:81-83 | no table character is left after the mapping |
| TeamLeaderNames.MapCharsLatin | import_teamleaders.py:81-83 | lower-case Latin text passes through the mapping unchanged |
| TeamLeaderNames.TransliterateLatin | import_teamleaders.py:80-84 | a name already in Latin letters is only capitalised |
| TeamLeaderImport.CreateTeamLeader | import_teamleaders.py:12-53 | `create_team_leader` changes the users as `CreateSpec` says: nothing when the e-mail as given is held or the username would be empty (the ValueError of `create_user`, caught and reported as False); otherwise one account with the normalised e-mail |
| TeamLeaderImport.EmptyUsername | import_teamleaders.py:21-39 | the chosen username is empty exactly when the e-mail has nothing before its '@' and no user has the empty username |
| TeamLeaderImport.CreateFacts | import_teamleaders.py:12-53 | an account is created exactly when no user has the e-mail as given and the e-mail has text before '@' or the empty username is taken; otherwise the users stay as they were; a created account is a team leader with the entry's names, the normalised e-mail and a new non-empty username starting with the text before '@'; identifiers and usernames stay unique |
| TeamLeaderImport.CreatedWhenFree | import_teamleaders.py:12-49 | an e-mail nobody holds, with text before its '@', gets the team-leader account |
| TeamLeaderImport.SecondAccountForSameEmail | import_teamleaders.py:15-39 | as written: an e-mail that normalisation changes is not found again, so a second import creates a second account with the same stored e-mail and another username |
| TeamLeaderImport.CapitalDomainRewritten | import_teamleaders.py:33-39 | "a@B" is stored as "a@b" |
| TeamLeaderImport.CreateIntendedOnce | import_teamleaders.py:14-18 | corrected: with the lookup on the stored e-mail, a second import of the same e-mail, under any names, creates no account |
| TeamLeaderImport.LeastIdNamed | import_teamleaders.py:61-92 | `.first()` of the case-insensitive name query: the matching scanner with the least id; none exactly when no scanner matches |
| TeamLeaderImport.CheckScannerExists | import_teamleaders.py:55-94 | the lookup returns what `ScannerLookup` defines |
| TeamLeaderImport.ScannerLookupFacts | import_teamleaders.py:55-94 | a direct match, ignoring case, wins; otherwise a match on the transliterated names; none exactly when neither exists |
| TeamLeaderImport.FirstLeaderNamed | import_teamleaders.py:143-145 | the first team-leader record with the name, ignoring case; -1 exactly when none has it |
| TeamLeaderImport.LinkLeader | import_teamleaders.py:143-170 | the record update as `LeadersAfter` says, and whether a record was appended |
| TeamLeaderImport.ApplyEntry | import_teamleaders.py:137-175 | an entry with an e-mail changes the tables and counters as `EntryWith` says |
| TeamLeaderImport.ImportEntry | import_teamleaders.py:130-175 | one entry changes the tables and counters as `EntryStep` says |
| TeamLeaderImport.ImportTeamLeaders | import_teamleaders.py:96-180 | the loop returns the counters and leaves the tables `Run` defines |
| TeamLeaderImport.LeadersAfterFacts | import_teamleaders.py:143-170 | one record is added exactly when none had the name; then it holds the entry's names and e-mail, no Telegram id and the found scanner's id; otherwise only the first record with the name may change, and only its link: it keeps a link it has and otherwise takes the found scanner's id, staying as it was when none was found; links stay valid |
| TeamLeaderImport.StepFacts | import_teamleaders.py:130-175 | a blank e-mail changes nothing but the skipped count; any entry changes only users and team-leader records, with at most one of added or skipped; records only grow or gain a missing link; users only grow; the entry is settled |
| TeamLeaderImport.StepCounts | import_teamleaders.py:137-170 | for an entry with an e-mail: skipped stays, the found count grows exactly when a scanner was found, and added grows exactly when no record had the name |
| TeamLeaderImport.EntryWithFacts | import_teamleaders.py:137-175 | an entry with an e-mail changes only users and team-leader records, appends at most one record, only fills missing links, keeps the old users and settles the entry |
| TeamLeaderImport.RunFacts | import_teamleaders.py:126-175 | skipped is the number of blank e-mails; added + skipped and found + skipped are at most the number of entries; one record is appended per addition |
| TeamLeaderImport.RunSettlesEntries | import_teamleaders.py:130-175 | after the loop every entry with an e-mail has a team-leader record with its name and, when its e-mail has text before '@', an account with that e-mail as given or as stored |
| TeamLeaderImport.StepKeepsKeys | import_teamleaders.py:130-175 | an entry keeps the database consistent, usernames unique and scanner links valid |
| TeamLeaderImport.RunKeepsKeys | import_teamleaders.py:130-175 | the whole loop keeps the database consistent, usernames unique and scanner links valid |
| ExcelImport.Pad4 | core/views.py:210 | the year of a date-time's text is a non-empty digit string |
| ExcelImport.FirstFiveTruthy | core/views.py:203 | `all(row[i] for i in range(5))`: true exactly when the row has five truthy leading cells; it raises exactly when the row ends early after only truthy cells |
| ExcelImport.SplitNameWords | core/views.py:225-256 | a name splits exactly when it has a word, and first name plus rest split back into the name's words |
| ExcelImport.UserMatches | core/views.py:230 | the positions of exactly the users with that e-mail |
| ExcelImport.IndexOfEmail | core/views.py:258 | the position of the scanner with that e-mail; -1 exactly when none has it |
| ExcelImport.OpenEvent | core/views.py:225-250 | opening an event changes only users and events; the new cursor holds the event and the row's hours, and the count is unchanged |
| ExcelImport.ImportEventRow | core/views.py:203-250 | an event row changes the tables as `EventRowStep` says, with the date read from the cell's text cut at its first '-' |
| ExcelImport.OpenEventIn | core/views.py:225-250 | the leader and event get-or-create change the tables as `OpenEvent` says |
| ExcelImport.ImportNameRow | core/views.py:252-263 | a participant row changes the tables as `NameRowStep` says |
| ExcelImport.ImportRow | core/views.py:202-263 | one row changes the tables as `RowStep` says |
| ExcelImport.StoppedStays | core/views.py:201-263 | once a row raises, the rest of the rows are not read |
| ExcelImport.ImportRows | core/views.py:198-263 | the row loop of one sheet changes the tables as `RunRows` says |
| ExcelImport.EndedStays | core/views.py:194-263 | once a sheet raises, later sheets are not read |
| ExcelImport.ImportExcel | core/views.py:187-266 | the view changes the tables as `ImportSpec` says and reports the participations it added |
| ExcelImport.EventRowIsNoNameRow | core/views.py:203-252 | an event row is never a participant row |
| ExcelImport.RunRowsAppend | core/views.py:201-263 | reading rows xs then ys is reading xs + ys |
| ExcelImport.NoEventIgnoresRows | core/views.py:252 | without a current event, rows that are not event rows change nothing |
| ExcelImport.FailedParseSkipsNames | core/views.py:211-252 | after an event row whose date or numbers fail to parse, the following participant rows are ignored |
| ExcelImport.EventRowKeepsParticipants | core/views.py:203-250 | an event row adds no participation and does not change the count |
| ExcelImport.EventRowCases | core/views.py:210-250 | an event row with a date, numbers and a name opens the event; otherwise the tables stay as they were and the current event is cleared |
| ExcelImport.NameRowCounts | core/views.py:252-263 | a participant row adds as many participations as it adds to the count, and leaves the other rows in place |
| ExcelImport.EnrolCounts | core/views.py:258-263 | enrolling a name adds as many participations as it adds to the count |
| ExcelImport.RowStepCounts | core/views.py:202-263 | a row adds as many participations as it adds to the count |
| ExcelImport.RunRowsCounts | core/views.py:201-263 | a sheet adds as many participations as it adds to the count |
| ExcelImport.ImportCounts | core/views.py:192-263 | the reported participation count is exactly the number of participations added, and earlier rows stay |
| ExcelImport.SkippedSheetsIgnored | core/views.py:194-196 | the scanner-list sheet, in any case, contributes nothing |
| ExcelImport.UpperCaseListSkipped | core/views.py:195 | a sheet named 'СПИСОК СКАНЕРОВ' is skipped too |
| ExcelImport.LeaderFacts | core/views.py:229-237 | after the leader get-or-create the leader has the synthetic e-mail and is in the team-leader group; other users at most gain that group |
| ExcelImport.EventFacts | core/views.py:239-247 | after the event get-or-create an event with that name, date and leader exists and identifiers stay unique |
| ExcelImport.EventGetOrCreateValues | core/views.py:239-247 | a new event takes the row's count and hours, has a fresh identifier and is the only new row; a matching event is returned unchanged and the events stay as they were |
| ExcelImport.EventGetOrCreateRaises | core/views.py:239-247 | the event get-or-create raises exactly when two events match, or none matches and the count is negative |
| ExcelImport.VolunteerFacts | core/views.py:258-260 | after the volunteer lookup a scanner with the e-mail exists; nothing is created when one had it; ids and e-mails stay unique |
| ExcelImport.EventRowConsistent | core/views.py:203-250 | an event row keeps the database consistent and the cursor valid |
| ExcelImport.OpenEventConsistent | core/views.py:225-250 | opening an event keeps the database consistent and points the cursor at an existing event |
| ExcelImport.NameRowConsistent | core/views.py:252-263 | a participant row keeps the database consistent and the events unchanged |
| ExcelImport.EnrolConsistent | core/views.py:258-263 | enrolling keeps the database consistent and the events unchanged |
| ExcelImport.RowStepConsistent | core/views.py:202-263 | a row keeps the database consistent and the cursor valid |
| ExcelImport.RunRowsConsistent | core/views.py:201-263 | a sheet keeps the database consistent |
| ExcelImport.ImportConsistent | core/views.py:187-266 | the whole import keeps the database consistent |
| ExcelImport.EnrolEnrols | core/views.py:254-263 | a participant row enrols the scanner with the synthetic e-mail in the current event, and adds exactly that pair |
| ExcelImport.SameNameTwice | core/views.py:254-263 | a second row with the same name, ignoring case, changes nothing and counts nothing |
| ExcelImport.EnrolAgain | core/views.py:257-263 | enrolling a name with the same synthetic e-mail again is a no-op |
| ExcelImport.DateTimeTextIsYear | core/views.py:210 | as written, the text parsed for a date-time cell is its year alone |
| ExcelImport.YearBeforeDash | core/views.py:210 | a date-time's text has a '-', and the year comes before the first one |
| ExcelImport.Year2025ReadsAsYear | core/views.py:210 | every 2025 date-time cell is parsed from the text "2025" |
| ExcelImport.AsWrittenDatesCollapse | core/views.py:210-213 | as written, any two date-time cells of the same year get the same date |
| ExcelImport.IntendedDatesDistinct | core/views.py:206-213 | with the intended reading, a date-time cell is its own date: days of a month stay apart |
| ExcelImport.JuneCellsInJune | core/views.py:206-213 | with the intended reading, a June 2025 date-time cell falls in June 2025 |

## Left out

- Workbook loading (openpyxl and pandas), HTTP handling, redirects, templates, login, sessions, pagination, `messages`, and the printed and logged texts are not modelled. The imports take the cells as values, and the views take the submitted fields as values.
- `dateparser.parse`, `datetime.strptime`, `float(...)` and `int(...)` on text are parameters (`string -> Option<...>`). Their parsing rules are not modelled.
- The certificate renderers (PDF and PNG: layout, fonts, file names, zip archive) are a parameter that either renders or raises. Only the values handed to it are modelled: the upper-cased name, hours, event name, date and leader, or the period and list.
- The Telegram bot, `asyncio`, and `send_mail` are parameters. A Telegram message is either delivered to a chat id or not. A mail either raises or is logged. The text of the warning and deletion messages is kept as structured data, not as a string.
- `timezone.now()` is the `today` parameter of the purge.
- Floating-point rounding error is not modelled. Hours are exact reals, and `round` is exact half-to-even on them.
- `%d.%m.%Y` formatting of dates is not modelled.
- Case mapping covers Latin, Cyrillic and the Kazakh letters. It is not Python's full Unicode case table.
- Text's `IsSpace` covers the common Unicode separators. It is not Python's complete `isspace`.
- `\d` in the June phone patterns is modelled as the ASCII digits. Python's `re` also accepts other Unicode digits.
- Passwords are not modelled: neither `make_random_password` nor the fixed temporary password of `create_team_leader`.
- `Group.objects.get_or_create` is not modelled; the team-leader group is assumed to exist.
- The `TeamLeaderProfile` row that `create_team_leader` creates is not modelled.
- Django's `normalize_username` (Unicode NFKC) is not applied to usernames; usernames are compared as plain text.
- `TeamLeader.save`, which creates a missing scanner, is not modelled. Its code is not part of this model.
- A team-leader record created by the import has an empty Telegram id.
- The `added` counters for volunteers, leaders and events in `import_excel` are never incremented by the code. Only the participants counter is modelled.
- `current_leader` in `import_excel` is assigned but never read, so it is not modelled.
- A boolean cell is not a separate kind of cell. A NaN number is not modelled.
- Column A of the June sheet is modelled as text. The code tests the raw cell's truth value, so a numeric cell holding 0 is skipped there but would be read here as the name "0".
- `export_all_events`, `events_list`, `volunteer_search`, `schedule_tasks.py`, `core/admin.py` and `core/urls.py` are not part of this model.
- The leader bonus and the alternative duration rule from the design description are not modelled, because the code does not have them.
- A failing database write, other than the ones the code's own checks predict, is not modelled. The modelled ones are: a `get_or_create` that finds several rows, an unknown foreign key, and a negative value in a non-negative column.
- Ledger.ExportedHoursMinutes: states the minutes bound and the total only for h ≥ 0. A negative duration can give negative hours, and the code makes no promise for them.

## Findings

| source | as written | input that shows it | evidently intended | confidence | as-written member | corrected member |
|---|---|---|---|---|---|---|
| core/views.py:176-178 | minutes are `round((h − int(h))·60)` without a carry into the hours | h = 1.995 gives "1:60" | "2:00": minutes in 0..59 with the carry | not executed | Ledger.ExportedHoursMinutes, Ledger.ExportShowsSixtyMinutes | Ledger.CarriedHoursMinutes, Ledger.CarriedAgreesWithExport |
| import_scanners.py:56-59 | a scanner created from a name gets the e-mail column's default, the empty text, and the column is unique (core/models.py:9) | an empty table and the entries "Ann Lee" and "Bob Ray": the second creation raises, and the import ends with one scanner | scanners created from a name alone have no e-mail, so every name gets a scanner | not executed | ScannerImport.SecondCreationRaises, ScannerImport.CreatedTakesEmptyEmail | ScannerImport.NeverRaisesWithoutEmail, ScannerImport.WithoutEmailEveryNameCovered |
| core/views.py:210 | the text of every date cell is cut at its first '-'; a date-time cell's text `YYYY-MM-DD 00:00:00` is cut to the year | two date-time cells 2025-06-01 and 2025-06-15 both reach the parser as "2025" and get the same date | a date-time cell is its own date; only text cells go through the parser | not executed | ExcelImport.EventDateAsWritten, ExcelImport.DateTimeTextIsYear, ExcelImport.AsWrittenDatesCollapse | ExcelImport.EventDate, ExcelImport.IntendedDatesDistinct, ExcelImport.JuneCellsInJune |
| import_teamleaders.py:15-39 | the existing-account check compares the e-mail as given, but `create_user` stores it normalised: stripped, with the domain lower-cased | importing an entry with "a@B" twice: the first run stores "a@b" under "a"; the second finds no "a@B" and creates "a1" with "a@b" again (no address in the list at lines 98-123 has a capital or a blank) | the check finds the account the script created, so a second run creates none | not executed | TeamLeaderImport.SecondAccountForSameEmail, TeamLeaderImport.CapitalDomainRewritten | TeamLeaderImport.CreateIntendedOnce |
