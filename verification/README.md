# A model of the USSD gateway and its portal

The gateway takes USSD legs from four mobile networks, keeps one row per live
session, forwards each leg to the handler a dialed short code leads to, and
logs every leg through an asynchronous writer.  The portal shows the logged
sessions to users who may each see some short codes from some moment on, bills
them, and manages its own accounts.  This project models the parts that keep
state or transform something, and proves what they promise for every input,
every run and every interleaving.  `dafny verify dfyconfig.toml` checks all of
it.

| file | what it models |
|---|---|
| `SessionCache.dfy`, `ExpiryConfig.dfy` | the live-session table, its statements, the claim of idle rows, the idle limits |
| `SessionSweeps.dfy`, `SweepRules.dfy` | gateway workers, sweepers and the backstop running together over that table; who may delete which row when |
| `Dialing.dfy`, `Routing.dfy` | normalising a dialed code, longest-prefix routing, the menu trail, the logged short code |
| `Adapters.dfy`, `Legs.dfy`, `WireLegs.dfy` | the four network adapters, the pipeline, runs of legs; every kind of leg from its wire fields |
| `Halotel.dfy`, `BrTags.dfy` | the outbound envelope and its textual rewrites; what counts as a br tag |
| `LogWriter.dfy` | the bounded queue, the batching writer thread, shutdown |
| `Sql.dfy`, `Acl.dfy`, `Reports.dfy` | generated SQL predicates with numbered parameters, evaluated in three-valued logic |
| `LocalDates.dfy`, `Scopes.dfy` | calendar days in Tanzania; who may read which short code since when |
| `Billing.dfy`, `BilledView.dfy`, `Csv.dfy` | billable units and totals; the bill of a filtered view, from its legs; CSV exports |
| `PortalAccounts.dfy`, `AccountRules.dfy`, `NoLockout.dfy`, `PortalSessions.dfy`, `PortalDb.dfy` | account transactions with row locks, who may change what, the no-lockout rule, session revocation |
| `ResetTokens.dfy`, `TokenRaces.dfy` | password-reset tokens, serial and concurrent |
| `Migrations.dfy` | the migration runner in any number of containers |
| `Text.dfy` | shared text functions |

Concurrency is modelled as state machines over the database statements: each
statement is one atomic step, row locks are explicit, reads are READ COMMITTED,
a step that would have to wait leaves the state as it is, and a run is any
sequence of steps.  Functions that change state in the source are methods (on
a class where the source keeps the state in a table or a queue), each proved
equal to a function of the old state or against the property itself; the
lemmas are about those functions.

## Where the code and its documentation part ways

The model follows the code.  Where a promise fails, a lemma says exactly when
it holds, and another gives an input at which it does not.

- Halotel's second rewrite also changes the text `xmlns:ns0=` inside a message,
  and an empty message is sent as `null` (`Halotel.MessageIsMappedExactly`,
  `Halotel.ChangedMessages`).
- An override named `default` replaces the default limit in the validated list,
  so the default itself goes unchecked (`ExpiryConfig.WindowsNonEmptyExactly`,
  `ExpiryConfig.DefaultCanGoUnchecked`).
- The limit reported to handlers lower-cases the operator's name, the claiming
  SQL does not (`ExpiryConfig.ReportedIsApplied`,
  `ExpiryConfig.UpperCaseNameDiffers`).
- The start of a hold is rounded to whole seconds, so a hand-over in the first
  half of a second shows the new owner that much of the previous owner's legs,
  one in the second half hides some of their own, and one that rounds to 0 or
  less is no limit at all (`Scopes.NothingBeforeHandOverExactly`,
  `Scopes.NothingOfTheirsHiddenExactly`, `Scopes.EarlierLegIsSeen`).
- A floor with a fraction of a second just after local midnight is taken for
  midnight (`LocalDates.CeilIsLeastExactly`, `LocalDates.FractionIsLost`); the floors a session carries are
  whole seconds, so its reports never meet this (`Scopes.DaysAndLegsAgree`).
- The billable summary joins `operators`, the session rows left-join it, so a
  session of an unregistered operator is billed in a row but not in the total
  (`Billing.TotalIsRowTotalExactly`, `Billing.UnregisteredIsDropped`).
- `dashboard/src/lib/reports.ts:161-162` calls the two session clauses the same
  on a view without leg filters, but only one of them pads the range: a session
  with a leg in the hour before or after it lasts longer, and may cost more,
  once a filter picks it (`BilledView.UnfilteredAgreesExactly`,
  `BilledView.EdgeLegIsBilledWhenFiltered`).
- The comment at `dashboard/src/lib/reports.ts:335` gives an older billing
  formula; the SQL is what is modelled.
- When the matched segments end in `#`, the remainder starts one character early
  and keeps the star; some dial meets this exactly when a registered code ends
  in two hashes (`Routing.CoreIsCodePlusRemainderExactly`,
  `Routing.EveryDialSplitsExactly`, `Routing.RemainderKeepsTheStar`).
- A derived short code that ends in two hashes loses one when derived again
  (`Routing.CanonicalIsFixedExactly`, `Routing.CanonicalCanLoseAHash`).
- A START on a live session is forwarded with the code dialed now while the row
  keeps the old one (`Legs.RedialDriftsExactly`, `Legs.RedialCanDrift`).
- A handler that answers later than its operator's idle limit can have its row
  claimed from under it (`SessionSweeps.LateLegCanBeClaimed`).
- When the shutdown sentinel opens a round, the writer still fills one batch
  from the rows behind it (`LogWriter.Writer.WriterLoop`).
- An account update that waits while another transaction changes the same
  user's role reports "user not found" (`NoLockout.RoleChangeHidesTheUser`).
- "Only the newest link works" holds while a user's issues do not overlap
  (`TokenRaces.OneLinkUnlessIssuesOverlap`); two that do leave two usable links,
  exactly when neither one's UPDATE started after the other's commit
  (`TokenRaces.BothUsableExactly`, `TokenRaces.OverlappingIssuesLeaveTwo`).

## Model

| member | source | states |
|---|---|---|
| SessionCache.SessionTable.GetActiveSession | app/db.py:252-268 | returns the row if the session is live, and nothing otherwise |
| SessionCache.SessionTable.UpsertActiveSession | app/db.py:271-296 | inserts, or refreshes trail and clock only: code, short-code id and subscriber of a live row never change, and no other row does |
| SessionCache.SessionTable.ExpireActiveSession | app/db.py:299-309 | deletes exactly this row, or nothing |
| SessionCache.SessionTable.ClaimExpiredSessions | app/db.py:327-389 | claims exactly the oldest min(limit, eligible) unlocked rows with idle limit < age <= max age, returns what they held and deletes no other; the smallest-limit prefilter changes nothing; a negative limit is an error |
| SessionCache.PickOldest | app/db.py:366-368 | ORDER BY last_seen_at LIMIT n: the right number, and none left that is older than one taken |
| SessionCache.WindowAndBackstopDisjointExactly | app/scheduler.py:98-121 | no claimable row is one the backstop may drop, exactly when the claim window ends within the hour or is empty for every operator |
| ExpiryConfig.IdleSecsByOperator | app/config.py:30-41 | reads every prefixed, non-blank variable; the last one for an operator wins whatever its case; a value that is no integer refuses to start |
| ExpiryConfig.LastSettingIsLast | app/config.py:36-40 | the setting that wins is the last one for the operator |
| ExpiryConfig.SetsALimitExactly | app/config.py:30-41 | an entry sets a limit exactly when it has the prefix, something behind it, and a value that is not blank; the operator is what is behind it, in lower case |
| ExpiryConfig.Validate | app/config.py:196-211 | accepts exactly the configurations whose listed limits all lie strictly between 0 and the maximum age |
| ExpiryConfig.WindowsNonEmptyExactly | app/config.py:196-211 | an accepted configuration gives every operator a non-empty claim window, unless an override is itself named "default" and hides a bad default |
| ExpiryConfig.DefaultCanGoUnchecked | app/config.py:202 | such a configuration exists |
| ExpiryConfig.ReportedIsApplied | app/config.py:191-194 | the limit reported and the limit the SQL applies agree exactly when lower-casing the name does not change what it finds |
| ExpiryConfig.UpperCaseNameDiffers | app/config.py:191-194 | an operator in upper case is told its own limit and swept at the default one |
| ExpiryConfig.MinIdle | app/db.py:387 | the prefilter uses the least of the limits |
| SessionSweeps.RowsAreConserved | app/db.py:271-309 | in every interleaving of legs, replies, terminal legs, sweepers and backstop, overlapping legs of a session and late replies included: rows ever inserted = rows live + ended by a reply + ended by a terminal leg + claimed + dropped by the backstop |
| SessionSweeps.ClaimedAtMostOnce | app/db.py:357-389 | in the same interleavings: no row is claimed twice, and a claimed row ended in no other way |
| SessionSweeps.NoClaimInFlight | app/main.py:497-512 | in an orderly run (handlers answer within the operator's limit, one leg of a session at a time) no sweeper claims or locks a row between a leg's upsert and its reply; only the backstop can have taken it, from an operator whose limit exceeds the hour |
| SessionSweeps.LateLegCanBeClaimed | app/db.py:357-389 | a handler late by anything up to the end of the claim window can have its row claimed while its leg is in flight |
| SessionSweeps.GoneStaysGone | app/db.py:299-309 | a session whose row is gone is not touched again until a leg re-inserts it |
| SessionSweeps.NoClaimAfterEnd | app/main.py:798-802 | in any run, after an END reply that no sweeper was holding up, no sweeper claims or locks the session until a leg re-inserts it |
| SessionSweeps.RunKeepsInv | app/db.py:357-389 | every step of an orderly run keeps: rows accounted for, locks only on live rows, every leg in flight has its own fresh unlocked row |
| SweepRules.RowEndsExactly | app/db.py:299-389 | in every interleaving a row goes exactly when its END reply is out, the network ends the session, the sweeper that locked it commits, or the backstop takes it after an hour |
| SweepRules.EndsAreRecorded | app/db.py:299-389 | every end is put down under its own cause and no other |
| SweepRules.OnlyIdleRowsAreClaimed | app/db.py:357-389 | in every interleaving a claim deletes exactly the rows its sweeper locked, and every one of them has been silent for longer than its operator's limit |
| SweepRules.SweepTakesTheOldest | app/db.py:357-389 | lock and claim together take the oldest due rows, as many as the batch allows, and no other |
| SweepRules.LegLeavesItsRow | app/db.py:271-296 | a leg leaves its session a row seen now with its trail; code, id and subscriber of a live row stay, and so do all other rows |
| Dialing.NormalForm | app/adapters/_common.py:61-89 | the result is empty or a wrapped core without leading star, trailing hash or escaped hash |
| Dialing.NormaliseIsIdempotent | app/adapters/_common.py:61-89 | normalising again changes nothing, for every input |
| Dialing.VariantsCollapse | app/adapters/_common.py:64-78 | all wire variants of a code (stars and hashes present or not, repeated, hashes URL-encoded, white space around) come out the same |
| Routing.LookupShortcodeByDialPrefix | app/db.py:162-221 | the SQL's longest hit among the candidates is what a linear scan from the longest prefix finds |
| Routing.MatchIsLongest | app/db.py:165-184 | no match means no registered prefix; a match is the longest registered prefix in whole segments |
| Routing.CoreIsCodePlusRemainderExactly | app/db.py:214-221 | core = matched core, or matched core + "*" + remainder, exactly when the matched segments do not end in "#" |
| Routing.EveryDialSplitsExactly | app/db.py:214-221 | every dial splits into its code and its remainder exactly when no registered code ends in two hashes |
| Routing.PlainDialSplits | app/db.py:214-221 | a dial without a hash inside its core always splits, whatever is registered |
| Routing.RemainderKeepsTheStar | app/db.py:214-221 | with *1## registered, dialing *1#*2# gives the remainder "*2" |
| Routing.InlineDialEqualsTyping | app/db.py:175-180 | dialing a code with choices appended leaves the same trail as dialing it and typing the choices |
| Routing.TrailIsJoin | app/adapters/_common.py:220-230 | the accumulated trail is the "*"-join of the start and every input that is not blank |
| Routing.CanonicalIsFixedExactly | app/adapters/_common.py:29-58 | deriving the short code again changes nothing, exactly when its last segment does not end in "#" |
| Routing.CanonicalCanLoseAHash | app/adapters/_common.py:29-58 | behind any two-segment code that ends in "#", the first derivation keeps that hash and the second drops it |
| Routing.ShortcodeOfRoutedDial | app/adapters/_common.py:29-58 | whatever is dialed behind a two-segment code, the short code derived from it is that code |
| Routing.LoggedCode | app/main.py:884-910 | the logged code is the request's when nothing usable was dialed, and otherwise the dial's first two non-empty segments, re-wrapped |
| Routing.LoggedCodeOfRoutedDial | app/main.py:884-910 | whatever is dialed behind a two-segment code, that code is what gets logged |
| Routing.JoinOfSplit | app/db.py:188-193 | joining the segments gives the core back |
| Adapters.AirtelParse | app/adapters/airtel.py:118-190 | row and request after a leg: absence of the row decides START or INPUT; a dialed prefix wins over the path; the cached code wins afterwards |
| Adapters.VodacomParse | app/adapters/vodacom.py:166-252 | row and request after a leg of any type, lost rows and refused fields included, with the relabelling of a late release |
| Adapters.TigoParse | app/adapters/tigo.py:135-219 | row and request after a leg of either scheme; a leg that lost its row falls back to the path and inserts nothing |
| Adapters.HalotelParse | app/adapters/halotel.py:339-470 | row and request after a leg; number and short-code id are recovered from the row; receipts and terminal legs leave the rows alone |
| Legs.Serve | app/main.py:320-534 | receipts are acked, terminal and unroutable legs delete the row, a forwarded leg deletes it exactly on END or handler failure |
| Legs.EndSession | app/main.py:344-400 | a terminal leg deletes the row and tells the handler unless the code is unresolved or inactive |
| Legs.HandleUssd | app/main.py:279-534 | one leg end to end, as one function of the rows and the leg |
| Legs.LegEffect | app/db.py:271-296 | whichever network: a START upserts code and remainder, an INPUT on a live row appends to it and follows its code, everything else leaves the rows alone |
| Legs.RowIsItsHistory | app/adapters/_common.py:220-230 | after any run of legs a row holds the "*"-join of its last START's remainder and every later non-blank input, the code it was inserted with, and the time of the last leg that touched it |
| Legs.TrailSinceStart | app/adapters/vodacom.py:178-224 | the same said about the legs: the trail is the join of the START's remainder and the inputs this session's later legs carry |
| Legs.CodeIsFixedForLife | app/db.py:279-291 | code, short-code id and subscriber of a row never change while it lives |
| Legs.InputFollowsTheRow | app/adapters/airtel.py:166-180 | an INPUT that finds its row is forwarded with the row's code and the grown trail |
| Legs.RedialDriftsExactly | app/adapters/vodacom.py:178-224 | after a START on a live row, START and next INPUT go to the same handler exactly when the START's dial routes to the row's own code |
| Legs.RedialCanDrift | app/adapters/vodacom.py:178-224 | dialing b during a session of a: the START goes to b, the next choice to a |
| Legs.AirtelStartsOnce | app/adapters/airtel.py:136-180 | every Airtel session is one START followed by INPUTs only |
| Legs.ReleaseIsCutOffExactly | app/adapters/vodacom.py:230-235 | a type-3 release is relabelled exactly when at least 55 s have passed since the last leg that touched the row |
| Legs.TerminalTellsExactly | app/main.py:695-722 | a terminal leg tells a handler exactly when the row is there and its code registered and active, and leaves no row |
| WireLegs.VodacomStarts | app/adapters/vodacom.py:178-204 | a type 1 leg is a START under the code its dial leads to, and leaves a row |
| WireLegs.VodacomGoesOn | app/adapters/vodacom.py:205-224 | a type 2 leg is an INPUT that extends a live row, or the bare input when the row is lost |
| WireLegs.VodacomEnds | app/adapters/vodacom.py:225-241 | types 4 and 10 are the network's end; type 3 the subscriber's, or the network's after 55 s of silence; the rows stay as they are |
| WireLegs.VodacomRefuses | app/adapters/vodacom.py:137-170 | every other type, and every leg without number, session or type, is refused and changes nothing |
| WireLegs.HalotelStarts | app/adapters/halotel.py:383-409 | a type 100 leg is a START and leaves a row |
| WireLegs.HalotelGoesOn | app/adapters/halotel.py:410-445 | a type 101 leg is an INPUT; the number it leaves out is the row's |
| WireLegs.HalotelTells | app/adapters/halotel.py:446-459 | 102 is a cancel, 103 a receipt, 104 the network's end; the rows stay as they are |
| WireLegs.HalotelRefuses | app/adapters/halotel.py:348-373 | every other type and a leg without transaction id is refused and changes nothing |
| WireLegs.TigoStarts | app/adapters/tigo.py:162-199 | a leg whose flag reads 1, true, yes or y is a START, routed by SHORT_CODE, else Ussd_string, else the path |
| WireLegs.TigoGoesOn | app/adapters/tigo.py:200-220 | any other leg is an INPUT with its input, or else its Ussd_string |
| WireLegs.AirtelByItsRow | app/adapters/airtel.py:118-190 | the leg that finds no row is the START, every other one an INPUT under the row's code |
| WireLegs.MissingFieldsAreRefused | app/adapters/airtel.py:125-129 | an Airtel or Tigo leg without number or session is refused and changes nothing |
| WireLegs.NumberIsClean | app/adapters/_common.py:23-26 | leading plus signs and surrounding space are dropped from a number |
| WireLegs.LegComesTo | app/main.py:320-534 | every leg of every network: forwarded with its trail for an active code, its row gone exactly on END or failure; turned away and its row gone otherwise; receipts change nothing; an end deletes the row |
| WireLegs.DialReachesItsHandler | app/adapters/vodacom.py:178-204 | dialing a registered active code opens the session and reaches that code's handler |
| Halotel.UnescapeIsMap | app/adapters/halotel.py:138 | unescaping the escaped tags of an escaped text is the left-to-right map: br tags become `<br>`, everything else is escaped as section 2.4 of XML 1.0 wants |
| BrTags.TagBecomesBr | app/adapters/halotel.py:138 | a br tag in any case, with any gaps and at most one slash, becomes `<br>` and the map goes on behind it |
| BrTags.OthersAreEscaped | app/adapters/halotel.py:138 | where no such tag starts, `<`, `>` and `&` are escaped and every other character is kept |
| BrTags.FieldsAre | app/adapters/halotel.py:221-270 | the eight elements under their names and in order, an empty value being sent as "null" |
| Halotel.MessageIsMappedExactly | app/adapters/halotel.py:249-292 | the final message is that map of the message exactly when it is not empty and holds neither "ns0:" nor "xmlns:ns0=" |
| Halotel.ChangedMessages | app/adapters/halotel.py:249-292 | "ns0:", "xmlns:ns0=" and the empty message do not arrive as intended |
| Halotel.MapReadsBack | app/adapters/halotel.py:288-292 | reading the mapped text back gives the message with its br tags respelt: text that already read as an escaped tag stays text |
| Halotel.ReplaceEsc | app/adapters/halotel.py:273 | replacing commutes with escaping |
| Halotel.EnvelopeRewritten | app/adapters/halotel.py:271-292 | the four rewrites of the whole envelope rename the prefixes, add the declarations and map the fields one by one; nothing crosses a tag |
| Halotel.BuildOutboundEnvelope | app/adapters/halotel.py:221-292 | the posted bytes for any eight field values |
| LogWriter.Writer.WriterLoop | app/db.py:497-561 | first in, first out, nothing twice: batches handed over concatenate to a prefix of the accepted rows; a stop means every row accepted before the sentinel was handed over; every row logged was offered to the queue in order or, without a queue, went round it; every row offered was accepted or counted as dropped; with none dropped, a waiting writer has handed over exactly the rows logged |
| LogWriter.Writer.Fill | app/db.py:526-537 | the inner loop appends exactly the rows it takes, stops at a sentinel, a deadline or a full batch |
| LogWriter.Writer.Put | app/db.py:673-686 | a row is queued, or counted as dropped when the queue is full |
| LogWriter.Writer.Flush | app/db.py:541-555 | a failed flush loses its whole batch and nothing else |
| LogWriter.LandedUnlessFailed | app/db.py:541-555 | what is handed over lands as a whole unless flushes fail |
| LogWriter.LoggedIsOfferedOrLate | app/db.py:657-686 | the rows logged before the queue went are the ones offered to it, in order, and those logged after are the ones that go round it |
| LogWriter.FlatParams | app/db.py:573-579 | column j of row i is parameter 17 * i + j |
| LogWriter.PlaceholderCast | app/db.py:438-445 | exactly columns 8 and 9 of every row carry the JSON cast |
| Sql.LaterParams | dashboard/src/lib/reports.ts:70-71 | parameters pushed later do not change what a finished predicate means |
| Acl.AclClause | dashboard/src/lib/acl.ts:79-113 | over any filled parameter list, the emitted predicate holds of exactly the rows some grant covers, at both grains |
| Acl.GroupByFloor | dashboard/src/lib/acl.ts:83-90 | each floor is listed once, in first-seen order, and keeps its ids in order |
| Acl.FloorOrderIsFirstSeen | dashboard/src/lib/acl.ts:85-90 | of two listed floors the earlier one was seen before the other, and they differ |
| Acl.Branch | dashboard/src/lib/acl.ts:92-111 | one branch means "granted with this floor, and the floor has passed" |
| Acl.SeesByFloor | dashboard/src/lib/acl.ts:83-92 | grouping by floor changes nothing |
| Acl.IntersectNarrows | dashboard/src/lib/acl.ts:48-53 | narrowing to picked ids is the ACL and membership; picking nothing narrows nothing |
| Acl.DayGrainIsExact | dashboard/src/lib/acl.ts:60-68 | a grant opens a day bucket exactly when it opens every instant of the day, for every day, exactly when its floor loses no fraction |
| Acl.DayVisibleExactly | dashboard/src/lib/acl.ts:92-112 | for a whole ACL, whichever grants of an id mask each other: its days are visible exactly when all their instants are, for every day, exactly when the earliest floor of the id loses no fraction |
| Acl.DeniesAllExactly | dashboard/src/lib/acl.ts:41-44 | an allowlist denies everything exactly when no row is visible under it |
| Acl.IdsAreTheVisible | dashboard/src/lib/acl.ts:36-39 | its ids are those of the short codes with any visible row |
| Scopes.LoadScope | dashboard/src/lib/auth.ts:325-360 | a session carries exactly the short codes its user owns or was granted, and a floor for those that changed hands: the rounded start of the earliest hold |
| Scopes.GroupMeans | dashboard/src/lib/auth.ts:332-346 | GROUP BY id: the earliest start, and whether any hold is limited |
| Scopes.SeesFromRoundedStart | dashboard/src/lib/auth.ts:189-194 | from the ownership tables to the predicate: nothing of a short code not held, everything of one never limited, and from the rounded start of the earliest hold otherwise |
| Scopes.SeesExactlyEntitled | dashboard/src/lib/acl.ts:4-10 | exactly the legs from the hand-over on are visible, exactly when it falls on a whole second after 1970 began (or the code was never limited) |
| Scopes.NothingBeforeHandOverExactly | dashboard/src/lib/reports.ts:95-97 | no leg from before the hand-over is visible exactly when its second rounds up and is positive |
| Scopes.NothingOfTheirsHiddenExactly | dashboard/src/lib/auth.ts:325-360 | no leg from the hand-over on is hidden exactly when its second does not round up past it |
| Scopes.EarlierLegIsSeen | dashboard/src/lib/auth.ts:325-360 | a hand-over 0.4 s into a second shows a leg of the previous owner from 0.3 s before it |
| Scopes.DaysAndLegsAgree | dashboard/src/lib/datetime.ts:56-65 | whatever a session carries, a day is visible exactly when every instant of it is |
| Scopes.NoSessionSeesNothing | dashboard/src/lib/auth.ts:189-194 | without a session no row is visible; without a list every row is; with an empty list none |
| Scopes.HoldsExactly | dashboard/src/lib/auth.ts:332-346 | what a user holds: the own short codes, limited when they changed hands after creation, and every grant, limited always |
| LocalDates.CeilToLocalDate | dashboard/src/lib/datetime.ts:66-78 | the day computed from the formatted parts is the first whole day at or after the floor when no fraction is lost at midnight, and else the day before that one |
| LocalDates.CeilIsLeastExactly | dashboard/src/lib/datetime.ts:56-65 | it is the first whole day at or after the floor exactly when no fraction of a second is lost at midnight |
| LocalDates.LosesFractionExactly | dashboard/src/lib/datetime.ts:66-78 | after 1970 began, a fraction is lost exactly inside the first second of a day |
| LocalDates.WholeSecondsLoseNothing | dashboard/src/lib/datetime.ts:66-67 | whole-second floors never lose one |
| LocalDates.FractionIsLost | dashboard/src/lib/datetime.ts:72-73 | half a second after midnight is taken for midnight |
| Reports.LegConds | dashboard/src/lib/reports.ts:87-129 | the pushed conditions hold of exactly the legs the filters, the ACL and the padded range describe |
| Reports.ViewExactly | dashboard/src/lib/reports.ts:134-140 | the session view spelt out: with a subscriber, session, short codes or an error class other than "any", whole visible sessions within an hour of the range; without, the visible legs in the range |
| Reports.BuildWhere | dashboard/src/lib/reports.ts:65-76 | keeps exactly the matching legs |
| Reports.ErrorClassPicks | dashboard/src/lib/reports.ts:120-126 | "ok" takes the legs without an error class, "error" those with one, "any" and nothing all, any other text just that class |
| Reports.DatesAreLocalDays | dashboard/src/lib/reports.ts:103-104 | with the database session in Tanzanian time, the dates of a range are Tanzanian days |
| Reports.BuildSessionWhere | dashboard/src/lib/reports.ts:164-183 | keeps a session with a matching leg whole within the range; with a filter on single legs, exactly its visible legs within an hour of the range; without one, exactly the visible legs in the range; the sub-select is never empty |
| Reports.SemiJoinMeans | dashboard/src/lib/reports.ts:177-181 | the sub-select keeps its meaning under the shared parameter list |
| Reports.ViewsAgree | dashboard/src/lib/reports.ts:556-560 | both clauses select the same sessions |
| Reports.LoadSessionPage | dashboard/src/lib/reports.ts:548-592 | the bounded count, from the rollup when it answers, and else the number of exactly the sessions the rows come from |
| Billing.UnitsAreLeast | dashboard/src/lib/reports.ts:655-666 | units are the least n >= 1 windows covering the exact duration; rounding up to seconds first changes nothing |
| Billing.RowUnitsExactly | dashboard/src/lib/reports.ts:655-669 | a row shows units exactly when its operator is registered with a window, and then the least number that covers it |
| Billing.MoreLegsNeverCheaper | dashboard/src/lib/reports.ts:273-281 | adding legs never lowers a session's units |
| Billing.GroupByOperator | dashboard/src/lib/reports.ts:282-294 | sessions and units per registered operator |
| Billing.GrandTotal | dashboard/src/lib/reports.ts:315-321 | the reduce over the rows, in whatever order they come |
| Billing.LoadBillableSummary | dashboard/src/lib/reports.ts:265-323 | per-operator rows and grand total of any list of sessions |
| BilledView.BillView | dashboard/src/lib/reports.ts:265-323 | from the legs: every session with a matching leg is billed once, under its operator, for the time between its first and last leg in the view; per operator and in total, whatever order sessions come in |
| BilledView.GroupLegs | dashboard/src/lib/reports.ts:273-281 | each group's edges are the first and last time of all its kept legs, and no other group exists |
| BilledView.PickingNeverChangesTheBill | dashboard/src/lib/reports.ts:151-159 | whichever legs two filters pick a session by, it lasts and costs the same |
| BilledView.UnfilteredAgreesExactly | dashboard/src/lib/reports.ts:161-162 | a picked session never lasts less than in the view without leg filters, and the same exactly when it has no visible leg in the padding |
| BilledView.EdgeLegIsBilledWhenFiltered | dashboard/src/lib/reports.ts:145-148 | a leg a microsecond before the range counts in the filtered view only |
| Billing.TotalIsRowTotalExactly | dashboard/src/lib/reports.ts:667-669 | the total equals the sum over the session rows (1 where no window is set) exactly when every operator is registered, and never exceeds it |
| Billing.UnregisteredIsDropped | dashboard/src/lib/reports.ts:292 | a session of an unregistered operator is billed in its row and not in the total |
| Csv.RoundTripExactly | dashboard/src/lib/summary.ts:253-259 | printed rows parse back to the same cells under section 2, rules 5 to 7, of RFC 4180 with LF line ends, exactly when every row has a cell |
| Csv.PrintIsInjective | dashboard/src/lib/audit.ts:292-299 | equal bytes mean equal cells |
| Csv.QuotedExactlyWhenNeeded | dashboard/src/lib/summary.ts:253-259 | a cell is printed as it is exactly when it holds no quote, comma, CR or LF, and otherwise in quotes with every quote doubled |
| Csv.StreamCsv | dashboard/src/lib/summary.ts:211-246 | header, rows and truncation notice, and the stream parses back to all of them |
| Csv.AuditExportIsFaithful | dashboard/src/lib/audit.ts:260-273 | two audit exports are equal exactly when their rows agree column by column, nulls counting as empty |
| Csv.AuditExportReadsBack | dashboard/src/lib/audit.ts:260-273 | a reader finds the nine columns of every audit row, in order |
| PortalAccounts.SoloRunIsSerial | dashboard/src/lib/users.ts:187-244 | run alone, the locked steps of a transaction are one atomic function and leave no lock |
| PortalAccounts.RunKeepsLocked | dashboard/src/lib/users.ts:193-198 | in every interleaving, what a running transaction read under its locks stands until it ends |
| AccountRules.RowsChangeByRight | dashboard/src/lib/users.ts:187-318 | in every interleaving a row changes only by a committing transaction that had the right to, into the row asked for: an own change only with the current password, a viewer only with role, grant and e-mail rule, never a self-deactivation or self-demotion |
| AccountRules.CommittedMeansEarned | dashboard/src/lib/users.ts:293-318 | a transaction ends as committed only by such a step, begun with that request |
| AccountRules.CommitsExactly | dashboard/src/lib/users.ts:187-318 | on its own a request commits exactly when it may run and does not take the last super_admin away; otherwise nothing changes |
| PortalDb.PortalUsers.UpdateUser | dashboard/src/lib/users.ts:187-244 | the code's branches are that atomic function |
| PortalDb.PortalUsers.UpdateViewerAsAdmin | dashboard/src/lib/users.ts:559-606 | likewise, with the viewer's role, the grant and the e-mail rule |
| PortalDb.PortalUsers.ResetPassword | dashboard/src/lib/users.ts:257-265 | likewise: the hash changes and the version goes up by one |
| PortalDb.PortalUsers.ChangeOwnPassword | dashboard/src/lib/users.ts:293-318 | likewise, only for an active user with the right current password |
| NoLockout.NeverLockedOut | dashboard/src/lib/users.ts:187-244 | any number of transactions, any interleaving: every committed state keeps an active super_admin |
| NoLockout.OneLossAtATime | dashboard/src/lib/users.ts:193-198 | two transactions that take a super_admin away never both reach their UPDATE |
| NoLockout.RefusedExactlyWhenLast | dashboard/src/lib/users.ts:214-228 | an update is refused as the last super_admin exactly when it would leave none |
| NoLockout.UserRowLockIsNotEnough | dashboard/src/lib/users.ts:194-196 | with the user row alone locked, the last two super_admins could demote each other |
| NoLockout.RoleChangeHidesTheUser | dashboard/src/lib/users.ts:199-200 | a waiting update ends as "user not found" exactly when the other transaction changed the role |
| PortalSessions.VersionCountsBumps | dashboard/src/lib/users.ts:233-241 | a password version is its start plus the committed bumps: never back, none lost |
| PortalSessions.BumpRevokesForever | dashboard/src/lib/auth.ts:225-261 | after a bump commits, every earlier session as, on behalf of, or driven by that user is refused in every later state |
| PortalSessions.AcceptedExactlyUntilBump | dashboard/src/lib/auth.ts:252-261 | a login session is accepted later exactly when the user is active and no bump has committed since |
| PortalSessions.ViewingAcceptedExactly | dashboard/src/lib/auth.ts:252-261 | a session that views as somebody is accepted later exactly while both users are active and neither has been signed out |
| PortalSessions.ExpandPerms | dashboard/src/lib/auth.ts:162-166 | exactly the permissions held or directly implied |
| PortalSessions.CoversExactly | dashboard/src/lib/auth.ts:156-160 | which permission carries which, one by one |
| PortalSessions.ImpersonatedClaims | dashboard/src/lib/auth.ts:168-181 | the target's claims with exactly the permissions the actor covers, each as often and in the order the target has them, and the actor on record |
| PortalSessions.CoversIsClosed | dashboard/src/lib/auth.ts:156-160 | one pass of expansion is enough |
| ResetTokens.TokenTable.IssueResetToken | dashboard/src/lib/passwordReset.ts:49-67 | purge, retire, insert, or nothing at all for an unknown user |
| ResetTokens.TokenTable.PeekResetToken | dashboard/src/lib/passwordReset.ts:70-80 | true exactly when the token is usable |
| ResetTokens.TokenTable.ConsumeResetToken | dashboard/src/lib/passwordReset.ts:87-119 | succeeds exactly when peek is true; sets the password, bumps the version, retires the user's tokens |
| ResetTokens.AtMostOneUsable | dashboard/src/lib/passwordReset.ts:55-64 | in any serial run a user has at most one usable token |
| ResetTokens.WinsAtMostOnce | dashboard/src/lib/passwordReset.ts:93-118 | a token sets a password at most once |
| ResetTokens.ResetRetiresAll | dashboard/src/lib/passwordReset.ts:106-116 | after a reset the user has no usable token until one is issued again, and nobody else's account changed |
| ResetTokens.FreshLinkWorksExactly | dashboard/src/lib/passwordReset.ts:49-80 | a fresh link works for exactly half an hour, and for an active user only |
| ResetTokens.IssueDoes | dashboard/src/lib/passwordReset.ts:49-67 | issuing ends the user's other links, forgets exactly those that ran out more than a day ago, and changes no account |
| ResetTokens.ConsumeDoes | dashboard/src/lib/passwordReset.ts:87-119 | a usable link sets exactly its user's password, raises the version by one and ends all the user's links; any other changes nothing |
| TokenRaces.ConsumedAtMostOnce | dashboard/src/lib/passwordReset.ts:94-105 | any interleaving of any consumes and issues: a token is consumed at most once |
| TokenRaces.ConsumeAloneIsSerial | dashboard/src/lib/passwordReset.ts:87-119 | run alone, the locked steps of a consume are the serial operation and leave no lock |
| TokenRaces.IssueAloneIsSerial | dashboard/src/lib/passwordReset.ts:49-67 | likewise for an issue |
| TokenRaces.UsedExactlyWhenSeen | dashboard/src/lib/passwordReset.ts:55-58 | in every interleaving a token is used exactly when it was at the start, or a committed issue or consume of its user saw it |
| TokenRaces.BothUsableExactly | dashboard/src/lib/passwordReset.ts:51-65 | two links of one user are both usable exactly when neither issue's UPDATE started after the other's commit |
| TokenRaces.OneLinkUnlessIssuesOverlap | dashboard/src/lib/passwordReset.ts:10-11 | a user whose issues do not overlap has at most one usable link, whatever consumes and other users' issues do meanwhile |
| TokenRaces.OverlappingIssuesLeaveTwo | dashboard/src/lib/passwordReset.ts:51-65 | two issues whose UPDATEs both start before either commits leave two usable links, whatever tokens there were |
| Migrations.Schema.Migrate | app/db_init.py:78-121 | one container alone: the pending files run in order and are recorded, up to the first that fails |
| Migrations.RecordedIsAPrefix | app/db_init.py:86-118 | any containers, any failures and restarts: what is recorded is the initial set plus a prefix of the pending files in order |
| Migrations.PendingKeepsOrder | app/db_init.py:86-101 | the pending files keep the order of their names |
| Migrations.OneInTheLoop | app/db_init.py:95-121 | no two containers are in the apply loop together |
| Migrations.EachFileRunsOnce | app/db_init.py:102-118 | a file ran once for its record, once if running now, once per container that died in between; otherwise never twice |
| Migrations.FilesRunInOrder | app/db_init.py:102-118 | unless a container died in between, what ran is a prefix of the pending files |
| Migrations.FinishedMeansAll | app/db_init.py:86-121 | a container that finished leaves every file recorded, then and ever after |
| Migrations.LoneContainerFinishes | app/db_init.py:78-121 | from any state with the lock free, a container left alone runs what is pending in order, records it and finishes |
| Migrations.CrashIsRepaired | app/db_init.py:95-121 | a container that fails in the loop gives up the lock and nothing recorded; restarted, it leaves nothing pending |

## Left out

- HTTP, SOAP and XML parsing of inbound legs, TLS, connection pools, metrics, log texts, OpenAPI: input and output around the state machine. A handler call is an arbitrary reply or failure; its duration matters only in `SessionSweeps.dfy`.
- PostgreSQL: statements are atomic, READ COMMITTED with row locks; the time of a statement is the state's clock, and `float8` arithmetic is exact. SQL is modelled as predicates and functions, not as text, so precedence and quoting are not covered.
- The key locks that foreign-key checks take on `roles` are not modelled, which only allows more interleavings.
- SQL `LOWER` and JavaScript and Python lower-casing beyond ASCII letters.
- UTF-8 encoding: texts are sequences of characters, and every pattern the code looks for is ASCII.
- Hashes, JWTs and random tokens are opaque values that never repeat; the login flow, cookies and token lifetimes are not part of the model.
- `name`, `phone` and `updated_at` of a user; the audit trail; unique-violation errors (an aborted transaction covers them).
- Viewer creation and grant changes by client admins, and the cap on viewers per admin.
- The rollup tables, their fast count, exports and the `db/*.sql` procedures; the backstop is modelled by the rows it may delete.
- Reports.LoadSessionPage: the sessions are a set; page size, offset, ordering and the display columns of a row are not modelled, and the rollup's count is whatever its table holds.
- Legs.HandleUssd: the 404 for an operator the registry does not have, and the answer to a failed inbound authentication, which no adapter reports.
- Routing of URL paths to adapters; the path segment arrives as text.
- Redaction of credentials before logging, JSON encoding of payloads, and the writer's metrics.
- Calendar formatting: a day is a day number, so `YYYY-MM-DD` texts are not modelled.
- The portal's pages and forms, and the handler simulator.
- Legs.RowIsItsHistory: rows end by legs only; sweepers and legs together are in `SessionSweeps.dfy`, where the texts are arbitrary.
- LogWriter.Writer.Flush: the statement either inserts the whole batch or nothing; retries do not exist in the source.
- Migrations.Schema.Migrate: a migration file runs entirely or not at all, as one statement batch does under autocommit; a file that commits halfway is not modelled.
- TokenRaces.ConsumedAtMostOnce: account changes between a consume's SELECT and its UPDATE are the subject of `PortalAccounts.dfy`; the lock on the user's row is not modelled.
- TokenRaces.BothUsableExactly: an UPDATE takes all its row locks at once and looks again at the rows once it has them; deadlocks between UPDATEs are not modelled.
