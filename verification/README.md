# theta-agent: a verified model

theta-agent is a Go daemon that ties a host to a directory server. It enrols the host and keeps its
credential in `agent.yml`, finds the site on the local network and overrides the directory's name in
the hosts file, decides when the WireGuard tunnel runs, tunnels LDAP connections over its WebSocket,
checks the signatures of high-risk commands, runs services on cron schedules and draws the icon of its
tray. This project models the parts of it that keep state, do arithmetic, or rewrite text that another
part reads back, and proves what they promise.

`dafny verify dfyconfig.toml` checks everything. There is one module per component:

- **Cron engine** (`Calendar`, `CronField`, `CronSchedule`, `CronExpression`). The field parser against a denotation of
  fields; next and prev against the least and greatest matching minute, on a real Gregorian calendar.
  The main theorem: the 366-day search finds a fire time from every instant exactly for the schedules
  that recur every year, and one minute less would not do.
- **agent.yml as a database**. `YamlQuote`, `YamlScalars`, `YamlExpand` and `YamlTopLevel`: the two scalar
  editors, with a line reader as their partner, and what the `$` expansion of one of them does to a
  value. `Enrollment`: the enrolment machine on top of the bytes.
  `ServicesText`, `ServicesList`, `ServicesDoc`, `ServicesEdits`, `ServicesAdds`, `ServicesRemovals` and
  `ServicesRuns`: over every run the list editor refines a map from names to types, exactly if each call
  is sound. `ConfigCache`: every interleaving of the shared cache.
- **Hosts-file override** (`HostsOverride`) **and its controller** (`LocalDiscovery`). The block rewriter
  on whole files, and the loop that commits, re-checks and reverts an override.
- **LDAP byte pump** (`Base64`, `LdapTunnel`, `LdapInterleaving`). The goroutine of one connection and
  the message handler as imperative code, then every interleaving of many connections.
- **Icons** (`IconImage`, `IconDib`, `IconFile`). The box filter, two independent bitmap encoders proved
  equal to one specification, and the container; decoders written for the proofs give the round trips.
- **Tunnel control** (`LocalSite`, `TunnelPolicy`). The mDNS hysteresis against the whole poll history,
  the home decision, and auto-VPN against the push path.
- **Signed commands** (`CanonicalJson`, `SignedEnvelope`). A prefix-free canonical printer with
  the key order of `KeyOrder`, and what a signature over it binds.

`Text.dfy` holds the string operations of the standard library that these parts call, with the laws the
proofs need, and the result types.

Code that updates state is written as classes and methods with loops; every such method is proved
against a function of its inputs and the old state, and the theorems are about those functions and
their runs. A class method takes the outcome of each outside operation (a file write, a certificate
check, a WireGuard call, the clock) as a parameter, so that a theorem over all parameters covers every
failure.

## Where the code and its promises differ

Each entry names the lemmas behind it. "Exactly" marks a condition proved in both directions; an entry
that says "can" names a lemma with the case.

- `prev` is documented as the last fire time strictly before the instant. It starts at the truncated
  minute minus one, so its answer, a time or none, is that exactly for an instant on a minute or in a
  minute that does not fire (`PrevIsLastStrictlyBefore`).
- `*` and `*/1` denote the same values, but only `*` counts as unrestricted in the day rule
  (`StarAndStarStepOne`, `ListingEveryDayOfMonth`, `ListingEveryDayOfWeek`).
- `setTopLevelYamlScalar` expands `$` in the line it writes, unlike `setYamlScalarValue`. In each document
  that sets the key the lines arrive as written exactly when no `$` of the value is active, that is,
  starts a reference or an escaped `$` (`SetTopLevelIsVerbatim`). A setting reads back as it was set
  exactly when the key is new or no `$` of the value is active (`SettingReads`), and so does every
  setting of a merge (`MergedReads`).
- Edits of two keys that are both absent do not commute, since each is appended (`SetsCommute`).
- A service's type is written as it comes; only the CLI checks it. The service reads back with its type
  exactly if the type has no newline and no white space around it and, where it expands a
  `services: []`, no active `$` (`AddIsExact`). A newline can add a second service
  (`NewlineAddsService`), and a reference can leave the first without a type (`ReferenceTypeVanishes`).
- A service cannot be added under a name that any other list of the file holds (`AddIsExact`), and a
  removal can take lines out of other lists. The pattern wants a newline after every line of an object
  item, so in a file whose last line has none, an item that ends the file can be refused as unknown
  (`NamedLastLineIsNotFound`) or leave its last line behind (`TypeIsLeftBehind`). A removal leaves the
  file it should exactly if it takes no line outside the list and the entry does not end such a file
  (`RemoveIsExact`). A whole run is the run of a map exactly if every call is sound in these ways
  (`RunIsExact`).
- The first service added to a `services: []` drops the blank lines after it and puts an empty line
  before whatever follows. The lines after the list stay as they are exactly when there are none, or one
  empty line before a line with text (`ExpansionKeepsTail`); every other edit keeps all lines outside
  the list (`EditedKeepsOutside`).
- A join key that is set loads back as it was set exactly when the file has no `join_key` line yet or no
  `$` of the key is active (`JoinKeySetReads`). One that is all reference can even empty the join key
  it is set over: `$x` does (`JoinKeyVanishes`).
- A blank line between `- name:` and `subtype:` ends the item for a removal, which can so leave the
  `subtype:` behind (`BlankLineEndsItem`).
- A hosts line that ends in three or more carriage returns loses one on every rewrite. The rewrite is
  idempotent exactly when no kept line still ends in one (`LastWriteWins`); at most two on every line
  suffice (`AtMostTwoCRsSuffice`), and three do not (`StrayCRIsKept`).
- A clear keeps the token that memory holds, so after an enrolment whose chmod fails, which is written
  but not loaded, it can lose the token and leave nothing to dial with (`ClearTrustsMemory`,
  `StaleMemoryLosesToken`). Over every run, whatever fails in it, the file holds a credential and the
  last stored token exactly if each clear from memory finds a join key in the file and keeps that token
  (`EnrolmentIsContinuous`).
- The cache relies on a fresh size or time for every write (`SharedStatGoesUnnoticed`), and `Reload`
  can put an old configuration back for good (`ReloadKeepsCoherent`, `ReloadGoesUnnoticed`). The comment
  at config.go:219 says the file is written by rename; the Persist methods write it in place.
- The comments say that 256 is a multiple of every icon size. It is not one of 24 and 48, whose blocks
  leave 16 columns and rows unread (`BlocksCover`). The filter is stated for every size.
- The payload of a command is copied over the envelope, so a member called `type` replaces the command
  type: the bytes settle the type exactly when there is no such member (`TypeIsBound`).
- A push agrees with the next home-monitor tick except where the tunnel fails to go down or home has
  not been measured yet (`PushIsNotUndone`, `PushBeforeMeasurement`).

## Model

| member | source | states |
|---|---|---|
| Calendar.DateIsUnique | cron_schedule.go:168-191 | a day number has one date, so month and day tests read the real Gregorian calendar |
| Calendar.WeekdayOfDate | cron_schedule.go:172-172 | the weekday of every date is the one that year, month and day alone determine, by the congruence of the calendar |
| Calendar.KnownDays | cron_schedule.go:168-191 | 1 January 1970 was a Thursday, and 29 February 2000 a Tuesday, 11 016 days later |
| Calendar.SameDateNextYear | cron_schedule.go:193-193 | the same date one year on is 365 or 366 days away |
| CronField.Progression | cron_schedule.go:86-101 | the counting loop yields every lo + k * step up to hi, increasing, and nothing else |
| CronField.ParseCronRange | cron_schedule.go:39-103 | an element parses exactly when it is a name, "*", a value or a range with a positive step, to exactly the values it denotes |
| CronField.ParseCronField | cron_schedule.go:105-128 | a field contains v exactly when one of its comma elements denotes v; it fails exactly when an element is unreadable or nothing is denoted |
| CronField.WrittenElementDenotes | cron_schedule.go:39-103 | each written form (star, value, range, with or without a step) means its progression; "v/n" is the single value v |
| CronField.DenotationOfSteps | cron_schedule.go:39-103 | a single value means itself whatever its step; a step of one means the whole interval |
| CronField.ProgressionIsByRemainder | cron_schedule.go:86-101 | from a to b in steps of n lie exactly the values whose distance from a is a multiple of n |
| CronField.NameDenotes | cron_schedule.go:39-60 | a name in any case stands for its number alone |
| CronField.SingleElementField | cron_schedule.go:105-128 | a field of one element denotes what that element does |
| CronField.StarAndStarStepOne | cron_schedule.go:105-128 | "*" and "*/1" hold the same values of the field, but only "*" is unrestricted |
| CronSchedule.Next | cron_schedule.go:197-206 | the least matching minute after the instant in the 366-day window, which is the first date and time of day that the schedule names on the calendar; none only if there is none, never none for a schedule that recurs every year |
| CronSchedule.Prev | cron_schedule.go:209-219 | the greatest matching minute before the truncated instant in the window, which is the last date and time of day that the schedule names; none only if there is none |
| CronSchedule.SearchesAreCivil | cron_schedule.go:168-219 | the answers of next and prev are those for dates, hours and minutes: a restricted day field must hold the day of the month or the weekday of the date |
| CronSchedule.WeekdaysAreCivil | cron_schedule.go:168-191 | a schedule that restricts the weekday alone fires on the listed weekdays of the calendar and no others |
| CronSchedule.PrevUndoesNext | cron_schedule.go:197-219 | from a minute that fires, prev of next is that minute |
| CronSchedule.NextUndoesPrev | cron_schedule.go:197-219 | from a minute that fires, next of prev is that minute |
| CronSchedule.PrevIsLastStrictlyBefore | cron_schedule.go:208-219 | the answer of prev, a time or none, is the last fire time strictly before the instant in the search window if and only if the instant is on a minute or its minute does not fire |
| CronSchedule.FiresInEveryWindow | cron_schedule.go:168-218 | a schedule that recurs every year fires in every window of 366 days |
| CronSchedule.OnlyLeapDaysLeft | cron_schedule.go:168-191 | whatever does not recur every year fires, if at all, on 29 February |
| CronSchedule.SearchCapSuffices | cron_schedule.go:193-218 | every window of 366 days holds a fire time if and only if the schedule recurs every year |
| CronSchedule.SearchCapIsTight | cron_schedule.go:193-193 | one minute less misses midnight of 1 January across a leap year |
| CronSchedule.ListingEveryDayOfMonth | cron_schedule.go:168-183 | listing every day of the month instead of "*" changes a day exactly when the weekday field is restricted and leaves it out |
| CronSchedule.ListingEveryDayOfWeek | cron_schedule.go:168-183 | the same for the weekday field |
| CronSchedule.ListingEveryTime | cron_schedule.go:186-191 | for minutes, hours and months a full list and "*" fire at the same times |
| CronExpression.FieldsOfSpaced | cron_schedule.go:140-144 | the fields of an expression are its words, whatever white space lies between and around them |
| CronExpression.ParseCronSchedule | cron_schedule.go:140-165 | an expression fails exactly when it has not five fields or one of them is bad, and otherwise every field holds what its text denotes |
| CronExpression.MalformedExactly | cron_schedule.go:130-166 | an expression is refused exactly if no schedule is denoted by it |
| CronExpression.ExpressionAlwaysFires | cron_schedule.go:140-218 | next and prev of a parsed expression never fail if and only if its text allows an in-range minute, hour, month and a day that every year has |
| HostsOverride.HostsFile.ApplyHostsOverride | hosts_override.go:39-95 | on success the file is the kept lines and one block with exactly the entries; on any failure it is as it was |
| HostsOverride.KeepUnmanaged | hosts_override.go:46-71 | the inBlock loop keeps exactly the lines outside every block, even unterminated or repeated ones, less the blank tail |
| HostsOverride.Rendered | hosts_override.go:73-87 | kept lines, a separating blank line and the block, each ended by the platform's line end |
| HostsOverride.ReadBack | hosts_override.go:46-113 | reading the written file finds the kept lines and exactly the entries that were written |
| HostsOverride.LastWriteWins | hosts_override.go:46-113 | apply of e1 then e2 equals apply of e2, byte for byte, if and only if no kept line still ends in a carriage return |
| HostsOverride.AtMostTwoCRsSuffice | hosts_override.go:52-58 | lines with at most two carriage returns at the end meet that condition |
| HostsOverride.RereadIsIdentity | hosts_override.go:97-113 | unmanaged lines survive a rewrite unchanged if and only if that condition holds |
| HostsOverride.StrayCRIsKept | hosts_override.go:52-58 | a line that ends in three carriage returns is kept with one, so that condition fails |
| HostsOverride.NoMarkersLeft | hosts_override.go:73-87 | a file written without entries holds no marker at all |
| HostsOverride.ClearRestores | hosts_override.go:39-95 | apply then clear restores a clean file exactly |
| LocalDiscovery.Discovery.constructor | local_discovery.go:48-66 | the loop starts by clearing what an earlier run left, and goes on if that fails; without a host or with the override disabled the file is left alone |
| LocalDiscovery.Discovery.Cycle | local_discovery.go:68-140 | one cycle: confirm, withdraw or set the override, by announcement, address, certificate and write results; nothing while the override is disabled |
| LocalDiscovery.Discovery.RevertOverride | local_discovery.go:143-158 | clears the block, unpins the route and notifies; on a failed write nothing changes |
| LocalDiscovery.Discovery.NotifyDiscoveryChange | local_discovery.go:160-167 | leaves one pending notification |
| LocalDiscovery.StepKeepsConsistent | local_discovery.go:66-158 | one cycle keeps the file equal to the original with exactly the override the controller believes in |
| LocalDiscovery.ControllerAgreesWithFile | local_discovery.go:66-158 | so does every run, under any announcements, certificates and write failures |
| LocalDiscovery.StepKeepsHeld | local_discovery.go:66-158 | on every hosts file one cycle keeps the file one with exactly the override the controller believes in |
| LocalDiscovery.BlockReadsOverride | local_discovery.go:66-158 | after the initial clear, on every file, the block always reads {target to lastIP} when overridden and no marker is left otherwise; the other lines are the original ones if and only if none of them still ends in a carriage return |
| LocalDiscovery.OverrideIsSet | local_discovery.go:82-121 | without an override a cycle sets one if and only if an address is announced, is not what the name resolves to, passes the check, and the file can be read and changed; the file then maps the host to it, and it is pinned if the pin succeeds; otherwise nothing changes |
| LocalDiscovery.OverrideIsReverted | local_discovery.go:122-160 | with an override a cycle keeps it, and everything else, if and only if the same address is announced and passes the check or the file cannot be changed; otherwise no marker is left |
| LocalDiscovery.OverriddenExactlySince | local_discovery.go:82-160 | a run ends overridden if and only if some cycle set an override and every later one keeps it, and then to the address of that cycle |
| LocalDiscovery.OverriddenOnlyWhenChecked | local_discovery.go:82-140 | a cycle ends overridden only if its own check passed for that address or a revert failed |
| LocalDiscovery.LostOverrideIsReverted | local_discovery.go:82-158 | a lost announcement, address or certificate clears the override as soon as the file can be written |
| LocalDiscovery.AddressNeverMovesInOneCycle | local_discovery.go:82-140 | no cycle moves an override from one address to another |
| LocalDiscovery.CleanStateBetweenAddresses | local_discovery.go:82-140 | between overrides to two addresses a cycle ended clean |
| LocalDiscovery.ChangesAreSignalled | local_discovery.go:112-167 | every change of override or file leaves a notification |
| YamlQuote.UnquoteOfQuoted | config.go:545-571 | a value quoted by %q reads back as itself whatever follows on the line |
| YamlScalars.SetThenRead | config.go:545-571 | setting then reading a key gives the value, and the document stays fit for the next edit |
| YamlScalars.SecondSetOverrides | config.go:545-571 | a second set of a key leaves the bytes it alone would have left |
| YamlScalars.SetsCommute | config.go:545-571 | sets of two keys commute byte for byte if and only if one of them was present |
| YamlScalars.SetLeavesOtherKeys | config.go:545-571 | an edit changes what no other key reads |
| YamlScalars.SetKeepsOtherLines | config.go:545-571 | all other lines stay, in order |
| YamlExpand.ActiveIsChanged | config.go:694-707 | no text with an active "$" expands to itself, whatever line that starts with a key and a colon is matched |
| YamlExpand.ReadsBackIfInert | config.go:694-707 | the expansion of a quoted value reads back as the value if and only if none of its "$" is active, whatever line is matched |
| YamlTopLevel.InertEditorsAgree | config.go:683-707 | without an active "$" and with keys at column zero only, the two editors are the same function |
| YamlTopLevel.SetTopLevelIsVerbatim | config.go:694-707 | in each document that sets the key, the lines that do become the line as given and no other changes, if and only if no "$" of the value is active |
| YamlTopLevel.SettingReads | config.go:646-657 | in each document, what is read after a setting is what was set if and only if the key is new or no "$" of the value is active |
| YamlTopLevel.SettingKeepsOthers | config.go:646-657 | in each document, a setting neither changes what another key reads nor whether it is there |
| YamlTopLevel.MergedReads | config.go:622-657 | after a merge of a whole map each given key reads as it was set, if and only if it is new or no "$" of its value is active, and every other key reads as before |
| YamlTopLevel.SetTopLevelKeepsNested | config.go:694-707 | indented lines survive in order |
| YamlTopLevel.MergeSettings | config.go:636-658 | the loop refuses exactly at a key found only under a parent and otherwise composes the edits |
| YamlTopLevel.MergeIsRefusedExactly | config.go:636-658 | whatever the order, a merge is refused exactly if the document sets one of its keys, but at column zero nowhere |
| YamlTopLevel.MergeKeepsIndented | config.go:636-658 | a merge keeps every indented line, in order |
| YamlTopLevel.ConfigFile.ApplyConfigValues | config.go:622-680 | merges in the order of the keys; a nested key, a result that is no valid YAML and any failed operation leave the file alone |
| Enrollment.ConfigManager.PersistEnrollment | config.go:260-299 | the four edits in order, or no change; memory moves only when every file operation succeeded |
| Enrollment.ConfigManager.ClearEnrollment | config.go:329-361 | clears token and key, keeping the token in memory, or else the earlier one, as the continuity proof |
| Enrollment.ConfigManager.Reenroll | tray_server.go:153-172 | refuses, changing nothing, a token without a join key; otherwise clears |
| Enrollment.ConfigManager.ResetEnrollment | reset_enrollment.go:36-66 | a new manager loads the file or fails; then the same guard and clear, then the mesh key if asked for; lists exactly what was removed, and fails if the key file stays |
| Enrollment.SetFieldOfDocument | config.go:545-571 | an edit of the text is an update of that field of the loaded configuration and of no other |
| Enrollment.EnrolledReads | config.go:273-280 | enrolment loads as (token, public key, empty join key, empty previous token) |
| Enrollment.ClearedReads | config.go:329-361 | a clear loads as (empty, empty, the join key, the kept token) |
| Enrollment.JoinKeySetReads | config.go:622-680 | the operator's setting of a join key changes only the join key, and loads back as it was set if and only if the file has no join_key line or no "$" of the key is active |
| Enrollment.JoinKeyVanishes | config.go:694-707 | a case of the other side: over an existing join key, "$x" leaves an empty one |
| Enrollment.StepIsContinuous | config.go:260-361 | one call, with any outcome of its file operations, keeps a credential and the last stored token in the file if and only if it is sound; only a clear from memory can fail to be |
| Enrollment.EnrolmentIsContinuous | config.go:260-361 | over every run of enrolments, clears, reloads and edits by the CLI, whatever fails in them, the file always holds a credential and the last token ever stored if and only if each clear from memory that is written finds a join key in the file and keeps that token |
| Enrollment.FreshRunIsContinuous | websocket.go:140-179 | so it does if memory is what the file loads to at each clear; a dial from such memory presents the last token ever stored while there is one in the file, whatever the join key, and else the join key of the file with that token as the proof |
| Enrollment.ResetOutcome | reset_enrollment.go:36-54 | a clear from such memory is refused exactly where the file has no join key to dial with, and otherwise the next dial presents that and the last token |
| Enrollment.FailuresAreContained | config.go:281-361 | a failed read or write changes nothing; memory moves only by a reload or a call of the agent in which everything succeeded, and then to what the file loads to |
| Enrollment.ClearTrustsMemory | config.go:329-361 | the continuity proof is the token of memory, whatever the file holds |
| Enrollment.StaleMemoryLosesToken | config.go:281-298 | an enrolment that was written but not loaded is forgotten by the next clear, which leaves neither token nor join key |
| ServicesText.AddYamlListItem | config.go:467-522 | the two scanning loops compute the list edit: refuse a listed name, expand `[]`, insert at the end of the block, or append a block |
| ServicesText.ServiceConfig.PersistService | config.go:422-465 | a refused edit or a failed read or write leaves the file alone; after the write a failed chmod or load leaves memory as it was |
| ServicesList.EntriesWithoutObjects | config.go:524-543 | dropping the object items of a name drops exactly its entries |
| ServicesList.EntriesWithoutScalars | config.go:524-543 | so does dropping its scalar items |
| ServicesList.ListedIsEntry | config.go:467-543 | the duplicate test finds a name exactly when it is an entry |
| ServicesDoc.ServicesAreRead | config.go:376-392 | reading a text whose lines are those of a well-formed document finds its entries and types |
| ServicesAdds.AddIsExact | config.go:422-522 | for any type at all: an addition is refused exactly for an invalid name, one with an entry and one that another list holds; otherwise the new service reads back, with the others as they were, if and only if the type has no newline, no white space around it and, in a `services: []`, no active "$" |
| ServicesAdds.UnwritableIsNotRead | config.go:422-522 | any other type is not that of any service read from the text it was written to |
| ServicesAdds.NewlineAddsService | config.go:422-522 | a newline in the type registers a second service |
| ServicesAdds.ReferenceTypeVanishes | config.go:489-493 | the type "$x" for the first service of a `services: []` leaves it without one |
| ServicesRemovals.RemovalOfText | config.go:524-543 | of any text, with a final newline or not: the form that a removal looks for is dropped from the lines that it sees and all others stay in order; it is refused exactly if there is none |
| ServicesRemovals.RemoveIsExact | config.go:422-543 | what a removal leaves is the document without the entry, or as it was if there is none, if and only if no line outside the list is dropped and the entry is no object that ends a file without a final newline |
| ServicesRemovals.BlankLineEndsItem | config.go:524-543 | of an object item with a blank line before its type, a removal takes the name and leaves blank line and type |
| ServicesRemovals.NamedLastLineIsNotFound | config.go:524-543 | an object item whose only line ends such a file is refused although it is listed |
| ServicesRemovals.TypeIsLeftBehind | config.go:524-543 | of one with a type, the removal leaves the line of the type |
| ServicesEdits.EditedServices | config.go:422-543 | an accepted edit appends the entry or drops exactly that name |
| ServicesEdits.EditedIsWellFormed | config.go:422-543 | an accepted edit leaves a document the next one can edit |
| ServicesEdits.EditedKeepsOutside | config.go:422-543 | every line outside the list stays, blank or not, in order; only the blank lines right after a `[]` go when it is expanded |
| ServicesEdits.ExpansionKeepsTail | config.go:489-493 | expanding `[]` leaves the lines after it as they are if and only if there are none, or one empty line before a line with text |
| ServicesRuns.StepIsExact | config.go:422-543 | one call leaves a file of the document it should, read as the map after the same step, if and only if it is sound; a sound call is refused exactly where the map stays as it is |
| ServicesRuns.TextRefinesMap | config.go:422-543 | after every sound run on any file with a well-formed list the services read back equal the abstract map, and all lines outside survive |
| ServicesRuns.RunIsExact | config.go:422-543 | for any run of calls on such a file: every text is the file it should be and reads as the map if and only if every call is sound |
| ServicesRuns.RemoveUndoesAdd | config.go:422-543 | for any type without a newline, remove after add into an existing block restores the exact text, with its last line ended |
| ConfigCache.CachedConfig.ReloadIfChanged | config.go:221-249 | one call alone: unchanged and failed loads leave everything; otherwise configuration and stat are installed together; "changed" except on the first load |
| ConfigCache.StepKeepsCoherent | config.go:221-361 | each step of any goroutine keeps version(recorded stat) <= version(memory) <= version(disk) |
| ConfigCache.RunsKeepCoherent | config.go:221-361 | so does every interleaving of reloads, Persist calls and outside writes |
| ConfigCache.RunsFromStartKeepCoherent | config.go:165-249 | the order holds when the agent starts, and so after every such run of it |
| ConfigCache.ChangeIsSeen | config.go:221-249 | a file with another stat than the recorded one is loaded by the next call that is not interfered with |
| ConfigCache.PersistIsLoaded | config.go:260-299 | what a Persist method writes is what it leaves in memory, and it gives the lock back |
| ConfigCache.RunsKeepLock | config.go:221-361 | over every run the lock is held exactly while one goroutine is inside a Persist method |
| ConfigCache.UnchangedMeansNotOlder | config.go:228-236 | an "unchanged" verdict means memory is no older than the file that was stat'ed |
| ConfigCache.ReloadKeepsCoherent | config.go:191-200 | a Reload keeps the order if and only if what it loaded is no older than the recorded stat |
| ConfigCache.SharedStatGoesUnnoticed | config.go:214-236 | two contents with one stat go unnoticed |
| ConfigCache.ReloadGoesUnnoticed | config.go:191-200 | a run in which Reload restores an old configuration that no later check notices |
| Base64.DecodeOfEncoded | ldap_tunnel.go:103-158 | decoding what was encoded gives the bytes back |
| Base64.BreaksArePassedOver | websocket.go:79-88 | a line break anywhere in the text makes no difference to what is decoded |
| Base64.KnownTexts | ldap_tunnel.go:103-158 | the test vectors of section 10 of RFC 4648 |
| LdapTunnel.PumpConn | ldap_tunnel.go:90-129 | the read loop on its reused buffer sends exactly the bytes of the reads, in order, until a read or send fails, then at most one close |
| LdapTunnel.StopsAtFirst | ldap_tunnel.go:95-129 | the loop stops behind the first read that failed or at the first chunk that could not be sent, and else reads all |
| LdapTunnel.Registry.HandleMessage | ldap_tunnel.go:133-165 | bytes reach the socket of their own connection if it is open; a close takes it out of the registry and shuts it |
| LdapTunnel.Registry.Register | ldap_tunnel.go:90-96 | a connection is registered under its id |
| LdapTunnel.Registry.Unregister | ldap_tunnel.go:125-128 | it is taken out and its socket closed |
| LdapInterleaving.StepKeepsInv | ldap_tunnel.go:90-187 | every step of every connection and of the handler keeps the stream invariant |
| LdapInterleaving.RunsKeepInv | ldap_tunnel.go:90-187 | so does every interleaving |
| LdapInterleaving.HandedIsSent | ldap_tunnel.go:133-165 | what the handler hands to a connection is exactly what the messages of the run carry for it while it is registered |
| LdapInterleaving.Demultiplexing | ldap_tunnel.go:90-187 | the frames of one id are data then at most one close, decode to a prefix of what its client wrote, and its socket has a prefix of what the messages of the run carry for it |
| LdapInterleaving.NothingIsLost | ldap_tunnel.go:62-169 | in every interleaving the frames carry exactly the bytes that were read and sent, the close is there exactly if it was sent, and until its socket is shut a connection takes all that the messages sent down, but for what the handler has in hand |
| LdapInterleaving.GoesOn | ldap_tunnel.go:95-129 | wherever a goroutine stands it can go on, and each of its last steps leads to the next: the close, the registry, the socket |
| LdapInterleaving.HandlerGoesOn | ldap_tunnel.go:137-169 | so can the handler with what it has in hand, and a new connection can be accepted under a new id |
| LdapInterleaving.StepTouchesOneConnection | ldap_tunnel.go:90-165 | a step for one connection changes nothing of another |
| LdapInterleaving.NothingAfterClose | ldap_tunnel.go:133-165 | once either side has closed, no run writes another byte to the socket |
| LdapInterleaving.ClosingMakesQuiet | ldap_tunnel.go:125-150 | both ways of closing reach that state |
| IconImage.SumBlock | cmd/icon-gen/main.go:255-266 | the inner loops, all reads in bounds, sum each channel over its block |
| IconImage.ScaleBox | cmd/icon-gen/main.go:246-276 | for every size up to both sides, pixel (x, y) is written in place as the mean of block (x, y) |
| IconImage.ScaledIsMean | cmd/theta-agent-tray/main.go:408-438 | each output channel is the floored mean of its own fx by fy block |
| IconImage.ScaledWithinBlock | cmd/theta-agent-tray/main.go:408-438 | and lies within any bounds of that block, so between its minimum and maximum |
| IconImage.BlockInBounds | cmd/icon-gen/main.go:250-262 | each block lies in the image and the next starts where it ends |
| IconImage.ScalingConserves | cmd/icon-gen/main.go:246-276 | outputs times block area plus remainders add up to the source over the part the blocks cover |
| IconImage.BlocksCover | cmd/icon-gen/main.go:243-251 | the blocks cover a side if and only if the size divides it; for 256 and sizes 24 and 48 they cover 240 |
| IconDib.ToDIB | cmd/icon-gen/main.go:280-304 | the appending encoder returns header, bottom-up BGRA rows and zero mask |
| IconDib.RgbaToDIB | cmd/theta-agent-tray/main.go:442-469 | the index-based encoder returns the very same bytes for every image |
| IconDib.U32Wraps | cmd/icon-gen/main.go:310-314 | four bytes hold a number modulo 2^32 |
| IconDib.DibLength | cmd/icon-gen/main.go:280-304 | a bitmap has 40 + 4wh + h * andRow bytes |
| IconDib.HeaderFields | cmd/icon-gen/main.go:280-304 | the header tells its own size, one plane, 32 bits a pixel, no compression and the size of all that follows |
| IconDib.MaskRow | cmd/icon-gen/main.go:283-283 | andRow is the least number of bytes, in whole 32-bit words, with a bit for every pixel |
| IconDib.XorAt | cmd/theta-agent-tray/main.go:455-466 | the pixel of column x and row y is at its place in the bottom-up rows, blue first |
| IconDib.DecodeOfDib | cmd/icon-gen/main.go:280-304 | decoding a bitmap gives the image back if and only if w and 2h fit 32 bits |
| IconFile.WriteICO | cmd/icon-gen/main.go:211-241 | directory and payload of all sizes with running offsets |
| IconFile.PngToIco | cmd/theta-agent-tray/main.go:376-403 | byte for byte the file of the other writer; the raw bytes if the picture does not decode |
| IconFile.EntryFields | cmd/icon-gen/main.go:220-230 | entry k holds its side, one plane, 32 bits, size and start at 6 + 16k |
| IconFile.BitmapPlace | cmd/icon-gen/main.go:220-240 | each bitmap lies exactly where its entry says |
| IconFile.EntriesTile | cmd/icon-gen/main.go:215-240 | read from the bytes: the ranges are in order, disjoint, and tile the file from 6 + 16n to its end |
| IconFile.ParseOfIco | cmd/icon-gen/main.go:211-241 | a file of sizes 1 to 256 gives back every size and bitmap if and only if there are fewer than 256 of them |
| IconFile.WrittenIconReadsBack | cmd/theta-agent-tray/main.go:376-403 | what a writer makes of such sizes reads back, bitmap by bitmap, as the scaled images |
| CanonicalJson.EscapePrefix | websocket.go:56-64 | no escape of a character begins another |
| KeyOrder.SortedIsAlphabetical | websocket.go:41-64 | of any two sorted keys the earlier agrees with the later up to some place, where it ends or has the smaller character |
| KeyOrder.AscendingIsSorted | websocket.go:41-64 | however keys are gathered, there is one sorted order of them |
| CanonicalJson.PrintPrefix | websocket.go:56-64 | no printed value begins another, given what may follow a value |
| CanonicalJson.PrintInjective | websocket.go:56-64 | two values print the same if and only if they are the same |
| CanonicalJson.PrintedObject | websocket.go:56-64 | an object is printed as its members, key, colon and value, with commas between them, in braces and in the alphabetical order of their keys, each once |
| CanonicalJson.PrintedArray | websocket.go:56-64 | an array is its values with commas between them, in brackets |
| CanonicalJson.StringIsRead | websocket.go:56-64 | a reader of strings by section 7 of RFC 8259 takes every printed string back |
| SignedEnvelope.BuildEnvelope | websocket.go:92-98 | the copy loop, in whatever order the keys come, builds the same envelope |
| SignedEnvelope.CanonicalizeIsPrint | websocket.go:54-64 | trimming takes off the encoder's line break and nothing else |
| SignedEnvelope.SignedText | websocket.go:89-103 | the bytes under the signature are the JSON object of the payload's members but the signature, and the type, in the alphabetical order of their keys |
| SignedEnvelope.SignedBytesInjective | websocket.go:89-103 | canonical bytes agree if and only if the envelopes agree |
| SignedEnvelope.SignedBytesSettleAll | websocket.go:89-103 | without a "type" member the bytes settle the type and the payload without its signature, both ways |
| SignedEnvelope.TypeIsBound | websocket.go:89-98 | the bytes bind the command type if and only if the payload has no "type" member |
| SignedEnvelope.VerifySignature | websocket.go:66-112 | accepts exactly with a key of 32 bytes, a decodable signature, and a valid check over the canonical bytes |
| SignedEnvelope.SignedMessage | websocket.go:66-112 | a message that carries a signature in Base64 is accepted if and only if the key has 32 bytes and the signature is valid for the bytes of the message without it |
| SignedEnvelope.AcceptedWasSigned | websocket.go:66-112 | if only certain messages were signed, an accepted one has the envelope of one of them, and without "type" members its type and body |
| LocalSite.SiteMemory.SetLocalSiteSeen | home_reach.go:74-81 | records the poll, and the sighting if there was one |
| LocalSite.SiteMemory.LocalSiteSeen | home_reach.go:87-95 | answers from the two timestamps |
| LocalSite.AnswersFromHistory | home_reach.go:59-95 | "seen" if and only if the last poll and some positive poll of the whole history are within the lifetime; "fresh" if and only if the last poll is |
| LocalSite.MissesTolerated | home_reach.go:51-70 | k misses with polls at most P apart never flip the answer if and only if (k + 1) * P <= TTL |
| LocalSite.HomeEndpoints | home_reach.go:133-149 | the non-blank pushed endpoints in order, then the directory's host, each with a port |
| LocalSite.IsPushedLanEndpoint | home_reach.go:151-162 | true exactly for the endpoints that came from the pushed list |
| LocalSite.DefaultPortIsAdded | home_reach.go:166-174 | an endpoint with a port is taken as it is; any other without brackets, with colons or not, splits after the addition into itself and the port |
| LocalSite.PushedInOrder | home_reach.go:133-149 | the parts with text in them are endpoints, in order, without white space around them and with a port |
| LocalSite.ReachesBySignals | home_reach.go:133-162 | an answer counts from any pushed endpoint, and from the directory's own host only at a private address |
| LocalSite.DetectHome | home_reach.go:230-256 | home exactly when connected and some signal speaks for it: a sighting, a home-only endpoint that answers, or equal known public addresses |
| LocalSite.HomeBySignals | home_reach.go:230-256 | never home without a connection; with one a sighting or an answer is enough, and addresses only if they are known and equal |
| LocalSite.HomeThroughMisses | home_reach.go:230-237 | two misses at the 30-second interval leave a connected host at home |
| TunnelPolicy.Monitor.SetMeshIdentity | home_detect.go:102-109 | an unknown site leaves the known one; the exit is always taken |
| TunnelPolicy.Monitor.RemoteExitSelected | home_detect.go:135-154 | an exit is selected and is another site: by the device's own site where it is known, else unless the first listed exit of the site is flagged as local |
| TunnelPolicy.ListedAsRemoteExactly | home_detect.go:144-153 | the exit list makes a site the device's own exactly if the first entry of the site is flagged as local |
| TunnelPolicy.Monitor.WantWireGuardUp | home_detect.go:205-223 | the push path's answer, in its order of precedence |
| TunnelPolicy.Monitor.HandleAutoVPN | home_detect.go:330-362 | acts only past the gate and when the policy differs from the tunnel, and records the attempt even if it fails |
| TunnelPolicy.Monitor.CheckAndPush | home_detect.go:275-319 | one tick records the answer and drives the tunnel |
| TunnelPolicy.Monitor.ApplyPush | websocket.go:800-830 | one push: identity, stored configuration, then up or down by the policy |
| TunnelPolicy.Monitor.RefreshExits | wg_enroll.go:277-281 | the exit list and selection, without a site identity |
| TunnelPolicy.Monitor.Connect | tray_server.go:137-144 | a tray connect raises the tunnel or changes nothing |
| TunnelPolicy.Monitor.Disconnect | tray_server.go:145-152 | a tray disconnect lowers it or changes nothing |
| TunnelPolicy.Monitor.RemoveTunnel | websocket.go:831-849 | a wireguard_remove takes the tunnel down or changes nothing |
| TunnelPolicy.Monitor.SetAutoVPN | home_detect.go:234-238 | the preference changes and nothing else |
| TunnelPolicy.TickOutcome | home_detect.go:275-362 | every field after one tick: the answer is recorded, and the tunnel moves exactly if auto-VPN is on and switched on, the host connected, two minutes past, and the tunnel not up away from home or for an exit elsewhere, or up otherwise |
| TunnelPolicy.PushOutcome | websocket.go:800-830 | every field, and the report, after one push: up for an exit elsewhere, as it was where auto-VPN is off, and else up only if measured away |
| TunnelPolicy.OtherOutcomes | home_detect.go:102-109 | every other event changes what it says and nothing else, and an unknown site never replaces a known one |
| TunnelPolicy.AttemptsAreSpaced | home_detect.go:321-362 | in every run, with pushes, tray commands and any clock, two auto-VPN attempts are at least two minutes apart |
| TunnelPolicy.SettlesInThreeTicks | home_detect.go:261-362 | with inputs fixed and operations succeeding, three ticks reach the policy with at most one attempt, and later ticks do nothing |
| TunnelPolicy.TunnelAfterThreeTicks | home_detect.go:135-166 | at home three ticks leave the tunnel up if and only if an exit is selected and it is another site than the known one or, without one, than that of a first listed entry flagged as local; away from home they leave it up |
| TunnelPolicy.TwoTicksDoNotSettle | home_detect.go:335-337 | two ticks right after a change do not |
| TunnelPolicy.PushIsNotUndone | websocket.go:802-830 | with home measured, no tick with the same answer undoes a push, if and only if auto-VPN is off, a remote exit is selected, the host is away, or the tunnel was or went down |
| TunnelPolicy.PushBeforeMeasurement | home_detect.go:216-221 | before the first measurement no tick undoes a push if and only if auto-VPN is off, a remote exit is selected, or the answer is home exactly when the tunnel was or went down |
| TunnelPolicy.PushKeepsManualTunnel | home_detect.go:210-215 | with auto-VPN off a push leaves the tunnel as it was, unless it selects a remote exit |
| TunnelPolicy.PushThenTicks | websocket.go:802-830 | after such a push a run of ticks makes no attempt and keeps the policy |

## Left out

- CronSchedule: a zone has a fixed offset, without daylight saving or leap seconds; a zero time.Time is None.
- CronField: a range loop that overflows near the largest 64-bit integer.
- HostsOverride: hosts lines beyond the scanner's limit, partial writes, edits by other programs between two cycles, and map iteration order, which is fixed.
- LocalDiscovery: mDNS browsing, the certificate handshake, name resolution and route commands; their outcomes are inputs of a cycle.
- YamlScalars: the YAML library; a line reader stands for it, so anchors, flow style and multi-line values are not covered. Patterns whose `\s*` crosses lines, form feeds and CRLF files are not modelled, and the model of %q leaves unprintable code points above U+007F unescaped.
- YamlExpand: names of references are ASCII word characters; letters and digits of other scripts are not.
- YamlTopLevel: keys are ASCII word characters, as those of agent.yml are. What is valid YAML is an arbitrary predicate on the merged text; file modes are not modelled.
- Enrollment: each call of the agent or the CLI is one step of a run, so the two are not interleaved within a call. The re-initialisation of the CLI, which drops the previous token, is no step of it.
- Enrollment.EnrolmentIsContinuous: issued tokens are taken to carry no surrounding white space. A join key that is set while the agent holds no token is taken to be non-empty, and to be new to the file or without an active `$`; while a token is held it may be anything.
- ServicesRuns: documents have one flush-left `services:` list with an indented block, as the editors assume.
- ServicesDoc: no blank line stands between the `- name:` of an item and its `subtype:`; BlankLineEndsItem says what a removal does to one.
- ServicesList: the reader goes by the same line patterns as the editors. An item with a comment behind it, a quoted name, a `subtype:` before its `name:`, or a type that YAML does not take as it stands (quote marks, an indicator in front, a colon or number sign between blanks) reads differently in YAML.
- ConfigCache: Reload is outside the run theorem; ReloadKeepsCoherent says exactly when it is harmless.
- LdapTunnel: partial socket writes, the listener and its socket file; connection ids are assumed unique, and frames go on the wire whole because the writer is locked.
- IconImage: premultiplied source colours, since pixels are taken as the bytes of RGBA() >> 8; rendering of the badge in floating point; PNG encoding and decoding.
- IconImage.ScaleBox: a size of zero or beyond a side of the picture, for which the code divides by zero.
- IconFile: the writes to disk; WriteICO returns what is written.
- CanonicalJson: a number is an opaque token, distinct for distinct numbers; strings are sequences of code points; the server's encoder is not part of this model.
- SignedEnvelope: Ed25519 itself is an arbitrary predicate on key, bytes and signature.
- LocalSite: dialling, name lookups and address classes; whether an endpoint is private and answers are inputs.
- TunnelPolicy: a tick, a push and a tray command are atomic, so the run theorems do not cover a command between the reading and the use of a setting; a failed operation leaves the tunnel as it was. Checks before a push (signature, capability, configuration, private key) are assumed passed.
- The tray's user interface, Windows services and registry, secrets templates, self-update, IAM roles, service control, the command-line help and the badge renderer are not modelled.
