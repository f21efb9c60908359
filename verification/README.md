# Network UPS Tools clients: a verified model

The clients of Network UPS Tools decide when a host that runs on a UPS has to be shut down,
and talk to the `upsd` server that knows the state of the devices. This project models the
parts of that code where a mistake would be expensive and proves what they are for:

- **upsmon** (`UpsState`, `UpsStatus`, `UpsRuns`, `Stretches`, `UpsVerdict`, `UpsNotices`,
  `UpsComm`, `UpsLink`, `UpsReminders`, `UpsTiming`, `PollThrottle`, `Reload`, `MonitorLines`,
  `Shutdown`, `MainLoop`, `Roles`, `Silence`, `UpsMonitor`): the record kept for each device, what a
  status, a failed poll, a reload, an OS wake-up and the periodic decision do to it, and the
  forced shutdown that may follow. `UpsState` gives each handler as a function on the record;
  `UpsMonitor` is the program itself, a class over a linked list whose nodes are edited in
  place, proved to do what those functions say. The theorems are about runs: of one device
  (`UpsRuns`, `UpsVerdict`, `UpsNotices`, `UpsComm`, `UpsLink`, `UpsReminders`, `UpsTiming`,
  `PollThrottle`), of the main loop (`Shutdown`), and of the whole system with its reloads and wake-ups (`MainLoop`, `Roles`,
  `Silence`), in which the device of each name is shown to go through a run of its own.
- **The auth configuration** (`SectionName`, `AuthCache`): the section names of nutauth.conf
  and the lookup that caches its merged results in the list it searches.
- **The wire layer** (`Tokenizer`, `SocketReader`, `LineReader`, `BatchQuery`, `Address`,
  `SslRegistry`): the quoting printer and its tokenizer, the two buffered line readers, the
  pipelined query of many devices, the address parser, and the registry of SSL contexts.
  `CString` has the C library's part in the parsers that cut up a buffer in place.
- **Two small languages** (`LogFormat`, `CgiQuery`): upslog's format compiler and the CGI
  programs' query-string parser (sections 2.1 and 2.3 of RFC 3986 for percent-encoding).

Time is a number of seconds read once per step; what servers, the SSL library and the user
do are parameters. Status bits are a set of flags, and a combined mask is set when all its
bits are. Sums of power values wrap around as an unsigned int of 32 bits does. Strings are
C strings: where the code holds a null pointer, the model holds `None` or the length of the
text.

What the proofs found to be other than it looks:

- A status flag is set by a word in either case but cleared by the absence of its upper-case
  name anywhere in the text; `ParsedFlagsExact` gives the exact result for any text, and
  `LowerCaseWordIsSetAnew` and `NameInsideOtherWordKeepsFlag` the texts where it shows.
- A wake-up does not end a stretch of OFF, OVER, ALARM or BYPASS as far as the marks it leaves
  are concerned: `VerdictExact` says what they then do to the verdict.
- An attempt to connect that fails leaves the device logged in: `ConnectionExact`.
- A bracketed literal in a section name needs two colons: `LiteralPassesExactly`.
- A wake-up voids the flags but not what has been notified, so that what was set before it is
  notified again: also ONLINE, for a device that was on line all along. `AlternationExact` says
  exactly which runs repeat a notice, `WakeUpExact` which polls after one wake-up do, and
  `SystemNoticesExact` the same of a device in the running system.
- A MONITOR line given twice counts once at the start and twice on a reload: the sum is right
  exactly if the lines that a later line of their name overrides carry no power together,
  modulo 2^32: `TotalIsSumExactly`. upsmon can therefore accept a file on the power of lines it
  overrides and shut the host down at its next decision, though nothing was ever heard from a
  device. `SilenceExact` with `ShortIsOnFile` says exactly when a host that hears nothing does
  that, `TrapShutsDown` which files do it, and `RepeatedLineShutsDown` is such an input.
- A wake-up also forgets which devices this host is the primary of, until a line of theirs is
  read again: `RoleExact`. A shutdown then sends them no FSD command and waits for no
  secondary, whatever the MONITOR lines say: `ConfiguredPrimariesGetFsd` gives the exact
  condition, `WokenHostWaitsForNobody` the case of a wake-up without a readable file.
- A line that makes upsmon reconnect is not notified, and the next status is told as the return
  of a communication never reported lost. `CommNoticesExact` says exactly when; after a wake-up
  with a readable file it is every device this host is the primary of: `WokenPrimaryRepeats`.
- A reply that is nothing but `ERR` raises an exception the batch query does not catch. The
  call then ends with the successes lost and the replies behind that one unread:
  `BatchStaysInStep`.
- A lookup of the auth configuration is harmless in every configuration exactly if it asks for
  something and its user has no `@`: `HarmlessExactly`. The inputs that show it are
  `UserWithAtDrifts`, `UserStartingWithAtMissesHost`, `AskingForNothingDuplicates` and
  `AskingForNothingHidesDefaults`.
- A host of one character before the port of a section name without `@` is lost:
  `ShortHostIsLost`.
- `explode` reads a word with backslashes in it as it is meant exactly if every byte behind a
  backslash is a quote, a backslash or, outside quotes, a space: `EscapesReadExactly`.
- A printed address is read back exactly when its host is not empty, has no colon and does
  not begin with a bracket, so that a bracketed literal once read and printed is lost:
  `PrintParseRoundTrip`, `ReprintedLiteralIsLost`.

`dafny verify dfyconfig.toml` checks everything.

## Model

| member | source | states |
|---|---|---|
| UpsStatus.ParsedFlagsExact | clients/upsmon.c:3132-3271 | after any non-empty status a flag is set exactly if a word names it in either case, or it was set before and the text contains its upper-case name |
| UpsStatus.ParsedLineExact | clients/upsmon.c:878-917 | ONLINE and ONBATT are never both set, and follow the last OL or OB word, or stay as they were without one |
| UpsStatus.PowerWords | clients/upsmon.c:3206-3224 | the words OL, OB, LB and RB are told apart as such |
| UpsStatus.StateWords | clients/upsmon.c:3225-3244 | and CAL, OFF and BYPASS |
| UpsStatus.ModeWords | clients/upsmon.c:3236-3271 | and ECO and FSD |
| UpsStatus.TroubleWords | clients/upsmon.c:3240-3271 | and ALARM, OVER, TRIM and BOOST |
| Text.SameNoCaseMeans | clients/upsmon.c:3217-3217 | comparing without case is comparing letter by letter, each in either case |
| UpsStatus.ParsedEcoExact | clients/upsmon.c:3175-3204 | ECO is set exactly if its word or a buzzword says so, or it was and the text contains the name |
| UpsStatus.ContainsMeans | clients/upsmon.c:3152-3173 | the text test holds exactly if the name occurs at some position |
| UpsStatus.ClearingTells | clients/upsmon.c:3151-3173 | each flag cleared with a notice, ALARM included, is notified once if it was set and the text does not contain its name, and otherwise not |
| UpsStatus.StandardFlags | clients/upsmon.c:3151-3271 | for every prior state and every status of standard words, each of LB, FSD, CAL, OFF, BYPASS, ALARM, OVER, TRIM and BOOST is set exactly if its word is there |
| UpsStatus.StandardLine | clients/upsmon.c:3206-3224 | for standard words ONLINE and ONBATT follow the last OL or OB |
| UpsStatus.StandardContains | clients/upsmon.c:3152-3173 | for a standard word, containing a flag's name and being it are the same |
| UpsStatus.ContainsInJoin | clients/upsmon.c:3152-3173 | a name without a space occurs in a line of words exactly if it occurs in one of them |
| UpsStatus.LowerCaseWordIsSetAnew | clients/upsmon.c:3151-3271 | a flag's word in any case but upper has its flag cleared by the text test and set again in the same poll, with its notice |
| UpsStatus.NameInsideOtherWordKeepsFlag | clients/upsmon.c:3168-3169 | a name inside another word keeps a flag that no word names |
| UpsRuns.PollKeeps | clients/upsmon.c:3132-3388 | what a parsed status leaves alone, and that it sets lastpoll to now and lastnoncrit to now or not at all |
| UpsRuns.RunKeepsOneLine | clients/upsmon.c:878-917 | over every run, wake-ups included, ONLINE and ONBATT are never both set |
| UpsRuns.StatusTellsAfterAnyRun | clients/upsmon.c:3132-3388 | after any run, a status of standard words leaves exactly the flags its words name, and the line flags of its last OL or OB |
| UpsRuns.RunKeepsTimers | clients/upsmon.c:3034-3047 | over every run lastnoncrit never exceeds lastpoll, nor lastpoll the clock |
| UpsRuns.DeadPrimaryExact | clients/upsmon.c:1706-1748 | what the decision comes to past DEADTIME, without an OB+LB delay, for a primary's device last seen on battery |
| UpsRuns.DeadDeviceIsFound | clients/upsmon.c:1681-1748 | after any run, one on battery and silent past DEADTIME is critical for its primary, and past HOSTSYNC too for a secondary |
| UpsRuns.DeadFromTheStart | clients/upsmon.c:1681-1748 | in particular after any run of a device that begins with its MONITOR line |
| UpsVerdict.VerdictExact | clients/upsmon.c:1438-1748 | after any run from its MONITOR line on, a device is judged critical exactly if it is told to shut down; or is gone while calibrating, bypassed, off, in a critical alarm or overloaded for OVERDURATION; or is off for longer than OFFDURATION; or is on battery with low battery or silent past DEADTIME, not calibrating, past the delay, and this host is its primary or has not seen it well for longer than HOSTSYNC; all times and stretches read off the statuses |
| UpsVerdict.SecondaryVerdictExact | clients/upsmon.c:1687-1703 | for a secondary's device that communicates: exactly if it runs out and more than HOSTSYNC has passed since every status word after which it was not on OB+LB |
| UpsVerdict.OffVerdictExact | clients/upsmon.c:699-728 | for one that communicates and does not run out: exactly if OFFDURATION counts, OFF is set, and it was 0 at the status that set OFF or a later status of the same stretch came more than OFFDURATION after that one |
| UpsVerdict.LastWell | clients/upsmon.c:3034-3047 | the time a device was last seen well is that of the last status with a word after which it was not on OB+LB or was calibrating |
| UpsVerdict.RunsAsSaid | clients/upsmon.c:687-876 | over every run the flags and the marks for OFF, OVER, ALARM and BYPASS are what the statuses say, wake-ups included |
| UpsNotices.NoticesAlternate | clients/upsmon.c:687-917 | over every run without a wake-up the notices of ONBATT, CAL, OFF, BYPASS, ECO, OVER, TRIM and BOOST and their opposites never fail to alternate |
| UpsNotices.AlternationExact | clients/upsmon.c:4533-4536 | in every run, wake-ups included, the notices of a pair fail to alternate exactly if some wake-up finds the flag set and a later status raises it again; for the line, if the first OL or OB after it names the line flag set before |
| UpsNotices.WakeUpExact | clients/upsmon.c:4533-4536 | the same condition for one wake-up, read off the state it finds and the statuses after it |
| UpsNotices.UnbrokenAlternates | clients/upsmon.c:1777-1893 | what that means: neighbouring notices of a pair differ |
| UpsNotices.UnbrokenStartsRising | clients/upsmon.c:878-896 | and the first of a pair is the rising one |
| UpsNotices.MoveKeeps | clients/upsmon.c:878-917 | the invariant behind it, kept by every legal change of a flag with its notice |
| UpsNotices.StepTold | clients/upsmon.c:642-685 | every step but a wake-up keeps it |
| UpsNotices.FsdNoticesAreSeparated | clients/upsmon.c:1146-1195 | between two FSD notices, whoever raises them, lies a parsed status without FSD |
| UpsComm.CommNoticesExact | clients/upsmon.c:642-685 | over every run COMMBAD is never repeated, and COMMOK comes without a COMMBAD before it exactly if a line makes upsmon reconnect while commstate is not 0 and a status comes in later |
| UpsComm.WokenPrimaryRepeats | clients/upsmon.c:2053-2064 | which a wake-up, a line that makes this host the primary again, and a status always do |
| UpsLink.ConnectionExact | clients/upsmon.c:1914-1960 | over every run upsmon counts as connected, and as logged in, exactly if some attempt got that far and nothing has cut it since |
| UpsReminders.RemindersExact | clients/upsmon.c:1765-1775 | over every run, which events tell FSD, REPLBATT and NOCOMM: FSD once until a status without it, a battery no sooner than RBWARNTIME, a lasting loss no sooner than NOCOMMWARNTIME after the last status and the last such notice |
| UpsTiming.GcdIsGreatest | clients/upsmon.c:1612-1630 | the subtraction loop's result divides both numbers and every common divisor divides it |
| UpsTiming.IntervalOnEntry | clients/upsmon.c:1609-1656 | on entering the delay the polling interval is the greatest that divides POLLFREQALERT and OBLBDURATION |
| UpsTiming.TroubleAlerts | clients/upsmon.c:687-896 | a status that names a trouble the device was not in (OB, OFF, BYPASS, ALARM, or OVER unless OVERDURATION is off) and not OL leaves POLLFREQALERT |
| UpsTiming.LineRelaxes | clients/upsmon.c:237-249 | a status that says OL and nothing that shortens the interval leaves POLLFREQ, even while the device trims, boosts or calibrates |
| UpsTiming.EndRelaxes | clients/upsmon.c:1792-1800 | a status that no longer names one of CAL, OFF, BYPASS, ALARM, OVER, TRIM and BOOST that was set, and no trouble, leaves POLLFREQ |
| UpsTiming.IntervalOnExit | clients/upsmon.c:1573-1592 | when the delay ends without OB+LB the interval is that of the power state |
| UpsTiming.NoDelayThen | clients/upsmon.c:1573-1607 | no delay begins or ends for a device told to shut down, off for too long, or calibrating on a low battery |
| UpsTiming.DelayFollowsSamples | clients/upsmon.c:1573-1656 | over every quiet run oblbsince is when the current stretch of OB+LB evaluations began |
| UpsTiming.SinceIsEarliest | clients/upsmon.c:1573-1667 | which lies at or before t exactly if all evaluations from one at or before t agree |
| UpsTiming.OblbVerdictExact | clients/upsmon.c:1573-1685 | the verdict is critical exactly when OB+LB has held at every evaluation since one at least OBLBDURATION ago |
| PollThrottle.ThrottleFollowsCount | clients/upsmon.c:3452-3498 | the throttle's two fields after n failures with one new error |
| PollThrottle.WhichFailuresAreLogged | clients/upsmon.c:3452-3476 | exactly the failures 1, 1+max, 1+2*max, ... are logged in full |
| PollThrottle.FullLinesExact | clients/upsmon.c:3445-3498 | n failures make n full lines, 1, or 1+(n-1)/max, as the maximum is negative, zero or positive |
| PollThrottle.SeriesStartsAnew | clients/upsmon.c:3416-3531 | a success, a lost connection, or a reload that forgets it or reconnects makes the next failure be logged in full |
| PollThrottle.OthersKeepThrottle | clients/upsmon.c:3445-3498 | and nothing else but a failure touches the throttle |
| Reload.LinesUpdate | clients/upsmon.c:2077-2219 | for any lines, known devices are updated where they are, each by all lines of its name in turn, and the others appended in the order of their first lines |
| Reload.ReloadIsMarkAndSweep | clients/upsmon.c:3897-3945 | for any file the list is the survivors in their old order, each as its lines leave it, then the newcomers in file order |
| Reload.ReloadedDevice | clients/upsmon.c:3897-3945 | by name: a device is there exactly if a line names it, and is what the lines of its name make of what it was |
| Reload.ReloadedNames | clients/upsmon.c:3843-3945 | the names after a reload are exactly the configured ones, each once, whatever the file says |
| Reload.ReloadedPower | clients/upsmon.c:3897-3945 | for any file the devices have the power of the last line of each name, and totalpv that of all lines modulo 2^32 |
| Reload.ReloadedTotal | clients/upsmon.c:1963-1985 | totalpv is the list's power and that of the overridden lines together, modulo 2^32 |
| Reload.TotalIsSumExactly | clients/upsmon.c:3897-3945 | so it is the sum of the list exactly if the lines a later line of their name overrides carry a multiple of 2^32 |
| Reload.DistinctFileSumsRight | clients/upsmon.c:3897-3945 | in particular it is the sum of the list for a file that repeats no name |
| Reload.LoadingCountsOnce | clients/upsmon.c:2126-2150 | the first load keeps names distinct and totalpv their sum, duplicates or not |
| Reload.SurvivorKeepsTimers | clients/upsmon.c:1963-2075 | a survivor, found by name in the reloaded list, has the power value, user and password of its last line, the role its lines give it, and its timers, notices and power state |
| MonitorLines.ReloadedFromText | clients/upsmon.c:3897-3945 | from the lines as written: after a reload a device is there exactly if an accepted line names it, with the power, user and password of the last one, and this host is its primary exactly if the last one with a role word says primary or master in any case, or there is none and it was before |
| MonitorLines.NewcomerIsFresh | clients/upsmon.c:2143-2187 | a newcomer's readings are those of a new device |
| MonitorLines.LoadedFromText | clients/upsmon.c:2077-2219 | the first load makes exactly the devices named, each as the first accepted line of its name says |
| MonitorLines.RoleMeans | clients/upsmon.c:2183-2186 | the four role words, each in any case |
| MonitorLines.PrintedPowerIsAccepted | clients/upsmon.c:2092-2124 | a number below 2^32 is accepted as the power value it is |
| Text.StrtolReads | clients/upsmon.c:2092-2092 | a number behind white space and a sign is read as it is, whatever follows it |
| Shutdown.RecalcCounts | clients/upsmon.c:1706-1737 | the decision is made on the power of the devices not judged critical, modulo 2^32 |
| Shutdown.MaxLoginsMeans | clients/upsmon.c:1343-1375 | the highest count is at most 1 exactly if every readable primary's count is |
| Shutdown.WaitEndsExactly | clients/upsmon.c:1329-1391 | the wait ends with the first round in which all secondaries are gone or HOSTSYNC has passed, and only then |
| Shutdown.WaitSteps | clients/upsmon.c:1380-1387 | the notice that the wait began is sent once at most, after the first round |
| Shutdown.WaitReports | clients/upsmon.c:1343-1387 | the steps of the wait are one check for each round looked at, with its count and the time waited, the notice after the first |
| Shutdown.MaxLoginsIsGreatest | clients/upsmon.c:1343-1370 | that count is the greatest of the readable ones |
| Shutdown.CycleDecides | clients/upsmon.c:4408-4564 | a cycle forces a shutdown exactly on a user's request or when the power that is left is below MINSUPPLIES, and ends upsmon exactly on a configuration that cannot work |
| Shutdown.ShutdownHasOneCause | clients/upsmon.c:4408-4564 | in every run either nothing is set in motion or one first cycle with such a cause accounts for the whole trace |
| Shutdown.ForcedShutdownOrder | clients/upsmon.c:1396-1436 | FSD for every primary's device first, then the wait, then the closing steps exactly if the wait is over |
| Shutdown.ShutdownOnce | clients/upsmon.c:949-1061 | the shutdown command comes once, last, and right after the power-down flag |
| Shutdown.ClosingStepsExact | clients/upsmon.c:949-1061 | in every run, exactly if the shutdown was forced and the wait is over, the trace ends with the notice, the request to the parent exactly if there is a pipe, the flag and the command, none of which comes before |
| Shutdown.ShutdownRequestedAtMostOnce | clients/upsmon.c:1396-1436 | no run requests a shutdown twice, nor before the wait is over |
| Shutdown.FsdComesFirst | clients/upsmon.c:1414-1436 | in every run each device with the PRIMARY bit has had its FSD command before any login count is looked at or the shutdown command is given |
| Shutdown.FsdIsForPrimaries | clients/upsmon.c:1414-1436 | and once anything is set in motion, only those have |
| Shutdown.UnheardStays | clients/upsmon.c:3391-3531 | without a status nothing in a device's state comes from one |
| Shutdown.NeverHeardIsHealthy | clients/upsmon.c:1722-1734 | a device that never delivered a status counts as healthy at any time and under any configuration |
| MainLoop.PollIsRun | clients/upsmon.c:3391-3531 | a poll with its connection attempt is one or two events of the device's run |
| MainLoop.PollAsksConnected | clients/upsmon.c:3391-3445 | a device is asked only over a connection, which is attempted exactly if there is none |
| MainLoop.TurnsAreCycles | clients/upsmon.c:4408-4564 | the turns of the main loop are cycles of the shutdown model |
| MainLoop.StepIgnoresInterval | clients/upsmon.c:237-249 | the shared polling interval never influences a device's record |
| MainLoop.EachDeviceRuns | clients/upsmon.c:4408-4564 | over any turns, with any reloads and wake-ups in them and whatever the others do, the device of a name is there exactly if its own story says so, and where the run of its own events leads |
| MainLoop.StorySound | clients/upsmon.c:4408-4564 | such a story begins with a new device and its clock does not go backwards if the turns' clock does not |
| MainLoop.SilentDeviceIsFound | clients/upsmon.c:1706-1748 | through reloads and wake-ups, a turn that finds a device on battery silent past DEADTIME, and HOSTSYNC for a secondary, and hears nothing from it, does not count its power, and shuts down exactly if the others have too little |
| MainLoop.SystemNoticesExact | clients/upsmon.c:4533-4536 | the notices of each device fail to alternate exactly if a wake-up in its story finds the flag set and is followed by a status that raises it again |
| MainLoop.SystemNoticesAlternate | clients/upsmon.c:687-917 | and so they do alternate over any turns, reloads included, without a wake-up |
| MainLoop.SystemCommExact | clients/upsmon.c:2053-2064 | the COMMBAD and COMMOK notices of each device alternate exactly unless its story has a line that makes upsmon reconnect unannounced and a status after it |
| Roles.RoleExact | clients/upsmon.c:4533-4536 | over any run the PRIMARY bit is set exactly if the last line with a role gives it and no wake-up came after that line |
| Roles.SystemRoleExact | clients/upsmon.c:4533-4539 | the same of each device of a running system |
| Roles.ConfiguredPrimariesGetFsd | clients/upsmon.c:1414-1436 | a system that is shutting down has sent a device its FSD command exactly if this host is its configured primary and has not woken up since the line that says so |
| Roles.ConfiguredFsdComesFirst | clients/upsmon.c:1414-1436 | and under that condition the command comes before any login check and the shutdown command |
| Roles.WokenHostWaitsForNobody | clients/upsmon.c:1396-1436 | after a wake-up without a readable file a user's shutdown sends no FSD command and checks no logins |
| Silence.SilenceExact | clients/upsmon.c:1706-1748 | a host that hears nothing and is not asked by its user sets something in motion exactly when a turn comes to its decision with less power than MINSUPPLIES; otherwise it goes on, or gives up over a file it does not accept |
| Silence.ShortIsOnFile | clients/upsmon.c:3935-3941 | and that power is read off the last file: the power of the last line of each name |
| Silence.NothingHeardNothingDone | clients/upsmon.c:1706-1748 | so a host with enough power that hears nothing sets nothing in motion while no file is accepted for the power of lines it overrides |
| Silence.TrapShutsDown | clients/upsmon.c:3935-3941 | a turn that reads an accepted file and polls to the end in silence sets the shutdown in motion exactly if that file is such a one |
| Silence.RepeatedLineShutsDown | clients/upsmon.c:1963-1985 | an input that shows it: one device given first with power 1 and then with 0, MINSUPPLIES 1 |
| UpsMonitor.Monitor.Parse | clients/upsmon.c:3132-3284 | the loop over the words of a status does what `ParseStatus` says, clearing first |
| UpsMonitor.Monitor.PollUps | clients/upsmon.c:3391-3531 | the record after one device's poll |
| UpsMonitor.Monitor.FindInterval | clients/upsmon.c:1620-1630 | the loop of subtractions terminates with the greatest common divisor |
| UpsMonitor.Monitor.IsUpsCritical | clients/upsmon.c:1438-1703 | its verdict, and what asking for it changes |
| UpsMonitor.Monitor.Recalculate | clients/upsmon.c:1706-1737 | the loop over the list sums the healthy power and leaves every device and the interval as specified |
| UpsMonitor.Monitor.Recalc | clients/upsmon.c:1706-1748 | and a shutdown follows as the cycle of the shutdown model has it |
| UpsMonitor.Monitor.AddUps | clients/upsmon.c:2077-2219 | one MONITOR line on the linked list |
| UpsMonitor.Monitor.LoadConfig | clients/upsmon.c:2693-2760 | all of them |
| UpsMonitor.Monitor.DeleteUps | clients/upsmon.c:3843-3879 | exactly the target leaves the linked list |
| UpsMonitor.Monitor.Sweep | clients/upsmon.c:3923-3934 | the loop that deletes while it walks leaves exactly the marked devices, in order |
| UpsMonitor.Monitor.ReloadConf | clients/upsmon.c:3897-3945 | list, totalpv and configuration after rereading the file, and whether upsmon gives up; nothing changes without a readable file |
| UpsMonitor.Monitor.WakeUp | clients/upsmon.c:4533-4539 | the same after every reading was voided, with a readable file or without |
| UpsMonitor.Monitor.ApplyChanges | clients/upsmon.c:4429-4539 | the reloads and wake-ups one after another, up to the first configuration that cannot work |
| UpsMonitor.Monitor.SyncSecondaries | clients/upsmon.c:1329-1391 | the loop of login checks does what `Wait` says |
| UpsMonitor.Monitor.ForceShutdown | clients/upsmon.c:1396-1436 | the whole forced shutdown on the list |
| UpsMonitor.Monitor.OneTurn | clients/upsmon.c:4408-4564 | one turn of the main loop on the list, with its reloads and wake-ups, is one turn of `MainLoop`, and leaves its configuration |
| SectionName.NormalizingIsIdempotent | clients/authconf.c:586-764 | every accepted name's normalised name is accepted and splits into the same parts |
| SectionName.PlainNameAccepted | clients/authconf.c:586-764 | which plain parts make an accepted name |
| SectionName.ShortHostIsLost | clients/authconf.c:714-714 | without `@`, a host before a port is kept exactly if it is longer than one character |
| SectionName.LiteralPassesExactly | clients/authconf.c:618-692 | a bracketed literal passes the checks exactly if it has two colons at least |
| SectionName.LiteralNameAccepted | clients/authconf.c:586-764 | and comes back with its brackets |
| SectionName.ServiceIsNumbered | clients/authconf.c:500-545 | a port name in the services database becomes its number |
| SectionName.PartsDefaulted | clients/authconf.c:474-584 | host and port left out are localhost and 3493 |
| SectionName.PrefixIsPortless | clients/authconf.c:618-692 | what stands before the port of an accepted name is accepted and has no port |
| SectionName.FindPortColon | clients/authconf.c:618-692 | the sanity checks with their one moving pointer reject and find exactly as specified |
| SectionName.SplitSection | clients/authconf.c:586-764 | the parts of any name, or its rejection |
| SectionName.NormalizeParts | clients/authconf.c:474-584 | defaulted host and port, and the port by number |
| AuthCache.GetIsEffective | clients/authconf.c:1204-1369 | a lookup, caching or not, returns the first set of exact, host and global values in every field |
| AuthCache.AnswerIsFirstSet | clients/authconf.c:1204-1369 | every text and number of an answer is that of the first of exact section, host section and globals that is there and sets it, and unset if none does; the user is the query's if it has one |
| AuthCache.CachedList | clients/authconf.c:1330-1356 | what a caching lookup leaves in the list |
| AuthCache.CachingIsTransparent | clients/authconf.c:1204-1369 | one caching lookup changes no later answer and keeps the list's names distinct |
| AuthCache.CacheNeverChangesAnswers | clients/authconf.c:1204-1369 | nor does any sequence of them |
| AuthCache.HarmlessExactly | clients/authconf.c:1204-1369 | over all configurations a lookup is answered with the first set values and changes no later answer exactly if it asks for something and its user has no `@` |
| AuthCache.UserWithAtDrifts | clients/authconf.c:1256-1299 | with `@` in the user name the second answer can differ from the first |
| AuthCache.UserStartingWithAtMissesHost | clients/authconf.c:1256-1299 | a user name that begins with `@` is not given its host's values |
| AuthCache.AskingForNothingDuplicates | clients/authconf.c:1236-1314 | the all-null lookup appends a clone of the defaults |
| AuthCache.AskingForNothingHidesDefaults | clients/authconf.c:1236-1314 | which later answers are then taken from |
| AuthCache.AuthConf.SearchList | clients/authconf.c:1256-1299 | the walk over the list with its early end |
| AuthCache.AuthConf.GetItem | clients/authconf.c:1204-1369 | the lookup with its edit in place or append |
| Tokenizer.ExplodeInvertsEscape | clients/nutclient.cpp:4745-4879 | exploding the joined escaped values gives back any list of texts |
| Tokenizer.ExplodeInvertsQuery | clients/nutclient.cpp:4421-4435 | also after any plain non-empty words |
| Tokenizer.ExplodeRow | clients/nutclient.cpp:4712-4715 | also from the offset where a list row's request ends |
| Tokenizer.NoSpaceNeeded | clients/nutclient.cpp:4764-4822 | a quote ends a word, and a quoted word ends with its quote, without a space |
| Tokenizer.UnclosedQuote | clients/nutclient.cpp:4852-4860 | a quoted text never closed is a word if there is any of it |
| Tokenizer.EscapesReadExactly | clients/nutclient.cpp:4823-4844 | any word with backslashes, quoted or not, is read with its backslashes removed exactly if every byte behind one is a quote, a backslash or, outside quotes, a space |
| Tokenizer.EscapedLetterIsShifted | clients/nutclient.cpp:4834-4844 | any other byte behind a backslash is shifted by its code, as `n` is to 202 |
| Tokenizer.ExplodeLoop | clients/nutclient.cpp:4745-4860 | the state machine's loop computes `Explode` |
| Tokenizer.EscapeLoop | clients/nutclient.cpp:4862-4879 | the printer's loop computes `Escape` |
| Tokenizer.SetVarQuery | clients/nutclient.cpp:4427-4435 | the request it builds |
| SocketReader.LinesOfTerminated | clients/nutclient.cpp:1889-1918 | the lines of a stream are the ones that were sent with newlines, the rest unfinished |
| SocketReader.Socket.Read | clients/nutclient.cpp:1889-1918 | for any chunks, the next call returns the stream's next line, or fails exactly without one |
| SocketReader.Socket.ReadAll | clients/nutclient.cpp:1889-1918 | so successive calls return exactly the stream's lines |
| LineReader.Connection.FillLine | clients/upsclient.c:3443-3473 | the byte loop keeps 0 <= readidx <= readlen <= 64 and takes the specified line off the stream |
| LineReader.Connection.ReadLine | clients/upsclient.c:3419-3475 | one call returns `TakeLine` of the stream, whatever the chunks |
| LineReader.TakeLineConserves | clients/upsclient.c:3443-3473 | line, newline and rest make up the stream |
| LineReader.ReadsConserveBytes | clients/upsclient.c:3419-3475 | and no number of calls loses or makes up a byte |
| LineReader.ReadersAgree | clients/upsclient.c:3443-3473 | the C and the C++ reader agree while lines have at most buflen-2 bytes |
| LineReader.LongLineIsCut | clients/upsclient.c:3443-3443 | a longer line is cut at buflen-1 bytes and continues on the next call |
| BatchQuery.OneReply | clients/nutclient.cpp:4693-4721 | parsing takes exactly one reply off the stream and returns its meaning |
| BatchQuery.ListExact | clients/nutclient.cpp:4693-4721 | a list is accepted exactly if it has its first line, rows that begin with the request and are no error, and its last line; and is then those rows, nothing behind the end read |
| BatchQuery.BatchConsumesReplies | clients/nutclient.cpp:4372-4419 | what the batch returns and leaves unread against any replies: one reply per device and a throw exactly if a non-empty request has no success, or else the escape at the first bare ERR |
| BatchQuery.BatchStaysInStep | clients/nutclient.cpp:4406-4416 | an exception escapes exactly if some reply is nothing but ERR, and the stream stays in step exactly if none before the last is |
| BatchQuery.SuccessesExact | clients/nutclient.cpp:4391-4410 | its result has exactly the devices that did not fail |
| BatchQuery.BatchRefinesSequential | clients/nutclient.cpp:4372-4419 | when it returns a result, and that this has exactly the devices whose own request would succeed, with the variables it would return |
| BatchQuery.OneByOneExact | clients/nutclient.cpp:2010-2020 | the one-by-one form returns all results, or ends as its first failing reply does |
| BatchQuery.BatchAgainstOneByOne | clients/nutclient.cpp:2010-2020 | the two forms end alike exactly if no device fails, the first failure is a bare ERR, or all fail and none is bare |
| BatchQuery.TcpClient.ReadList | clients/nutclient.cpp:4693-4721 | the loop over the rows computes `ParseList` on the socket's lines |
| BatchQuery.TcpClient.ReadVariables | clients/nutclient.cpp:4395-4404 | the rows of one device as a map |
| BatchQuery.TcpClient.GetDevicesVariableValues | clients/nutclient.cpp:4372-4419 | the loop over the devices computes `BatchOutcome` |
| BatchQuery.Fetch | clients/nutclient.cpp:4372-4419 | from the bytes of the replies in any chunks to the result map |
| BatchQuery.TcpClient.SendAsyncQueries | clients/nutclient.cpp:4729-4735 | the requests, in the order of the devices |
| Address.PrintParseRoundTrip | clients/upslog.c:946-949 | reading back a printed address gives the same parts exactly if the host is not empty, has no colon and does not begin with a bracket |
| Address.BracketedRoundTrip | clients/upsclient.c:3580-3599 | the bracketed literal form too, its brackets stripped |
| Address.DefaultsFilledIn | clients/upsclient.c:3488-3629 | a device alone is at localhost and 3493, a host alone at 3493, and a port has to be a number from 1 to 65535 |
| Address.BracketedDefaults | clients/upsclient.c:3580-3629 | a bracketed literal without a port is at 3493, a bracket never closed is no address |
| Address.NothingMissing | clients/upsclient.c:3497-3535 | nothing before or behind the `@` is no address |
| Address.ReprintedLiteralIsLost | clients/upslog.c:946-949 | which, printed again without brackets, is not read back |
| Address.SplitAddrInPlace | clients/upsclient.c:3554-3629 | on a copy that `strtok_r` cuts, with the separator looked up before the cut, the parts are those of `SplitAddr` |
| Address.CutHost | clients/upsclient.c:3601-3625 | cutting the host off leaves the port behind the colon found before it the same number, though not always the same text |
| Address.SplitNameInPlace | clients/upsclient.c:3488-3552 | and those of `SplitName`, the host handed on as a pointer behind the cut |
| CString.StrTok | clients/upsclient.c:3511-3511 | the word and the rest `Strtok` gives, with one NUL written over the delimiter and nothing else |
| CString.Copy | clients/upsclient.c:3497-3497 | the text cut to the buffer's room, NUL-terminated |
| SslRegistry.RegistryFaithful | clients/upsclient.c:1127-1140 | over every call sequence keys stay distinct and each refcount is how often its handle was given out |
| SslRegistry.SameHandleIffSameKey | clients/upsclient.c:1039-1057 | two successful calls return one handle exactly if all five arguments agree |
| SslRegistry.CallSucceedsExactly | clients/upsclient.c:1127-1441 | a call obtains a context exactly if the library builds one for it or has built one for the same five arguments before |
| SslRegistry.InitCodes | clients/upsclient.c:1486-1514 | in every run, each init returns -1 if it obtained nothing, 1 exactly if it obtained what the first successful init up to it did, and otherwise 0 |
| SslRegistry.AmbientIsFirstInit | clients/upsclient.c:1486-1514 | which is the first successful init's |
| SslRegistry.CleanupStartsOver | clients/upsclient.c:1913-1928 | after a cleanup the registry, and the handles and codes later calls are given, are as from the start |
| SslRegistry.Registry.FindContext | clients/upsclient.c:1039-1057 | the search through the linked list |
| SslRegistry.Registry.GetOrCreate | clients/upsclient.c:1127-1441 | a cached context with one more reference, or a new one put first |
| SslRegistry.Registry.Init | clients/upsclient.c:1564-1592 | a whole init as one call of the specification |
| SslRegistry.Registry.CleanupAll | clients/upsclient.c:1913-1928 | the list and the ambient default are gone, as at the start |
| CgiQuery.QueryRoundTrip | clients/cgilib.c:59-184 | every list of encoded name/value pairs is extracted unchanged, CR and LF made spaces |
| CgiQuery.UnescapeEncoded | clients/cgilib.c:59-125 | decoding inverts percent-encoding of any C string, but for CR and LF |
| CgiQuery.EscapesMean | clients/cgilib.c:83-125 | two hex digits, each in either case, are one byte, and a plus sign is a space |
| CgiQuery.BadEscapeEnds | clients/cgilib.c:83-125 | a percent sign with anything else behind it ends the program |
| CgiQuery.UnescapeAt | clients/cgilib.c:83-125 | the decoder's loop computes `Unescape` |
| CgiQuery.UrlPrintEsc | clients/cgilib.c:59-81 | the encoder's loop computes `Encoded` |
| CgiQuery.TakePair | clients/cgilib.c:164-183 | one name and value cut out of the buffer in place |
| CgiQuery.ExtractCgiArgs | clients/cgilib.c:127-184 | the single pass over the buffer extracts what splitting at `&` and then at the first `=` gives |
| LogFormat.ItemsCoverFormat | clients/upslog.c:424-508 | every character of a format belongs to exactly one item |
| LogFormat.FormatReadsOnce | clients/upslog.c:424-508 | among all lists of items with a format's text, the items read are exactly the clear one |
| LogFormat.ReadingIsUnique | clients/upslog.c:424-508 | no other clear list of items has the same text |
| LogFormat.CompiledMeansFormat | clients/upslog.c:424-527 | running what is compiled gives the format's meaning, item by item |
| LogFormat.DoublingPrintsBack | clients/upslog.c:444-450 | any text with its `%` doubled is printed back |
| LogFormat.UpsHostPrefix | clients/upslog.c:295-300 | a `%UPSHOST%%t` prefix adds the host and a tab |
| LogFormat.DirectiveMeans | clients/upslog.c:466-502 | a directive is the command its first word begins like, in either case, with the argument behind the space, and INVALID if it is none |
| LogFormat.StrayIsInvalid | clients/upslog.c:466-474 | a percent sign nothing closes is told as INVALID, the text behind it printed |
| LogFormat.Logger.AddDirective | clients/upslog.c:480-502 | the search of the command table |
| LogFormat.Logger.CompileFormat | clients/upslog.c:424-508 | the loop appends exactly the calls of the format's items |
| LogFormat.Logger.RunFlist | clients/upslog.c:511-527 | the buffer holds the calls' output, one line is written |
| LogFormat.LogLine | clients/upslog.c:424-527 | compiling once and running once logs the format's meaning |

## Left out

- Sockets, `select`, time-outs, OpenSSL and NSS: bytes come in chunks from outside, a context is built or not, a connection attempt ends in one of four ways.
- upsd: replies are inputs; the batch query's theorems are stated for servers that answer each request with one error line or one well-formed list.
- Process plumbing of upsmon: fork, pipe, signals, PID files, `wall`, NOTIFYCMD, the sleep inhibitor (only its wake-up step), the check that the parent lives, FINALDELAY and SHUTDOWNEXIT.
- UpsMonitor.Monitor.UpsIsAlarm: does not model that a changed `ups.alarm` text is notified again while ALARM stays set; alarms are therefore not among the alternating pairs.
- UpsMonitor.Monitor.Parse: leaves out the tree of unclassified status words and its OTHER notices, whose code lies in the common sources; whether a buzzword tells of an economy mode is an input.
- UpsMonitor.UpsNode.SetFsd: the command's text and the device without a name, which is never sent one, are not modelled; the server's confirmation is an input.
- UpsMonitor.UpsNode.Failed: the wording of the log lines is not modelled, only whether they are written in full.
- UpsMonitor.Monitor.DoShutdown: the parent's part after being asked is taken as done; whether the power-down flag is configured and whether the command succeeds is not.
- UpsMonitor.Monitor.LoadConfig: parsing of upsmon.conf; the MONITOR lines arrive in their five words, other directives as a finished configuration.
- UpsMonitor.Monitor.OneTurn: how long upsmon dozes before a wake-up, and the notices of a sleep, which belong to no device; that a wake-up happens, and a file is reread, are inputs of the turn.
- Reload.ReloadIsMarkAndSweep: numbers beyond a long's range, where `strtol` saturates, are not modelled.
- Address.SplitAddrInPlace: where the code hands a null token to `xstrdup`, the model rejects the address.
- CgiQuery.UnescapeAt: a `%` as the very last byte makes the code look one byte past the terminator; the model stops at the terminator.
- LogFormat.CompiledMeansFormat: what each directive prints (time, PID, a device's variable) is an input, and the log buffer is unbounded.
- AuthCache.AuthConf.GetItem: nodes are values in a list, so that a caller's pointer into the list seeing later edits is not captured.
- SectionName.NormalizeParts: the services database is a map from names to port numbers.
- SocketReader.Socket.Read: a time-out while waiting for bytes is not modelled.
- The CERTHOST list, `SSLConfig` setters, the C wrappers around nutclient, its in-memory mock, upsimage, and the escapers for HTML and JSON.
- Memory: freeing, failed allocation and texts longer than their buffers (except the address parser's).
