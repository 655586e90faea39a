# Verification of the MySQL Governor core

This project models the parts of MySQL Governor that carry state and arithmetic, and proves what they
are for. The governor measures what each MySQL thread consumes, adds it up per user and per account,
decides once a second which accounts are over limit, and throttles their users.

| module | models | main results |
|---|---|---|
| `Restriction`, `LimitMode`, `PeriodMode`, `Accounts` | `src/calc_stats.c`: limits, ticks, dbctl commands | closed form of a limit-mode run; escalation and invariants of period mode |
| `CommandQueue`, `BadList`, `Agreement` | `src/commands.c`, `src/shared_memory.c` | exactly-once delivery; the array is a map; accounts, queue and list agree |
| `TidTable`, `Overcharge`, `Undercharge` | `src/tid_table.c`, `src/governor_server.c`, `src/calc_stats.c` | no user is charged more than its threads consumed, nor less but for the per-second rate |
| `FifoStats`, `UserStats`, `Registry`, `Rounding` | `src/fifo_stats.c`, `src/stats.c`, `src/user_account.c` | the ring shows the last ticks; totals are conserved; what truncation costs |
| `UserTables`, `AccountTables`, `TickGenerator` | `src/calc_stats.c`, `src/user_account.c`, `src/tick_generator.c` | a whole tick over user objects that the accounts share |
| `Recent`, `Fairness`, `Detection`, `WholeTick` | all of these together | whom a tick freezes did consume more than a limit allows, within the window of that limit; who consumes more is found |
| `Container` | `src/ld.c` | a thread never holds a mutex inside its container |
| `UserMap`, `PeriodString`, `CString` | `src/dbuser_map.c`, `src/governor_config.c` | round trips of the two text formats |
| `Data` | `src/data.h` | shared records |

Code that changes state is a class whose methods are proved equal to a function on values; the
theorems about whole runs are lemmas over sequences of events on those functions. Clock readings,
outcomes of system calls, hook results, what `/proc` shows, and what other threads append in a gap are
parameters, universally quantified. A tick takes several clock readings; only their order is assumed.

Where a promise does not hold of the code as it stands, that is proved with a run that breaks it and
with the exact condition under which it holds:

- With `l_unlimit` 0, "unrestrict all" frees an account without telling its users
  (`LimitMode.SentAgreesIffWindow`, `Agreement.AgreementIffWindow`), and ticks never release.
- With a level duration of 0, `timeout` and `field_restrict` disagree (`PeriodMode.TimeoutNamesPeriodIff`).
- In period mode a restriction that begins at a level above 0 after a release sends no FREEZE
  (`PeriodMode.TruthfulIffNoneUntold`), so that the bad list can miss users of restricted accounts
  unless no account can be over limit at all (`PeriodMode.TruthfulIffNoLimit`,
  `Agreement.PeriodAgreementIffUnlimited`).
- Commands appended between the copying and the clearing of the command list are lost
  (`CommandQueue.ExactlyOnceIffNothingRaced`, `CommandQueue.RacedIsLost`).
- A session that unlocks a mutex it did not lock while holding another breaks the mutex count
  (`Container.SafeIffNoForeignUnlock`, `Container.OtherMutexUnsafe`).
- The comment above `parse_period` promises the total number of seconds; the code drops digits after
  the last unit (`PeriodString.BareDigits`) and wraps at 32 bits (`PeriodString.ParseIsSumIffItFits`,
  `PeriodString.TooManyDays`).

What a thread consumed is measured by the rises of its cumulative readings, as they are taken at its
begin, at its end, and by the monitor at most once a second; a fall, as when a thread
id is used again, consumes nothing. That equals last minus first exactly when no reading fell
(`Overcharge.ConsumptionIsGainIffNeverFell`).

`dafny verify dfyconfig.toml` checks everything.

## Model

| member | source | states |
|---|---|---|
| `LimitMode.RestrictedIffInForce` | src/calc_stats.c:596-648 | At any point of any run of ticks and dbctl commands an account in limit mode is restricted if and only if some over-limit tick or dbctl restrict is still in force: no unrestrict and no tick at or after its end of window came since |
| `LimitMode.RestrictedAfterTick` | src/calc_stats.c:458-648 | After a tick at time t: restricted if and only if some mark at time u since the last unrestrict has t < u + l_unlimit (a window of 0 never runs out); several clock readings per tick |
| `LimitMode.AlwaysExplained` | src/calc_stats.c:458-648 | Over every run the restricted, timeout and start_count fields are those of the newest restriction in force, or all zero when none is |
| `LimitMode.BatchTells` | src/calc_stats.c:630-638 | A limit-mode step queues at most one batch; FREEZE means restricted, UNFREEZE means free, no batch means unchanged |
| `LimitMode.MarkNamesCause` | src/calc_stats.c:458-594 | A restriction in limit mode is put down to the first limit exceeded, or by dbctl to the current period, with the unlimit window as its timeout |
| `LimitMode.SentAgrees` | src/calc_stats.c:478-484 | Over every run, with a nonzero window, the last batch sent is FREEZE exactly when the account is restricted |
| `LimitMode.SilentUnrestrictAll` | src/calc_stats.c:1474-1480 | Without a window "unrestrict all" frees a restricted account and sends its users nothing |
| `LimitMode.SentAgreesIffWindow` | src/calc_stats.c:1468-1502 | What the users were last told agrees with the account in every run if and only if l_unlimit is not 0 |
| `Agreement.AgreementIffWindow` | src/shared_memory.c:217-268 | End to end: every run that drains the queue leaves in the bad list exactly the users of restricted accounts, if and only if l_unlimit is not 0 |
| `Agreement.DrainedAgreement` | src/commands.c:229-307 | Queue drained and no batch half appended: a user is listed if and only if its account is restricted, and nobody else is listed |
| `Agreement.LastCommandTells` | src/commands.c:116-182 | At any point, also in the middle of the appending of a batch: the last FREEZE or UNFREEZE for a user over delivered, in-flight, pending and still to be appended commands says whether its account is restricted |
| `Agreement.ListFollowsDelivery` | src/commands.c:229-307 | At any point, in either mode and whatever the window: a user is listed if and only if the last command delivered for it is FREEZE, and the list never refuses a user |
| `Agreement.PeriodAgreementIffUnlimited` | src/calc_stats.c:310-336 | End to end in period mode: every run that drains the queue leaves in the bad list exactly the users of restricted accounts, if and only if no account with users can ever be over limit (IGNORE mode or no limit enabled) |
| `Agreement.DrainedAgreesIffTruthful` | src/commands.c:229-307 | In period mode a drained queue agrees with the accounts' timeouts if and only if no account's last batch contradicts its timeout |
| `Agreement.ListedIffTold` | src/shared_memory.c:217-268 | In either mode, once the queue is drained a user is listed if and only if the last batch of its account was FREEZE |
| `Agreement.EmissionTells` | src/commands.c:116-182 | At any point, in either mode, the last command for a user, appended or still to be appended, is of the kind of its account's last batch |
| `Agreement.AccountsAreRuns` | src/calc_stats.c:650-717 | Whatever else is interleaved, an account of the whole system is in the state of the run of its own events |
| `Agreement.ExecutedFollows` | src/commands.c:229-307 | Executing one command makes exactly the addressed user listed or not listed, given room for all users |
| `Agreement.ClientFindsUid` | src/shared_memory.c:488-500 | At any point, in either mode, when each command is sent with the uid of the dbuser map: a client finds that uid for a user whose last delivered command is FREEZE, and 0 for everyone else |
| `Agreement.DrainedClients` | src/shared_memory.c:488-500 | Queue drained: a client finds the uid of the dbuser map for the users of restricted accounts and 0 for the others |
| `Agreement.QueueDrains` | src/commands.c:311-380 | From any state, in the middle of a batch too, the batch being appended, the running batch and one more drain the queue if no more commands come; accounts stay as they are |
| `Agreement.NoWindowNoAgreement` | src/calc_stats.c:1468-1502 | With l_unlimit 0 a run exists after which a drained queue leaves users listed whose account is free |
| `PeriodMode.RunConsistent` | src/calc_stats.c:296-456 | Over every run: level in 0..3; nonzero timeout is the duration of the level with start_count > 0 and a period set; start_count 0 means level 0, timeout 0, no period |
| `PeriodMode.StepConsistent` | src/calc_stats.c:650-717 | The same, kept by each single tick and dbctl command |
| `PeriodMode.TimeoutNamesPeriodIff` | src/calc_stats.c:217-246 | timeout is nonzero exactly when field_restrict is set, in every run, if and only if all four level durations are nonzero |
| `PeriodMode.RestrictionHoldsUntilItsEnd` | src/calc_stats.c:673-678 | A restriction survives every tick before start_count + timeout, and none of these ticks queues a command |
| `PeriodMode.RestrictionEnds` | src/calc_stats.c:675-698 | The first tick at or after the end sends UNFREEZE, opens the penalty window and keeps the level, or, over limit, restricts anew without release, one level up if the window is open, naming the cause |
| `PeriodMode.BeginRaisesByOne` | src/calc_stats.c:310-336 | An automatic restriction raises the level by at most one, and only inside the penalty window; a tick otherwise keeps the level or resets the account |
| `PeriodMode.EscalationCounts` | src/calc_stats.c:296-456 | After a level-0 restriction followed by k restrictions each begun inside the preceding penalty window the level is exactly min(3, k) over every run of ticks, unless a quiet tick came at or after the end of the last window: then, and only then, the account is fresh |
| `PeriodMode.WindowLasts` | src/calc_stats.c:699-711 | The penalty window lasts: no run of quiet ticks before its end changes the restriction fields or queues anything |
| `PeriodMode.QuietTick` | src/calc_stats.c:699-711 | A quiet tick of an account that serves no restriction changes nothing before the end of the window and makes the account fresh from then on |
| `PeriodMode.ReturningOffender` | src/calc_stats.c:310-336 | Over limit again inside the window, after any number of quiet ticks: one level up, for the duration of that level |
| `PeriodMode.AskedLevel` | src/calc_stats.c:1350-1389 | dbctl restrict at level 1 to 4 sets that one of the four durations, a higher level the fourth, a lower one the first, none the one below the present; FREEZE is sent |
| `PeriodMode.OverNeverUnfrozen` | src/calc_stats.c:596-717 | An account that is over limit at every tick is never sent UNFREEZE: in either mode, for all durations, penalty windows and clocks, from any state |
| `PeriodMode.OverStaysRestricted` | src/calc_stats.c:650-717 | In period mode such an account is restricted after every tick, for all durations and penalty windows |
| `PeriodMode.ContinuousOffender` | src/calc_stats.c:650-717 | With all durations set and each restriction renewed inside the penalty window, such an account has level min(3, n-1) after its n-th restriction |
| `PeriodMode.LateOffenderKeepsItsLevel` | src/calc_stats.c:665-711 | On the first tick after the penalty window an account over limit keeps its old level, because the check precedes the reset |
| `PeriodMode.TellsTheTruthIff` | src/calc_stats.c:313-328 | A step from an account whose users were told the truth keeps it so, unless it begins a restriction at a level above 0 after a release: no FREEZE then |
| `PeriodMode.TruthfulIffNoneUntold` | src/calc_stats.c:296-456 | Over a whole run "restricted means last told FREEZE" holds at every point if and only if no restriction begins at a level above 0 after a release |
| `PeriodMode.TruthfulIffNoLimit` | src/calc_stats.c:310-336 | It holds in all runs of ticks and dbctl commands if and only if the account is in IGNORE mode or has no enabled limit |
| `PeriodMode.TickTruthfulIffNoWindow` | src/calc_stats.c:310-336 | It holds in all runs of ticks alone if and only if, further, the penalty window is 0 |
| `PeriodMode.AskedThenOverUntold` | src/calc_stats.c:1319-1389 | A run of three events whose last one restricts without FREEZE: dbctl restrict at level 2, a quiet tick at its end, a tick over limit |
| `PeriodMode.TwiceThenOverUntold` | src/calc_stats.c:650-717 | The same with four ticks and no dbctl, for any nonzero penalty window |
| `Restriction.OverlimitMeaning` | src/calc_stats.c:64-71 | is_stat_overlimit finds a field exactly when an enabled limit lies strictly below the usage |
| `Restriction.CauseMeaning` | src/calc_stats.c:303-453 | The nested checks find a cause exactly when a limit of one of the four periods is exceeded |
| `Restriction.CauseIsFirst` | src/calc_stats.c:303-453 | The cause is the first of the current, short, mid and long period with a limit exceeded, and there the first of CPU, reads and writes |
| `Restriction.OverlimitIsFirst` | src/calc_stats.c:64-71 | is_stat_overlimit names the first of CPU, reads and writes that lies above an enabled limit |
| `Restriction.TickWhenOff` | src/calc_stats.c:606-663 | Where throttling is off or the account is in IGNORE mode a tick of either mode only takes over the statistics |
| `Restriction.NoUsageNoCause` | src/calc_stats.c:64-71 | Zeroed statistics exceed no limit of any period, disabled limits included |
| `Restriction.UnrestrictReleases` | src/calc_stats.c:1416-1464 | dbctl unrestrict always ends with a fresh account and UNFREEZE: the second check never restricts |
| `CommandQueue.ExactlyOnceIffNothingRaced` | src/commands.c:344-353 | Every emitted command is delivered, in flight or pending, once and in order, if and only if none was appended between copying and clearing; the number missing is the number appended there |
| `CommandQueue.RacedIsLost` | src/commands.c:344-353 | A run that loses any given command: appended in the gap of a cycle it is nowhere afterwards |
| `CommandQueue.StepConserves` | src/commands.c:355-380 | Each step of the queue keeps that balance, but for the commands appended in the gap |
| `CommandQueue.ExecutedMap` | src/shared_memory.c:217-268 | Executing a FREEZE stores the user's uid unless the user is listed or the table full, an UNFREEZE removes the user; no other entry changes, and with LVE off nothing |
| `CommandQueue.BatchMeaning` | src/commands.c:116-182 | FREEZE is queued for every user, in order, exactly when throttling is on; UNFREEZE also with LVE off when LVEs are separate |
| `CommandQueue.OneBatchAtATime` | src/commands.c:355-380 | While a batch is in flight a further cycle leaves it untouched and the flag stays set |
| `CommandQueue.CycleMovesPending` | src/commands.c:344-353 | An idle cycle puts exactly the pending commands in flight |
| `CommandQueue.DeliverMovesOne` | src/commands.c:311-324 | Sending an element moves it from in flight to delivered |
| `BadList.RunRefinesMap` | src/shared_memory.c:206-279 | Every run of adds, deletes and clears of the array is a run of a map: no name twice, at most MAX_ITEMS_IN_TABLE - 1 entries, first uid stays, lookup is the map or 0 |
| `BadList.LookupIsMap` | src/shared_memory.c:488-500 | The lookup answers the stored uid, 0 for an absent name |
| `BadList.MapAdded` | src/shared_memory.c:227-238 | Adding a listed name, or to a full table, changes nothing; otherwise exactly that name is added |
| `BadList.AddedWellFormed` | src/shared_memory.c:227-238 | Adding keeps the names distinct and the last slot unused |
| `BadList.MapWithout` | src/shared_memory.c:241-268 | Deleting removes exactly that name and keeps every other uid |
| `BadList.ShiftIsWithout` | src/shared_memory.c:252-259 | Moving the tail of the table down over an entry removes exactly its name |
| `BadList.WithoutKeepsOrder` | src/shared_memory.c:252-259 | The surviving entries keep their order |
| `Overcharge.NeverOvercharges` | src/calc_stats.c:1186-1227 | In every run, whatever the clocks and the readings: all samples ever pushed for a user, plus what its counter holds, are at most the sum of all rises of its threads' readings between begin and end, for CPU, reads and writes |
| `Overcharge.ConsumptionIsGainIffNeverFell` | src/calc_stats.c:1204-1209 | A user's consumption, the sum of rises, is last minus first summed over its sessions if and only if no reading of them fell; otherwise it is more |
| `Overcharge.RisesAreGainIffNeverFell` | src/calc_stats.c:1204-1209 | The same of one session, for any sequence of readings |
| `Overcharge.NeverOverchargesGains` | src/calc_stats.c:1186-1227 | Hence with readings that never fall: at most last minus first over the user's sessions |
| `Overcharge.BooksBalance` | src/calc_stats.c:719-747 | Over every run, per user: pushed samples and counter are at most what was charged to its sessions, and each session is charged at most what it consumed |
| `Overcharge.BookStep` | src/governor_server.c:531-609 | Each event, with any reading, keeps every session charged within its rises: deltas telescope over falls, re-begins and lost threads |
| `Overcharge.CreditStep` | src/tid_table.c:280-335 | Each event keeps a user's counter and history within what was charged to its sessions |
| `Overcharge.SampleAtMost` | src/calc_stats.c:1129-1177 | A tick's sample is at most what the counter held |
| `Overcharge.ChargeAtMost` | src/calc_stats.c:1204-1221 | The charge for an increase is between 0 and the increase |
| `Undercharge.ChargeRated` | src/calc_stats.c:1204-1221 | The charge c for a rise d over a time dt has c * max(1, dt) <= d < (c + 1) * max(1, dt), and is 0 when the clock did not advance; within a second the whole rise |
| `Undercharge.SampleExact` | src/calc_stats.c:1129-1177 | With tm the larger of 1 and the time since the reset: sample.cpu * tm * clock ticks is exactly what the counter held, and for reads and writes held <= sample * tm < held + tm |
| `Undercharge.ChargedMeetsDemand` | src/calc_stats.c:1186-1227 | From any tick on, in every run in which no thread of the user is lost: what is charged to it is the sum of the per-second rates of its readings' rises, less than one unit short for each reading |
| `Undercharge.PromptExact` | src/calc_stats.c:1218-1220 | With readings within a second of each other it is charged exactly what its threads consumed |
| `Undercharge.OwedStep` | src/governor_server.c:531-609 | Each reading charges the rated rise to the user's counter, and no other event but a tick changes it |
| `Undercharge.RecordedCovers` | src/calc_stats.c:719-747 | What the ticks record for a user makes up what they found in its counter, in as many seconds as the ticks are apart |
| `Undercharge.TimeAfterTick` | src/tid_table.c:317-335 | A tick restarts every counter at the clock read for it |
| `Undercharge.TimeBetweenTicks` | src/tid_table.c:280-315 | No other event restarts a counter; a new one starts at the last reading of the thread charged |
| `Undercharge.LatestOf` | src/tid_table.c:132-181 | A thread that begins again keeps the larger of both readings |
| `Undercharge.GoneIsForgotten` | src/tid_table.c:270-278 | A thread that the walk found gone is out of the table after the next sweep, until it begins again |
| `Undercharge.FoundGone` | src/governor_server.c:531-609 | Only a walk notes a thread as gone: one of the table that was not read for more than a second |
| `Undercharge.ConnectionTakesThreads` | src/tid_table.c:249-268 | The loss of a connection takes with it every thread that last began on it |
| `Overcharge.WalkIsRun` | src/tid_table.c:270-278 | The walk over the table of threads is the run of its visits |
| `Detection.ConsumedMeansCause` | src/calc_stats.c:303-453 | The converse of CauseMeansConsumed: if the threads of an account's users consumed more in a window than a limit allows, truncation and the time between ticks considered, the tick at its end finds a cause, provided the readings came within a second of each other and no thread was lost |
| `Detection.HeldMeansCause` | src/calc_stats.c:160-196 | Without that proviso: if the ticks of a window found more in the users' counters than the limit allows, the last of them finds a cause |
| `Detection.WindowsRecorded` | src/fifo_stats.c:101-116 | The rings of some users show exactly what the ticks recorded since the window began |
| `Recent.WindowIsRecorded` | src/fifo_stats.c:101-116 | The same of one user |
| `Fairness.CauseMeansConsumed` | src/calc_stats.c:303-453 | No tick finds a cause to restrict an account unless the threads of its users consumed more than that limit allows over the window of that period, by the readings taken since the window began, the first of them measured from the last reading before; CPU, reads and writes, all four periods |
| `Fairness.FrozenMeansConsumed` | src/calc_stats.c:596-717 | Hence in either mode and from any state, a tick that sends FREEZE sends it to users whose threads consumed within one of the windows, so measured, more than the limit for that window allows |
| `Fairness.WindowsConsumed` | src/fifo_stats.c:101-116 | What the rings of an account's users show of the newest n ticks is at most what their threads consumed since those ticks began, the measure starting at the last reading before |
| `WholeTick.QueuedFreezeMeansConsumed` | src/calc_stats.c:1040-1064 | Every FREEZE that a whole tick queues is addressed to a user of an account whose threads consumed within one of the windows more than the limit for that window allows |
| `WholeTick.JudgedIsTick` | src/calc_stats.c:160-196 | The step that a whole tick lets an account take is the tick event with the usage that its users' histories determine |
| `WholeTick.FreezeHasAccount` | src/commands.c:150-182 | A FREEZE among the batches that a tick queues belongs to an account which that tick restricts |
| `WholeTick.TickInStep` | src/calc_stats.c:1049-1055 | Recording the samples of the counters keeps the tables' histories those of the run of counters and threads |
| `Recent.NeverOverchargesSince` | src/calc_stats.c:1186-1227 | From any tick on: the samples recorded since, plus the counter, are at most the rises of the readings taken since, the first measured from the last reading before |
| `Recent.WindowIsRecent` | src/fifo_stats.c:56-69 | What a user's history shows of the newest n ticks was recorded after the tick before them |
| `Recent.WindowStartMeaning` | src/calc_stats.c:1040-1055 | A window of n ticks begins right after a tick and holds exactly n ticks, or begins with the run and holds fewer |
| `Recent.RunAppends` | src/calc_stats.c:1049-1055 | A run on from any point puts exactly one sample per tick in front of the history of every user known at that point |
| `Recent.SinceIsReopened` | src/governor_server.c:531-609 | What was consumed since a point is the consumption of the running sessions taken up at their last reading, and of the later ones |
| `Overcharge.BalancedFrom` | src/calc_stats.c:1186-1227 | Books that balance at one point balance after any further events |
| `Fairness.WindowAtMost` | src/fifo_stats.c:101-116 | A window of nonnegative samples holds at most the whole history |
| `Fairness.PlausibleRun` | src/calc_stats.c:1129-1177 | In every run no sample in any history is negative |
| `Fairness.ShownCpu` | src/calc_stats.c:160-196 | The CPU average that an account shows is the exact mean of its users' windows |
| `Container.SafeIffNoForeignUnlock` | src/ld.c:94-160 | At every intermediate step of every run, whatever succeeds or fails: the count is the number of session mutexes held or moving and the thread is not inside while holding one, if and only if no session unlocks a mutex it did not lock while holding others |
| `Container.HoldingMeansOutside` | src/ld.c:114-160 | At every step, a thread that holds a session mutex runs outside its container |
| `Container.StepSafe` | src/ld.c:59-160 | Each call keeps both promises at each of its steps, under any outcome of hooks, lock, trylock and unlock |
| `Container.ForeignUnlockUnsafe` | src/ld.c:102-110 | Unlocking a foreign mutex while holding a session mutex breaks the count |
| `Container.OtherMutexUnsafe` | src/ld.c:102-160 | A run that does so: begin, lock one mutex, unlock another; it ends inside the container with the first mutex held |
| `Container.RunCoherent` | src/ld.c:59-110 | Between calls, in every run: inside only in a session with count 0; no count outside sessions |
| `Container.EndedStaysOut` | src/ld.c:70-79 | After gr_lve_end the thread is outside, and no later call before the next begin re-enters or calls a hook, unlocks of leftover mutexes included |
| `Container.SessionIff` | src/ld.c:59-79 | A session begins only by a successful enter and ends only by gr_lve_end; a begin that fails leaves the thread as it was |
| `Container.ExactWhenHooksSucceed` | src/ld.c:59-160 | When all hooks succeed: inside exactly when in a session with count 0, and enter and exit calls strictly alternate over every run |
| `Registry.AccountsConserve` | src/calc_stats.c:160-196 | The sum over accounts equals the sum over users, for the newest sample and all three averages |
| `Registry.AlwaysPartitioned` | src/user_account.c:28-44 | In every reachable state each known user sits exactly once in exactly one array, that of its own account, and every account is nonempty |
| `Registry.AccountNameBelongs` | src/user_account.c:70-131 | A user belongs to the account that the dbuser map answers, otherwise to the nonempty part of its name in front of the first separator, otherwise to its own name; nothing else |
| `Registry.FirstAnswerDecides` | src/user_account.c:59-133 | Over every sequence of arrivals a user belongs for ever to the account that its first arrival says |
| `Registry.SameAnswerSameArray` | src/user_account.c:77-98 | Users for whom the map answered the same account when they first arrived sit together in the array of that account |
| `Registry.SamePrefixSameArray` | src/user_account.c:82-91 | Without an answer, users whose names begin with the same part up to the separator sit together |
| `Registry.SameRowAccountSameArray` | src/user_account.c:77-98 | So do users whose first usable rows in the printed map file name the same account |
| `Registry.ArrivalOrder` | src/user_account.c:28-44 | Users of one account stand in its array in the order of their first arrivals |
| `Registry.TwoSamples` | src/calc_stats.c:118-132 | Two samples within one tick count as their sum, two of different ticks as two |
| `Registry.AlwaysConserved` | src/calc_stats.c:160-196 | In every reachable state the sum over accounts is the sum over users |
| `Registry.JoinKeepsPartition` | src/user_account.c:28-44 | Adding a user keeps every user exactly once in exactly one array, that of its own account, and every account nonempty |
| `Registry.RingShowsRun` | src/calc_stats.c:1040-1055 | Over every run, a known user's ring of any size shows newest first one sample for each of the last ticks, zero when idle or not yet known |
| `Registry.UnknownIsIdle` | src/calc_stats.c:148-158 | A user not known after a run had no sample in any tick of it |
| `Registry.AllRecorded` | src/calc_stats.c:1050-1054 | After both walks of a tick every user has exactly one new sample, zero without a counter |
| `Rounding.RoundingBound` | src/fifo_stats.c:118-138 | The floor of the total's mean exceeds the sum of m truncated means by 0 to m-1 |
| `Rounding.RoundingBoundIsMet` | src/fifo_stats.c:135-137 | For m users on a window of at least m ticks the difference m-1 occurs |
| `Rounding.AverageRounding` | src/calc_stats.c:160-196 | The reported current, short, mid and long read and write averages of an account of m users are 0 to m-1 below the floor of its true mean |
| `Rounding.NeverRestrictedByRounding` | src/calc_stats.c:64-71 | A reported average above a limit means the users really consumed more than the limit over the window; m per tick more than the limit is always reported above it |
| `FifoStats.NewestPrefix` | src/stats.c:48-52 | A ring of at least n slots never clips a window of n samples |
| `FifoStats.NewestPush` | src/fifo_stats.c:56-69 | Pushing a sample drops the oldest one from the view |
| `FifoStats.TruncDivMeaning` | src/fifo_stats.c:118-138 | Averages of reads and writes are truncated towards zero |
| `UserStats.RingSize` | src/stats.c:19-52 | The ring is as large as the largest of the three intervals |
| `UserStats.NewestRefreshed` | src/fifo_stats.c:82-89 | Adding into the newest slot is adding to the newest sample |
| `Accounts.ContributionIsOfHistory` | src/calc_stats.c:167-171 | What a user object contributes to its account is the newest sample and the three window means of its history |
| `UserMap.RoundTrip` | src/dbuser_map.c:59-197 | Reading back a printed file gives every user its first row with uid at least 1, or its first row with uid 3 when LVEs are not separate, and nothing to other users |
| `UserMap.ParseRows` | src/dbuser_map.c:76-192 | The same from any map read so far: earlier entries stay |
| `UserMap.FirstRowMeaning` | src/dbuser_map.c:150-191 | The winning row is usable and no earlier row of the user is |
| `UserMap.LookupsFindFirstRow` | src/dbuser_map.c:263-291 | After a printed file is read, get_uid and get_account answer with the user's first usable row, and with uid 3 and no account for a user without one |
| `UserMap.OnlyRowIsFound` | install/scripts/dbgovernor_map.py:106-109 | A user printed once with a positive uid is read back with its account and uid |
| `UserMap.LinesMeaning` | src/dbuser_map.c:76-79 | The lines are the whole file, cut after every newline and where the buffer is full |
| `UserMap.OneField` | src/dbuser_map.c:139-140 | A line without a second field enters nobody |
| `UserMap.TwoFields` | src/dbuser_map.c:156-191 | A line without a third field enters its user with uid 3, unless LVEs are separate |
| `UserMap.NegativeUid` | src/dbuser_map.c:156-191 | A negative uid enters nobody while LVEs are separate |
| `UserMap.LeadingSpace` | src/dbuser_map.c:81-141 | A space in front of the line is no separator |
| `CString.AtoiOfSigned` | src/dbuser_map.c:156-191 | atoi skips blanks, takes one sign and then the digits |
| `UserMap.FieldsOfRow` | install/scripts/dbgovernor_map_plesk.py:93-94 | The scanner finds in a printed row its user, account and uid |
| `UserMap.AddRow` | src/dbuser_map.c:150-191 | A printed row is entered unless the user is known or the uid unusable |
| `UserMap.RowIsOneLine` | src/dbuser_map.c:76-79 | fgets delivers a printed row as one line |
| `PeriodString.ParseIsSumIffItFits` | src/governor_config.c:196-222 | For any segments of 1 to 10 digits and a unit the result is the sum of value times unit if and only if that fits in 32 bits, all-zero strings included |
| `PeriodString.ParseWraps` | src/governor_config.c:196-222 | Any text of segments parses to its sum modulo 2^32, or, when that is 0, to the number before its first unit modulo 2^32 |
| `PeriodString.TooManyDays` | src/governor_config.c:166-192 | A text that does not fit: 99999 days come back as 49979008 seconds |
| `PeriodString.ParseAdds` | src/governor_config.c:196-222 | Parsing is additive over concatenation while the sum fits |
| `PeriodString.PrintParse` | src/governor_config.c:196-222 | Every number below 2^32 printed as days, hours, minutes and seconds parses to itself |
| `PeriodString.PrintParseAnyCase` | src/governor_config.c:174-189 | The same with the unit letters in either case |
| `PeriodString.OtherUnit` | src/governor_config.c:187-188 | Any other letter counts as seconds |
| `PeriodString.BareDigits` | src/governor_config.c:204-219 | Digits after the last unit are dropped; digits alone are seconds |
| `PeriodString.ExitsIffMalformed` | src/governor_config.c:166-212 | The program exits exactly on a unit without digits before it or more than ten digits in a row |
| `PeriodString.FallbackIsAtoi` | src/governor_config.c:217-219 | The fallback reads the leading digits |
| `BadList.BadUsersList.constructor` | src/shared_memory.c:190-194 | An empty table |
| `BadList.BadUsersList.IsUserInList` | src/shared_memory.c:206-215 | Found if and only if listed |
| `BadList.BadUsersList.AddUserToList` | src/shared_memory.c:217-239 | The new contents and return code: idempotent, -2 when full, uid 0 for an unmapped user under all_lve, nothing added when the semaphore fails |
| `BadList.BadUsersList.RemoveAt` | src/shared_memory.c:247-262 | Removes exactly the entry's name in place |
| `BadList.BadUsersList.DeleteUserFromList` | src/shared_memory.c:241-268 | Removes exactly that name; 0 if it was listed, else -2 |
| `BadList.BadUsersList.DeleteAllUsersFromList` | src/shared_memory.c:270-279 | Empties the table |
| `BadList.BadUsersList.UserInBadListClient` | src/shared_memory.c:488-500 | The stored uid, or 0 for an absent name |
| `CommandQueue.Commands.constructor` | src/commands.c:80-87 | The initial queue |
| `CommandQueue.Commands.AccountRestrict` | src/commands.c:150-182 | One FREEZE for every user of the account, in order, unless switched off |
| `CommandQueue.Commands.AccountUnrestrict` | src/commands.c:116-148 | One UNFREEZE for every user, under its own switch-off condition |
| `CommandQueue.Commands.SendCommandCopyList` | src/commands.c:326-353 | The batch is the pending commands; commands appended in the gap are in neither list |
| `CommandQueue.Commands.SendCommandsCycle` | src/commands.c:355-380 | A batch starts only when none is running |
| `CommandQueue.Commands.SendNext` | src/commands.c:229-307 | One element is executed on the bad list |
| `CommandQueue.Commands.SendFinished` | src/commands.c:322 | The flag is cleared at the end of the batch |
| `Accounts.Account.constructor` | src/stats.c:21-29 | A fresh account |
| `Accounts.Account.CalcAccStats` | src/calc_stats.c:160-196 | The account's usage becomes the sum over its users; the restriction fields are untouched |
| `Accounts.Account.SumStats` | src/stats.c:70-76 | Adds one user's contribution |
| `Accounts.Account.GetTimeout` | src/calc_stats.c:217-246 | The clamped level and its duration |
| `Accounts.Account.CheckRestrict` | src/calc_stats.c:296-456 | The new state and the queued batch are those of the specification run over all histories |
| `Accounts.Account.CheckRestrictLimit` | src/calc_stats.c:458-594 | The same for limit mode |
| `Accounts.Account.AccountAnalyze` | src/calc_stats.c:650-717 | A period-mode tick: new state and queued batch |
| `Accounts.Account.AccountAnalyzeLimit` | src/calc_stats.c:596-648 | A limit-mode tick: new state and queued batch |
| `Accounts.Account.HasUser` | src/calc_stats.c:1292-1306 | Whether the account has a user of that name |
| `Accounts.Account.DbctlRestrictSet` | src/calc_stats.c:1319-1389 | Restricts the account of that name or with that user, at the asked or a default level, and queues FREEZE |
| `Accounts.Account.DbctlUnrestrictSet` | src/calc_stats.c:1416-1464 | The addressed account is fresh again and one UNFREEZE is queued for each user, whatever the limits; others untouched |
| `Accounts.Account.DbctlUnrestrictAllSet` | src/calc_stats.c:1468-1502 | The account is fresh again; UNFREEZE only if its timeout was nonzero |
| `FifoStats.Fifo.constructor` | src/fifo_stats.c:27-54 | A ring of zeros |
| `FifoStats.Fifo.Push` | src/fifo_stats.c:56-69 | The view gets the sample in front and loses the oldest |
| `FifoStats.Fifo.Get` | src/fifo_stats.c:71-80 | The i-th newest sample |
| `FifoStats.Fifo.RefreshLast` | src/fifo_stats.c:82-89 | Adds to the newest sample only |
| `FifoStats.Fifo.Sum` | src/fifo_stats.c:101-116 | The sum of the newest samples |
| `FifoStats.Fifo.Avg` | src/fifo_stats.c:118-138 | The truncated mean of the newest samples |
| `UserStats.User.constructor` | src/stats.c:39-53 | A user with an empty history, ring and averages valid |
| `UserStats.User.PushStats` | src/stats.c:92-106 | After any sequence of pushes and refreshes the ring shows the history and the averages are the means of exactly the newest short, mid and long samples |
| `UserStats.User.RefreshStats` | src/stats.c:108-123 | The same when the newest sample is added to |
| `Registry.GetUserAccount` | src/user_account.c:59-133 | The account of a name: the first answer for a user is kept |
| `UserStats.User.Sample` | src/calc_stats.c:118-132 | A sample within a tick is added to the newest one, the first of a tick is pushed |
| `UserTables.UserTable.constructor` | src/calc_stats.c:73-79 | An empty table |
| `UserTables.UserTable.Add` | src/stats.c:31-53 | A new object with its own ring joins the table; all other users keep theirs |
| `UserTables.UserTable.Give` | src/calc_stats.c:118-132 | One user's object is given a sample; no other user's record changes, although the objects are shared with the accounts |
| `UserTables.UserTable.TickEmptyUsers` | src/calc_stats.c:148-158 | Who got no sample in this tick gets a zero, the others nothing |
| `UserTables.UserTable.Kept` | src/calc_stats.c:160-196 | What happens to accounts leaves the users' objects as they are |
| `AccountTables.AccountTable.constructor` | src/calc_stats.c:73-79 | An empty table |
| `AccountTables.AccountTable.AddUser` | src/user_account.c:28-44 | The user's object joins the array of its account, a fresh account if need be; no other account changes |
| `AccountTables.AccountTable.CalcAccStats` | src/calc_stats.c:160-196 | An account's usage becomes the sum over the shared objects of its users; users and other accounts stay |
| `AccountTables.AccountTable.CalcAccounts` | src/calc_stats.c:160-196 | So for all accounts, in any order |
| `AccountTables.AccountTable.AnalyzeAccount` | src/calc_stats.c:596-717 | One account takes the step of its mode and queues the batch of that step for its users |
| `AccountTables.AccountTable.AnalyzeAccounts` | src/calc_stats.c:1057-1064 | So for all accounts; the batches are queued one after the other in the order of the walk |
| `AccountTables.PartsOf` | src/calc_stats.c:167-171 | What the objects in an account's array contribute is what the histories of its members determine |
| `TickGenerator.AddUserStats` | src/user_account.c:28-44 | An unknown user gets an object and a place in its account's array; the arrays stay a partition of the users |
| `TickGenerator.AddNewStats` | src/calc_stats.c:97-135 | An unknown user joins first, then the sample is given |
| `TickGenerator.FeedSamples` | src/calc_stats.c:1049-1052 | Every user with a counter is given its sample, the others are as before |
| `TickGenerator.RecordSamples` | src/calc_stats.c:1049-1055 | After both walks every user has exactly one new sample, zero without a counter |
| `TickGenerator.TickConserves` | src/calc_stats.c:160-196 | After a tick the usages of all accounts add up to the contributions of all users, restrictions and releases notwithstanding |
| `TickGenerator.TickIsStep` | src/calc_stats.c:650-717 | Summing an account up and analysing it is the tick event that the run theorems are about, with the sum of its users' contributions |
| `TickGenerator.DbctlRestrictSet` | src/calc_stats.c:1309-1389 | When the walk reaches an account: a user that nobody knew joins its account first, which is then the one restricted; otherwise the account reached is, exactly if it has that name or a user of that name; FREEZE for each of its users or nothing; all other accounts stay |
| `TickGenerator.Generator.constructor` | src/calc_stats.c:73-79 | Empty tables |
| `TickGenerator.Generator.ProceedAccounts` | src/calc_stats.c:1040-1064 | One tick over the object graph: every user gets exactly one sample, every account takes its step with the sum of its users' contributions, the batches are queued in the order of the walk, and the totals are conserved |
| `TickGenerator.Generator.AddEmptyStatsForUid` | src/calc_stats.c:137-146 | A user becomes known with an empty history |
| `TidTable.Threads.AddNewTidData` | src/tid_table.c:132-181 | A begun thread keeps the larger of old and new readings |
| `TidTable.Threads.RemoveTidData` | src/tid_table.c:237-247 | Removes exactly that thread |
| `TidTable.Threads.RemoveTidDataByFd` | src/tid_table.c:249-268 | Removes exactly the threads of that connection |
| `TidTable.Threads.IncrementCounters` | src/tid_table.c:280-315 | Adds to the user's counter, or creates it with the time of the readings |
| `TidTable.Threads.AddToCounters` | src/calc_stats.c:1186-1227 | Charges increases only, per second over more than a second, nothing when the clock went back |
| `TidTable.Threads.EndMessage` | src/governor_server.c:507-519 | A known thread is charged and removed, an unknown one ignored |
| `TidTable.Threads.ChekUserPerf` | src/governor_server.c:530-609 | Charges a thread not read for over a second and takes over its readings, or notes it as gone |
| `TidTable.Threads.ProceedTidData` | src/tid_table.c:270-278 | The walk, then the removal of the threads found gone |
| `TidTable.Threads.ResetCounters` | src/tid_table.c:317-335 | Empties the counter and restarts its time |
| `TidTable.Threads.TakeSamples` | src/calc_stats.c:719-747 | One sample of every counter, and every counter reset |
| `Container.LveThread.GrLveBegin` | src/ld.c:59-68 | State, every intermediate state and hook calls of the specification |
| `Container.LveThread.GrLveEnd` | src/ld.c:70-79 | The same |
| `Container.LveThread.EnterMutex` | src/ld.c:94-100 | Leaves the container before the first mutex |
| `Container.LveThread.LeaveMutex` | src/ld.c:102-110 | Re-enters after the last |
| `Container.LveThread.RunHook` | src/ld.c:59-110 | Mutex calls made by a hook itself change nothing and call no hook |
| `Container.LveThread.PthreadMutexLock` | src/ld.c:114-146 | Lock and trylock: state, intermediate states, hook calls |
| `Container.LveThread.PthreadMutexUnlock` | src/ld.c:148-160 | The same for unlock |
| `UserMap.ScanLine` | src/dbuser_map.c:81-141 | The three fields of a line up to blanks; no buffer overflows |
| `UserMap.TrimBuffer` | src/dbuser_map.c:35-46 | Removes spaces and newlines |
| `UserMap.DbUserMap.ReadLine` | src/dbuser_map.c:142-192 | One line enters at most one user, the first time it is seen with a usable uid |
| `UserMap.DbUserMap.GetMapFile` | src/dbuser_map.c:59-197 | The map is that of the whole file, empty when it cannot be opened |
| `PeriodString.ParsePeriod` | src/governor_config.c:196-222 | The loop with its digit buffer computes the parse that the lemmas are about |
| `PeriodString.GetSecondsOf` | src/governor_config.c:166-192 | Value times unit in unsigned arithmetic |

## Left out

- TickGenerator.Generator.ProceedAccounts: the order in which the hash tables are walked is any order; a user's pointer back to its account is kept as the account's name; the intervals by which the rings are sized stay as configured at the start.
- Agreement.AgreementIffWindow: assumes, like Agreement.PeriodAgreementIffUnlimited, that no command is appended between the copy and the clearing of the list (what happens otherwise is in `CommandQueue`), that the semaphore is obtained, and that users and limits of the accounts stay as they are. Ticks and commands take the accounts' lock one after the other and append their batches user by user, and the sending interleaves freely with that.
- LimitMode.RestrictedIffInForce: one account's limits and the configuration are fixed during a run; an account in IGNORE mode is included.
- Accounts.Account.DbctlRestrictSet: one account whose users are known; the record that the source first adds for an unknown user is in TickGenerator.DbctlRestrictSet. Which accounts the walk visits after that insertion into the table it walks over is left open by GLib and not modelled.
- FifoStats.Fifo.Avg: averages are over reals and unbounded integers; rounding of doubles and overflow of long long are not modelled, and intervals of 0, by which the source would divide, are excluded.
- UserMap.RoundTrip: uids from 2^31 on, which atoi cannot read, and NUL characters in the file are excluded.
- PeriodString.ParsePeriod: sscanf of a number above 32 bits is taken to wrap, as glibc does.
- Detection.ConsumedMeansCause: readings more than a second apart are charged as a rate, so that for them only the demand of Undercharge.ChargedMeetsDemand reaches the counter; a thread that is lost takes the rise since its last reading with it.
- Container.LveThread.PthreadMutexLock: hooks are set and the real functions resolved; removing the hooks during a session and the EINVAL path are not modelled, nor are mutexes that a thread held before its session began.
- Container.LveThread.PthreadMutexUnlock: the same holds of it.
- Reloading the dbuser map during a run, which empties the bad list without unrestricting accounts.
- The client's semaphore protocol: it posts even when it gave up waiting, so mutual exclusion is not claimed.
- SQL statements for connection limits, scripts, logging and restriction statistics that accompany a FREEZE or UNFREEZE.
- Sockets, the poll loop, `/proc`, process and shared memory set-up: operating system calls.
- The XML configuration, dbctl and dbtop, statistics files, the slow query killer, and the installer.
