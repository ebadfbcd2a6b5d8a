# A verified model of the companion runtime's stateful core

The runtime keeps little state of its own, but what it keeps it promises to keep well: mail that is not lost, settings a
user typed that no upgrade overwrites, learned patterns that count what they saw, budgets and limits that hold, verdicts
that mean what they say, and two network clients that end exactly once. This project states those promises about a model
of the code and proves them, over every input, every run and every interleaving the code allows.

One module per component, in the program's own order of dependence:

| file | component |
|---|---|
| `RateLimiter.dfy`, `MailStore.dfy`, `Relay.dfy` | the mailbox relay: request counter, store, and the five endpoints over both |
| `SettingValues.dfy`, `SettingsDocument.dfy` | setting values with their lenient equality; the settings file as lines and its in-place editor |
| `BootPass.dfy`, `BootRuns.dfy`, `SettingsFile.dfy` | the boot pass, runs of boots over changing registries, and the file with its writer |
| `LegacyFold.dfy` | folding the old JSON settings, by several processes that may stop anywhere |
| `ModelChoice.dfy`, `ModelMigration.dfy` | model settings per job; folding per-persona models as interleaved steps |
| `LearnedPatterns.dfy`, `PatternLife.dfy` | the append-only pattern log and its operations; counters, once-only crystallisation and grounding over whole lives |
| `Sampling.dfy`, `Budget.dfy`, `Backfill.dfy` | windows, clusters and the stratified sample; the daily budget; the resumable backfill |
| `Fisher.dfy`, `CacheBreak.dfy`, `RowAttribution.dfy` | the one-sided Fisher gate, the cache-break verdict, rows credited to turns |
| `StreamClient.dfy`, `EventsClient.dfy` | the two WebSocket clients as event automata |
| `Wrappers.dfy` | option and result types, counting facts |

Where the code updates objects in place the model has a class whose methods do the same, each proved to compute a
specification function of its old state; the theorems over runs are then lemmas about those functions. Protocols of several
processes (the two migrations) and callback code (the two clients) are state machines over their steps. `dafny verify
dfyconfig.toml` checks everything.

## Where the code and its own words differ

The model follows the code in each case.

- **Rate limiter.** Any window-long interval holds at most `2 * max - 1` allowed requests, one fewer than the usual bound for
  fixed windows, and that bound is met (`RateLimiter.IntervalBound`, `RateLimiter.IntervalBoundIsMet`).
- **Fisher gate.** The module says that below five OLD turns not even zero NEW turns can reach p < 0.05. They can at each of
  one to four OLD turns, exactly when the NEW arm is long enough (`Fisher.ZeroBelowFive`, from `Fisher.ZeroSignificantExactly`;
  over nineteen times the OLD arm always is, `Fisher.LongEnoughArm`): one OLD turn of one against none of twenty gives 1/21
  (`Fisher.OneTurnIsHidden`). With arms of one size it takes four OLD turns and at most fifteen turns an arm
  (`Fisher.WhenZeroIsSignificant`, `Fisher.FourIsHidden`).
- **Relay memory.** With ownership proofs off, acknowledgements that name unknown mailboxes leave empty queue records without
  bound, one a window from a counted host already (`Relay.OpenRecordsUnbounded`); with them on the record table is bounded
  too (`Relay.RecordsBounded`).
- **Comments in the settings file.** The placing of descriptions promises never to replace a line the user wrote. A user's note
  goes all the same exactly when it stands directly above a recorded default, looks like a description while the line above
  it does not, and the registered description is nowhere in the run (`BootRuns.NoteLostExactly`, `BootRuns.OwnNoteReplaced`).
- **Daily budget.** At any cap, a day is charged more than the cap exactly when it has more attempts than the cap and they do
  not all follow one another: a date that comes back after another one, as a run that goes on past midnight beside one under
  the new date brings it back, is counted anew (`Budget.CapHoldsExactly`; an overshooting run at every cap is
  `Budget.ReturnOvershoots`).
- **Example cap.** The cap of five examples is not applied to a pattern's first confirmation: a pattern holds more than five
  exactly while it was confirmed once only, by more than five quotes (`PatternLife.ExamplesCapped`); a life that ends with six,
  or any number, is `PatternLife.FirstConfirmationKeepsAll`.
- **Legacy fold.** A fold whose boot pass is skipped for want of the lock, but whose write then gets it, still archives the
  old file. `LegacyFold.SkippedBootLosesExactly` says for every file and setting exactly when the value after the next boot
  is then another than an undisturbed start makes it; `LegacyFold.SkippedBootExample` is such a file.
- **Model migration.** A persona the decision considered is applied after all by a process that found the marker and could not
  read it, and by no other (`ModelMigration.ConsideredAppliesExactly`, `ModelMigration.UnreadableMarkerApplies`). A rewrite of a
  late persona's file, whatever the file says by then, accounts for a value exactly if the file it read was a Claude one with
  that value for that job (`ModelMigration.LostExactly`); so a file imported between the read and the rewrite is lost
  (`ModelMigration.ArrivalInBetweenIsLost`).
- **Stream client.** The user's message can be sent twice (`StreamClient.MessageSentTwice`): exactly in the runs in which,
  before any cancel, a socket opened, was closed with an authentication code before a started frame, and another one opened
  (`StreamClient.SentTwiceExactly`); the second send is the opening of the retry's socket (`StreamClient.SecondSendExactly`).

## Model

| member | source | states |
|---|---|---|
| RateLimiter.Limiter.Allow | relay/dev_relay.py:57-70 | One check answers and updates the table as specified, an unresolvable host being always let through |
| RateLimiter.PruningIsInvisible | relay/dev_relay.py:47-70 | Over any run whose clock does not run back, dropping stale windows never changes an answer |
| RateLimiter.FirstMaxOfEachWindow | relay/dev_relay.py:65-70 | Exactly the first `max` requests a host makes in each of its windows are allowed |
| RateLimiter.OnlyLiveWindowsKept | relay/dev_relay.py:60-64 | After a check that names a host only windows still live are kept |
| RateLimiter.WindowsApart | relay/dev_relay.py:65-70 | Two arrivals share a window with growing rank or lie in windows that open a full length apart |
| RateLimiter.IntervalBound | relay/dev_relay.py:57-70 | Any interval one window long lets through at most 2 max - 1 requests of a host |
| RateLimiter.IntervalBoundIsMet | relay/dev_relay.py:57-70 | That bound is reached, for every max and every window of two ticks or more |
| RateLimiter.RunIntervalBound | relay/dev_relay.py:57-70 | The same bound for what the pruning limiter answers in a run with other hosts' requests in between |
| MailStore.Store.Prune | relay/dev_relay.py:83-91 | Exactly the nonces still strictly before their expiry survive, and no empty record is left |
| MailStore.Store.EvictOldestEmpty | relay/dev_relay.py:126-136 | The oldest unregistered mailbox with nothing queued goes, and nothing else changes |
| MailStore.Store.Deposit | relay/dev_relay.py:138-158 | A deposit is refused for the relay's reasons in the relay's order, or is appended to the recipient's queue under the next id |
| MailStore.Store.RegisterMailbox | relay/dev_relay.py:115-124 | First registration wins, promotes an unregistered mailbox with its mail, and respects the cap |
| MailStore.Store.Acknowledge | relay/dev_relay.py:163-165 | Exactly the named ids leave that mailbox's queue |
| MailStore.EvictFindsEmpty | relay/dev_relay.py:126-136 | Eviction succeeds exactly when some unregistered mailbox is empty |
| MailStore.EvictKeeps | relay/dev_relay.py:126-136 | Eviction shrinks the pool by one mailbox and changes no queue, owner or nonce anyone can look at |
| MailStore.AdmitKeeps | relay/dev_relay.py:147-155 | Making a mailbox known keeps all bounds and every queue |
| MailStore.PushKeeps | relay/dev_relay.py:138-158 | A deposit changes one queue, its own, by appending; owners and nonces stay; all bounds are kept |
| MailStore.PushRejects | relay/dev_relay.py:138-158 | Each reason for refusing a deposit occurs exactly under its own condition, and a refusal loses no mail |
| MailStore.TotalMailBound | relay/dev_relay.py:109-165 | All undelivered mail is at most (maxRegistered + maxUnregistered) * maxDepth |
| MailStore.FloodCannotLockOut | relay/dev_relay.py:115-158 | After any number of deposits every owner is in place and every mailbox can be registered exactly as before |
| Relay.Server.Authorise | relay/dev_relay.py:188-205 | The ownership proof as the server runs it, burning the nonce on success only |
| Relay.Server.Handle | relay/dev_relay.py:223-284 | One request: counted first, then served, with the answer and new state specified |
| Relay.EveryRequestCounted | relay/dev_relay.py:223-234 | Every request of a run is counted, and one the limiter refuses changes nothing in the store |
| Relay.MemoryBounded | relay/dev_relay.py:109-165 | In every reachable state pools are disjoint and capped, queues capped and of known mailboxes, nonces of owners only |
| Relay.OwnerFixed | relay/dev_relay.py:115-124 | Whoever owns a mailbox after part of a run owns it for the rest |
| Relay.QueuesAsExpected | relay/dev_relay.py:138-165 | Every queue is what the answered requests alone say, whatever pools, caps and eviction did |
| Relay.MailConserved | relay/dev_relay.py:138-165 | An envelope waits exactly if it was accepted, unchanged, for that mailbox and no later granted ack named that mailbox and id |
| Relay.FetchedExactly | relay/dev_relay.py:271-276 | A fetch is answered with mail exactly if the limiter lets it through and proofs are off or the proof is good, and then with all accepted and not acknowledged, in order |
| Relay.HandedOutExactly | relay/dev_relay.py:271-276 | A granted fetch hands out an envelope exactly if it was accepted for that mailbox and no granted ack came since |
| Relay.AckedExactly | relay/dev_relay.py:278-284 | An acknowledgement is granted under the same condition |
| Relay.RegisteredExactly | relay/dev_relay.py:236-255 | Registrations and challenges are answered by who registered first, the pool cap, and ownership |
| Relay.DepositedExactly | relay/dev_relay.py:257-269 | How a deposit is answered: each refusal with its status, otherwise one more than the number accepted before |
| Relay.AcceptanceOrder | relay/dev_relay.py:138-165 | Every queue is in acceptance order and holds no id twice |
| Relay.IdsNeverRepeat | relay/dev_relay.py:155-158 | No two accepted envelopes of a run share an id |
| Relay.AuthExactly | relay/dev_relay.py:188-205 | The proof passes exactly for the owner's key, a signature that checks and an unexpired nonce of that mailbox |
| Relay.NonceSingleUse | relay/dev_relay.py:188-205 | A request let through on a nonce rides on an earlier challenge of that mailbox, strictly before expiry, as its first use |
| Relay.FreshNonceOpensOnce | relay/dev_relay.py:246-255 | With distinct draws a nonce opens at most one request of the run, for one mailbox |
| Relay.NonceOpensExactly | relay/dev_relay.py:188-205 | With a clock that does not run back a nonce signed by the owner opens a fetch exactly if it was issued to that mailbox less than two minutes before and not used since |
| Relay.RecordsBounded | relay/dev_relay.py:160-165 | With ownership proofs the queue table has no more records than the pools have places |
| Relay.OpenRecordsUnbounded | relay/dev_relay.py:278-284 | Without them, n stray acknowledgements leave n empty records, from a host that cannot be told or one the limiter counts |
| SettingValues.EqualMeansCanonical | brain/tunables.py:403-411 | The lenient comparison holds exactly when both values have one representative |
| SettingValues.EqualIsEquivalence | brain/tunables.py:403-411 | So it is reflexive (NaN included), symmetric and transitive |
| SettingsDocument.ViewOfParts | brain/utils/toml_io.py:264-284 | A file in two stretches says about a key what they say together, the shallowest spelling giving the value |
| SettingsDocument.ShallowestGives | brain/utils/toml_io.py:264-284 | The value of a key is that of its first entry at the least depth |
| SettingsDocument.SingleExactly | brain/utils/toml_io.py:602-612 | An entry can be edited exactly if it is the only one of its key and stands on a line of its own; a key is ambiguous exactly if it has two entries |
| SettingsDocument.TomlDocument.SetValue | brain/utils/toml_io.py:626-636 | One entry's value changes in place |
| SettingsDocument.TomlDocument.SetCommentAbove | brain/utils/toml_io.py:680-692 | The comment run above one entry is replaced in place |
| SettingsDocument.TomlDocument.Insert | brain/utils/toml_io.py:638-664 | A new entry goes before the first table header's comments or at the end, set off by blank lines |
| SettingsDocument.InsertedWhere | brain/utils/toml_io.py:638-664 | A new entry belongs to no table: no header stands before it, and the first one keeps all its comments; the lines added are blank ones around the entry and its comments |
| SettingsDocument.WithValueView | brain/utils/toml_io.py:626-636 | Setting a value changes what the file says about that key alone, and only the value |
| SettingsDocument.WithAboveView | brain/utils/toml_io.py:666-692 | Replacing comments changes what the file says about that key alone, and only the comments |
| SettingsDocument.WithEntryView | brain/utils/toml_io.py:638-664 | An inserted entry reads back with its value and comments, and nothing else changes |
| SettingsDocument.EditUndone | brain/utils/toml_io.py:626-636 | Setting a value and setting the old one back gives back the very file |
| BootPass.FindRecordedDefault | brain/tunables.py:423-433 | The last recorded-default line of a run and its value if it parses |
| BootPass.PlaceDescription | brain/tunables.py:452-473 | Where the registered description goes, and the one case in which it replaces a line |
| BootPass.ApplySync | brain/tunables.py:476-523 | The pass over the registry, with the values it means to have changed or added |
| BootPass.CommentsKept | brain/tunables.py:452-473 | All lines from the recorded default down survive; above it at most the line directly above is replaced |
| BootRuns.CommentsLost | brain/tunables.py:452-473 | No comment line goes but the recorded default and at most one description-shaped line directly above it |
| BootRuns.NoteLostExactly | brain/tunables.py:452-473 | Exactly when a comment line other than a recorded default is lost, the user's own notes included |
| BootRuns.OwnNoteReplaced | brain/tunables.py:452-473 | One run in which the user's note is replaced |
| BootPass.SyncedAboveRecords | brain/tunables.py:509-515 | Afterwards the comments record a default equal to the registered one |
| BootPass.SyncOneView | brain/tunables.py:490-522 | One setting's step changes what the file says about that setting only |
| BootPass.NewEntryExactly | brain/tunables.py:496-499 | A setting the file lacks appears with its default, the default recorded above it, and its description if it has one |
| BootRuns.SyncView | brain/tunables.py:476-523 | The whole pass treats every registered setting on its own and leaves all other keys alone |
| BootRuns.SyncTwice | brain/tunables.py:476-523 | A second pass with the same registry changes no line of any file |
| BootRuns.SyncValue | brain/tunables.py:480-488 | A value changes exactly if its entry is missing, or is equal to the default its comments record while the registered one is not |
| BootRuns.ChangedOnlyIfSuperseded | brain/tunables.py:507-509 | If an entry's value changes, its comments recorded a default equal to the old value and not to the registered one |
| BootRuns.SyncReadsBack | brain/tunables.py:549-559 | What the pass reports as intended is what reading the result gives: the check before the write cannot fail |
| BootRuns.OwnLinesKept | brain/tunables.py:480-488 | The user's own lines come through a pass unchanged and in the same order |
| BootRuns.RunTracks | brain/tunables.py:476-523 | Over any run of boots, with any edits of other things between, a setting depends only on its start and the defaults it met |
| BootRuns.FateOfAValue | brain/tunables.py:507-515 | A value is kept until the first boot that finds it equal to a superseded default; from then on it follows the shipped default |
| BootRuns.FirstMoveChanges | brain/tunables.py:507-509 | That first boot really changes it |
| BootRuns.UneditedFollowsTheDefault | brain/tunables.py:480-488 | A setting the user never edited equals the current default after every boot that registers it |
| BootRuns.UserValueSurvives | brain/tunables.py:480-488 | A value survives every boot unless a boot finds it equal to the default then recorded and comes with one that is not |
| BootRuns.ChoiceSurvives | brain/tunables.py:480-488 | A value equal neither to the default first recorded nor to any default the boots register, the last aside, is the very same at the end |
| SettingsFile.SettingsStore.SyncFile | brain/tunables.py:526-581 | The boot pass on the file: skipped, unreadable and unchanged files are not written |
| SettingsFile.SettingsStore.SetValues | brain/tunables.py:584-663 | One call of the writer, with every refusal |
| SettingsFile.SetExactly | brain/tunables.py:602-648 | A call fails with the file untouched or gives each setting exactly its wanted target and changes nothing else |
| SettingsFile.SetSays | brain/tunables.py:602-648 | After a call that goes through a named setting says its target, or still nothing if the target equals its default; guarded, only where the file said nothing or the default; all else as it was |
| SettingsFile.SetGoesThrough | brain/tunables.py:602-663 | Exactly when a call goes through |
| SettingsFile.SetEndsExactly | brain/tunables.py:602-663 | Every way a call ends: each refusal under its own condition, in order, told by what the file says |
| SettingsFile.PutSucceeds | brain/tunables.py:618-640 | The edit gives up exactly when a setting to be written has no single editable entry |
| SettingsFile.GuardedKeepsChoices | brain/tunables.py:624-629 | With the only-if-default guard no value that differs from its default ever changes |
| SettingsFile.ResetGivesTheDefault | brain/tunables.py:584-592 | A reset leaves the default, or leaves an absent entry absent |
| LegacyFold.Home.MigrateLegacyJson | brain/tunables_migration.py:119-188 | One call of the fold over settings file and old file |
| LegacyFold.CarriedExactly | brain/tunables_migration.py:67-98 | Exactly which values are carried, the old throttle value under its new name included |
| LegacyFold.FoldAfterSync | brain/tunables_migration.py:120-140 | A fold that stopped after the boot pass changes nothing about the next one's outcome |
| LegacyFold.FoldAfterPut | brain/tunables_migration.py:159-173 | Nor does one that stopped after writing, even with its boot pass skipped |
| LegacyFold.PutStaysSynced | brain/tunables.py:507-515 | A written setting is left alone by the next boot |
| LegacyFold.BootWrites | brain/tunables.py:526-581 | The boot pass writes what it computes unless the lock, the disk or an unreadable file stops it |
| LegacyFold.AnyFoldsAreOneFold | brain/tunables_migration.py:119-173 | Any interleaving of folds by any number of processes, each with its own part of the registry and stopped anywhere, gives each setting what one undisturbed fold with the whole registry gives it |
| LegacyFold.FoldIsSteps | brain/tunables_migration.py:119-173 | A fold touches the settings by its boot step and, only if it can place all or registers all, its write step; the old file goes only after its values are written |
| LegacyFold.ArchivedExactly | brain/tunables_migration.py:117-173 | The old file goes exactly when it has zero bytes, or it parses, all it carries is registered or the process registers all there is, and the write of what is registered goes through; one that does not parse stays |
| LegacyFold.FoldedValue | brain/tunables_migration.py:156-173 | The value after a fold; a value the user already changed always survives |
| LegacyFold.StartArchives | brain/bridge/server.py:1352-1366 | An undisturbed start of the bridge archives the old file exactly when every setting to be written can be |
| LegacyFold.CommandFoldIsBridgeFold | brain/tunables_migration.py:148-158 | A command with a partial registry folds all or nothing: whether it folds, fails or stands aside, the bridge's next start ends with the same settings and the same old file as that start alone, unless the command archived after a skipped boot pass (next rows) |
| LegacyFold.SkippedBootLoses | brain/tunables_migration.py:119-173 | For any entry, a missing one included, exactly when writing first and running the boot pass later ends in another value than the right order |
| LegacyFold.SkippedBootLosesExactly | brain/tunables_migration.py:119-173 | A fold, by a command or the bridge, whose boot pass was skipped archives only where an undisturbed start would have, and after the next boot a setting differs exactly in those cases, if the file was there |
| LegacyFold.SkippedBootExample | brain/tunables_migration.py:119-173 | One such file: the old value 5 is archived and the setting ends as 2 |
| ModelChoice.WinnerUpdates | brain/model_migration.py:134-149 | The loops over candidates compute, per job, the first holder's resolved value unless it is the shipped default |
| ModelChoice.NewestHolderWins | brain/model_migration.py:130-149 | Per job the most recently opened candidate that holds a value wins, the first by name on a tie |
| ModelChoice.WinnersWritten | brain/bridge/model_tier.py:443-488 | A chosen job keeps its setting; a job at its default takes the winner's |
| ModelChoice.WinnersDecide | brain/model_migration.py:130-149 | Writing the winners of a list, newest first, gives every job that is not chosen a newest holder's value, and touches no other |
| ModelMigration.ChosenStaysOverRuns | brain/model_migration.py:167-280 | Over any run no migration step changes a job whose setting differs from its shipped default |
| ModelMigration.MarkerWrittenOnce | brain/model_migration.py:167-216 | However processes start, stop or race, the decision is recorded at most once and stays |
| ModelMigration.LockNeverLeaks | brain/model_migration.py:167-216 | In every reachable state the migration lock is free or held by a process at work under it |
| ModelMigration.MarkerTellsTheDecision | brain/model_migration.py:100-216 | Where the marker appears, one process had set the jobs under the lock from exactly the candidates, at least one, it read among all personas listed; every job not chosen took a newest holder's value |
| ModelMigration.DecisionGoesThrough | brain/model_migration.py:167-216 | A process alone with one candidate does decide, writing its values and recording it |
| ModelMigration.ConsideredAppliesExactly | brain/model_migration.py:156-262 | Over any run a process for a considered persona with a valid Claude value goes on to apply it exactly if the look that found the marker could not read it |
| ModelMigration.ReadsItsFileExactly | brain/model_migration.py:239-262 | What a process does with its persona's file, by the file, the decision and whether it could read the marker |
| ModelMigration.ConsideredNeverApplies | brain/model_migration.py:167-262 | Once decided, a process for a considered persona that is not going by an unreadable marker writes no setting by any step |
| ModelMigration.RemovedOnlyWhenAccounted | brain/model_migration.py:239-280 | A valid saved Claude value leaves its file only by its persona's rewrite; if the read before it found the value, it was applied since, or a decision considered the persona and wrote it, found it the default, or saw it beaten by a choice or a candidate not older |
| ModelMigration.LostExactly | brain/model_migration.py:239-280 | Of a persona not considered, none of whose other processes applied since the read, a value is accounted for since that read exactly if the file read was a Claude one with that value for that job |
| ModelMigration.LateFate | brain/model_migration.py:219-236 | A late application takes, loses to a choice, or equals the default exactly as recorded |
| ModelMigration.RecordsTellTheTruth | brain/model_migration.py:219-236 | Every record a step adds says what that very step did to the setting |
| ModelMigration.FailedWriteChangesNothing | brain/model_migration.py:190-236 | A write of the settings that does not reach the disk changes no setting |
| ModelMigration.BreaksOff | brain/model_migration.py:176-216 | A start that is killed leaves no lock behind and changes nothing else; one without the lock, or without a candidate, goes on to its own file with no decision made |
| ModelMigration.LateGoesThrough | brain/model_migration.py:219-280 | A process alone, for a persona the decision did not know, applies its values and clears its file |
| ModelMigration.UnreadableMarkerApplies | brain/model_migration.py:156-164 | Over any run the value of a considered persona is taken over a default setting exactly by a process that found the marker unreadable |
| ModelMigration.BlindFromTheStart | brain/model_migration.py:156-164 | The shortest run that makes a process so, exactly if its look could not read |
| ModelMigration.ArrivalInBetweenIsLost | brain/model_migration.py:239-275 | A file that arrives between read and rewrite is overwritten, its value for a job not accounted for if the file read had another there, whatever was recorded before |
| LearnedPatterns.ValidateGrounded | brain/attunement/store.py:297-313 | Exactly the candidates whose every quote is found in the turn it names pass |
| PatternLife.GroundedExactly | brain/attunement/store.py:297-313 | A candidate is accepted exactly if it has evidence, two pieces if relational, each found word for word, normalised, in the last turn with its id |
| LearnedPatterns.LearnedStore.Read | brain/attunement/store.py:113-125 | Reading the log gives the last entry per id, ids in order of first appearance |
| LearnedPatterns.LearnedStore.Merge | brain/attunement/store.py:140-212 | Merging with the map kept in memory leaves the log a fresh read before every candidate would |
| LearnedPatterns.LearnedStore.ApplyContradiction | brain/attunement/store.py:215-260 | One contradiction appended as specified, nothing for an unknown id |
| LearnedPatterns.LearnedStore.MarkAddressed | brain/attunement/store.py:263-294 | The map read once gives the rows a fresh read for each id would |
| LearnedPatterns.LearnedStore.CheckCrystallisations | brain/attunement/crystallise.py:25-54 | The pass appends and announces exactly what reading afresh for each pattern would |
| LearnedPatterns.MergeOneMore | brain/attunement/store.py:140-212 | At every point of the merge the map in memory equals replaying the file |
| PatternLife.AfterInParts | brain/attunement/store.py:140-294 | Attempts made in two parts are the attempts made in one go |
| PatternLife.MergeInParts | brain/attunement/store.py:140-212 | Merging a batch equals merging its parts one after another |
| PatternLife.PatternTellsItsHistory | brain/attunement/store.py:132-260 | Count, maturity and falsification mark are functions of the pattern's own confirmations and contradictions |
| PatternLife.MaturityMeansCount | brain/attunement/store.py:132-137 | Known is ten or more, forming three to nine, below three falsified exactly after a contradiction |
| PatternLife.OriginKept | brain/attunement/store.py:140-294 | First-seen time, category, key and a crystallisation time never change |
| PatternLife.CrystallisedIsAnnounced | brain/attunement/crystallise.py:25-54 | A pattern bears a crystallisation time exactly if it was announced |
| PatternLife.AnnouncedOnce | brain/attunement/crystallise.py:25-54 | Over a whole run no pattern is announced twice |
| PatternLife.AnnouncedWhenKnown | brain/attunement/crystallise.py:25-54 | An announcement is made only for a pattern known at that moment |
| PatternLife.PassAnnouncesAllDue | brain/attunement/crystallise.py:25-54 | A pass announces exactly the patterns known and not announced yet, marks those, and leaves all others alone |
| PatternLife.ConfirmedExactly | brain/attunement/store.py:170-212 | First seen and filed as its first accepted confirmation said, described and last confirmed as the latest did |
| PatternLife.MarkedExactly | brain/attunement/store.py:215-294 | When it was last addressed, and since when it has been falsified |
| PatternLife.ExamplesGrounded | brain/attunement/store.py:170-212 | Every example held came in by an accepted confirmation of that pattern and was found then, normalised, in the turn it named |
| PatternLife.ExamplesCapped | brain/attunement/store.py:170-212 | Over a life a pattern holds the latest five of all quotes accepted for it, but all it came with if confirmed once; more than five exactly then |
| PatternLife.FirstConfirmationKeepsAll | brain/attunement/store.py:170-212 | A life of one confirmation with n quotes leaves n examples, six of six among them |
| Sampling.WindowBuffer | brain/attunement/backfill.py:508-528 | The walk over the buffer makes the specified windows |
| Sampling.WindowAt | brain/attunement/backfill.py:508-528 | Window j starts j strides in and holds the turns from there on |
| Sampling.WindowCount | brain/attunement/backfill.py:508-528 | There are 1 + ceil((n - size) / stride) windows when they overlap or touch |
| Sampling.CoversEveryTurn | brain/attunement/backfill.py:508-528 | No turn is left out exactly when n <= size or stride <= size |
| Sampling.ClusterWindows | brain/attunement/backfill.py:54-74 | The clustering loops compute the greedy clusters |
| Sampling.SimilarExactly | brain/attunement/backfill.py:43-51 | Two windows are alike exactly if they have no more words apart than in common, the empty ones included |
| Sampling.ClustersAreGreedy | brain/attunement/backfill.py:54-74 | Clusters partition the windows in order; each window is with the first head it resembles, so heads are pairwise unlike |
| Sampling.SelectSample | brain/attunement/backfill.py:77-117 | Both passes together take the first `target` windows of the round-robin walk |
| Sampling.WalkVisitsAll | brain/attunement/backfill.py:99-115 | The walk visits every window exactly once |
| Sampling.SampleSize | brain/attunement/backfill.py:77-117 | A sample has no duplicates and exactly min(target, n) members |
| Sampling.SampleIsFair | brain/attunement/backfill.py:77-117 | No cluster gives its (j+1)-th window before every cluster has given min(size, j) |
| Budget.BudgetFile.GetRemaining | brain/attunement/budget.py:76-88 | What is left today; nothing when the record cannot be read |
| Budget.BudgetFile.ConsumeCall | brain/attunement/budget.py:91-114 | A charge is made or refused as specified, a refused one saving nothing |
| Budget.CheckThenCharge | brain/attunement/budget.py:66-114 | Under the lock a charge succeeds exactly when the check left something, and leaves one less |
| Budget.CapHoldsExactly | brain/attunement/budget.py:91-114 | At every cap and for every day the cap holds exactly when the day has no more attempts than the cap or they all follow one another |
| Budget.EveryCapHoldsExactly | brain/attunement/budget.py:91-114 | A run of dates keeps every cap for every day exactly when no date comes back after another was used |
| Budget.ReturnOvershoots | brain/attunement/budget.py:91-114 | At every cap, a run that charges a day once more than the cap |
| Backfill.NeverBoth | brain/attunement/backfill.py:196-234 | The full and the supplementary trigger are never both true |
| Backfill.OlderIsStrict | brain/attunement/backfill.py:230-248 | The order of parsed schema versions is strict and total |
| Backfill.OutdatedExactly | brain/attunement/backfill.py:230-248 | A record is outdated by a strictly newer version, or by any other text where one does not parse |
| Backfill.DueUntilComplete | brain/attunement/backfill.py:196-234 | Over any starts the pass is due until it is complete: supplementary after an older complete record, otherwise full from ten turns on |
| Backfill.Backfiller.RunBackfill | brain/attunement/backfill.py:345-479 | One run of the loop with every way to stop, over record, budget and merges |
| Backfill.LoopKeeps | brain/attunement/backfill.py:386-461 | Within a run merges go on in order and the record counts them and points at the last |
| Backfill.LoopSaves | brain/attunement/backfill.py:386-479 | A run leaves its own record or has done nothing; only a finished one is complete |
| Backfill.CallsArePaid | brain/attunement/backfill.py:418-445 | Calls not refused are charged once each, and a day's count stays within the cap it is charged under |
| Backfill.CompleteNeedsASuccess | brain/attunement/backfill.py:468-479 | A run is complete only if a call succeeded or none was attempted |
| Backfill.FailingTailRetries | brain/attunement/backfill.py:437-474 | When every window left fails the cursor stays and the pass stays unfinished |
| Backfill.StartKeeps | brain/attunement/backfill.py:349-377 | A start, whichever pass is due, resumes behind everything merged so far |
| Backfill.MergedOnceInOrder | brain/attunement/backfill.py:345-479 | Over any starts, each with the budget as others left it, each window of a pass is merged at most once, in sample order, and the count equals the merges |
| Backfill.LoopCalls | brain/attunement/backfill.py:386-479 | A run merges exactly the windows the model answered on, and completes only when every window from its start on was called |
| Backfill.CompleteCovers | brain/attunement/backfill.py:345-479 | Over any starts, the windows a complete pass did not merge are exactly those whose last call failed, in a start that was answered on another window |
| Backfill.StartTotals | brain/attunement/backfill.py:386-479 | A start adds the candidates of its answers to the record, and crystallises exactly when it completes the pass |
| Backfill.EmittedExactly | brain/attunement/backfill.py:386-479 | Over any starts the record counts the candidates of all answers |
| Backfill.CategoriesKept | brain/attunement/backfill.py:349-377 | A resumed supplementary pass keeps the categories it began with |
| Backfill.StartTimeKept | brain/attunement/backfill.py:352-377 | A record keeps the time the first pass began; a full pass names no categories, a new supplementary one the categories asked for |
| Backfill.CompleteIsFinal | brain/attunement/backfill.py:196-234 | Once complete at the current version no start does anything |
| Backfill.SampledIdsDistinct | brain/attunement/backfill.py:77-117 | The windows a run works on are distinct |
| Fisher.Vandermonde | scripts/replay_tool_oracles.py:98-103 | The terms over all splits add up to the denominator |
| Fisher.PIsAProbability | scripts/replay_tool_oracles.py:98-103 | p lies in (0, 1] and is 1 at the largest possible NEW count |
| Fisher.PGrowsWithNewSuccesses | scripts/replay_tool_oracles.py:98-103 | With margins fixed p never falls as NEW takes more successes |
| Fisher.PCountsLabellings | scripts/replay_tool_oracles.py:98-103 | p is the share of labellings in which NEW gets no more successes than it did |
| Fisher.GateExactly | scripts/replay_tool_oracles.py:105-112 | The gate for any counts: unmeasured below the minimum, a failure exactly if NEW's share is lower and under one labelling in twenty is as extreme |
| Fisher.PAtZeroHalves | scripts/replay_tool_oracles.py:98-103 | With arms of one size p at zero NEW successes is at most 2^-OLD |
| Fisher.VanishedToolFails | scripts/replay_tool_oracles.py:105-112 | Zero NEW turns fail the gate from five OLD turns on, if NEW had at least as many turns |
| Fisher.ZeroSignificantExactly | scripts/replay_tool_oracles.py:98-103 | For arms of any sizes zero NEW turns are significant exactly when the falling factorial of all turns exceeds twenty times that of the OLD ones |
| Fisher.ZeroBelowFive | scripts/replay_tool_oracles.py:21-22 | Below five OLD turns, for arms of any sizes: exactly which NEW arms make zero significant, count by count |
| Fisher.LongEnoughArm | scripts/replay_tool_oracles.py:21-22 | From one OLD turn on, a NEW arm over nineteen times as long makes its zero significant |
| Fisher.OneTurnIsHidden | scripts/replay_tool_oracles.py:105-112 | One OLD turn of one against none of twenty gives 1/21, which the gate leaves unmeasured |
| Fisher.WhenZeroIsSignificant | scripts/replay_tool_oracles.py:21-22 | With arms of one size zero NEW turns are significant exactly from five OLD turns on, or at four with at most fifteen turns |
| Fisher.FourIsHidden | scripts/replay_tool_oracles.py:105-112 | Four of four against none of four gives 1/70, which the gate leaves unmeasured |
| CacheBreak.CheckCacheBreak | scripts/cache_replay_workload.py:658-751 | The loop over rows computes the verdict with its counts and breaks |
| CacheBreak.StableIsLeast | scripts/cache_replay_workload.py:658-751 | The running minimum is the least positive judged read so far |
| CacheBreak.FailsExactly | scripts/cache_replay_workload.py:658-751 | FAIL exactly when a judged row reads zero or more than t percent below every earlier positive judged read; the breaks are those rows |
| CacheBreak.StatusExactly | scripts/cache_replay_workload.py:658-751 | The whole verdict for every log and threshold: what is FAIL, what UNMEASURED and what PASS |
| CacheBreak.ScanLists | scripts/cache_replay_workload.py:658-751 | Every later row is counted as judged or listed as a multi-call or an unusable one |
| CacheBreak.JudgedLocally | scripts/cache_replay_workload.py:658-751 | Whether a row is judged does not depend on later rows |
| CacheBreak.JudgedExactly | scripts/cache_replay_workload.py:658-751 | What it takes to judge a row, in the row's own fields |
| CacheBreak.AppendingKeepsFail | scripts/cache_replay_workload.py:658-751 | Rows added to a run never undo a FAIL |
| CacheBreak.StricterKeepsFail | scripts/cache_replay_workload.py:658-751 | A stricter threshold keeps a FAIL |
| CacheBreak.DroppingMultiCallKeepsStatus | scripts/cache_replay_workload.py:658-751 | Deleting a multi-call row after the first chat row leaves the status |
| CacheBreak.PassAtZeroNeverDrops | scripts/cache_replay_workload.py:658-751 | A pass at threshold zero means the final minimum is the first judged read |
| RowAttribution.ReadRunSlice | scripts/cache_replay_workload.py:241-293 | When a slice is returned, what it holds, and exactly when it is called consistent |
| RowAttribution.CutNeverLowers | scripts/cache_replay_workload.py:236-238 | Cutting bytes in two never lowers the count of non-blank lines |
| RowAttribution.TurnsNeverLower | scripts/cache_replay_workload.py:270-293 | Nor do the recorded boundaries together |
| RowAttribution.AddsUpEverywhere | scripts/cache_replay_workload.py:270-293 | When the counts add up to the whole they add up on both sides of every boundary |
| RowAttribution.EveryLineIsARow | scripts/cache_replay_workload.py:236-238 | There is a row for every non-blank line counted |
| RowAttribution.RowInItsTurn | scripts/cache_replay_workload.py:488-491 | In a consistent slice all non-blank content of row k lies in the byte range of the turn it is credited to |
| RowAttribution.ChatRowInItsTurn | scripts/cache_replay_workload.py:488-491 | In a consistent slice every chat row, whatever other rows lie around it, is credited to a turn whose byte range holds all its non-blank content |
| RowAttribution.ChatRowsKeepTheirTurn | scripts/cache_replay_workload.py:488-491 | Leaving out other rows keeps every chat row with its turn |
| RowAttribution.CutInsideSpace | scripts/cache_replay_workload.py:236-238 | A cut inside a two-byte space raises the count, so it is seen |
| RowAttribution.BlankExactly | scripts/cache_replay_workload.py:236-238 | Bytes count as blank exactly if they are the UTF-8 forms of white-space characters one after another |
| StreamClient.Client.OnMessage | app/src/streamChat.ts:168-216 | One frame: timers, flags and handler call |
| StreamClient.Client.OnClose | app/src/streamChat.ts:224-234 | A close: ignored after the end, retried once, or reported |
| StreamClient.Client.FailWith | app/src/streamChat.ts:127-133 | A failure is reported once, with timers cleared and the socket closed |
| StreamClient.Client.OnCredentials | app/src/streamChat.ts:135-147 | Credentials after a cancel open nothing; otherwise one socket and its open timer |
| StreamClient.EndsAtMostOnce | app/src/streamChat.ts:97-243 | On every event sequence at most one of the done and error handlers is called, once, as the last call |
| StreamClient.ObservedExactly | app/src/streamChat.ts:97-243 | On every possible run the handler calls, messages sent and credential fetches are exactly those the events alone tell |
| StreamClient.FrameReachesItsHandler | app/src/streamChat.ts:168-216 | A frame heard before the end calls its own handler and no other; one heard later calls none |
| StreamClient.TimerExactly | app/src/streamChat.ts:111-166 | Which timer is armed, told from the events |
| StreamClient.QuietAfterTheEnd | app/src/streamChat.ts:97-243 | Once ended nothing is called, sent or fetched any more |
| StreamClient.QuietAfterCancel | app/src/streamChat.ts:239-243 | After a cancel no handler is called |
| StreamClient.NeverHangsSilently | app/src/streamChat.ts:111-166 | No timer is armed once ended; until then credentials are awaited or exactly one timer is armed |
| StreamClient.TimeoutsReport | app/src/streamChat.ts:122-156 | Whichever timer fires ends the stream with an error call |
| StreamClient.NoTimerIsLost | app/src/streamChat.ts:111-156 | No timer handle is overwritten while armed |
| StreamClient.OneRetryBeforeStarted | app/src/streamChat.ts:224-234 | At most one retry, only after an authentication close before any started frame; one message per connection |
| StreamClient.SentTwiceExactly | app/src/streamChat.ts:149-234 | The message is sent twice exactly if, before any cancel, a socket opened, closed with an authentication code before any started frame, and another opened |
| StreamClient.SecondSendExactly | app/src/streamChat.ts:149-166 | The second send is exactly the uncancelled opening of the retry's socket after one send |
| StreamClient.MessageSentTwice | app/src/streamChat.ts:224-234 | Such a run of five events |
| EventsClient.Subscription.Reconnect | app/src/bridgeEvents.ts:41-49 | One reconnect timer at a time, none after close |
| EventsClient.Subscription.CloseAll | app/src/bridgeEvents.ts:95-108 | Closing clears handlers, timer and socket |
| EventsClient.ExactlyOneWay | app/src/bridgeEvents.ts:34-109 | Until closed always exactly one of connecting, socket, reconnect timer |
| EventsClient.ClosedForGood | app/src/bridgeEvents.ts:34-109 | After close nothing is created and no frame handed on |
| EventsClient.FramesReachSubscribers | app/src/bridgeEvents.ts:61-68 | A frame that parses reaches exactly the handlers subscribed then; one that does not reaches nobody |
| EventsClient.SocketExactly | app/src/bridgeEvents.ts:50-84 | Until closed the socket is as its last event says |
| EventsClient.AttemptCountsFailures | app/src/bridgeEvents.ts:36-61 | The attempt count is the number of failures since a socket last opened |
| EventsClient.BackoffGrows | app/src/bridgeEvents.ts:23-49 | The wait is set by that number: 500, 1000, 2000, 5000, and 10000 from the fifth failure on |

## Left out

- Clocks: every operation takes an integer time, and one request or run reads it once. Methods are atomic steps unless a module says otherwise.
- Cryptography, hashing and text normalisation are opaque functions: the signature check, pattern ids, `_normalise`, the JSON form of an envelope (a length).
- File, network and process access, routing, logging and notices: only the effect on the state is kept; a lock not got, a write not made or a file not read are inputs.
- TOML text: a value that is written reads back as itself; tuples are lists. Inline tables count as one entry that cannot be edited, and a key in one that is also spelled elsewhere counts as spelled twice; lines inside multi-line strings are opaque and take no part in comment runs; a file's header text is cut to one line.
- Two spellings of a key at one depth, such as `a."b.c"` and `"a.b".c`: the first in the file gives the value here; the code takes the one whose outermost table comes first.
- Comment lines: surrounding white space is not kept apart; a capital is an ASCII capital; a description that itself starts with "default:" would be read as a recorded default and is not modelled.
- A double is a real, an infinity, NaN or negative zero; an integer too large for a double is not refused when the legacy fold converts it.
- Envelope ids are numbers, personas are numbered in the order of their names, window ids are positions.
- Rounding of the sample size: any target is allowed.
- The language model's answers: any answer, error or refusal at each window.
- A crash between a merge and the save of its cursor: the code accepts a repeated merge there.
- Backfill.MergedOnceInOrder: is stated for an unchanged history and version, as the code promises it; other callers charge the budget between starts but not within one.
- LearnedPatterns.LearnedStore.Merge: does not model rows that another process appends in the middle of a call.
- ModelMigration.RemovedOnlyWhenAccounted: a considered persona counts by its name, as in the code, not by the value its file held when it was scanned.
- StreamClient.EndsAtMostOnce: handlers return normally; a handler that throws is not modelled. No message event fires once the socket has left its open state, and no event follows its close event (WHATWG WebSockets Standard).
- StreamClient.NeverHangsSilently: a credential request that never settles has no timer in the code either, and the model says so.
- EventsClient.ClosedForGood: a handler that throws, and so keeps later handlers from a frame, is not modelled.
- Rejected-model records, `derived_unavailable` probes, the unreadable-file notice and the values cache.
- The other measurement gates (scripts/replay_tool_oracles.py), timing statistics and reports: counts and comparisons settled by reading a branch.
- React components, window management, the avatar and service installation.
