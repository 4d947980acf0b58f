# Verification of the RZI firmware services

RZI is the glue between an application and a LoRaWAN stack on small microcontrollers: it keeps settings and
credentials in flash behind two caches, counts join attempts and queues events, turns blocking stack calls into
worker steps, edits and dispatches AT commands, and keeps accounts of channel masks, power locks, device classes
and firmware images. This project models those services in Dafny and proves what they promise over whole runs.

Each file that changes things step by step appears twice: as a class with the fields of the C file, whose methods
follow its branches, and as a specification of pure functions and relations those methods are proved against. The
run theorems are about the specification. Flash, the kernel, the modem and the LoRaWAN stacks are nondeterministic:
any access may fail, any call may return any code, and callers interleave freely between critical sections.

| file | part of the repository |
|---|---|
| `Record.dfy` | the CRC-protected record codec of the storage service |
| `Settings.dfy`, `SettingsService.dfy`, `SettingsRuns.dfy`, `LegacyValues.dfy` | settings schema, write-through cache, migration from three legacy layouts |
| `Credentials.dfy`, `CredentialService.dfy`, `CredentialRuns.dfy`, `RegionRuns.dfy`, `FactoryReset.dfy`, `SetterEffects.dfy` | the credential struct, the configured region, the join configuration |
| `JoinSequence.dfy`, `JoinOutcomes.dfy`, `EventQueue.dfy`, `JoinService.dfy` | join sequence, bounded event queue, dispatcher |
| `ZephyrBackend.dfy`, `ZephyrOutcomes.dfy`, `ZephyrService.dfy` | the worker of the Zephyr backend |
| `AtLine.dfy`, `AtInput.dfy`, `AtLoss.dfy`, `AtWatch.dfy`, `AtGrammar.dfy`, `AtRegistry.dfy`, `AtDispatch.dfy`, `AtService.dfy` | line editor, receive ring, overflow losses, grammar, registry |
| `ChannelMask.dfy`, `ChannelPlan.dfy`, `ChannelService.dfy` | masks as sets of channels, sub-bands, fixed channels |
| `PowerLocks.dfy` | power locks and the clients that hold them |
| `ClassBTrace.dfy`, `JoinBackoff.dfy` | Class B state and join back-off of the USP backend |
| `FuotaCopy.dfy` | the image copy of the firmware update service |

The main results are `SettingsRuns.RunRefines`, `NoResurrection` and `SuccessfulWriteIsFound`,
`LegacyValues.MigratedValueStays` and `MigratedPolicyStays`, `CredentialRuns.ConfigSurvivesReboot`,
`RegionRuns.ConfigSurvivesUnlessCleared`, `FactoryReset.ResetConfig` and `SetterEffects.FieldIsBuilt`,
`JoinSequence.RebuildMatchesHanded`, `FlashHoldsHanded` and `RetryLimit`, `JoinOutcomes.RefusedBeginGivesBack` and
`AllHeardAfterJoined`, `EventQueue.DispatchedInOrder` and `LatchIsReportedIff`, `ZephyrBackend.UplinksExactlyOnce`
and `LeaveStopsAttempts`, `ZephyrOutcomes.NoncesAdvance` and `JoinEventsOnce`, `AtLine.EditorRefinesSegments`,
`AtInput.DrainedRunReplies`, `AtWatch.RunCutsIff` and `ResetCutsIff`, `AtGrammar.ParsesIffSpells`,
`AtDispatch.TypedCommandCalls`, `PowerLocks.RunBalances` and `LocksFollowUse`, `ClassBTrace.TraceIsFaithful` and
`Record.DecodeCharacterised`.

Eight promises turned out to have exceptions. Each is modelled as the code behaves, with a reachable failing case and
the exact condition:

- A full clear of a started service leaves the running region different from the stored default, so a channel mask
  selected afterwards makes the configuration change at the next reboot (`CredentialRuns.ConfigSurvivesReboot`,
  `RegionRuns.ClearedRegionChangesConfig`). Without such a clear it never does (`RegionRuns.ConfigSurvivesUnlessCleared`).
- After a partially failed clear the caches stay loaded, so a write that repeats a cached value returns success
  without reaching flash (`SettingsRuns.FailedClearLosesWrite`); a reboot finds it exactly if the clear failed for
  that very name or a surviving legacy name says the same (`RepeatedWriteDurableIff`). Without a failed clear no
  write is lost (`SuccessfulWriteIsFound`).
- Writing one of the split legacy policy keys bypasses a cached policy (`SettingsRuns.SplitKeyWriteCoherentIff`,
  `SplitKeyWriteDiverges`). `rzi_lorawan_setting_write` accepts it, though no caller in the repository makes it.
- A publish is a put and, if that fails, a latch. When the dispatcher drains the queue between the two, the loss is
  not reported before the next event (`EventQueue.LatchIsReportedIff`, `LatchCanComeTooLate`).
- A leave that meets the Zephyr join handler between its decision and its return leaves the request pending until
  another leave (`ZephyrBackend.StrandedStepIff`, `LeaveCanStrand`).
- A join accepted in the same window after a leave has hit this very handler, so that the kernel is still cancelling
  the work item and does not take it again, returns success and is never attempted
  (`ZephyrBackend.StrandedStepIff`, `JoinCanStrand`).
- `doc/at-framework.md` says that truncated input cannot be executed after a receive overflow; the code resets the
  editor but still feeds what is left in the ring (`AtWatch.RunCutsIff` and `ResetCutsIff` for whole runs,
  `AtLoss.TruncatedLineExecutes`).
- An application that returns power-lock references it has not taken can take away those of a client
  (`PowerLocks.ClientsBackedIff`, `TransferCanLoseItsLock`).

## Model

The main results come first.

| member | source | states |
|---|---|---|
| `SettingsRuns.RunRefines` | src/lorawan/lorawan_settings.c:144-326 | cache transparency: over every run of reads, writes, failures, clears and reboots each read answers from one map that only successful writes and clears change |
| `LegacyValues.LegacyValueIsFound` | src/lorawan/lorawan_settings.c:144-160 | without a current value the legacy one is what a first read answers, or it is refused for its size or content; an answered one is left under the current name and no other name moves |
| `LegacyValues.MigratedValueStays` | src/lorawan/lorawan_settings.c:144-276 | over runs: once read, a legacy value is what every later read answers, across reboots and flash failures, until the key is written or cleared |
| `LegacyValues.MigratedPolicyStays` | src/lorawan/lorawan_settings.c:189-276 | over runs: the same for the three bytes of a split policy |
| `SettingsRuns.NoResurrection` | src/lorawan/lorawan_settings.c:299-326 | after one clear that returns success no legacy value comes back, whatever failed before |
| `SettingsRuns.SuccessfulWriteIsFound` | src/lorawan/lorawan_settings.c:248-326 | if no clear has failed since the last reboot or full clear, a write that returned success is what every later read finds, across failures and reboots, until the key is written or cleared |
| `SettingsRuns.RepeatedWriteDurableIff` | src/lorawan/lorawan_settings.c:287-289 | after a partially failed clear, and any reads and writes of other keys, a write that repeats the cached value is found after a reboot iff the clear failed for its current name, or the legacy names it failed for still say the same |
| `CredentialRuns.ConfigSurvivesReboot` | src/lorawan/api/lorawan_credentials.c:626-675 | two-layer persistence: the configurations built just before and after a reboot are equal iff no stored mask meets a running region that disagrees with the stored one |
| `RegionRuns.ConfigSurvivesUnlessCleared` | src/lorawan/api/lorawan_credentials.c:626-699 | in such a run the configurations built just before and after a reboot are equal |
| `RegionRuns.ClearedRegionChangesConfig` | src/lorawan/api/lorawan_credentials.c:684-699 | the failing case, from empty flash: start on a fixed plan, full clear, channel selection, build, reboot, build; all succeed and the configurations differ |
| `FactoryReset.ResetConfig` | src/lorawan/api/lorawan_credentials.c:684-699 | from any state, after one clear that returns success every build gives the factory configuration until a setter of a credential succeeds, across reboots, starts in any region, flash failures, failing clears and writes of other settings |
| `SetterEffects.FieldIsBuilt` | src/lorawan/api/lorawan_credentials.c:141-167 | over runs: a byte-array credential that was set is in its own place in every configuration until it is set again or cleared, across reboots, failures and all other calls |
| `JoinOutcomes.RefusedBeginGivesBack` | src/lorawan/lorawan.c:502-540 | a begin that fails leaves no sequence, no retries and open setters; JOINING and READY are published iff the backend was asked |
| `JoinOutcomes.AllHeardAfterJoined` | src/lorawan/lorawan.c:169-248 | over runs: from JOINED until the next accepted begin every event is heard in order, failed joins included |
| `JoinSequence.RebuildMatchesHanded` | src/lorawan/lorawan.c:502-540 | while a sequence runs, a rebuilt configuration equals the one the backend has in all fields but the retry interval |
| `JoinSequence.FlashHoldsHanded` | src/lorawan/lorawan.c:502-594 | over every run in which a clear between sequences succeeds and comes before the start: while a sequence runs, flash holds the configuration handed to the backend, up to the interval |
| `JoinSequence.RetryLimit` | src/lorawan/lorawan.c:169-227 | with n retries exactly the first n failures are hidden; the next is delivered once, ends the sequence, stops the backend once and publishes READY |
| `EventQueue.DispatchedInOrder` | src/lorawan/lorawan.c:71-249 | dispatched events are the published ones in order minus the drops, and every drop is accounted for |
| `EventQueue.LatchIsReportedIff` | src/lorawan/lorawan.c:237-248 | the dispatcher reports a latched drop by its own steps iff it is not idle at the latch |
| `EventQueue.DropIsReported` | src/lorawan/lorawan.c:237-248 | then after at most five dispatcher steps, its current and next turn, whatever publishers do meanwhile, and until then the dispatcher can move |
| `ZephyrBackend.UplinksExactlyOnce` | src/lorawan/backend/zephyr/lorawan_backend_zephyr.c:317-355 | every accepted uplink is handed to the stack once, in order and unaltered, and gets one status; accepted minus completed is the pending flag plus a status being published |
| `ZephyrBackend.LeaveStopsAttempts` | src/lorawan/backend/zephyr/lorawan_backend_zephyr.c:592-609 | after a successful leave no attempt starts and no device nonce is used until a join is accepted; an attempt in the stack may report only that it joined, one that had decided reports what it decided, and nothing else is reported |
| `ZephyrBackend.StrandedStepIff` | src/lorawan/backend/zephyr/lorawan_backend_zephyr.c:570-609 | exactly two steps strand a request, both against a handler between its decision and its return: a leave while a request is pending, and a join accepted after a leave has hit this very handler |
| `ZephyrOutcomes.NoncesAdvance` | src/lorawan/backend/zephyr/lorawan_backend_zephyr.c:245-272 | over every run the k-th OTAA attempt without a fixed nonce presents k + 1 on 16 bits; a fixed nonce is presented as it is and moves no other; ABP presents none |
| `ZephyrOutcomes.JoinEventsOnce` | src/lorawan/backend/zephyr/lorawan_backend_zephyr.c:293-315 | every result of an attempt is heard once, in order, but failures after a leave; at most the last is still being published |
| `AtLine.EditorRefinesSegments` | src/at/at_parser.c:156-209 | the editor refines splitting at every CR and LF and editing each segment from an empty buffer |
| `AtLine.EndsAreInterchangeable` | src/at/at_parser.c:158-192 | CR, LF and CRLF, chosen line by line, give identical outputs |
| `AtInput.DrainedRunReplies` | src/at/at.c:199-213 | from boot, a drained run has replied to each ended segment of the whole stream |
| `AtWatch.RunCutsIff` | src/at/at.c:181-213 | after every run of arrivals, passes and transfers with any losses: some continuation without a further loss or reset ends having executed a cut line iff the bytes fed so far or those in the ring make one execute, or the editor, once fed the ring, holds a draft that is neither latched nor the draft of all the input received |
| `AtWatch.ResetCutsIff` | src/at/at.c:199-213 | the same when the next pass finds the latch up and resets the editor before it feeds the ring |
| `AtGrammar.ParsesIffSpells` | src/at/at_parser.c:74-154 | printer and parser are inverse |
| `AtDispatch.TypedCommandCalls` | src/at/at_registry.c:116-141 | typed at an unlocked service, a command makes one execution, and that one calls the handler of its name with its operation and argument; a locked one lets only PWORD and LOCK through |
| `AtRegistry.RegisteredIffUnique` | src/at/at_registry.c:34-61 | a batch is taken whole iff the table it makes fits and has valid, unique names; otherwise nothing changes |
| `PowerLocks.RunBalances` | src/power/power.c:20-114 | over every run the native count is the switch plus all counters, each counter is what the application and the clients hold plus counted misses, and FUOTA holds flash only while transferring or applying |
| `PowerLocks.LocksFollowUse` | src/lorawan/services/fuota/lorawan_fuota.c:80-106 | over every run without a refused lock: FUOTA holds flash iff it transfers or applies, the class its lock iff the last class noted was C, and the native lock is free iff the switch is on and no counter is in use |
| `ClassBTrace.TraceIsFaithful` | src/lorawan/backend/usp/lorawan_backend_usp.c:356-371 | over every run adjacent published states differ and the last one, IDLE if none, is the current state |
| `FuotaCopy.Target.CopyImageToSlot` | src/lorawan/services/fuota/lorawan_fuota.c:240-271 | succeeds iff every call does; writes exactly the chunks in order, reads no byte past the image, and requests the upgrade only after the last |
| `JoinBackoff.GetJoinBackoff` | src/lorawan/backend/usp/lorawan_backend_usp_network.c:206-234 | the first failing query decides; else max(0, deadline - now) for all true times within half a turn, and 0 when joined, bypassed or in certification |
| `Record.DecodeCharacterised` | src/storage/storage_settings.c:257-272 | for an arbitrary CRC a stored value is accepted iff it is the encoding of a non-zero version and a non-empty payload that fits, and of no other pair; each error code has exactly one meaning |
| `Record.DecodeEncode` | src/storage/storage_settings.c:192-273 | reading back a written record gives the same version and payload, or "too large" if the caller's buffer is smaller |
| `Record.EncodingLayout` | src/storage/storage_settings.c:183-211 | the layout byte by byte: RZR1, version, length, CRC, payload |
| `Record.WellFormedIsEncoding` | src/storage/storage_settings.c:257-265 | nothing but an encoding passes the header, length and CRC checks |
| `Record.BuildRecord` | src/storage/storage_settings.c:195-211 | the buffer filled at fixed offsets holds the encoding; zero version, empty and oversized payloads are refused |
| `Record.FillHead` | src/storage/storage_settings.c:206-208 | magic, version and length land in the first eight bytes and nothing else moves |
| `Record.Outputs.ReadRecord` | src/storage/storage_settings.c:226-272 | outputs are written only when every check has passed; on any error all three outputs keep their values |
| `ChannelMask.BitAfterSetBit` | src/lorawan/api/lorawan_channel.c:55-63 | setting a bit sets that bit and no other |
| `ChannelMask.Put` | src/lorawan/api/lorawan_channel.c:55-58 | adding a channel to a word array adds it to the channel set and nothing else |
| `ChannelMask.EqualChannels` | src/lorawan/api/lorawan_channel.c:85-88 | word arrays are equal exactly when they stand for the same channel set |
| `ChannelMask.SelectsUnlessZero` | src/lorawan/api/lorawan_credentials.c:56-69 | a mask selects something within the plan iff it is within the plan and not the zero mask |
| `ChannelMask.WordsOfBytesOf` | src/lorawan/lorawan_settings.c:97-101 | the byte image of a mask gives back the same words |
| `Settings.DefaultIsValid` | src/lorawan/lorawan_settings.c:118-125 | every default of the schema passes its own validation |
| `Settings.EveryKeyHasARow` | src/lorawan/lorawan_settings.c:45-64 | the factory-reset manifest covers every key, legacy keys included |
| `Settings.ResolvedIsValid` | src/lorawan/lorawan_settings.c:144-245 | whatever flash holds, a key means a valid value, its default when nothing was found, or a proper error |
| `Settings.SavedResolves` | src/lorawan/lorawan_settings.c:127-140 | a saved valid value is what its key means afterwards, and no other key moves but a policy still in split form |
| `Settings.SplitMigrationKeepsPolicy` | src/lorawan/lorawan_settings.c:212-223 | writing one of the three split policy keys back under its current name keeps the policy they stand for |
| `Settings.MigrationKeepsMeaning` | src/lorawan/lorawan_settings.c:189-245 | a load changes no key's meaning, and what it writes back is a valid value under the current name |
| `SettingsService.Service.constructor` | src/lorawan/lorawan_settings.c:45-64 | at boot no slot is loaded and the cache agrees with any flash contents |
| `SettingsService.Service.StorageRead` | src/storage/storage_settings.c:84-111 | missing or empty is "not found", another length is "too large", else the stored bytes |
| `SettingsService.Service.StorageReadRecord` | src/storage/storage_settings.c:214-273 | without a flash failure, exactly the decoding of the stored value |
| `SettingsService.Service.StorageWrite` | src/storage/storage_settings.c:113-143 | a write happens whole or not at all |
| `SettingsService.Service.StorageDelete` | src/storage/storage_settings.c:145-180 | without a failure the name is gone, "not found" if it was not there; no other name changes |
| `SettingsService.Service.SaveValue` | src/lorawan/lorawan_settings.c:127-140 | the policy goes through the record codec, every other key is stored raw |
| `SettingsService.Service.ReadLegacy` | src/lorawan/lorawan_settings.c:144-160 | the candidate is the meaning of the key over both namespaces, or a flash failure got in the way |
| `SettingsService.Service.MigrateRegion` | src/lorawan/lorawan_settings.c:162-187 | the old band number gives the region the schema assigns to it; band 0 and unknown bands are refused |
| `SettingsService.Service.ReadSplitPolicy` | src/lorawan/lorawan_settings.c:212-223 | three split keys give the meaning of the policy, or the first error among them |
| `SettingsService.Service.LoadValue` | src/lorawan/lorawan_settings.c:189-245 | loads the meaning of a key and writes it back exactly when it came from a legacy layout |
| `SettingsService.Service.Read` | src/lorawan/lorawan_settings.c:248-276 | a loaded slot answers; otherwise the loaded meaning does and fills the slot only on success |
| `SettingsService.Service.Write` | src/lorawan/lorawan_settings.c:278-297 | invalid values are refused untouched; a repeat of the cached value saves nothing; a valid value fails only on a flash failure, which leaves cache and flash as they were |
| `SettingsService.Service.ClearNamespace` | src/lorawan/lorawan_settings.c:307-315 | every name of the namespace is deleted but the failed ones, and the first failure so far is kept |
| `SettingsService.Service.Clear` | src/lorawan/lorawan_settings.c:299-326 | flash loses every registered name but the failed ones; the cache is dropped iff nothing failed |
| `SettingsRuns.ReadStaysCoherent` | src/lorawan/lorawan_settings.c:248-276 | a read keeps the cache equal to the meaning of flash and moves no meaning |
| `SettingsRuns.WriteStaysCoherent` | src/lorawan/lorawan_settings.c:278-297 | a guarded write keeps the cache equal to the meaning of flash |
| `SettingsRuns.WriteAdvances` | src/lorawan/lorawan_settings.c:278-297 | a successful write moves the meaning of its key and of no other |
| `SettingsRuns.StepRefines` | src/lorawan/lorawan_settings.c:248-326 | one event of the cached service refines one step of the map of meanings |
| `SettingsRuns.SplitKeyWriteCoherentIff` | src/lorawan/lorawan_settings.c:212-223 | writing a split legacy key keeps the cache coherent iff no policy without a record is cached |
| `SettingsRuns.SplitKeyWriteDiverges` | src/lorawan/lorawan_settings.c:212-223 | the failing case, from empty flash: with the default policy cached, a write of auto-join leaves the cache at odds with what a reboot will load |
| `SettingsRuns.FailedClearLosesWrite` | src/lorawan/lorawan_settings.c:287-289 | the failing case: after a partially failed clear a write can return success and be gone after a reboot |
| `SettingsRuns.DefaultsSurvive` | src/lorawan/lorawan_settings.c:299-326 | from an all-default state every read until the next write answers the default, across reboots |
| `LegacyValues.CurrentValueWins` | src/lorawan/lorawan_settings.c:229-238 | a non-empty current value wins whatever the legacy name holds, and flash stays as it is |
| `LegacyValues.NoValueIsDefault` | src/lorawan/lorawan_settings.c:151-155 | only without either value is a plain key its default, which is not stored |
| `LegacyValues.BandSurvivesUpgrade` | src/lorawan/lorawan_settings.c:162-187 | with only an old band number stored, 1 to 11 give the region for which AT+BAND answers that number, and others are refused |
| `LegacyValues.SplitPolicyIsFound` | src/lorawan/lorawan_settings.c:212-223 | without a record the policy is auto-join, interval and attempts, each from its current name, else its legacy name, else the default, and is left in a record of version 1 |
| `LegacyValues.SplitPolicyReadsIff` | src/lorawan/lorawan_settings.c:212-223 | without a flash failure that read succeeds iff each of the three keys holds nothing or one byte in range |
| `LegacyValues.RecordWins` | src/lorawan/lorawan_settings.c:193-211 | a record wins over the split keys; another version or an invalid payload is refused |
| `LegacyValues.AcceptedIff` | src/lorawan/lorawan_settings.c:79-116 | which values of the shared settings, the region and the policy a write accepts; others are refused untouched |
| `LegacyValues.FactoryValues` | src/lorawan/lorawan_settings.c:118-125 | the defaults as bytes: EU868, unconfirmed, no retries, OTAA, interval 8 |
| `CredentialService.Service.ReadAll` | src/lorawan/api/lorawan_credentials.c:88-132 | ten settings are read in the file's order and the first failure ends the load |
| `CredentialService.Service.EnsureLoaded` | src/lorawan/api/lorawan_credentials.c:76-139 | the struct is replaced only when all reads succeed and keeps the join flag |
| `CredentialService.Service.GuardedWrite` | src/lorawan/api/lorawan_credentials.c:153-159 | load, refuse while a join runs, persist |
| `CredentialService.Service.SetField` | src/lorawan/api/lorawan_credentials.c:141-167 | a byte-array credential of the right size is stored, then patched into the struct |
| `CredentialService.Service.SetActivation` | src/lorawan/api/lorawan_credentials.c:458-486 | only a known and supported mode is stored, in its wire encoding |
| `CredentialService.Service.SetChannelMask` | src/lorawan/api/lorawan_credentials.c:596-624 | an unusable mask is refused; no mask is stored as an explicit zero mask |
| `CredentialService.Service.UpdatePolicy` | src/lorawan/api/lorawan_credentials.c:548-580 | out-of-range arguments are refused, kept ones come from the struct, and a running join does not block it |
| `CredentialService.Service.GetRegion` | src/lorawan/lorawan.c:717-736 | before the start the stored region is read into the configured one; afterwards the configured one answers |
| `CredentialService.Service.SetRegion` | src/lorawan/lorawan.c:356-378 | refused once started, else stored and then configured |
| `CredentialService.Service.Init` | src/lorawan/lorawan.c:431-479 | stores and configures the region; the service stays started iff backend and storage succeed |
| `CredentialService.Service.BuildConfig` | src/lorawan/api/lorawan_credentials.c:626-675 | the configuration of the loaded struct in the configured region |
| `CredentialService.Service.ClearSettings` | src/lorawan/api/lorawan_credentials.c:684-699 | refused while a join runs; the struct is dropped iff the settings were cleared |
| `CredentialRuns.LoadKeepsSync` | src/lorawan/api/lorawan_credentials.c:76-139 | a successful load makes the struct the one the stored meanings stand for |
| `CredentialRuns.ChainReports` | src/lorawan/api/lorawan_credentials.c:88-132 | the reads of a load move no meaning and report each its own |
| `CredentialRuns.GuardedKeepsSync` | src/lorawan/api/lorawan_credentials.c:141-167 | a setter keeps both caches in step with flash |
| `CredentialRuns.SetFieldKeepsSync` | src/lorawan/api/lorawan_credentials.c:141-167 | setting a byte-array credential patches the struct as a reload would |
| `CredentialRuns.SetActivationKeepsSync` | src/lorawan/api/lorawan_credentials.c:458-486 | setting the activation patches the struct as a reload would |
| `CredentialRuns.SetMaskKeepsSync` | src/lorawan/api/lorawan_credentials.c:596-624 | setting or clearing the mask patches the struct as a reload would, the zero mask standing for no restriction |
| `CredentialRuns.PolicyKeepsSync` | src/lorawan/api/lorawan_credentials.c:562-577 | updating the policy patches the struct as a reload would |
| `CredentialRuns.CallKeepsSync` | src/lorawan/api/lorawan_credentials.c:76-699 | every call but a partially failed clear keeps both caches in step with flash |
| `CredentialRuns.RunKeepsSync` | src/lorawan/api/lorawan_credentials.c:76-699 | over whole runs both caches are in step, lost only by a partially failed clear and regained by a reboot or a full clear |
| `CredentialRuns.BuildIsStoredConfig` | src/lorawan/api/lorawan_credentials.c:626-675 | a successful build gives the configuration as a cache-free function of the stored settings, GenAppKey falling back to AppKey |
| `SetterEffects.AppKeyStandsIn` | src/lorawan/api/lorawan_credentials.c:665-670 | over runs: where no GenAppKey is stored, AppKey is also the application key |
| `SetterEffects.ActivationIsBuilt` | src/lorawan/api/lorawan_credentials.c:458-486 | over runs: the mode that was set is the mode of every configuration |
| `SetterEffects.MaskIsBuilt` | src/lorawan/api/lorawan_credentials.c:596-624 | over runs: the mask that was set restricts every configuration for a fixed plan, and no mask restricts none |
| `SetterEffects.IntervalIsBuilt` | src/lorawan/api/lorawan_credentials.c:548-580 | over runs: the interval that was set is the retry interval of every configuration, and one that was kept is the one before |
| `SetterEffects.RegionIsBuilt` | src/lorawan/api/lorawan_credentials.c:626-650 | over runs: the region that was stored is the one every configuration is built for, started or not |
| `SetterEffects.FieldAcceptedIff` | src/lorawan/api/lorawan_credentials.c:141-167 | unless the load or flash fails: INVALID iff the size is wrong, else BUSY iff a join runs; no other credential moves |
| `SetterEffects.ActivationAcceptedIff` | src/lorawan/api/lorawan_credentials.c:458-486 | unless the load or flash fails: accepted iff the device has the capability of that very mode and no join runs |
| `SetterEffects.PolicyAcceptedIff` | src/lorawan/api/lorawan_credentials.c:548-580 | unless the load or flash fails: accepted iff each argument is in range or kept, also while a join runs; what is kept stays |
| `SetterEffects.PolicyKeepsBytes` | src/lorawan/api/lorawan_credentials.c:548-580 | each byte of the stored policy is the argument, or what it was if it is kept, and no other key moves |
| `SetterEffects.RegionAcceptedIff` | src/lorawan/lorawan.c:356-378 | a region is refused outside the enumeration and after the start |
| `SetterEffects.CallSpares` | src/lorawan/api/lorawan_credentials.c:141-699 | no call moves a credential it does not set |
| `FactoryReset.RunKeepsReset` | src/lorawan/api/lorawan_credentials.c:76-139 | over such a run no credential is stored under any name, and what the two caches hold of them are defaults |
| `RegionRuns.RegionStaysFresh` | src/lorawan/lorawan.c:356-378 | no call but a full clear of a started service makes the running region stale |
| `RegionRuns.RunKeepsFresh` | src/lorawan/lorawan.c:356-378 | over whole runs in which no clear succeeds while the service is started, the running region is the stored one |
| `RegionRuns.LoadSucceeds` | src/lorawan/api/lorawan_credentials.c:76-139 | whenever every credential has a meaning, a load without flash failures succeeds |
| `JoinSequence.ActKeepsFrozen` | src/lorawan/lorawan.c:158-227 | every call and dispatch keeps both "active" flags equal and, while set, the configuration that was handed over |
| `JoinSequence.CallKeepsFrozen` | src/lorawan/api/lorawan_credentials.c:141-167 | while a join runs no credential call changes what it depends on |
| `JoinSequence.BeginKeepsFrozen` | src/lorawan/lorawan.c:502-540 | beginning a sequence freezes the configuration it hands over |
| `JoinSequence.RunKeepsFrozen` | src/lorawan/lorawan.c:158-564 | the flags agree and the configuration stays frozen in every reachable state |
| `JoinSequence.FlashHoldsWhileActive` | src/lorawan/lorawan.c:502-594 | from any state in step, flash holds it for as long as the sequence runs, with no condition on clears |
| `JoinSequence.FlashMatchesHanded` | src/lorawan/api/lorawan_credentials.c:626-675 | the same at one state with the caches in step |
| `JoinSequence.RetriesAreSwallowed` | src/lorawan/lorawan.c:169-186 | up to the limit failed attempts reach no consumer and are counted one by one; nothing else is lost |
| `JoinSequence.BeginStartsCount` | src/lorawan/lorawan.c:520-532 | a sequence starts with the attempts of the stored policy |
| `JoinOutcomes.AcceptedBeginClaims` | src/lorawan/lorawan.c:528-539 | an accepted begin had no sequence before it; it hands over the built configuration, freezes the setters and publishes JOINING |
| `JoinOutcomes.UnsupportedModeRefused` | src/lorawan/lorawan.c:511-518 | each mode needs its own capability |
| `JoinOutcomes.JoinedEnds` | src/lorawan/lorawan.c:169-176 | JOINED ends the sequence, opens the setters, and is heard once by subscribers and services |
| `JoinOutcomes.NothingSwallowedAtRest` | src/lorawan/lorawan.c:169-248 | over runs: without a sequence nothing is swallowed |
| `JoinOutcomes.RunKeepsTidy` | src/lorawan/lorawan.c:157-248 | in every reachable state the two flags agree, and without a sequence no retry is left |
| `JoinOutcomes.StopEnds` | src/lorawan/lorawan.c:542-564 | a stop ends the sequence whatever the backend answers, and publishes READY iff the backend left |
| `JoinOutcomes.StopReturns` | src/lorawan/lorawan.c:542-564 | only a running sequence of a started service asks the backend; the first failing answer is returned, "not supported" excepted |
| `JoinOutcomes.LeaveKeepsSequence` | src/lorawan/lorawan.c:596-610 | a leave moves nothing of the sequence and publishes READY iff it succeeds |
| `JoinOutcomes.InitialiseOutcome` | src/lorawan/lorawan.c:431-479 | success leaves the service started in its region after STARTING; a failing backend leaves it not started after STOPPED; other refusals publish nothing |
| `JoinService.Service.TryPut` | src/lorawan/lorawan.c:73 | the put never blocks and drops what does not fit |
| `JoinService.Service.LatchOverflow` | src/lorawan/lorawan.c:74 | the latch of a failed put is a step of its own |
| `JoinService.Service.Publish` | src/lorawan/lorawan.c:71-76 | both halves without interruption |
| `JoinService.Service.Initialise` | src/lorawan/lorawan.c:431-463 | region, backend start, and the state changes published around it |
| `JoinService.Service.PublishState` | src/lorawan/lorawan.c:78-86 | publishes the state change |
| `JoinService.Service.ClearSequence` | src/lorawan/lorawan.c:158-163 | both flags and the counter are reset |
| `JoinService.Service.Swallow` | src/lorawan/lorawan.c:169-186 | hides a counted failure, ends the sequence at the limit or on success |
| `JoinService.Service.DispatchEvent` | src/lorawan/lorawan.c:188-227 | subscribers get every visible event but firmware-update ones, services get all |
| `JoinService.Service.DispatchNext` | src/lorawan/lorawan.c:237-248 | one dispatcher turn takes the oldest event and reports a latched overflow after it |
| `JoinService.Service.ClaimSequence` | src/lorawan/lorawan.c:528-538 | claims the sequence, and undoes the claim when the backend refuses |
| `JoinService.Service.BeginJoin` | src/lorawan/lorawan.c:502-540 | refuses before the claim on any earlier failure, with the error of the first one |
| `JoinService.Service.StopJoin` | src/lorawan/lorawan.c:542-564 | clears first; stops the backend only for a running, unjoined sequence, and takes "not supported" for success |
| `JoinService.Service.LeaveNetwork` | src/lorawan/lorawan.c:596-610 | leaving does not end a join sequence |
| `JoinService.Service.Join` | src/lorawan/lorawan.c:566-594 | argument check, busy check, policy update, then stop or begin |
| `EventQueue.PutKeepsSound` | src/lorawan/lorawan.c:71-76 | a put, interrupted or not, keeps the order and the accounting of drops |
| `EventQueue.StepKeepsSound` | src/lorawan/lorawan.c:188-249 | nothing is reordered; every drop is owed by its publisher, unreported, or covered by a report; the latch is up iff drops are unreported |
| `EventQueue.RunKeepsSound` | src/lorawan/lorawan.c:188-249 | that holds in every reachable state |
| `EventQueue.ExposedStepIff` | src/lorawan/lorawan.c:71-76 | a drop waits for a new event iff its publisher latches it when the dispatcher is past its test with an empty queue |
| `EventQueue.NextEventUncovers` | src/lorawan/lorawan.c:71-76 | otherwise after at most five dispatcher steps from the next event, which is kept |
| `EventQueue.LatchCanComeTooLate` | src/lorawan/lorawan.c:71-76 | the silent case is reachable for every queue size: the put fails, the dispatcher drains and blocks, then the latch is set |
| `ZephyrBackend.StepKeepsTx` | src/lorawan/backend/zephyr/lorawan_backend_zephyr.c:317-355 | an accepted uplink has one owner: its caller, the work queue or the send handler |
| `ZephyrBackend.RunKeepsTx` | src/lorawan/backend/zephyr/lorawan_backend_zephyr.c:317-355 | that holds under every interleaving of callers and worker |
| `ZephyrBackend.RunKeepsJoin` | src/lorawan/backend/zephyr/lorawan_backend_zephyr.c:274-315 | a scheduled or undecided join handler implies a pending request |
| `ZephyrBackend.StrandedNeedsLeave` | src/lorawan/backend/zephyr/lorawan_backend_zephyr.c:570-639 | a stranded request refuses joins and uplinks until another leave |
| `ZephyrBackend.LeaveCanStrand` | src/lorawan/backend/zephyr/lorawan_backend_zephyr.c:294-315 | a run in which a leave after a failed attempt strands the request |
| `ZephyrBackend.JoinCanStrand` | src/lorawan/backend/zephyr/lorawan_backend_zephyr.c:583-587 | a run in which a join that returned success is never attempted |
| `ZephyrOutcomes.NoncesDiffer` | src/lorawan/backend/zephyr/lorawan_backend_zephyr.c:258-264 | no two of those nonces within 16 bits of each other are equal |
| `ZephyrOutcomes.AcceptedJoinIsAttempted` | src/lorawan/backend/zephyr/lorawan_backend_zephyr.c:274-290 | from an accepted join until a leave, every turn of the handler makes one attempt with the settings of the last accepted join |
| `ZephyrOutcomes.CallsAccepted` | src/lorawan/backend/zephyr/lorawan_backend_zephyr.c:570-639 | in every reachable state at most one of join and uplink is under way; a join needs a start and nothing under way, an uplink also that the last attempt joined; refused calls change nothing |
| `ZephyrOutcomes.StatusesTellResults` | src/lorawan/backend/zephyr/lorawan_backend_zephyr.c:338-355 | over every run a status is NOT_SENT with the error iff the stack refused that uplink, else CONFIRMED iff it was a confirmed one |
| `ZephyrService.Service.BackendStart` | src/lorawan/backend/zephyr/lorawan_backend_zephyr.c:520-550 | started iff the stack starts, and then no uplink is accepted before a join |
| `ZephyrService.Service.RequestJoin` | src/lorawan/backend/zephyr/lorawan_backend_zephyr.c:570-590 | refused when not started or busy; else settings are taken and the handler scheduled |
| `ZephyrService.Service.RequestLeave` | src/lorawan/backend/zephyr/lorawan_backend_zephyr.c:592-609 | sets the stop flag, cancels, and clears the request unless the handler runs |
| `ZephyrService.Service.FillBuffer` | src/lorawan/backend/zephyr/lorawan_backend_zephyr.c:624-629 | port, type and bytes are copied unaltered |
| `ZephyrService.Service.SendCheck` | src/lorawan/backend/zephyr/lorawan_backend_zephyr.c:617-622 | the order of the refusals of a send |
| `ZephyrService.Service.RequestSend` | src/lorawan/backend/zephyr/lorawan_backend_zephyr.c:611-638 | an accepted uplink is in the buffer and pending |
| `ZephyrService.Service.Transmit` | src/lorawan/backend/zephyr/lorawan_backend_zephyr.c:611-639 | an accepted uplink is buffered unaltered and handed to the work queue; a refused one changes nothing |
| `ZephyrService.Service.FillAttempt` | src/lorawan/backend/zephyr/lorawan_backend_zephyr.c:245-272 | OTAA takes the fixed nonce or the next of its own, which wraps at 16 bits |
| `ZephyrService.Service.JoinHandlerCheck` | src/lorawan/backend/zephyr/lorawan_backend_zephyr.c:282-289 | the stop check comes before any nonce is used |
| `ZephyrService.Service.JoinHandlerFinish` | src/lorawan/backend/zephyr/lorawan_backend_zephyr.c:293-313 | success or a stop ends the request; else the handler is scheduled again; a stopped failure is not reported |
| `ZephyrService.Service.RunJoinItem` | src/lorawan/backend/zephyr/lorawan_backend_zephyr.c:274-315 | a whole turn: one attempt and one report, or none when told to stop |
| `ZephyrService.Service.SendHandlerCopy` | src/lorawan/backend/zephyr/lorawan_backend_zephyr.c:329-336 | the buffer is copied under the lock |
| `ZephyrService.Service.SendHandlerClear` | src/lorawan/backend/zephyr/lorawan_backend_zephyr.c:342-353 | the pending flag falls before the status is published |
| `ZephyrService.Service.RunSendItem` | src/lorawan/backend/zephyr/lorawan_backend_zephyr.c:317-355 | a whole turn: the buffered uplink goes to the stack once and gets one status |
| `AtLine.ChunksCompose` | src/at/at_parser.c:156-209 | feeding a stream in two parts does what feeding it whole does |
| `AtLine.FeedKeepsSound` | src/at/at_parser.c:156-209 | the line always fits and is printable, an LF is skipped only over an empty line, and every executed line has 1 to LINE_MAX - 1 printable characters |
| `AtLine.PrintableSegment` | src/at/at_parser.c:193-200 | a printable segment is kept whole iff it is shorter than the buffer, else it overflows |
| `AtInput.RunDependsOnBytes` | src/at/at.c:181-213 | without a ring overflow the outcome depends only on the concatenated bytes, under every interleaving of arrivals and transfers |
| `AtInput.LossIsReported` | src/at/at.c:191-207 | bytes are missing iff the latch is up, and the next pass reports them and resets the editor |
| `AtLoss.LossCutsIff` | src/at/at.c:199-213 | an overflow can lead to the execution of a cut line, for some later input, iff the tail of a dropped line is a command of its own or the draft left by the kept bytes is neither latched nor the one the whole input leaves |
| `AtWatch.AheadCutsIff` | src/at/at.c:181-213 | the same from any state that its trace accounts for |
| `AtWatch.UndisturbedExtends` | src/at/at.c:181-213 | a continuation without a loss or reset feeds what the ring and the losses in it held, then exactly the bytes it receives |
| `AtWatch.RunIsWatched` | src/at/at.c:181-213 | with the place of every loss remembered, the trace of a run has its outputs and its draft, and accounts for every byte received |
| `AtWatch.TraceCutsIff` | src/at/at_parser.c:156-209 | the same condition for any sequence of bytes, losses and resets |
| `AtWatch.CutNeedsDamage` | src/at/at.c:199-213 | if every loss and every reset leaves a harmless draft, no cut line is executed |
| `AtLoss.DamageCutsIff` | src/at/at_parser.c:156-209 | whatever damaged the line buffer, some further input executes a cut command iff the buffer is neither latched nor undamaged |
| `AtLoss.RingCutsIff` | src/at/at.c:204-212 | the head case: the reset drops a partial line whose tail is still in the ring |
| `AtLoss.LossOutputs` | src/at/at.c:181-213 | the replies compared are the outputs of the port with the loss and of the editor on the whole input |
| `AtLoss.BoundaryLossIsHarmless` | src/at/at.c:181-197 | a loss with nothing typed before it, whose kept and dropped bytes both end a line, is harmless |
| `AtLoss.TruncatedLineExecutes` | src/at/at.c:204-212 | contrary to the framework document, for every ring size a line cut by an overflow is executed |
| `AtGrammar.SpelledParses` | src/at/at_parser.c:120-153 | the printed form of a request, in any letter case of prefix and name, parses to it |
| `AtGrammar.PrintParses` | src/at/at_parser.c:120-153 | the printed form parses to the request |
| `AtGrammar.ParsedSpells` | src/at/at_parser.c:120-153 | a line that parses to a request spells it |
| `AtDispatch.TypedCommandReacts` | src/at/at_parser.c:120-154 | so the service makes exactly that one call |
| `AtDispatch.HandlerIsCalledIff` | src/at/at_registry.c:116-141 | in a well-formed table the handler is called, with operation and argument, iff the operation is allowed; help is answered iff there is a text; else "not supported" |
| `AtDispatch.NotFoundIff` | src/at/at_registry.c:140-140 | "not found" iff nobody registered the name |
| `AtDispatch.RegisteredIsTypable` | src/at/at_registry.c:21-61 | the name of every registered command is in the form the parser gives to names |
| `AtDispatch.ShortLinesIff` | src/at/at_parser.c:74-118 | each of the eight lines without a name asks for one thing, in any letter case, and nothing else asks for it |
| `AtDispatch.MalformedIff` | src/at/at_parser.c:74-154 | a line is malformed iff it is none of those and spells no command |
| `AtDispatch.LockedIff` | src/at/at_parser.c:149-152 | a locked service refuses exactly the commands other than PWORD and LOCK |
| `AtDispatch.RefusalIff` | src/at/at_registry.c:34-61 | why a batch is refused: sealed, too many, or the first command that cannot follow, by its form or by its name |
| `AtDispatch.RegisteredIsCalled` | src/at/at_registry.c:34-141 | once its batch is accepted, a command is called for what it allows, whatever is registered or sealed later |
| `AtDispatch.SealFreezes` | src/at/at_registry.c:34-66 | after the seal every batch is refused and the table stays |
| `AtDispatch.EraseTakesBack` | src/at/at_parser.c:163-168 | backspace and delete take back one typed character and only that |
| `AtDispatch.ControlIsIgnored` | src/at/at_parser.c:193-198 | other control characters change nothing, and typing never clears an overflow |
| `AtService.TypedCommandDispatches` | src/at/at_parser.c:74-216 | a typed printed command with any line end executes once and asks for exactly that command; a lock lets only PWORD and LOCK through |
| `AtService.Service.SameIgnoreCase` | src/at/at_parser.c:26-43 | true iff the first characters agree in upper case, stopping at the end of the line |
| `AtService.Service.EqualsIgnoreCase` | src/at/at_parser.c:45-48 | equality up to ASCII letter case |
| `AtService.Service.MatchSpecial` | src/at/at_parser.c:82-119 | the eight lines without a name, in any letter case |
| `AtService.Service.FindMark` | src/at/at_parser.c:125-126 | the first "=" or "?" of the body |
| `AtService.Service.UppercaseName` | src/at/at_parser.c:65-72 | upper-cases the name in place and nothing behind it |
| `AtService.Service.SplitBody` | src/at/at_parser.c:125-148 | name, operation and argument by in-place cutting, as the grammar says |
| `AtService.Service.Execute` | src/at/at_parser.c:74-154 | the in-place execution reacts as the grammar and the lock say |
| `AtService.Service.ExecuteLine` | src/at/at_parser.c:149-153 | one reaction, served by the registry |
| `AtService.Service.EndLine` | src/at/at_parser.c:181-191 | an overflowed line is reported, any other non-empty one executed once |
| `AtService.Service.FeedByte` | src/at/at_parser.c:156-209 | the in-place editor refines the pure one, and returns OVERFLOW iff the byte did not fit |
| `AtService.Service.ReceiveBytes` | src/at/at.c:181-197 | takes what fits and latches a loss |
| `AtService.Service.CheckOverflow` | src/at/at.c:204-207 | a latched loss resets the parser and is reported |
| `AtService.Service.FeedBuffer` | src/at/at.c:209-211 | a buffer is fed byte by byte, and every executed line gets one reaction, in order, the first of them under the lock as it was |
| `AtService.Service.MoveChunk` | src/at/at.c:208-212 | up to 64 bytes leave the ring in order and are fed and served |
| `AtService.Service.ProcessInput` | src/at/at.c:199-213 | one pass empties the ring, settles everything in it and serves every executed line once, in order |
| `AtRegistry.RunKeepsUnique` | src/at/at_registry.c:34-66 | over every run names stay unique, the table only grows, and the seal freezes it |
| `AtRegistry.DispatchIsLookup` | src/at/at_registry.c:116-141 | the search is a lookup by name in the set of commands |
| `AtRegistry.RegistrationOrderIsIrrelevant` | src/at/at_registry.c:34-141 | after any registrations the outcome depends on the set of accepted commands alone |
| `AtRegistry.Registry.CheckName` | src/at/at_registry.c:21-32 | non-empty, upper-case letters, digits and underscores only |
| `AtRegistry.Registry.CheckBatch` | src/at/at_registry.c:42-56 | the first offending command of the batch decides the error |
| `AtRegistry.Registry.Append` | src/at/at_registry.c:57-59 | the batch follows the table in order |
| `AtRegistry.Registry.Register` | src/at/at_registry.c:34-61 | all or nothing, with the order of the checks |
| `AtRegistry.Registry.SealUp` | src/at/at_registry.c:63-66 | seals and keeps the table |
| `AtRegistry.Registry.Find` | src/at/at_registry.c:116-141 | the loop serves as the first command of that name, else "not found" |
| `ChannelPlan.PlanOnlyWhereFixed` | src/lorawan/api/lorawan_channel.c:27-53 | exactly US915 and AU915 have a plan, and only with the channel capability |
| `ChannelPlan.FrequencyIsInjective` | src/lorawan/api/lorawan_channel.c:109-115 | in both plans a frequency names one channel and is never zero |
| `ChannelPlan.PlansMatchRegionalParameters` | src/lorawan/api/lorawan_channel.c:45-48 | both plans begin and end, for either width, at the frequencies of RP002-1.0.3 |
| `ChannelPlan.BandsAreDistinct` | src/lorawan/api/lorawan_channel.c:73-83 | sub-bands are pairwise different and none is the whole plan |
| `ChannelPlan.BandReportIff` | src/lorawan/api/lorawan_channel.c:199-211 | the sub-band getter reports a band iff the effective set is exactly that band, 0 for all |
| `ChannelPlan.FixedReportIff` | src/lorawan/api/lorawan_channel.c:258-265 | the fixed-channel getter reports a frequency iff the effective set is exactly its channel |
| `ChannelPlan.SelectionTakesEffect` | src/lorawan/api/lorawan_channel.c:101-107 | an accepted mask is the one in effect, though the full mask is stored as no restriction |
| `ChannelPlan.RestrictedIff` | src/lorawan/api/lorawan_channel.c:101-107 | an accepted selection restricts the configuration iff it is not all channels |
| `ChannelPlan.NoRestrictionIsAll` | src/lorawan/api/lorawan_channel.c:90-99 | without a restriction all 72 channels are in effect |
| `ChannelPlan.SubBandReadsBack` | src/lorawan/api/lorawan_channel.c:179-235 | a sub-band that was set is the one reported |
| `ChannelPlan.FixedChannelReadsBack` | src/lorawan/api/lorawan_channel.c:237-291 | a fixed channel that was set is the one reported |
| `ChannelPlan.FixedChannelAcceptedIff` | src/lorawan/api/lorawan_channel.c:268-291 | unless the load or flash fails or a join runs, every 32-bit frequency is accepted iff it is 0 or on the plan |
| `ChannelPlan.SelectionSurvivesReboot` | src/lorawan/api/lorawan_credentials.c:122-132 | the effective mask is the same after a reboot |
| `ChannelService.PutChannel` | src/lorawan/api/lorawan_channel.c:55-58 | the word update is the addition of one channel |
| `ChannelService.AllChannels` | src/lorawan/api/lorawan_channel.c:65-71 | all 72 channels |
| `ChannelService.SubBandChannels` | src/lorawan/api/lorawan_channel.c:74-83 | eight 125 kHz channels and their 500 kHz channel |
| `ChannelService.SameMask` | src/lorawan/api/lorawan_channel.c:85-88 | word equality |
| `ChannelService.FrequencyChannel` | src/lorawan/api/lorawan_channel.c:117-125 | a channel of that frequency iff there is one |
| `ChannelService.MatchSubBand` | src/lorawan/api/lorawan_channel.c:199-211 | the sub-band loop reports as the reference says |
| `ChannelService.CountChannels` | src/lorawan/api/lorawan_channel.c:258-263 | counts the channels and finds the only one |
| `ChannelService.FixedFrequency` | src/lorawan/api/lorawan_channel.c:258-265 | the frequency of the only channel, else 0 |
| `ChannelService.Api.FindPlan` | src/lorawan/api/lorawan_channel.c:34-53 | region, then capability, then plan |
| `ChannelService.Api.ReadMask` | src/lorawan/api/lorawan_channel.c:90-99 | the effective mask |
| `ChannelService.Api.StoreMask` | src/lorawan/api/lorawan_channel.c:101-107 | the full mask is stored as no restriction |
| `ChannelService.Api.GetChannelMask` | src/lorawan/api/lorawan_channel.c:127-154 | the order of its checks, and the effective words padded with zeros |
| `ChannelService.Api.SetChannelMask` | src/lorawan/api/lorawan_channel.c:156-177 | the order of its checks, and the padded mask stored |
| `ChannelService.Api.GetSubBand` | src/lorawan/api/lorawan_channel.c:179-212 | reports on the effective mask, or the first error |
| `ChannelService.Api.SetSubBand` | src/lorawan/api/lorawan_channel.c:214-235 | 0 clears the restriction, 1 to 8 select a band, others are invalid |
| `ChannelService.Api.GetFixedChannel` | src/lorawan/api/lorawan_channel.c:237-266 | reports on the effective mask, or the first error |
| `ChannelService.Api.SetFixedChannel` | src/lorawan/api/lorawan_channel.c:268-291 | 0 clears the restriction, a frequency of the plan of the region selects its channel, others are invalid; accepted iff so unless load or flash fails or a join runs |
| `PowerLocks.FairRunConserves` | src/power/power.c:72-114 | if the application returns only what it took, every client release finds its reference |
| `PowerLocks.ClientsBackedIff` | src/power/power.c:72-114 | in every reachable state and for every lock, the references of the clients are all there iff the application has not returned more than it took, beyond releases that already missed |
| `PowerLocks.ReleaseMissesOnlyOverdrawn` | src/lorawan/services/fuota/lorawan_fuota.c:95-98 | a release of either client misses exactly when the application is overdrawn by all the clients hold |
| `PowerLocks.TransferCanLoseItsLock` | src/power/power.c:94-114 | the failing case: the application returns the reference of a running transfer |
| `PowerLocks.WorkKeepsFlashAwake` | src/lorawan/services/fuota/lorawan_fuota.c:90-98 | with a fair application the flash counter is in use throughout a transfer, an apply and a write |
| `PowerLocks.FuotaStepBalances` | src/lorawan/services/fuota/lorawan_fuota.c:80-106 | a FUOTA transition keeps the accounts, and misses no reference while the application owes none |
| `PowerLocks.ClassStepBalances` | src/lorawan/lorawan.c:54-63 | a class change keeps the accounts |
| `PowerLocks.WriteStepBalances` | src/storage/storage_settings.c:129-142 | a settings write keeps the accounts |
| `PowerLocks.Power.LockMask` | src/power/power.c:24-34 | bit i is set iff counter i is not zero |
| `PowerLocks.Power.SetPmEnabled` | src/power/power.c:36-55 | the switch holds at most one native reference |
| `PowerLocks.Power.LockGet` | src/power/power.c:72-92 | one reference more, refused for an unknown lock and at 255 |
| `PowerLocks.Power.LockPut` | src/power/power.c:94-114 | one reference less, refused for an unknown lock and at 0 |
| `PowerLocks.Clients.UpdateClassC` | src/lorawan/lorawan.c:54-63 | takes the lock at most once and gives back only what it holds |
| `PowerLocks.Clients.ReleaseFlash` | src/lorawan/services/fuota/lorawan_fuota.c:95-98 | the result of the release is not looked at |
| `PowerLocks.Clients.SetState` | src/lorawan/services/fuota/lorawan_fuota.c:80-106 | takes flash on entering a working state, gives it back on leaving |
| `PowerLocks.Clients.StartWrite` | src/storage/storage_settings.c:129-136 | a refused lock refuses the write |
| `PowerLocks.Clients.FinishWrite` | src/storage/storage_settings.c:138-141 | the write gives its reference back |
| `ClassBTrace.PhaseIsLastAsked` | src/lorawan/backend/usp/lorawan_backend_usp.c:356-371 | over every run the phase is what the last heeded input asked for: active by a beacon report only, acquiring by an accepted Class B only |
| `ClassBTrace.CallsReturn` | src/lorawan/backend/usp/lorawan_backend_usp.c:557-599 | what a class change and a stop return, and that refused ones change nothing |
| `ClassBTrace.RefusalIsInvisible` | src/lorawan/backend/usp/lorawan_backend_usp.c:584-597 | a class change succeeds iff the service is ready, the class is known and the modem accepts; otherwise it leaves no trace |
| `ClassBTrace.Backend.SetState` | src/lorawan/backend/usp/lorawan_backend_usp.c:457-464 | reports whether the state changed |
| `ClassBTrace.Backend.RequestClass` | src/lorawan/backend/usp/lorawan_backend_usp.c:557-599 | set, ask, roll back: the net effect is a change published once, or none |
| `ClassBTrace.Backend.Stop` | src/lorawan/backend/usp/lorawan_backend_usp_class_b.c:79-95 | returns to IDLE and publishes it only if it was not idle |
| `ClassBTrace.Backend.HandleStatus` | src/lorawan/backend/usp/lorawan_backend_usp.c:356-371 | beacon reports move the state, unknown ones do not |
| `FuotaCopy.ChunksCoverImage` | src/lorawan/services/fuota/lorawan_fuota.c:255-269 | the chunks concatenate to the image |
| `FuotaCopy.OnlyTheLastIsFlushed` | src/lorawan/services/fuota/lorawan_fuota.c:256-263 | chunks are full but for the last, and exactly the last is flushed |
| `FuotaCopy.CopyMeaning` | src/lorawan/services/fuota/lorawan_fuota.c:240-271 | at any failure the slot holds a prefix of the image, unflushed unless complete |
| `FuotaCopy.Target.CopyChunk` | src/lorawan/services/fuota/lorawan_fuota.c:256-266 | one chunk is read at its offset and written, or nothing is written |
| `JoinBackoff.WrapIsInvisibleIff` | src/lorawan/backend/usp/lorawan_backend_usp_network.c:227-231 | the wrapped subtraction is the true difference iff deadline and clock are within half a turn of 32 bits |

## Left out

- SettingsRuns.RunRefines: excludes writes of the three split legacy keys, which no caller makes; `SettingsRuns.SplitKeyWriteCoherentIff` says exactly when such a write would be harmless.
- JoinService.Service.BeginJoin: is one step by assumption. No lock covers `lorawan.c:502-540`: a setter may run between the configuration being built (522) and the credentials being frozen (531), and the two "active" flags differ for a moment; neither is modelled.
- CredentialService.Service.Init: is the settings half; the events it publishes are in `JoinService.Service.Initialise`, and the start hooks of attached services are not modelled.
- JoinService.Service.DispatchEvent: subscribers and services are two logs, not a table of slots; what an event carries beyond its kind is not modelled.
- JoinService.Service.DispatchNext: runs one turn without publishers in between; their interleavings are those of `EventQueue`, whose steps are the other methods of the class.
- AtService.Service.ProcessInput: runs one pass without arrivals in between; their interleavings are those of `AtInput`, whose steps are the other methods of the class.
- AtWatch.RunCutsIff: takes a ring of at least one byte, without which no byte arrives, and continuations without a further loss or reset; a further loss or reset is a further step of the run.
- AtLoss.LossCutsIff: is the case of one loss met by an immediate reset, in terms of the bytes alone; runs with any losses are in `AtWatch`.
- JoinService.Service.Initialise: does not model the start hooks of attached services.
- AtInput.Receive: takes the ring put and the latch (`at.c:190-194`) as one step. That holds for a caller in the UART interrupt, not for a thread, which a pass may interrupt between the two.
- AtService.Service.ExecuteLine: a handler is foreign code that may move the lock; replies are outcomes, not text.
- FuotaCopy.Target.CopyImageToSlot: covers image sizes up to the 32-bit range of its offsets; the flash writer and the boot request are foreign calls whose codes are taken as already mapped.
- ZephyrService.Service.RequestJoin: what applying the channel mask returns is a parameter; keys are not part of these settings.
- ZephyrService.Service.Transmit: runs the critical section and the submission with nobody between them; the interleavings are those of `ZephyrBackend`.
- ZephyrService.Service.BackendStart: takes what the region setting and the start of the stack return as one parameter; the event it publishes is not modelled.
- Interrupt-context and null-pointer checks, build-time variants: one configuration with storage, power management, automatic service locks and the image manager.
- Key names of settings are an enumeration, so the refusal of an unknown name is not expressible.
- Flash accesses fail whole or not at all; a failing one reports some negative code other than "not found", and `settings_load_one` is taken to report the stored length.
- Words, addresses and network identifiers are stored little-endian, as on the targets of the repository.
- The maximal record size is any value of its Kconfig range; line, ring, queue and table sizes are arbitrary.
- The permitted operations of a command are a set instead of a bit mask; handlers are identified by a number.
- Facades that only forward, AT handlers that parse one number and call one function, table look-ups, the hex codec and the payload cipher.
- Echo, help text, `printf` formatting, password storage, extension hooks and reboot.
- `rzi_lorawan_zephyr_set_dev_nonce`, downlinks, link checks, clock synchronisation and the FUOTA event handling around the copy and the power lock.
- Whether FUOTA's COMPLETE state implies a readable image under interleaving with an apply: it releases its lock in between.
- Real time: retry delays, keep-alive and the polling interval of the AT thread.
