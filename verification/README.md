# waterwatch usage accounting and flow policy, in Dafny

This project models the usage-accounting and flow-policy core of the
waterwatch firmware, a water-flow monitor and valve controller built on
ESPHome. The model has no I/O: MQTT publishing becomes the values an
operation returns, and the wall clock is an explicit `now` parameter.
Base flows, report periods and whether the clock is valid are parameters
too. Rates, usages and factors are reals.

| file | module | models |
|---|---|---|
| seqs.dfy | `Seqs` | `Option`, an order-keeping filter, first-match search |
| records.dfy | `Records` | `WaterUsageTimed` and its two subclasses: one usage record with named flags |
| rotating_list.dfy | `RotatingList` | `WaterUsageList<T>`, the ring of closed records with a current index (corrected) |
| rotating_list_as_written.dfy | `RotatingListAsWritten` | `next` and `set_max_closed` exactly as written, with counterexamples |
| session.dfy | `Sessions` | `WaterUsageSessionList`, the irrigation-session detector |
| named_usage.dfy | `NamedUsage` | `WaterUsageNamedList`, the table of named usage units |
| allowances.dfy | `Allowances` | `SpecificAllowances` and the totals behind `calc_max_plus_values` |
| translation.dfy | `Translation` | `TranslationUnit` and `TranslationManager` (gallons and liters, calibration) |
| signature.dfy | `Signatures` | `Signature`, its segments and the `SignatureManager` |
| flow_sensor.dfy | `FlowSensor` | `WaterflowSensor` and its `ReportPeriod` publishing schedule |
| over_limit.dfy | `OverLimit` | the over-limit and surge-grace step of `process_wf_on_value` |
| engine.dfy | `Engine` | `dApp`: sample routing, clock ticks, commands, unit conversion, properties |

Where the code goes wrong (see "## Findings"), the module holds two
definitions:

- one that follows the code as written, with a lemma exhibiting the input
  that shows the problem;
- a corrected one, with the intended property proved.

The rest of the model uses the corrected definition. The build defines
`DEBUG_SESSION` (app_defs.h:1). Both session variants are modelled, and
the flag `debug` selects between them.

## Model

| member | source | states |
|---|---|---|
| Records.Blank | water_usage.h:35-41 | a default record is not started and has no usage, duration or name; it starts on first usage exactly when it belongs to the session list, and carries no named-unit state flag |
| Records.Init | water_usage.h:43-51 | `init` clears usage, duration and name and keeps every flag; a record that starts on first usage is left unstarted, any other is started at `now` |
| Records.Start | water_usage.h:73-76 | `start` stamps the start time and adds the given flags, changing nothing else |
| Records.TimeSoFar | water_usage.h:86-88 | `timeSoFar` is the time from the start to the end time given, or to `now` when the end time is 0 |
| Records.Close | water_usage.h:86-92 | the duration a close records is `timeSoFar` up to the end time (0 meaning now), and nothing else changes |
| Records.AddUsage | water_usage.h:93-99 | adding usage accumulates it; a record not yet started starts at `now`, a started one keeps its start time; flags, duration and name are unchanged |
| Records.ConvertInverse | water_usage.h:103-105 | a unit conversion followed by its inverse gives the record back: only the usage is re-expressed and nothing else is lost |
| Records.AddUsageTwice | water_usage.h:93-99 | two additions are one addition of their sum, with the start time of the first |
| RotatingList.Clamp | water_usage.h:181-183 | the closed-record maximum lies in [0, 168]; in-range requests are kept, out-of-range ones become 0 |
| RotatingList.Create | water_usage.h:164-172 | a new ring has `closedMax + 1` slots and no current record, and its iterator yields nothing |
| RotatingList.Next | water_usage.h:211-234 | `next` wraps to 0 from the last slot (or from no current record) and otherwise advances by one; `lastClosed` is the outgoing record as it was before its close; the closed count grows by one but never past `closedMax`; the new current record is empty; no flag changes |
| RotatingList.NextPushesFront | water_usage.h:211-252 | after a rotation the iterator yields the outgoing record, now closed, followed by the previous closed records, truncated to the new closed count: most recent first, oldest dropped |
| RotatingList.Walk | water_usage.h:237-252 | the iterator loop `while ((last = getPreviousClosed(last)))` terminates and yields exactly `countClosed` slots: those below the current index, downwards, then from `countClosed` down to just above the current index |
| RotatingList.WalkInRing | water_usage.h:237-252 | on a valid ring every slot the iterator yields lies in [0, `closedMax`], it never yields the current slot, and it never yields a slot twice |
| RotatingList.RotationsRetain | water_usage.h:211-252 | after k >= 1 rotations of a new ring the iterator yields min(k - 1, closedMax) records |
| RotatingList.EnsureCurrent | water_usage.h:258-264 | `getCurrentIndex` on a ring that has never rotated rotates it once; otherwise it changes nothing; either way the closed records are the same |
| RotatingList.GetPreviousClosed | water_usage.h:237-252 | one iterator step stays inside the ring and never lands on the current slot; the first step finds a record exactly when the closed count is positive |
| RotatingList.InitCurrent | water_usage.h:405-407 | restarting the current record in place closes and rotates nothing: the closed records the iterator yields are unchanged and no flag changes |
| RotatingList.AddUsage | water_usage.h:272-277 | adding usage to the ring changes only the current record, and the closed records the iterator yields are unchanged |
| RotatingList.ClearClosed | water_usage.h:293-300 | `clearClosed` moves the current record to slot 0 unchanged and empties the iterator; flags carried by every slot remain carried by every slot |
| RotatingList.ConvertUom | water_usage.h:283-291 | conversion converts the current record and each closed record exactly once, in place, keeping their order and their flags |
| RotatingList.SetMaxClosed | water_usage.h:178-205 | a resize clamps the maximum and keeps the current record plus the min(n, countClosed) most recent closed records, still yielded most recent first; the closed count equals the number kept |
| RotatingList.ResizeKeepsFlag | water_usage.h:178-205 | a flag carried by every slot and by a default record (a session's start-on-first-usage) survives a resize |
| RotatingListAsWritten.NextAsWritten | water_usage.h:211-234 | `next` as written counts one more closed record on every rotation that does not wrap, and closes the outgoing record even when it was already closed |
| RotatingListAsWritten.NextAgreesBeforeWrap | water_usage.h:211-234 | until the ring wraps, and on the wrapping rotation itself, `next` as written and corrected agree, provided the outgoing record is still open |
| RotatingListAsWritten.CountClosedPassesMax | water_usage.h:219-223 | once the ring is full, a rotation that does not wrap pushes the closed count as written to `closedMax + 1`; the corrected one stays at `closedMax` |
| RotatingListAsWritten.IteratorLeavesRing | water_usage.h:241-251 | a two-slot ring rotated four times as written has closed count 2, and its iterator yields slot 0 and then slot 2, outside the ring |
| RotatingListAsWritten.SetMaxClosedAsWritten | water_usage.h:178-205 | the resize as written: the result is none where the code would read outside the ring |
| RotatingListAsWritten.ResizeBeforeFirstRotation | water_usage.h:185-197 | resizing a never-rotated ring to 0 reads `wut[-1]` as written; the corrected resize rotates first and keeps a current record at slot 0 |
| RotatingListAsWritten.ResizeReversesOrder | water_usage.h:189-196 | as written the kept closed records come back from the iterator in reverse (oldest first); corrected, in the original most-recent-first order |
| RotatingListAsWritten.ResizedReversed | water_usage.h:189-196 | the as-written resize succeeds on a corrected ring and its iterator yields the kept closed records oldest first |
| Sessions.Create | water_usage.h:395-403 | a new detector keeps one closed session, uses 180 s to end and 240 s as the minimum, and starts as if the line had been dormant |
| Sessions.ClearCurrent | water_usage.h:405-407 | `clearCurrent` forgets the open session in place: it is no longer started, has no usage, and the closed sessions are untouched |
| Sessions.CloseAndRotate | water_usage.h:470-471 | closing at the end time and rotating reports the session closed at that end time as last closed and pushes it in front of the closed sessions |
| Sessions.AddUsage | water_usage.h:411-491 | a flow sample resets the dormancy counter and accumulates into the auto-starting session without closing; a no-flow sample adds the wall-clock gap (0 on the first call) to the counter; a started session dormant for `end_session_secs` ends; if it lasted at least `min_session_secs` up to `now - wf0_secs` it is closed there and rotated (return true), else it is thrown back in place; the debug variant drops the wait and the minimum |
| Sessions.EndIfDormant | water_usage.h:441-474 | a no-flow sample sets the dormancy counter; an open session ends only after `end_session_secs` of dormancy (at once in debug); an ending session at least `min_session_secs` long is closed at the end of the flow and rotated in front of the closed ones, a shorter one is discarded; otherwise the ring is unchanged |
| Sessions.KeptSessionEndsWithFlow | water_usage.h:458-472 | the session the detector keeps is the one reported as last closed; its duration ends where the flow ended and is at least the minimum |
| Sessions.ClearClosed | water_usage.h:293-300 | clearing the session ring keeps the open session and empties the closed ones |
| Sessions.ConvertUom | water_usage.h:283-291 | conversion converts the open session and each closed session once, keeping their order |
| Sessions.SetMaxClosed | water_usage.h:178-205 | resizing the session ring keeps the open session and a most-recent prefix of the closed ones, and every slot still starts on first usage |
| Sessions.CloseSessionAsWritten | water_usage.h:470-471 | closing as written: `close(end)` followed by `next()`, whose own close stamps the record again |
| Sessions.SessionDurationOverwritten | water_usage.h:211-231 | a session from 1000 to 1500 noticed dormant at 1800 is reported with 500 s but kept as written with 800 s; the corrected ring keeps 500 s |
| NamedUsage.ActiveCount | water_usage.h:551 | the number of slots holding an active unit is 0 exactly when none does and the table size exactly when all do |
| NamedUsage.ActiveCountUpdate | water_usage.h:584-590 | replacing one slot changes the active count by exactly that slot's change |
| NamedUsage.Create | water_usage.h:554-557 | a new table has two empty slots and no active unit |
| NamedUsage.FindActive | water_usage.h:639-649 | `findActive` returns the first slot holding an active unit of that name, or none when there is none |
| NamedUsage.FirstAvailableAsWritten | water_usage.h:651-661 | the availability search as written returns the first cancelled or never-started slot, or none when there is none |
| NamedUsage.FirstAvailable | water_usage.h:651-661 | the corrected search returns the first slot holding neither an active unit nor a closed one still to report |
| NamedUsage.OldestAsWritten | water_usage.h:663-677 | `getOldest` as written never returns a slot |
| NamedUsage.OldestIn | water_usage.h:663-677 | the loop of `getOldest`, with the inverted test corrected, finds the slot with the flag and the earliest start, the first one on ties |
| NamedUsage.Oldest | water_usage.h:663-677 | corrected `getOldest` returns a slot with the flag whenever one exists |
| NamedUsage.Choose | water_usage.h:566-582 | the slot search of `add_usage_unit` tries, in order, the active unit of that name, the first available slot, the oldest closed unit and the oldest active unit, and always finds a slot in a non-empty table |
| NamedUsage.ChooseEvictsOnlyWhenFull | water_usage.h:566-582 | the chosen slot holds an active unit of another name only when every slot holds an active unit |
| NamedUsage.StartUnit | water_usage.h:584-588 | a unit started in a slot is active under its name, in one state only, started at `now` with no usage and the given expiry |
| NamedUsage.PlaceKeepsValid | water_usage.h:584-590 | starting a unit in the slot of the active unit of the same name, or in any slot when there is none, keeps active names unique and `count()` equal to the active slots |
| NamedUsage.AddUsageUnit | water_usage.h:561-597 | corrected `add_usage_unit` always succeeds: the name is then active in one slot, started at `now` with no usage; every other slot is unchanged; an active unit of another name is evicted only from a full table; `count()` stays the number of active slots |
| NamedUsage.CloseUsageUnit | water_usage.h:608-615 | closing an active unit records its duration, replaces active by closed or cancelled, counts one fewer active and one more closed unit, and makes it the last closed |
| NamedUsage.DeleteUsageUnit | water_usage.h:599-615 | `delete_usage_unit` succeeds exactly when the name is active; afterwards it is not; on success the first active unit of that name loses Active and gains Closed (Canceled for a cancel), keeps its usage, gets its elapsed seconds and becomes `lastClosed`, and no other slot changes; on failure nothing changes |
| NamedUsage.PurgeFirstExpired | water_usage.h:608-627 | the corrected purge returns true exactly when some active unit has expired; it then closes the first such unit (Active replaced by Closed, usage kept), makes it `lastClosed` and changes no other slot; otherwise nothing changes |
| NamedUsage.FirstExpired | water_usage.h:618-622 | the scan of `purgeFirstExpired`, corrected: the first active unit whose expiry has come, or none when no active unit has expired |
| NamedUsage.PurgeExpired | dapp.cpp:606 | repeating the purge until it fails terminates with no expired active unit left and every unexpired active unit untouched |
| NamedUsage.AddUsage | water_usage.h:629-637 | every active unit accumulates the sample, every other slot is unchanged, and the counts stay |
| NamedUsage.SameActive | water_usage.h:551 | two tables that agree slot by slot on the active flag count the same number of active units |
| NamedUsage.ClearClosed | water_usage.h:679-686 | `clearClosed` drops the closed flag everywhere and zeroes the closed count; active units stay |
| NamedUsage.ConvertUom | water_usage.h:688-693 | conversion converts every slot, active or not, and keeps the counts |
| NamedUsage.AddUsageUnitAsWritten | water_usage.h:561-597 | as written, a successful add always counts one more active unit, whatever the slot held |
| NamedUsage.PurgeFirstExpiredAsWritten | water_usage.h:617-627 | as written, the purge fires exactly when some active unit's expiry is still ahead |
| NamedUsage.ReAddInflatesCount | water_usage.h:561-597 | adding the same name twice makes `count()` report two units while one slot is active; corrected, one |
| NamedUsage.CanceledSlotReusedWhileActive | water_usage.h:651-661 | after a cancel, as written, unit C overwrites the still active unit B in the cancelled slot while the other slot was never used |
| NamedUsage.CanceledSlotFreed | water_usage.h:651-661 | the same sequence on the corrected table keeps B and puts C in the free slot |
| NamedUsage.FullTableRefuses | water_usage.h:663-677 | with one active and one closed unit, as written a third unit is refused because `getOldest` returns null; corrected, it replaces the closed unit |
| NamedUsage.ClearedSlotStranded | water_usage.h:679-686 | after `clearClosed` the as-written search finds no available slot and the only choice left is the active unit; the corrected search offers the cleared slot |
| NamedUsage.PurgeClosesUnexpired | water_usage.h:617-627 | a unit expiring at 100 is closed at time 10 as written; the corrected purge leaves it until 100 |
| Allowances.DeleteItem | dapp.h:227-238 | corrected `delete_item` leaves no entry of that name and no expired entry, and keeps every other entry |
| Allowances.DeleteItemAsWritten | dapp.h:227-238 | as written `delete_item` keeps exactly the other entries whose expiry has already passed |
| Allowances.AddItem | dapp.h:221-225 | after `add_item` the new entry is last; every other entry came from the old list, is live and has another name; every live entry of another name is kept |
| Allowances.Get | dapp.h:240-247 | `get` returns the first entry of that name, and none exactly when no entry has the name |
| Allowances.AddThenGet | dapp.h:221-247 | `get` after `add_item` finds the entry just added |
| Allowances.EraseAndSum | dapp.h:253-266 | the erase-while-summing loop keeps, in order, the entries its test keeps and adds their upm and usage totals to the accumulators |
| Allowances.Purge | dapp.h:253-266 | the list corrected `get_totals` leaves holds exactly the live entries of the original |
| Allowances.GetTotals | dapp.h:253-266 | corrected `get_totals` erases exactly the expired entries and adds the live entries' totals to the accumulators |
| Allowances.Expired | dapp.h:253-266 | the list `get_totals` as written leaves holds exactly the entries whose expiry has passed |
| Allowances.GetTotalsAsWritten | dapp.h:253-266 | as written `get_totals` keeps only entries whose expiry has passed and sums those |
| Allowances.LiveAllowanceErased | dapp.h:227-266 | an allowance expiring at 100 counts nothing at time 10 as written and is deleted with another name; corrected it counts until it expires |
| Allowances.ConvertAll | dapp.h:183-219 | conversion applies to each allowance's upm and usage and leaves name, expiry and named-session flag as they were |
| Allowances.MaxPlus | dapp.h:287-291 | a negative flow maximum means no limit and stays; otherwise the raised maximum exceeds it by the upm allowance; the usage maximum is raised only when one is set, otherwise the old raised value stays |
| Translation.IsMatch | translation_unit.h:25-28 | a text matches a unit only when it is that unit's text or per-minute text, so gallon texts and liter texts never match the other unit |
| Translation.PulsesToUom | translation_unit.h:30 | the amount in the unit, times the pulses per unit, is the pulses times the calibration |
| Translation.UomToPulses | translation_unit.h:31 | the pulses an amount stands for, times the calibration, are the amount times the pulses per unit |
| Translation.PulsesPerUnit | translation_unit.h:40-63 | pulses per unit are positive |
| Translation.PulsesRoundTrip | translation_unit.h:30-31 | pulses to a unit and back, and a unit amount to pulses and back, are the identity whenever the calibration is not 0 |
| Translation.Create | translation_unit.h:68-78 | the manager starts in gallons with calibration 1 |
| Translation.SetCalibrateFactor | translation_unit.h:80-85 | after `set_calibrate_factor(c)` the factor in force for every unit is c, and the current unit is kept |
| Translation.GetTranslationUnit | translation_unit.h:122-131 | the unit found matches the text (gallons tried first), and none is found exactly when neither unit matches |
| Translation.TextsFindTheirUnit | translation_unit.h:122-131 | each unit's text and per-minute text find that unit |
| Translation.SetCurrent | translation_unit.h:108-119 | `set_current` reports a change exactly when the text names a unit other than the current one; otherwise nothing changes; calibration is kept |
| Translation.GetConvertCode | translation_unit.h:140-153 | no text means a calibration change, gallon texts give gal-to-liter, liter texts liter-to-gal, anything else is invalid |
| Translation.ConvertScales | translation_unit.h:155-166 | each corrected conversion code multiplies by a factor independent of the amount: 1380/364.56, 364.56/1380, new over old calibration, or 1 |
| Translation.Convert | translation_unit.h:155-166 | a corrected unit conversion keeps the amount of water: the converted amount stands for as many pulses in the new unit as the old amount did in the old unit; a calibration conversion keeps the pulses an amount stands for; an invalid code leaves the amount alone |
| Translation.ConvertAsWritten | translation_unit.h:155-166 | as written, gal-to-liter yields the amount that stands in gallons for the pulses the value stood for in liters, and liter-to-gal the reverse; the other codes agree with the corrected conversion |
| Translation.ReexpressKeepsPulses | translation_unit.h:155-160 | re-expressing an amount from one unit in another keeps the pulses it stands for |
| Translation.ConvertScalesAll | translation_unit.h:155-166 | each conversion code is a multiplication by one factor for every amount |
| Translation.ConvertRoundTrip | translation_unit.h:155-160 | gallons to liters and back gives the original amount |
| Translation.GalToLiterHelper | translation_unit.h:168-170 | `galToLiter` multiplies by 1380/364.56 |
| Translation.GallonToLiterSwapped | translation_unit.h:155-170 | one gallon is 1380/364.56 liters by the corrected code and by `galToLiter`, but 364.56/1380 by the code as written |
| Signatures.Trunc | signature.h:90 | `int += float` truncates toward zero: the result is within one of the real value, on its zero side |
| Signatures.Init | signature.h:72-84 | `init` sets the band, with float max as the upper bound when there is no allowance, and the duration window from the allowance; the accumulator and block flag stay |
| Signatures.NewSegment | signature.h:67-70 | a new segment is well formed and unblocked |
| Signatures.IsMatch | signature.h:86-108 | a segment matches only on a below-band sample after at least the minimum duration, after which it is reset and unblocked; an above-band sample, or any sample while blocked, changes nothing; an in-band sample accumulates and blocks once the accumulated seconds exceed the maximum |
| Signatures.MatchWithinWindow | signature.h:86-104 | with whole non-negative seconds the corrected accumulator never exceeds the maximum duration, so a match ends a stretch whose length lies in the window |
| Signatures.IsMatchAsWritten | signature.h:86-108 | as written, an in-band sample of at most the maximum accumulates whatever the accumulated total |
| Signatures.LongStretchMatches | signature.h:86-104 | ten in-band seconds and a drop match the built-in segment as written, though the 3 to 7 second window was exceeded; the corrected segment is blocked and does not match |
| Signatures.RunAsWrittenCounts | signature.h:89-94 | as written, one-second in-band samples add up without bound |
| Signatures.ToJson | signature.h:127-135 | a segment is written as four numbers: minimum rate, allowance, minimum duration, and the span from minimum to maximum duration |
| Signatures.FromJson | signature.h:137-139 | a segment read from JSON is well formed and keeps its accumulator |
| Signatures.JsonRoundTrip | signature.h:127-139 | reading back what a segment writes gives the same segment |
| Signatures.ParseLevel | signature.h:189-198 | "nothing", "alert" and "alarm" give their level and any other text a plain report |
| Signatures.SignatureIsMatch | signature.h:219-229 | a signature matches exactly when its last segment matches; the index then returns to 0, moves on after an earlier segment's match, and stays otherwise; only the segment in progress changes |
| Signatures.FromData | signature.h:183-213 | a signature read from JSON is named "unnamed" by default, has its parsed level and one well-formed segment per array |
| Signatures.OverLimit | signature.h:277-285 | the built-in signature has one segment and the alarm level |
| Signatures.CreateManager | signature.h:291-297 | a new manager holds the built-in signature only |
| Signatures.Hits | signature.h:304-315 | the hits are, in increasing order, exactly the positions of the signatures that match the sample |
| Signatures.ManagerIsMatch | signature.h:304-315 | every signature takes the sample once, and the result lists in order exactly those that matched |
| Signatures.ManagerFromJson | signature.h:332-338 | signatures read from JSON are appended after those present |
| FlowSensor.NewReportPeriod | water_flow_sensor.h:60-63 | a new report period has the given length, starts empty and has no report pending |
| FlowSensor.Reset | water_flow_sensor.h:103-108 | `reset` starts an empty period and remembers the length of the one that ended |
| FlowSensor.Accumulate | water_flow_sensor.h:79-93 | `add` accumulates the pulses and seconds, remembers the pulses and clears the one-shot flag |
| FlowSensor.AddAsWritten | water_flow_sensor.h:79-96 | as written `add` reports on a change in the on-change mode, whenever the period has elapsed, or on the one-shot flag |
| FlowSensor.Add | water_flow_sensor.h:79-96 | corrected, a period of 0 reports only on a change of more than 10 pulses or on the one-shot flag; any other period reports when it has elapsed or on the one-shot flag |
| FlowSensor.OnChangeReportsEveryUpdate | water_flow_sensor.h:84-92 | with a period of 0, a second update with no pulses reports as written and does not when corrected |
| FlowSensor.AddAgreesWithPeriod | water_flow_sensor.h:91-92 | away from the on-change mode both versions of `add` agree |
| FlowSensor.IdleCounts | water_flow_sensor.h:79-96 | n idle one-second updates advance the period's seconds by n and clear the one-shot flag |
| FlowSensor.ReportsWhenPeriodElapses | water_flow_sensor.h:91-92 | a new period of p > 0 seconds reports on its p-th one-second update and not before |
| FlowSensor.ResetRestarts | water_flow_sensor.h:79-108 | after a reset the period holds exactly what the next update adds |
| FlowSensor.Create | water_flow_sensor.h:22-29 | a new sensor is in wf-off mode with the default periods of 15 s (wf off) and 2 s (wf on), the wf-off one active |
| FlowSensor.SetInWfOnMode | water_flow_sensor.h:220-228 | the active period changes only when the mode flips, to the period of the new mode |
| FlowSensor.SetWfOffSecs | water_flow_sensor.h:195-200 | the wf-off period becomes active at once only in wf-off mode |
| FlowSensor.SetWfOnSecs | water_flow_sensor.h:206-211 | the wf-on period becomes active at once only in wf-on mode |
| FlowSensor.SettersKeepConsistent | water_flow_sensor.h:195-228 | mode flips and period changes keep the active period equal to the period of the current mode |
| FlowSensor.OtherModePeriodWaits | water_flow_sensor.h:206-228 | a new period for the other mode takes effect at the next flip |
| FlowSensor.OnStartInit | water_flow_sensor.h:126-147 | start-up sets both periods, activates the wf-off one, asks for a report on the next update and enters wf-off mode |
| FlowSensor.UpdateMode | water_flow_sensor.h:172-176 | the mode is on exactly when the pulses exceed the base |
| FlowSensor.PulsesPerMinute | water_flow_sensor.h:98-101 | the rate times the period's seconds is sixty times the pulses |
| FlowSensor.Update | water_flow_sensor.h:154-181 | an update publishes exactly when `add` reports; the value is the period's rate in the current unit; a report resets the period and remembers its length; the mode follows the pulses |
| FlowSensor.SetReportPeriods | dapp.cpp:753-759 | given the periods already cast to `int`: a negative period is ignored; a non-negative one is set, and the active period stays that of the mode |
| OverLimit.Initial | dapp.h:322-328 | the detector starts with the full surge grace, no seconds over the limit and the flag down |
| OverLimit.Denoise | dapp.cpp:510 | a rate below 1e-8 counts as 0; any other rate is kept |
| OverLimit.Step | dapp.cpp:518-559 | surge: only grace is spent; over the raised maximum: seconds over the limit grow by the period and the flag rises at the test period with "on" published; otherwise the detector clears, "off" is published only on a fall, and grace is re-armed only at or below the base |
| OverLimit.SignalsFollowFlag | dapp.cpp:524-555 | "off" is published exactly when the flag falls and "on" only while it is up |
| OverLimit.NoLimitNeverOn | dapp.cpp:524 | with no flow maximum the flag never rises over any run of samples |
| OverLimit.SurgeSpendsGrace | dapp.cpp:518-522 | while grace lasts, a run of flow above the base only spends grace, one period per sample |
| OverLimit.SustainedFlowTrips | dapp.cpp:524-541 | once grace is spent, sustained flow over the maximum raises the flag exactly when the time over the limit reaches the test period |
| OverLimit.QuietSampleResets | dapp.cpp:542-559 | a sample at or below the base clears the detector and restores the full grace |
| Engine.Create | dapp.h:294-331 | a new controller has no flow or usage limit, no allowance, an untested clock and full grace |
| Engine.CalcMaxPlus | dapp.h:282-293 | the limits are raised by the totals of the live allowances, expired allowances are erased, and nothing else changes |
| Engine.Boot | dapp.cpp:47-68 | `on_boot` starts the sensor with the given periods, in wf-off mode with a report due, and lets samples through; `calc_max_plus_values` erases the expired allowances and raises the limits by the live ones; nothing else changes |
| Engine.SampleUsage | dapp.cpp:563 | with a positive period, a sample's amount gives the rate back; non-negative rates give non-negative amounts |
| Engine.SessionBase | water_usage.h:441 | with a positive period, the base scaled to one sample separates flow from no flow exactly as the rate does, for every rate |
| Engine.SessionMissesFlowAsWritten | water_usage.h:441 | as written, a 10-per-minute flow in 2-second samples over a base of 1 per minute is dormancy to the session detector; with the scaled base it is flow |
| Engine.Route | dapp.cpp:563-577 | a sample's usage goes to hour, day, current and every active named unit, and to the session list only when no named unit is active; a session closed on the way is returned |
| Engine.PublishTick | dapp.cpp:579-589 | every `publish_usage_secs_` the current usage is published and starts over; otherwise the elapsed seconds accumulate |
| Engine.Sample | dapp.cpp:566-589 | a publication holds the usage current before the sample plus the sample, and the current usage then starts at 0; otherwise the sample accumulates |
| Engine.PublishedKeepsUsage | dapp.cpp:566-589 | over any run of samples, what is published plus what is still current equals what was current before plus every sample's usage |
| Engine.PublishedIsSinceLast | dapp.cpp:566-589 | from a fresh record, a run whose only publication comes at its end publishes exactly the run's usage |
| Engine.TimeCheck | dapp.cpp:491-503 | a valid clock stays valid; an untested or invalid one becomes valid exactly when the clock says so |
| Engine.ProcessWfOnValue | dapp.cpp:470-594 | nothing happens before `on_boot` or without a valid clock; otherwise the denoised sample drives the over-limit step, its usage is routed to the lists, and the current usage and its publication are those of one `Sample` step |
| Engine.SampleCountedOnce | dapp.cpp:561-577 | a processed sample's usage reaches the hour, the day and each active named unit exactly once, and no closed hour changes |
| Engine.Tick | water_flow_sensor.h:154-181 | the mode follows the pulses; an update that publishes no rate changes only the sensor; a published rate is processed as one sample by `process_wf_on_value` |
| Engine.TickCountsPeriodPulses | water_flow_sensor.h:154-181 | a reported period adds to the hour exactly the pulses counted over it, in the current unit, unless the rate is under the noise floor; an update that reports nothing leaves the hour alone |
| Engine.OnNewHour | dapp.cpp:596-611 | a new hour rotates the hourly list and returns the hour just closed; every expired named unit is closed and the others kept; expired allowances are erased and the live ones kept; the limits stay and their raised values are recomputed from the live allowances; nothing else changes |
| Engine.OnNewDay | dapp.cpp:613-624 | a new day rotates the daily list, returns the day just closed and changes nothing else |
| Engine.AddAllowance | dapp.cpp:627-662 | an empty name changes nothing; otherwise the allowance, when live, is what its name finds afterwards; every other live allowance of another name stays and nothing else is added; the limits stay and their raised values are recomputed; when the allowance asks for a named unit it is started by `add_usage_unit` with the allowance's name and expiry, and otherwise the named table is unchanged; nothing else changes |
| Engine.AddedAllowanceKept | dapp.cpp:644-652 | a live allowance just added survives the purge of the limit computation and is what its name finds |
| Engine.DeleteNamedUsage | dapp.cpp:731-745 | the name is no longer active afterwards; the unit is returned exactly when it was active and the call is not a cancel, and what is returned is that unit, closed (never cancelled), with its usage |
| Engine.DeleteAllowance | dapp.cpp:664-700 | no allowance of that name remains; every other live allowance stays and none is added; the limits stay and their raised values are recomputed; when the removed allowance had created a named unit, that unit is closed and published unless cancelled, and otherwise the named table is unchanged and nothing is published; nothing else changes |
| Engine.AddNamedUsage | dapp.cpp:702-721 | an empty name changes nothing; otherwise the open session is forgotten and the named unit is started by `add_usage_unit` with the given expiry, so it is active afterwards; closed sessions are kept and nothing else changes |
| Engine.ClearClosed | dapp.cpp:786-794 | every list forgets its closed records; the hourly, daily and session current records stay; each named unit loses only its Closed flag, so an active unit runs on; nothing else changes |
| Engine.SetReportPeriods | dapp.cpp:747-767 | each period is cast to `int` toward zero; any value above -1 is applied as its truncation (one between -1 and 1 gives 0 seconds) and a value of -1 or below, the absent default, leaves that period as it was; the mode and the rest of the controller are unchanged |
| Engine.FractionalPeriodsTruncated | dapp.cpp:750-751 | a wf off period of -0.5 is applied as 0, so a sensor in wf off mode reports on change only; 2.9 is applied as 2 |
| Engine.Converter | dapp.h:86-107 | the conversion each stored amount goes through multiplies every amount by the one factor of the sweep's code |
| Engine.ConvertStored | dapp.h:90-113 | current usage, each ring, the named units, the flow maximum and base are converted, and the usage maximum only when set |
| Engine.ConvertSweep | dapp.h:83-121 | corrected, the current, hourly, daily, session and named records, the flow maximum and base, the usage maximum when set and the allowances are each converted once, the expired allowances dropped, and the raised limits recomputed from the converted values; unit, calibration and list sizes are kept |
| Engine.ConvertSweepAsWritten | dapp.h:83-121 | as written, the allowances go through the conversion twice |
| Engine.SweepScalesAllowancesOnce | dapp.h:183-186 | corrected, each allowance's upm and usage scale by the same factor as every other amount |
| Engine.AllowancesConvertedTwice | dapp.h:86-95 | a calibration change from 1 to 2 turns an allowance of 1 into 2 when corrected and into 4 as written |
| Engine.ApplyUnit | dapp.cpp:213-223 | a known unit other than the current one becomes current and every stored amount (records, limits, allowances) is re-expressed in it by the gal-to-liter or liter-to-gal conversion, with the raised limits recomputed; otherwise nothing changes |
| Engine.ApplyCalibrate | dapp.cpp:238-249 | a calibration of 0 or equal to the one in force changes nothing; any other value is in force afterwards and every stored amount is re-expressed by the calibration change |
| Engine.ApplyCalibrateAsWritten | dapp.cpp:238-249 | as written, a calibration equal to the never-written `calibrate_factor_` field is ignored |
| Engine.CalibrationBackToOneIgnored | dapp.cpp:242 | calibrating to 2 and back to 1 leaves 2 in force as written and 1 when corrected |
| Engine.ApplyClosedPeriodsMax | dapp.cpp:205-210 | the closed-period maximum is applied to the hourly and the daily list alike |
| Engine.ApplyUnitProps | dapp.cpp:205-249 | the properties up to the calibration apply in order: both period lists resized, unit switched, flow maximum set with the raised limits recomputed, base set, calibration applied unless 0; the session sizes and durations and the sensor are untouched |
| Engine.ApplyLaterProps | dapp.cpp:251-327 | test period, surge grace, session properties, allowances and report periods are applied; absent ones keep their value; given allowances are kept only while live, with the raised limits recomputed; each report period above -1 is set to its truncation toward zero |
| Engine.ApplySessionProps | dapp.cpp:262-283 | the session properties resize the session ring and set the minimum and ending durations |
| Engine.ProcessProperties | dapp.cpp:184-327 | both period lists get the clamped closed maximum; a known unit becomes current; a calibration of 0 is never applied, any other is in force; a flow maximum given without a calibration is in force with the raised limits recomputed; the test period, surge grace, closed-session maximum and session durations given are in force and absent ones keep their value; given allowances are kept only while live, with the raised limits recomputed; each report period above -1 is set to its truncation toward zero |

## Left out

- MQTT publishing, topics and retained properties (`makeMqttTopics`, `send_retained_properties`, `send_property`, the `toJson` methods, `get_closed`): messaging I/O. What an operation publishes is returned instead.
- Display, status LED and valve GPIO (`refresh_display`, `open_valve`, `close_valve`, `toggle_valve`, `set_valve_status`, the `valve_open` property, the master-valve close on "wwh" devices): hardware side effects.
- SNTP time and the `timezone` property: the clock is the parameter `now`, its validity the parameter `clockValid`.
- The hardware pulse counter and GPIO setup of `WaterflowSensor`: the pulses counted are a parameter of `FlowSensor.Update`.
- How `pulses_base_` is derived from `upm_base_` (dapp.cpp:234): the pulse threshold is the parameter `pulsesBase`.
- How callers build expiry times (`timestamp + expire_secs * 1000`, dapp.cpp:644, 713): expiry is an opaque integer.
- JSON parsing (helper.cpp, the JSON constructors): modelled only as the data they produce (`Engine.Props`, `Signatures.FromData`).
- The `signatures` property and `set_signatures_from_json`: `Signatures.ManagerFromJson` models the append, but the sensor's signature manager is not part of `Engine.App`, since nothing in these files runs it.
- A signature read from JSON with no segment: `Signature::is_match` would read outside its array; the model requires at least one segment (`Signatures.Valid`).
- `SignatureManager::convert_uom` and `Segment::convert_uom`: both are empty in the source.
- `GenericTranslationUnit`: never instantiated.
- app_logger.h: logging.
- IEEE float rounding: rates, usages and factors are reals. The 1e-8 noise floor, 1380 and 364.56 are kept exactly. The truncations of `Segment::secs_ += secs` and of the report periods cast to `int` (dapp.cpp:750-751) are modelled, both by `Signatures.Trunc`.
- Signatures.IsMatch: the accumulator `secs_` is never initialised by the source; its first value is the constructor parameter `secs0`.
- RotatingList.CloseIfOpen: a session whose recorded end equals its start has duration 0 and is re-closed at `now` by the corrected rotation, as by the code as written.
- Engine.PublishTick: the current usage is cleared inside the callback handed to `publish_json` (dapp.cpp:583-586); the model assumes the callback runs on every publication, which depends on the MQTT client.
- Sessions.AddUsage: the integer width of `wf0_secs` and `time_t` is not modelled; integers are unbounded.

## Findings

| source | as written | input that shows it | evidently intended | confidence | as-written member | corrected member |
|---|---|---|---|---|---|---|
| water_usage.h:219-223 | every non-wrapping `next` does `++countClosed`, even once the ring is full | `closedMax` 1, four rotations: `countClosed` 2, iterator yields slot 2 of a 2-slot ring | the count stops at `closedMax` | high, not executed | RotatingListAsWritten.CountClosedPassesMax, RotatingListAsWritten.IteratorLeavesRing | RotatingList.Next, RotatingList.WalkInRing |
| water_usage.h:189-196 | the resize stores the i-th most recent record at slot i | any resize of a ring holding two or more closed records | the iterator still yields most recent first | high, not executed | RotatingListAsWritten.ResizeReversesOrder | RotatingList.SetMaxClosed |
| water_usage.h:185-197 | on a never-rotated ring resized to 0 the copy loop does not run and `wut[indexCurrent]` reads `wut[-1]` | `set_max_closed(0)` before the first rotation | rotate first, keep a current record | high, not executed | RotatingListAsWritten.ResizeBeforeFirstRotation | RotatingList.SetMaxClosed |
| water_usage.h:470-471, 227-229 | `close(end)` then `next()`, which closes again at now | session 1000 to 1500, dormant until 1800: kept with 800 s instead of 500 s | the kept duration ends with the flow | high, not executed | Sessions.SessionDurationOverwritten | RotatingList.Next, Sessions.KeptSessionEndsWithFlow |
| water_usage.h:663-677 | `getOldest` returns `nullptr` always, and its loop looks at slots without the flag | one closed and one active unit: a new unit is refused | return the oldest slot with the flag | high, not executed | NamedUsage.FullTableRefuses | NamedUsage.Oldest, NamedUsage.AddUsageUnit |
| water_usage.h:584-590 | `++countActive_` even when the slot already held an active unit | add "A" twice: `count()` 2, one active slot | `count()` is the number of active units | high, not executed | NamedUsage.ReAddInflatesCount | NamedUsage.AddUsageUnit |
| water_usage.h:43-51, 655 | `init` keeps the `canceled` flag, so a reused slot stays available while active; `dApp` never passes `cancel` (dapp.cpp:734), so only a caller of the class itself reaches it | add A, cancel A, add B, add C: C overwrites B | a restarted slot carries only `active` | high, not executed | NamedUsage.CanceledSlotReusedWhileActive | NamedUsage.CanceledSlotFreed, NamedUsage.StartUnit |
| water_usage.h:655, 679-686 | a cleared closed slot is started, so it is never available again | add A and B, close A, clear: only B's slot can be taken | a slot with nothing to report is available | medium, not executed | NamedUsage.ClearedSlotStranded | NamedUsage.FirstAvailable |
| water_usage.h:621 | `purgeFirstExpired` closes a unit whose expiry is ahead | unit expiring at 100, purged at 10 | close units whose expiry has come | high, not executed | NamedUsage.PurgeClosesUnexpired | NamedUsage.PurgeFirstExpired |
| dapp.h:227-266 | `delete_item` and `get_totals` erase allowances whose expiry is still ahead | allowance expiring at 100, at time 10 | erase only expired allowances | high, not executed | Allowances.LiveAllowanceErased | Allowances.GetTotals, Allowances.DeleteItem |
| dapp.h:86-95 | the allowances are converted at line 87 and again at line 93 | calibration 1 to 2, allowance 1 becomes 4 | convert each amount once | high, not executed | Engine.AllowancesConvertedTwice | Engine.ConvertSweep |
| dapp.cpp:242 | the new calibration is compared with `dApp::calibrate_factor_`, which these files never write; dapp.h:386 exposes a writable `calibrate_factor()` reference, so code outside these files may write it | calibrate to 2, then back to 1: stays 2 | compare with the factor in force | medium, not executed | Engine.CalibrationBackToOneIgnored | Engine.ApplyCalibrate |
| translation_unit.h:157-160 | `GalToLiter` converts liters to gallons and `LiterToGal` the reverse | one gallon becomes 364.56/1380 liters | 1380/364.56 liters, as `galToLiter` computes | high, not executed | Translation.GallonToLiterSwapped | Translation.Convert, Translation.ConvertRoundTrip |
| signature.h:91 | the block test compares the per-call `secs` with the maximum | built-in segment, ten in-band seconds, then a drop: matches | compare the accumulated `secs_` | high, not executed | Signatures.LongStretchMatches | Signatures.IsMatch |
| water_flow_sensor.h:91-92 | `secs_ >= report_period_secs_` is also tested with a period of 0 | on-change mode, two steady updates: both report | with period 0, report only on a change | medium, not executed | FlowSensor.OnChangeReportsEveryUpdate | FlowSensor.Add |
| water_usage.h:441, dapp.cpp:563-569 | the session detector compares a sample's usage with the base rate | base 1 per minute, 2-second samples at 10 per minute: dormancy | compare with the base scaled to the sample | medium, not executed | Engine.SessionMissesFlowAsWritten | Engine.SessionBase |
