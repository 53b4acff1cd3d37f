# Device-glue verification

Dafny models of the five pieces of this device tree that keep state across calls, with proofs about their whole runs.

- **Emergency numbers** (`JavaText`, `SystemProperties`, `EccText`, `EccUpdates`, `EccOrder`, `EccCta`, `MtkEccList`, `EccRuns`): the network, SIM and custom lists are parsed, merged, printed back and queried. Section 10.1.1 of 3GPP TS 22.101 says which numbers count as emergency numbers; the category is the one of section 10.5.4.33 of 3GPP TS 24.008.
- **The radio interface layer** (`DataCalls`, `RadioPower`, `MediaTekRIL`, `RilRuns`): emergency dialling, the four data-call slots, modem power and the pre-processing of replies, in one class whose `Valid()` every operation keeps.
- **The lights HAL** (`LightValues`, `LightProofs`, `LightFiles`, `Lights`): two LED drivers with cached statuses under a battery/notification arbiter; files are the log of writes to them.
- **Wi-Fi driver commands** (`SharedFreqs`, `OperChannel`, `StaReport`, `StaReadBack`, `StaLines`): the bounded frequency collector, the single/multi-channel switch and the bounded report printer. The operating classes are those of Annex E (Table E-4) of IEEE Std 802.11-2012.
- **Doze sensors** (`TiltSensor`, `ProximitySensor`): pulses as functions of the whole event trace.

The source updates its state in place, so each component is a class (or a method over an array) proved against a step function on values; the theorems are about arbitrary runs of those functions, and the class invariants or `Drive` methods carry them over to the objects. What each step function means is stated apart from it: positions in the list, channels of a colour, kinds of request, lines of the report, and short concrete runs.

Where the code and what it seems to promise differ, the model follows the code:

- an update can drop the numbers "" and "+" when a property has an empty piece (`EccUpdates.NothingLost`);
- one update of an empty SIM property is not idempotent (`EccUpdates.OneUpdateIsNotEnough`);
- repeated updates can still change the accepted numbers at the second one (`EccUpdates.AcceptanceCanChangeLate`, exactly when: `EccUpdates.AcceptanceSettlesAtOnce`);
- the category is looked up for the address as dialled, not as stripped (`MtkEccList.LookupAgreesExactly`, on the device: `MediaTekRIL.DialWithSeparators`);
- overlapping setups ask for the same interface (`DataCalls.OverlappingSetupsCollide`; ids and slots agree exactly under `DataCalls.MatchesExactly`);
- a GET_SIM_STATUS reply whose refresh throws completes its request but leaves it on the list, so it can be completed again (`MediaTekRIL.RefreshFailsTwice`, exactly when: `MediaTekRIL.Ril.ProcessSolicited`);
- a registration reply whose technology is not a number throws after its request has left the list, and the request is never completed (`MediaTekRIL.Ril.Answer`);
- a direct change from one blinking light to another is dropped by the status cache (`LightProofs.LitBatteryDelays`);
- the comment in `priv_p2p_freq_to_channel` speaks of channels 36..48 and 149..161, and the code indeed accepts every one of them, listed in Table E-4 or not (`OperChannel.TableE4Exactly`);
- the single-channel branch ignores a failed conversion and uses uninitialised variables (`OperChannel.UnrecognisedFrequencyLeaksStack`);
- the report printer reads `reserved[32]`, one past the array (nl80211.c line 669), for an argument its format has no use for (`StaReport.PrintStaStatistics`).

Assumptions about the surroundings are parameters: `networkPortion` (the framework's number stripping), `accepts` (which texts the property store takes; it always takes the four short flags), `setupCid` and `stringArray` (what is decoded from the rest of a reply), `delayFileReady`, `World` (interfaces, memory, stack contents, random word), the clock readings of a sensor event, and `removedMeanwhile` (another thread emptying the request list between two locks).

## Model

| member | source | states |
|---|---|---|
| `JavaText.JoinOfPieces` | ril/telephony/java/com/android/internal/telephony/MtkEccList.java:229-229 | splitting at every comma loses nothing: the pieces hold no comma and join back to the text, for every text |
| `JavaText.PiecesOfJoin` | ril/telephony/java/com/android/internal/telephony/MtkEccList.java:365-365 | joining separator-free pieces and splitting again gives the same pieces |
| `JavaText.SplitOfJoin` | ril/telephony/java/com/android/internal/telephony/MtkEccList.java:353-365 | for every list of separator-free pieces, filtering the empty pieces out of split(join(list)) gives the non-empty pieces of the list, in order |
| `JavaText.SplitOfJoinExact` | ril/telephony/java/com/android/internal/telephony/MtkEccList.java:353-365 | with no empty piece, split undoes join exactly, Java's dropping of trailing empty pieces included |
| `JavaText.SplitDropsLastSeparator` | ril/telephony/java/com/android/internal/telephony/MtkEccList.java:203-208 | one more separator at the end changes no split that already has one; behind a separator-free text it is cut away, with the empty text going too |
| `JavaText.ParseIntExactly` | ril/telephony/java/com/android/internal/telephony/MtkEccList.java:209-209 | a number may carry either sign and must fit 32 bits, the smallest one included |
| `EccText.LastValuePerKeyWins` | ril/telephony/java/com/android/internal/telephony/MtkEccList.java:203-213 | the network list is read without an exception exactly when every pair's category parses, and each number then has the category of the last pair that names it |
| `EccText.ReadItemExactly` | ril/telephony/java/com/android/internal/telephony/MtkEccList.java:203-213 | an item is a pair, or throws, if and only if it is a comma-free number, a comma and a non-empty comma-free category, with commas behind or not; everything else is skipped |
| `EccText.NetworkListReadsBack` | ril/telephony/java/com/android/internal/telephony/MtkEccList.java:203-213 | a printed list of number/category pairs is read back pair by pair, in order |
| `EccText.UpdatedSlotReads` | ril/telephony/java/com/android/internal/telephony/MtkEccList.java:352-380 | the merged numbers survive printing and reading back, and the printed property is empty exactly when there is none |
| `EccText.MergedMembers` | ril/telephony/java/com/android/internal/telephony/MtkEccList.java:352-364 | a merge keeps every number of the slot, adds the fixed numbers, and the no-SIM numbers when the slot was empty, and nothing else |
| `EccUpdates.UpdateEffect` | ril/telephony/java/com/android/internal/telephony/MtkEccList.java:335-382 | for arbitrary property texts and every number: accepted after an update exactly when it was accepted by name before, or the no-SIM numbers come in and it is one |
| `EccUpdates.SimHidesNoSimNumbers` | ril/telephony/java/com/android/internal/telephony/MtkEccList.java:188-289 | inserting a SIM loses exactly the numbers that only a custom entry of condition 0 matches |
| `EccUpdates.WellFormedUpdate` | ril/telephony/java/com/android/internal/telephony/MtkEccList.java:188-382 | on well-formed properties the accepted set is unchanged when both or neither were empty, and gains exactly the no-SIM numbers (bare and with a plus) when exactly one was |
| `EccUpdates.NothingLost` | ril/telephony/java/com/android/internal/telephony/MtkEccList.java:335-382 | an update removes no number if and only if neither property has an empty piece, or the network lists the empty number |
| `EccUpdates.WellFormedIsJoin` | ril/telephony/java/com/android/internal/telephony/MtkEccList.java:353-357 | well-formed means: some list of non-empty comma-free pieces joined by commas |
| `EccUpdates.UpdatedIsWellFormed` | ril/telephony/java/com/android/internal/telephony/MtkEccList.java:365-380 | an update leaves a well-formed property, whatever it held before |
| `EccUpdates.OneUpdateSuffices` | ril/telephony/java/com/android/internal/telephony/MtkEccList.java:352-365 | a non-empty property is a textual fixed point after one update, except exactly when it held commas only, no entry is fixed and some entry is for no SIM |
| `EccUpdates.EmptySlotNumbers` | ril/telephony/java/com/android/internal/telephony/MtkEccList.java:358-365 | an empty property becomes (fixed without no-SIM) then no-SIM, and at the second update (no-SIM without fixed) then fixed |
| `EccUpdates.EmptySlotNeedsTwo` | ril/telephony/java/com/android/internal/telephony/MtkEccList.java:358-365 | for all lists, one update settles an empty property if and only if (fixed without no-SIM) then no-SIM is the same list as (no-SIM without fixed) then fixed |
| `EccUpdates.OrdersDiffer` | ril/telephony/java/com/android/internal/telephony/MtkEccList.java:358-365 | the two lists differ when some number is only fixed and some only no-SIM; without a common number they coincide if and only if one is empty |
| `EccUpdates.OneUpdateIsNotEnough` | ril/telephony/java/com/android/internal/telephony/MtkEccList.java:358-365 | the concrete case: 112 always and 000 without SIM; the second update changes the text again |
| `EccUpdates.TwoUpdatesSuffice` | ril/telephony/java/com/android/internal/telephony/MtkEccList.java:335-382 | from any text whatever, two updates reach a textual fixed point |
| `EccUpdates.UpdatesSettle` | ril/telephony/java/com/android/internal/telephony/MtkEccList.java:335-382 | any number of updates from two on gives the text of the second |
| `EccUpdates.SecondUpdateNumbers` | ril/telephony/java/com/android/internal/telephony/MtkEccList.java:335-382 | from any text, the second update keeps the numbers a property names, except that one printed as empty takes in the no-SIM numbers |
| `EccUpdates.AcceptanceSettles` | ril/telephony/java/com/android/internal/telephony/MtkEccList.java:188-382 | from any texts, after any two or more updates a number is accepted exactly when it was after the first, or exactly one property printed as empty and it is a no-SIM number |
| `EccUpdates.AcceptanceSettlesAtOnce` | ril/telephony/java/com/android/internal/telephony/MtkEccList.java:188-382 | the first update settles a number for good if and only if it does not come late, a condition on the texts before any update |
| `EccUpdates.AcceptanceCanChangeLate` | ril/telephony/java/com/android/internal/telephony/MtkEccList.java:188-382 | the concrete case: properties "," and "911" with 000 for no SIM; 000 is refused after the first update and accepted after the second |
| `EccOrder.FixedInFileOrder` | ril/telephony/java/com/android/internal/telephony/MtkEccList.java:341-345 | the fixed numbers are the entries of condition other than 0, in file order, none left out and none repeated more often |
| `EccOrder.NoSimInFileOrder` | ril/telephony/java/com/android/internal/telephony/MtkEccList.java:341-347 | the same for the numbered entries of condition 0 |
| `EccOrder.RemoveAllInOrder` | ril/telephony/java/com/android/internal/telephony/MtkEccList.java:359-359 | removeAll keeps exactly the other elements, in order |
| `EccOrder.FilledSlotInOrder` | ril/telephony/java/com/android/internal/telephony/MtkEccList.java:352-365 | a filled property prints what it held and the file does not fix, in its own order, then the fixed numbers in file order |
| `EccOrder.EmptySlotInOrder` | ril/telephony/java/com/android/internal/telephony/MtkEccList.java:352-365 | an empty property prints the fixed numbers not also for no SIM, then those for no SIM, each in file order |
| `EccRuns.ShippedTexts` | configs/ecc_list.xml:12-19 | with the shipped list, 123 becomes 123,112,911,110,119 and the empty property 112,911,110,119,000,08,118,999 |
| `EccRuns.UpdateShippedList` | ril/telephony/java/com/android/internal/telephony/MtkEccList.java:335-382 | the same on a live object with both properties |
| `EccRuns.EmptyCategoryIsSkipped` | ril/telephony/java/com/android/internal/telephony/MtkEccList.java:203-213 | the concrete list 112,;911,5 is read as 911 alone, without an exception |
| `EccCta.MergeShape` | ril/telephony/java/com/android/internal/telephony/MtkEccList.java:152-178 | position by position: only the first entry of each CTA number is overwritten, all else stays, the missing numbers are appended in order |
| `EccCta.MergeKeepsDistinct` | ril/telephony/java/com/android/internal/telephony/MtkEccList.java:152-178 | a list without repeated numbers has none after the merge |
| `EccCta.MergeIdempotent` | ril/telephony/java/com/android/internal/telephony/MtkEccList.java:152-178 | merging twice is merging once, for every list |
| `EccCta.CtaNumbersAlwaysAccepted` | ril/telephony/java/com/android/internal/telephony/MtkEccList.java:152-286 | all four CTA numbers, with and without a plus, are accepted in every network and SIM state |
| `EccRuns.ParseShippedForCta` | ril/telephony/java/com/android/internal/telephony/MtkEccList.java:109-186 | with the shipped list, the merge appends 120 and 122 with category 0 and condition 2 and leaves the other entries as they are |
| `MtkEccList.EccList.ParseEccList` | ril/telephony/java/com/android/internal/telephony/MtkEccList.java:109-186 | the list is the parsed entries, CTA-merged unless CTA is off or an exception ended the parsing |
| `MtkEccList.EccList.IsEmergencyNumberExt` | ril/telephony/java/com/android/internal/telephony/MtkEccList.java:188-289 | true exactly for an accepted number; the map afterwards is the current network list's; a malformed list throws; null is never an emergency number |
| `MtkEccList.EccList.GetServiceCategoryFromEcc` | ril/telephony/java/com/android/internal/telephony/MtkEccList.java:297-333 | a matching network key's category, else the first matching custom entry's (throwing when that does not parse), else 0 |
| `MtkEccList.EccList.UpdateEmergencyNumbersProperty` | ril/telephony/java/com/android/internal/telephony/MtkEccList.java:335-382 | both properties become the merges of what they held, printed in the order EccOrder states; if the store refuses the first text the second property is untouched |
| `MtkEccList.QueryAcrossUpdate` | ril/telephony/java/com/android/internal/telephony/MtkEccList.java:188-382 | query, update, query on the live object: the second answer in terms of the first |
| `MtkEccList.CategoryDetermined` | ril/telephony/java/com/android/internal/telephony/MtkEccList.java:300-312 | the category is unique if and only if the network does not list the number both with and without its plus under two categories |
| `MtkEccList.CategoryOffTheList` | ril/telephony/java/com/android/internal/telephony/MtkEccList.java:200-333 | read off the list: the category comes from the last pair naming a matching number, else it is the number in the first matching custom entry (throwing when that is none), else 0 |
| `MtkEccList.LookupAgreesExactly` | ril/telephony/java/com/android/internal/telephony/MediaTekRIL.java:327-334 | the category lookup agrees for the address as dialled and as stripped, in every state of the lists, if and only if stripping changes nothing |
| `MediaTekRIL.SeparatorsHideTheCategory` | ril/telephony/java/com/android/internal/telephony/MediaTekRIL.java:327-334 | with 911 as the one network number, 911 is accepted and 9-11 has category 0 |
| `MediaTekRIL.DialWithSeparators` | ril/telephony/java/com/android/internal/telephony/MediaTekRIL.java:327-358 | the run that falls short: stripping gives 911, the network lists 911 with category 5, and the log is category 0 and then 9-11 |
| `RilRuns.DialOnNetwork` | ril/telephony/java/com/android/internal/telephony/MediaTekRIL.java:327-358 | the run that does not: on the same network 911 goes out as category 5 and then 911 |
| `MediaTekRIL.Ril.Dial` | ril/telephony/java/com/android/internal/telephony/MediaTekRIL.java:327-362 | an emergency number sends two requests written out in full: the category looked up for the address, for nobody's answer, then the dial for the caller's; another number goes to the superclass; a throw sends nothing; every emergency dial in the log directly follows its category request (part of Valid) |
| `MediaTekRIL.Ril.SetupDataCall` | ril/telephony/java/com/android/internal/telephony/MediaTekRIL.java:277-311 | sends the setup with the first free slot's id and keeps the device invariant |
| `MediaTekRIL.Ril.DeactivateDataCall` | ril/telephony/java/com/android/internal/telephony/MediaTekRIL.java:313-323 | frees the first slot with the cid, tells the superclass, keeps the device invariant |
| `MediaTekRIL.Ril.SetRadioPower` | ril/telephony/java/com/android/internal/telephony/MediaTekRIL.java:368-394 | sends exactly one thing per call and writes both properties, by the request, the airplane setting (1 or not) and the flag persisted before; keeps the device invariant |
| `MediaTekRIL.Ril.ProcessSolicited` | ril/telephony/java/com/android/internal/telephony/MediaTekRIL.java:396-474 | which replies are handled here; those left to the superclass are rewound to their entry position; what is removed, completed, stored, refreshed or thrown; a request is completed again if and only if the reply is a good one to a pending SIM status that failed before and the refresh throws again |
| `RilRuns.AnswerSetup` | ril/telephony/java/com/android/internal/telephony/MediaTekRIL.java:396-510 | a good reply to a pending setup takes it off the list, completes it, and puts the cid in the first free slot if it is one and there is one; nothing goes up |
| `RilRuns.AnswerOwn` | ril/telephony/java/com/android/internal/telephony/MediaTekRIL.java:396-491 | a good reply to an emergency dial, category, registration or allow-data request takes it off the list and completes it unless the registration payload throws; nothing goes up and the table stays |
| `RilRuns.AnswerTooLate` | ril/telephony/java/com/android/internal/telephony/MediaTekRIL.java:444-448 | if another thread took the request off in between, nothing is stored, completed or sent up |
| `RilRuns.AnswerSimStatus` | ril/telephony/java/com/android/internal/telephony/MediaTekRIL.java:423-431 | a good reply to a SIM status rewrites both properties and goes up from its entry position; if a text is refused it is failed instead and stays pending |
| `RilRuns.AnswerOther` | ril/telephony/java/com/android/internal/telephony/MediaTekRIL.java:404-428 | every other reply, one for no pending request or a bad one without data included, goes up exactly once from its entry position and changes nothing |
| `RilRuns.CallAfterCall` | ril/telephony/java/com/android/internal/telephony/MediaTekRIL.java:277-323 | the concrete run: setup 1, reply 5, setup 2, deactivate 5, setup 1 |
| `MediaTekRIL.Ril.CompletesAgainExactly` | ril/telephony/java/com/android/internal/telephony/MediaTekRIL.java:408-448 | a verdict completes a request a second time if and only if it is a failure of one that failed before; in every run two completions of one serial are both failures (OnlyFailuresRepeat in Valid) |
| `MediaTekRIL.RefreshFailsTwice` | ril/telephony/java/com/android/internal/telephony/MediaTekRIL.java:408-431 | the run that falls short: a store that refuses the refreshed text, two replies to one SIM status, two completions of serial 0 |
| `MediaTekRIL.Ril.Answer` | ril/telephony/java/com/android/internal/telephony/MediaTekRIL.java:444-473 | an answered request is off the list and was never completed before; if reading its payload throws it is never completed at all |
| `MediaTekRIL.FixedUpReply` | ril/telephony/java/com/android/internal/telephony/MediaTekRIL.java:476-491 | exactly when the fix throws; otherwise a technology of 128 or more becomes 15 and everything else stays; a second fix changes nothing |
| `MediaTekRIL.TrackedCallsHaveTheirInterfaces` | ril/telephony/java/com/android/internal/telephony/MediaTekRIL.java:296-506 | on the device: slots matched ids throughout if and only if every stored reply found its setup's first free slot, and then an occupied slot belongs to a call that asked for its interface; its cid was reported |
| `DataCalls.EveryRunAccounts` | ril/telephony/java/com/android/internal/telephony/MediaTekRIL.java:296-506 | in every run: occupied slots = stored replies - freeing deactivations <= 4; each slot is -1 or a reported cid; the fifth cell stays -1 |
| `DataCalls.MatchesExactly` | ril/telephony/java/com/android/internal/telephony/MediaTekRIL.java:296-506 | for every run: at all times each tracked call's interface id is its slot plus one, if and only if every stored reply answers an earlier setup and finds the same first free slot as it did |
| `DataCalls.OrderlyRunsMatch` | ril/telephony/java/com/android/internal/telephony/MediaTekRIL.java:296-506 | so if nothing between a setup and its reply moves the first free slot, ids match slots and are distinct in 1..4 |
| `DataCalls.DisorderCanMatch` | ril/telephony/java/com/android/internal/telephony/MediaTekRIL.java:296-506 | the concrete disorderly run that matches throughout |
| `DataCalls.OneAtATimeIsOrderly` | ril/telephony/java/com/android/internal/telephony/MediaTekRIL.java:296-506 | runs in which every setup is answered by the next event are orderly |
| `DataCalls.FreshCidsStayDistinct` | ril/telephony/java/com/android/internal/telephony/MediaTekRIL.java:313-321 | when no reported cid was already in the table, cids stay distinct and a deactivated cid is gone |
| `DataCalls.IdZeroMeansFull` | ril/telephony/java/com/android/internal/telephony/MediaTekRIL.java:296-303 | id 0 is requested exactly when all four slots are taken |
| `DataCalls.OverlappingSetupsCollide` | ril/telephony/java/com/android/internal/telephony/MediaTekRIL.java:296-303 | in every run, two setups with nothing stored or freed in between ask for the same interface |
| `DataCalls.OverlapBreaksTheMatch` | ril/telephony/java/com/android/internal/telephony/MediaTekRIL.java:296-506 | the concrete overlap in which a call lands in a slot it never asked for |
| `DataCalls.DeactivateUndoesReply` | ril/telephony/java/com/android/internal/telephony/MediaTekRIL.java:313-506 | deactivating a call just stored restores the table if and only if no slot below the first free one already held its cid |
| `RadioPower.PowerOnExactly` | ril/telephony/java/com/android/internal/telephony/MediaTekRIL.java:370-392 | call k powers the modem on exactly when it asks for on with an airplane setting other than 1 and the previous setting (or the persisted start) was on; off exactly when it asks for off with setting 1 |
| `RadioPower.PowerOnsAreSeparated` | ril/telephony/java/com/android/internal/telephony/MediaTekRIL.java:370-392 | two power-ons have a call with airplane setting 1 strictly between them |
| `RadioPower.FlagTracksLastCall` | ril/telephony/java/com/android/internal/telephony/MediaTekRIL.java:370-374 | after any run the persisted flag is the text true if the last setting was 1, else the text false |
| `RadioPower.EbootTracksLastRequest` | ril/telephony/java/com/android/internal/telephony/MediaTekRIL.java:375-386 | once a modem power request was sent, the boot flag is 1 exactly when the latest was a power-off |
| `Lights.LedDriver.Blink` | liblights/lights.c:228-314 | an unchanged status writes nothing and returns -1, a change writes exactly that status's files; at most ten waits, only when starting to blink |
| `Lights.LightsHal.SetSpeakerLightLocked` | liblights/lights.c:385-440 | the two blink calls of a light, in the order that turns off before on |
| `Lights.LightsHal.SetLightBattery` | liblights/lights.c:442-465 | the new whole state, as one Apply step |
| `Lights.LightsHal.SetLightNotifications` | liblights/lights.c:467-481 | the new whole state, as one Apply step |
| `Lights.LightsHal.SetLightAttention` | liblights/lights.c:483-500 | the new whole state, as one Apply step |
| `Lights.LightsHal.SetLightBacklight` | liblights/lights.c:344-358 | the new whole state, as one Apply step |
| `Lights.Drive` | liblights/lights.c:442-500 | any sequence of calls drives the device to the state Run gives, so the lemmas about runs hold of it |
| `LightProofs.StatusesForgetHistory` | liblights/lights.c:385-481 | after every run both LED statuses depend only on the light in effect: the battery if lit, else the last notification |
| `LightFiles.LedsShowTheLight` | liblights/lights.c:385-440 | after every run, both LEDs from the channels, alpha and flash fields of that light, in plain numbers |
| `LightFiles.LitExactly` | liblights/lights.c:222-226 | a light is lit when a colour channel is not 0, alpha aside; a blue battery light is lit and shows nothing |
| `LightFiles.WritesInOrder` | liblights/lights.c:228-314 | in every run a delay is written only directly behind the timer trigger (off before on), and full brightness only behind the trigger none |
| `LightFiles.RedNotification` | liblights/lights.c:385-481 | the concrete run: a red notification writes timer, 1000 and 500 to the red files and nothing else |
| `LightProofs.UnlitBatteryShowsNotificationDelays` | liblights/lights.c:442-481 | while the battery is unlit, a blinking LED has exactly the current notification's delays |
| `LightProofs.LitBatteryDelays` | liblights/lights.c:242-260 | a lit battery light's delays take effect if and only if the LED was not already blinking or had them already |
| `LightProofs.DelaysAreTheStarters` | liblights/lights.c:228-314 | in every run the delay files of a blinking LED hold the delays of the light that last turned it from not blinking to blinking |
| `LightProofs.LitBatteryHidesNotifications` | liblights/lights.c:442-481 | while the battery is lit, a notification writes no LED file |
| `LightProofs.NeverBothUnlessOrange` | liblights/lights.c:385-451 | after any single blink call of any run, red and green are not both on unless the light being shown is exactly orange |
| `LightProofs.SpeakerExclusion` | liblights/lights.c:421-437 | after a light is shown both LEDs are on if and only if it is orange; half way through only if |
| `LightProofs.CachesAgreeInEveryRun` | liblights/lights.c:228-314 | in every reachable state the cached status tells the truth about trigger, brightness and delay files |
| `LightProofs.TrackballFileExact` | liblights/lights.c:316-358 | with a trackball, from the first call other than a battery light on, the trackball file shows the attention value, or 0 for 7 while the backlight is on; it never shows -1 |
| `LightProofs.TrackballIsConstant` | liblights/lights.c:82-82 | the cached trackball value is -1 in every reachable state |
| `LightFiles.AttentionIsLast` | liblights/lights.c:483-500 | the attention value is the on time of the last light that flashes in hardware, or 0 if that one does not flash; timed flashing leaves it |
| `LightFiles.BacklightIsLastLevel` | liblights/lights.c:336-358 | in every run the backlight file and field hold (77r + 150g + 29b) / 256 of the last backlight light's channels |
| `LightProofs.BrightnessBetweenChannels` | liblights/lights.c:336-342 | the backlight level lies between the smallest and largest channel and in 0..255 |
| `SharedFreqs.GetSharedRadioFreqsData` | wpa_supplicant_8_lib/mediatek_driver_cmd_nl80211.c:899-945 | bounded collection: the distinct frequencies of the interfaces looked at, in order, with flags; it stops early only when full |
| `SharedFreqs.GetSharedRadioFreqs` | wpa_supplicant_8_lib/mediatek_driver_cmd_nl80211.c:948-967 | the first min(len, number of distinct) frequencies, zeros behind; -1 and zeros without memory |
| `SharedFreqs.FirstsInOrder` | wpa_supplicant_8_lib/mediatek_driver_cmd_nl80211.c:929-935 | the collected list has no repetition and is in order of first occurrence |
| `SharedFreqs.FreqsExactly` | wpa_supplicant_8_lib/mediatek_driver_cmd_nl80211.c:918-927 | the frequencies are exactly those of the interfaces: configured for access points and group owners, associated for others that know their BSS |
| `SharedFreqs.FlagsExactly` | wpa_supplicant_8_lib/mediatek_driver_cmd_nl80211.c:937-941 | a frequency is flagged by the last station on it, as P2P client or infrastructure, and not at all without one |
| `SharedFreqs.FreqsOfLonger` | wpa_supplicant_8_lib/mediatek_driver_cmd_nl80211.c:912-944 | stopping early yields a prefix of the full list |
| `OperChannel.FreqChannelBijection` | wpa_supplicant_8_lib/mediatek_driver_cmd_nl80211.c:819-854 | the conversion answers p for a frequency if and only if p is admissible and the frequency is p's centre, so it is exactly invertible |
| `OperChannel.TableE4Exactly` | wpa_supplicant_8_lib/mediatek_driver_cmd_nl80211.c:837-852 | exactly which recognised frequencies give a channel of Table E-4; others in between are accepted too |
| `OperChannel.WfdSink.ConfigScc` | wpa_supplicant_8_lib/mediatek_driver_cmd_nl80211.c:856-896 | the new whole state for a single- or multi-channel request, stack contents included |
| `OperChannel.WfdSink.MiracastCommand` | wpa_supplicant_8_lib/mediatek_driver_cmd_nl80211.c:1246-1288 | the effect of MIRACAST 0, 1, 2 (with or without freq=) and of other values |
| `OperChannel.WfdSink.UseMccCommand` | wpa_supplicant_8_lib/mediatek_driver_cmd_nl80211.c:1292-1309 | the effect of p2p_use_mcc and the recorded flag |
| `OperChannel.Drive` | wpa_supplicant_8_lib/mediatek_driver_cmd_nl80211.c:1246-1309 | any sequence of commands drives the device to the state Run gives |
| `OperChannel.RunShowsLastEffect` | wpa_supplicant_8_lib/mediatek_driver_cmd_nl80211.c:856-896 | after any run the pair and the channel list are those of the last effective command alone |
| `OperChannel.AdmissibleExactly` | wpa_supplicant_8_lib/mediatek_driver_cmd_nl80211.c:856-896 | the pair is admissible if and only if the last frequency was recognised (or the stack held an admissible pair), or the configured pair is admissible or unset; the list is that pair or the configured list |
| `OperChannel.UnrecognisedFrequencyLeaksStack` | wpa_supplicant_8_lib/mediatek_driver_cmd_nl80211.c:868-878 | the concrete case: MIRACAST 2 freq=5000 puts the stack's contents in force |
| `OperChannel.StationChannelIsFirstFrequency` | wpa_supplicant_8_lib/mediatek_driver_cmd_nl80211.c:899-1261 | end to end: every command that follows the station puts the device on the channel of the first frequency the interfaces use |
| `OperChannel.NamedFrequencyIsTaken` | wpa_supplicant_8_lib/mediatek_driver_cmd_nl80211.c:1263-1268 | MIRACAST 2 with a recognised frequency puts the device on its channel |
| `OperChannel.MultiChannelExactly` | wpa_supplicant_8_lib/mediatek_driver_cmd_nl80211.c:880-896 | p2p_use_mcc with a value that is not 0 modulo 256, a station without a frequency, or frequency 0 ends on the configured pair, else on channel 1, 6 or 11 by the random word, with the configured list |
| `OperChannel.UnknownMiracastIsIgnored` | wpa_supplicant_8_lib/mediatek_driver_cmd_nl80211.c:1283-1286 | any MIRACAST value above 2 modulo 256 changes nothing |
| `OperChannel.FollowingTheStationAgrees` | wpa_supplicant_8_lib/mediatek_driver_cmd_nl80211.c:1253-1308 | the two commands agree on following the station exactly unless the shared frequency is negative |
| `StaReport.PrintStaStatistics` | wpa_supplicant_8_lib/mediatek_driver_cmd_nl80211.c:519-680 | 0 exactly when report and NUL do not fit; otherwise the report's length, with the buffer holding the report; nothing from buflen on changes; reserved[32], past the array, is read exactly when all but the last six characters fit |
| `StaLines.LinesOfReport` | wpa_supplicant_8_lib/mediatek_driver_cmd_nl80211.c:519-680 | the report split at its line ends: which value stands under which name, in order, then the dumps and the closing mark |
| `StaLines.HexReadsBack` | wpa_supplicant_8_lib/mediatek_driver_cmd_nl80211.c:549-549 | a word printed as eight hexadecimal digits reads back, most significant first |
| `StaLines.QuadReadsBack` | wpa_supplicant_8_lib/mediatek_driver_cmd_nl80211.c:589-593 | a line of four counters splits into them, first queue first |
| `StaLines.MacReadsBack` | wpa_supplicant_8_lib/mediatek_driver_cmd_nl80211.c:529-529 | the address reads back byte by byte, colons in between |
| `StaReport.PrintHex` | wpa_supplicant_8_lib/mediatek_driver_cmd_nl80211.c:634-646 | the grouped hex loop prints the dump of its byte range |
| `StaReport.GroupedHexColumn` | wpa_supplicant_8_lib/mediatek_driver_cmd_nl80211.c:634-668 | byte i of a dump stands at column 2i + i/4 |
| `StaReport.ReportDeterminesReserved` | wpa_supplicant_8_lib/mediatek_driver_cmd_nl80211.c:630-672 | reports with the same text come from records with the same reserved bytes |
| `StaReadBack.ReportDeterminesRecord` | wpa_supplicant_8_lib/mediatek_driver_cmd_nl80211.c:519-680 | reports with the same text and the same rate text in them come from the same record, all fields |
| `StaReport.DecimalReadsBack` | wpa_supplicant_8_lib/mediatek_driver_cmd_nl80211.c:534-534 | a printed word reads back as the signed number C takes it for |
| `TiltSensor.RateIsBounded` | doze/src/com/cyanogenmod/settings/doze/TiltSensor.java:49-62 | any window of T ms in any run holds at most T/2500 + 1 pulses |
| `TiltSensor.NoPulseSoonAfterEnable` | doze/src/com/cyanogenmod/settings/doze/TiltSensor.java:49-74 | no pulse less than 2500 ms after an enable |
| `TiltSensor.LateTiltPulses` | doze/src/com/cyanogenmod/settings/doze/TiltSensor.java:52-61 | a tilt the full interval after everything before it does pulse |
| `TiltSensor.PulsesExactly` | doze/src/com/cyanogenmod/settings/doze/TiltSensor.java:49-74 | an event pulses if and only if it is a tilt 2500 ms or more behind the last event that set the stamp: an enable, or any event that passed, tilt or not |
| `TiltSensor.PulseTimesExactly` | doze/src/com/cyanogenmod/settings/doze/TiltSensor.java:49-62 | the pulses counted are the stamps of the pulsing events, none left out or doubled |
| `TiltSensor.Sensor.OnSensorChanged` | doze/src/com/cyanogenmod/settings/doze/TiltSensor.java:49-62 | the field and the pulses launched are those of the run |
| `TiltSensor.Sensor.Enable` | doze/src/com/cyanogenmod/settings/doze/TiltSensor.java:69-74 | the field is the clock reading; pulses unchanged |
| `ProximitySensor.PulseExactly` | doze/src/com/cyanogenmod/settings/doze/ProximitySensor.java:51-75 | a pulse at event k exactly when k-1 was below the maximum range, k is not, and the time since k-1 is under a second with hand waves on, two seconds or more with the pocket on, or anything with both |
| `ProximitySensor.PulsesByGap` | doze/src/com/cyanogenmod/settings/doze/ProximitySensor.java:64-75 | for fixed settings, exactly the uncoverings at which a run pulses, gesture by gesture |
| `ProximitySensor.GesturesPartition` | doze/src/com/cyanogenmod/settings/doze/ProximitySensor.java:64-75 | for fixed settings hand-wave and pocket pulses are disjoint; both on adds exactly the gaps of one to two seconds; both off gives none |
| `ProximitySensor.Sensor.OnSensorChanged` | doze/src/com/cyanogenmod/settings/doze/ProximitySensor.java:51-62 | the fields and the pulses launched are those of the run |

## Left out

- The XML pull parsing of `parseEccList`: the model starts from the entries it yields and whether an exception cut it short.
- Hash order: the model picks any matching key, so `MtkEccList.CategoryDetermined` says when the order matters.
- Integer.parseInt on non-ASCII digits: only the ASCII digits are digits here.
- EccUpdates.UpdateEffect: takes custom entries that are neither empty nor hold a comma, like the other update theorems, because only those survive printing; the query, the category lookup, the update method and the CTA merge are for all entries.
- MediaTekRIL.Ril.ProcessSolicited: does not model the objects handed to the result message, because no later operation depends on them; the one payload read here that can throw, the registration reply, is modelled. The superclass's decoding of a setup reply is taken to yield a cid.
- MediaTekRIL.Ril.SetupDataCall: does not model 32-bit wrap-around of radioTechnology + 2, because radio technologies are small codes.
- The parcel layout of a sent request: a request is a value with the fields written; emergency dialling always writes an absent-UUS word in front of the real one.
- What the superclass does with a forwarded call or reply, including taking its request off the list: framework code.
- Unsolicited responses, the attach-APN request, SIM refresh and USSD modes: single-branch rewrites.
- Failing writes to sysfs and interrupted sleeps: writes always succeed, the wait loop is a bounded number of looks.
- Keyboard and button lights: one write each, no state shared with the rest.
- snprintf errors and the text of the "%.1f" rate: the rate's text is part of the record, and printing never fails by itself.
- StaReport.PrintStaStatistics: gives the byte read past the array no value, because it is never printed; formats the lines of the record before printing them one by one, because the order of formatting cannot be observed.
- p2p.h, wpa_supplicant_i.h and the other supplicant headers are not part of this model: channel arrays have any size of at least one, and modes and flags are enumerations. A missing p2p context, in which case the switch does nothing, is left out.
- The other driver commands, the packet-filter parsing and the statistics handler that fills the record: command dispatch and plumbing.
- Sensor registration and disabling: disabling changes no field, so an uncovering after a disable and enable can still pulse for the near event before them.
- TiltSensor.RateIsBounded: takes the clock reading that stamps an accepted event as the time of its pulse, because the broadcast that follows is framework code; 64-bit overflow of the clock is left out.
- The value written by the power HAL, the shims, the settings screens, sepolicy and configuration data: no logic that keeps state.
