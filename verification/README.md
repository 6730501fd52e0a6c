# Location HAL, update-time search and UTF shim: a verified model

The repository is a device tree. Its own code is a GNSS location HAL (`gps/`), a Boyer-Moore searcher
that finds the baseband version in a partition when an update is installed (`recovery/`), and a UTF-16 to
modified UTF-8 shim (`libshims/`). The modules here model the parts of that code that carry state or
intricate loops.

| module | what it models |
|---|---|
| `BoyerMoore`, `BoyerMooreTables` | the two shift tables and their exact contents, the search loop, and the pattern the updater searches for |
| `AgpsModel`, `AgpsProperties`, `AgpsHandles`, `AgpsDuties`, `AgpsManagerModel`, `AgpsManagerDuties`, `Agps` | the AGPS state machine and its manager: data calls, subscribers, callbacks, modem restart; the `Duties` say what must happen, the others what must not |
| `TrackingModel`, `TrackingProperties`, `TrackingDuties`, `Tracking` | many tracking sessions sharing the one session of the engine, and the messages that drive it |
| `SvBlacklist` | satellite blacklists as masks and as lists of ids |
| `SetMaps`, `SubscriptionModel`, `Subscriptions` | the map of sets, the two-way index of data-item subscriptions, and notification |
| `TripModel`, `TripProperties`, `TripPace`, `TripBatch`, `TripRuns`, `Trips` | trips that share one batch of the modem: the distances they are told, when the modem reports, and what batch the commands make it run |
| `NetworkHandles`, `ReportHistory` | the table of network handles and the bounded histories of reports |
| `Adapters` | the compact array of adapters |
| `Utf16to8` | the length, copy and duplicate functions of the shim |
| `Sequences`, `Wrappers` | helpers |

Code that changes state step by step is a class or a method with loops. Each such method is proved equal to
a function of the old state (`AgpsModel.Process`, `TrackingModel.Start`, `TripModel.Report` and so on), and
what the code promises is proved about those functions, over whole runs where there is a run. A message's
`proc()` or a response is one step. The modem, the framework and the engine are inputs of a run.

Integers are unbounded except where the width matters: `BoyerMoore.Search` stays within a 32-bit `int`,
trips count in `uint32_t` and wrap around, and the shim adds in `size_t`. A blacklist mask is 64 booleans.

## Where the code does not do what it is meant to do

* `bm_make_delta2` tests the suffix at `p` and records `p + 1` (`recovery/recovery_updater.cpp:78-79`). The
  search finds the leftmost occurrence in every text if and only if the pattern has no proper border, or all
  its bytes are equal (`BoyerMoore.LeftmostIff`). The updater's own pattern has no border.
* `LocUnorderedSetMap::update` returns the values that stay, not those that go
  (`gps/utils/LocUnorderedSetMap.h:186-196`), although its comment and that of its caller
  (`gps/core/SystemStatusOsObserver.cpp:155-166`) say otherwise. An update therefore keeps the two maps
  inverse if and only if the client had no items before (`SubscriptionModel.UpdateKeepsInverseIff`). After it,
  every change reaches its clients if and only if the client asks for no item it already had
  (`Subscriptions.UpdateReachesIff`), and the framework's ids are the items that clients want if and only if
  others want all that the client had (`SubscriptionModel.UpdateKeepsUnionIff`).
* A tracking update that slows down the fastest session can leave the engine at the old rate
  (`TrackingProperties.UpdateExactIff`), and where distance tracking is not supported an update that asks for
  a distance can leave a session unserved (`TrackingProperties.SwitchToDistanceIff`).
* A trip that joins and forces a restart discards what was travelled since the last report
  (`TripProperties.ForcedJoinExactIff`), and the loop after a modem restart resets copies
  (`TripProperties.ModemRestartExactIff`).
* A stop makes the modem report too late when the distance it sends does not fit what the trips have really
  left (`TripPace.StopTimelyIff`). That happens in two ways: the distance comes from lengths that only a
  report brings up to date (`TripRuns.StaleStopRun`), or a restart for the interval alone sends the full
  old distance again (`TripRuns.IntervalStopRun`). So does a join that restarts the batch with a distance
  that does not fit (`TripPace.ForcedJoinTimelyIff`): when the modem does not say what it has counted, the
  old distance goes out in full (`TripRuns.BlindJoinRun`).
* A join whose restart fails leaves the adapter with a batch that the modem does not run
  (`TripPace.StepAgreesIff`), and when the restart after a modem restart fails no later join starts a batch
  (`TripBatch.FailedRestartIsNotMended`). The interval of a join that was not recorded stays, though no trip asks
  for it (`TripBatch.RestartShortestIff`).
* A join whose distance query fails can be answered with success though the trip is not recorded
  (`TripProperties.AnsweredIffRecorded`; `TripRuns.BlindJoinRun` is such a run).
* A first network report enters the table even when it says that the network is gone
  (`NetworkHandles.FirstReportIsKept`), and a report keeps the stored mask of types exact only under the
  conditions of `NetworkHandles.StoredTypesExactIff`.
* SBAS ids from 208 to 246 shift a 64-bit word by 64 or more, which C++ leaves undefined
  (`SvBlacklist.ShiftableIff`).

## Model

| member | source | states |
|---|---|---|
| BoyerMoore.MaxSuffixLen | recovery/recovery_updater.cpp:47-55 | the length of the longest common suffix of the pattern and of its prefix ending at p, capped at p |
| BoyerMoore.MakeDelta1 | recovery/recovery_updater.cpp:60-69 | the table holds for every byte the distance of its last occurrence before the pattern's end, or the pattern's length |
| BoyerMoore.FillPrefixShifts | recovery/recovery_updater.cpp:72-82 | the first loop leaves at each place the shift of the nearest border recorded so far, off by one as in the code |
| BoyerMoore.MakeDelta2 | recovery/recovery_updater.cpp:72-91 | after both loops every place holds the last shift stored for it, so the smallest |
| BoyerMoore.CompareBackwards | recovery/recovery_updater.cpp:100-107 | finds the last byte of the window that differs from the pattern |
| BoyerMoore.Scan | recovery/recovery_updater.cpp:98-118 | the loop with its two tables does what the search function says, with the window always inside the text |
| BoyerMoore.Search | recovery/recovery_updater.cpp:93-120 | reads only inside the text and the tables, stays in the range of an int, terminates, returns only true occurrences, and for borderless or constant patterns the leftmost one or NULL exactly when there is none |
| BoyerMoore.StoredShiftIsSmallest | recovery/recovery_updater.cpp:84-91 | later overwrites only make a stored shift smaller |
| BoyerMoore.PlausibleIsStored | recovery/recovery_updater.cpp:84-91 | every shift within the pattern that agrees with the matched suffix and differs at the mismatch is stored for that mismatch |
| BoyerMoore.GoodSuffix | recovery/recovery_updater.cpp:72-91 | for borderless and for constant patterns no table entry exceeds a shift that could still match |
| BoyerMoore.SkipIsSafe | recovery/recovery_updater.cpp:109-116 | the larger of the two shifts never jumps over an occurrence |
| BoyerMoore.RunFindsOccurrence | recovery/recovery_updater.cpp:93-120 | for every pattern, bordered or not, a result is an occurrence |
| BoyerMoore.MissedText | recovery/recovery_updater.cpp:78-79 | for each other pattern without NUL, a text that holds it and in which the search finds nothing |
| BoyerMoore.LeftmostIff | recovery/recovery_updater.cpp:72-120 | the search is leftmost on all texts if and only if the pattern is borderless or all its bytes are equal, which is also when no entry overshoots |
| BoyerMoore.BasebandSearchIsExact | recovery/recovery_updater.cpp:40 | the updater's pattern is found at its first place in every image |
| BoyerMooreTables.ShiftIs | recovery/recovery_updater.cpp:72-91 | what the good-suffix table holds for any mismatch of a NUL-free pattern: the least shift inside the pattern that can still match; without one, one more than the first border from there on; without that, the length less one |
| BoyerMooreTables.StrncmpIff | recovery/recovery_updater.cpp:78 | the comparison finds no difference if and only if the strings are equal up to its length or up to a NUL that both have at the same place |
| AgpsProperties.ListInEveryRun | gps/gnss/Agps.cpp:73-283 | in every run handles are distinct and RELEASED has no subscribers; without modem restart PENDING and ACQUIRED have an active one, RELEASING an inactive one and no others, and inactive ones are wait-for-close; without waiting requests RELEASING is not reached |
| AgpsProperties.StepKeepsList | gps/gnss/Agps.cpp:41-71 | each event keeps those list invariants |
| AgpsProperties.CallsInEveryRun | gps/gnss/Agps.cpp:289-308 | in every run requests and ends of the data call alternate, and a call is outstanding exactly in PENDING and ACQUIRED |
| AgpsProperties.CallConservation | gps/gnss/Agps.cpp:73-308 | requests sent equal releases sent plus calls the framework ended plus one while a call is outstanding |
| AgpsHandles.BroadcastReaches | gps/gnss/Agps.cpp:310-380 | a broadcast notifies a listed, selected handle once and nobody else |
| AgpsHandles.GoneStaysGone | gps/gnss/Agps.cpp:73-283 | a handle that is neither listed nor asking is not notified and does not come back |
| AgpsHandles.OpenOnlyWhenAcquired | gps/gnss/Agps.cpp:173-194 | open-ok is sent only in ACQUIRED |
| AgpsHandles.HandleInEveryRun | gps/gnss/Agps.cpp:73-380 | a handle requested once receives nothing, open-ok, open-failed, close, or open-ok then close |
| AgpsDuties.RequestIsTaken | gps/gnss/Agps.cpp:73-107 | after a request the handle is listed and the machine not at rest; one at rest asks for exactly one data call and waits, an acquired one answers open-ok at once, and no other handle is told anything or loses its record |
| AgpsDuties.GrantTellsActive | gps/gnss/Agps.cpp:173-194 | the grant of a pending call ends in ACQUIRED with the list as it was, and every active subscriber is told open-ok once, nobody else |
| AgpsDuties.EndTellsAll | gps/gnss/Agps.cpp:196-283 | a pending call refused or an acquired one dropped ends in RELEASED with nobody listed, each having been told open-failed, or close |
| AgpsDuties.CloseTellsWaiting | gps/gnss/Agps.cpp:208-283 | when a call being released is closed, exactly those who waited are told and leave; the others stay and get a new call, or the machine is at rest if there are none |
| AgpsDuties.ReleaseIsDone | gps/gnss/Agps.cpp:109-171 | a release tells and removes exactly its own handle, or marks it when it waits for the close; the call is released exactly when no active subscriber is left |
| AgpsDuties.ReleaseWithoutCall | gps/gnss/Agps.cpp:113-116 | in RELEASED a release is answered with a close and changes nothing |
| AgpsDuties.OthersAreIgnored | gps/gnss/Agps.cpp:173-283 | a report that does not fit the state changes nothing and sends nothing |
| AgpsDuties.AskedIsListedOrTold | gps/gnss/Agps.cpp:73-283 | in every run without modem restart a handle that has asked is listed, unless its callbacks hold an open-failed or a close |
| AgpsManagerModel.SlotsInEveryRun | gps/gnss/Agps.cpp:563-625 | in every run through the manager RELEASING is not reached, and the list invariants hold for both machines |
| AgpsManagerModel.HandleTold | gps/gnss/Agps.cpp:563-662 | in every run through the manager the callbacks for a handle requested once are one of the five |
| AgpsManagerModel.GoneForGood | gps/gnss/Agps.cpp:563-675 | a handle that has left both lists and is not requested again receives nothing more |
| AgpsManagerDuties.MachinesAsConfigured | gps/gnss/Agps.cpp:514-535 | which machines exist after a configuration, an existing one being kept |
| AgpsManagerDuties.RequestReachesMachine | gps/gnss/Agps.cpp:537-597 | a request of an invalid, SUPL or SUPL-ES type is listed by the AGNSS machine, one for any WWAN or another type by the internet machine, and the other machine is as before; without the machine it is answered with open-failed |
| AgpsManagerDuties.GrantReachesMachine | gps/gnss/Agps.cpp:627-644 | the grant for a type reaches everybody the machine of that type lists, and the other machine does not notice |
| AgpsManagerDuties.EndReachesMachine | gps/gnss/Agps.cpp:646-662 | a refusal or close for a type tells everybody the machine of that type lists, and leaves it at rest |
| AgpsManagerDuties.ReleaseReachesMachine | gps/gnss/Agps.cpp:599-625 | a release takes the handle from the machine that lists it, and tells it that it is closed |
| AgpsManagerDuties.NobodyIsForgotten | gps/gnss/Agps.cpp:563-662 | in every run through the manager without modem restart a handle that has asked is with one of the machines, unless it was told open-failed or close |
| Agps.AgpsStateMachine.ProcessAgpsEvent | gps/gnss/Agps.cpp:41-71 | the machine and what it sends become what the model's event says |
| Agps.AgpsStateMachine.ProcessUnsubscribe | gps/gnss/Agps.cpp:109-171 | the same for a release request in each state |
| Agps.AgpsStateMachine.NotifyAllSubscribers | gps/gnss/Agps.cpp:310-343 | the loop notifies the selected subscribers in order, and deletes them when asked |
| Agps.AgpsManager.RequestATL | gps/gnss/Agps.cpp:563-597 | the manager picks the machine by type and delivers one subscription |
| Agps.AgpsManager.ReleaseATL | gps/gnss/Agps.cpp:599-625 | the manager finds the machine that lists the handle, or does nothing |
| Agps.AgpsManager.HandleModemSSR | gps/gnss/Agps.cpp:664-675 | both lists are dropped |
| TrackingProperties.StartKeeps | gps/gnss/GnssAdapter.cpp:2921-3009 | a start leaves the engine no slower than any session asks, exactly at the minimum if it was and the session is new, and one answer or command goes out |
| TrackingProperties.StopKeeps | gps/gnss/GnssAdapter.cpp:3280-3342 | the same for a stop |
| TrackingProperties.UpdateServes | gps/gnss/GnssAdapter.cpp:3163-3225 | an update leaves the engine no slower than any session asks |
| TrackingProperties.UpdateExactIff | gps/gnss/GnssAdapter.cpp:3163-3225 | it stays at the minimum if and only if NHz mode is on or the update does not slow the fastest session down unnoticed |
| TrackingProperties.SlowDownRun | gps/gnss/GnssAdapter.cpp:3163-3225 | a run in which the fastest session slows down and the engine goes on at the old rate |
| TrackingProperties.SwitchToDistanceIff | gps/gnss/GnssAdapter.cpp:3067-3157 | a switch to distance tracking keeps everyone served if and only if it is supported, or other sessions remain and the interval the stop leaves the engine with, read off the state before the call, is no longer than the one asked for |
| TrackingProperties.BlindSwitchRun | gps/gnss/GnssAdapter.cpp:3067-3157 | a run in which such a switch leaves a session while the engine is stopped |
| TrackingProperties.RestartKeeps | gps/gnss/GnssAdapter.cpp:2606-2638 | a restart brings the engine to the minimum, or to 100 ms in NHz mode |
| TrackingProperties.ServesInEveryRun | gps/gnss/GnssAdapter.cpp:199-221 | in every run whose switches to distance tracking stay served the engine runs exactly while a session lives, no slower than any asks, and the flag for the highest rate means 100 ms |
| TrackingProperties.ExactInEveryRun | gps/gnss/GnssAdapter.cpp:2921-3225 | in every run of starts, updates that slow nobody down unnoticed, stops and restarts the engine's interval is, without NHz need, the minimum over the live sessions |
| TrackingDuties.StepDrivesEngine | gps/gnss/GnssAdapter.cpp:2921-3342 | after every step the options the engine runs with are those that the messages of the step, start, stop, restart or halt, make of the old ones |
| TrackingDuties.CommandIsAnswered | gps/gnss/GnssAdapter.cpp:2868-3274 | every command for a time-based session sends one message, for the key of the command, and a refusal exactly when the command is malformed or names no session |
| TrackingDuties.StartSaves | gps/gnss/GnssAdapter.cpp:2878-2902 | a start that is not refused saves the session under its key, with the interval raised to 100 ms and the mode lowered to M2 for a long time between measurements, and no other session changes |
| TrackingDuties.UpdateSaves | gps/gnss/GnssAdapter.cpp:3084-3147 | the same for an update |
| TrackingDuties.StopErases | gps/gnss/GnssAdapter.cpp:3246-3274 | a stop erases exactly its session |
| TrackingDuties.DistanceSessions | gps/gnss/GnssAdapter.cpp:3067-3274 | what a command for a distance-based session saves or erases here, and that it sends nothing |
| TrackingDuties.LowestModeIs | gps/gnss/GnssAdapter.cpp:2946-2969 | the loop finds the lowest mode of the sessions when every mode is set |
| TrackingDuties.HighestPowerIs | gps/gnss/GnssAdapter.cpp:2606-2631 | the options found are those of the first session with the lowest mode that is set, unless the first session of all has none set, whose options then stand |
| TrackingDuties.StartSetsMode | gps/gnss/GnssAdapter.cpp:2940-2985 | a start with a lower mode than any live session puts the engine in that mode, unless it runs for NHz |
| TrackingDuties.StopSetsMode | gps/gnss/GnssAdapter.cpp:3280-3342 | a stop that changes the engine leaves it in the lowest mode of the remaining sessions |
| TrackingDuties.RestartSends | gps/gnss/GnssAdapter.cpp:2606-2638 | a restart sends the smallest interval with its distance and the highest power with its time between measurements |
| TrackingDuties.StartTakesRest | gps/gnss/GnssAdapter.cpp:2940-2985 | what a start sends the engine has the distance and the time between measurements of the first session with the smallest interval |
| TrackingDuties.UpdateTakesRest | gps/gnss/GnssAdapter.cpp:3163-3225 | the same for an update beside other sessions |
| TrackingDuties.StopTakesRest | gps/gnss/GnssAdapter.cpp:3280-3342 | the same for a stop |
| TrackingDuties.FastEngineIsLeftAlone | gps/gnss/GnssAdapter.cpp:199-221 | in NHz mode the engine is started once at 100 ms, and what other sessions ask for after that is answered at once |
| TrackingDuties.ConfigUpdateSends | gps/gnss/GnssAdapter.cpp:5640-5682 | a new constellation configuration halts a running engine before it restarts it |
| Tracking.GnssAdapter.StartTrackingCommand | gps/gnss/GnssAdapter.cpp:2868-2912 | the command does what the model says, error answers included |
| Tracking.GnssAdapter.UpdateTrackingOptionsCommand | gps/gnss/GnssAdapter.cpp:3067-3157 | the same for an update |
| Tracking.GnssAdapter.StopTrackingCommand | gps/gnss/GnssAdapter.cpp:3246-3274 | the same for a stop |
| Tracking.GnssAdapter.CheckAndRestartSPESession | gps/gnss/GnssAdapter.cpp:2606-2638 | the same for a restart |
| Tracking.GnssAdapter.UpdateSvConfig | gps/gnss/GnssAdapter.cpp:5640-5682 | the same for a new constellation configuration, which suspends and restarts the sessions |
| Tracking.GnssAdapter.UpdateNHzRequirement | gps/gnss/GnssAdapter.cpp:6200-6216 | the same for the NHz callback |
| Tracking.GnssAdapter.StopClientSessions | gps/gnss/GnssAdapter.cpp:2418-2433 | stops the time-based sessions of the client and no others |
| SvBlacklist.ConvertToGnssSvIdConfig | gps/gnss/GnssAdapter.cpp:1709-1811 | for any list, every listed satellite's bit, by the numbers of the constellation's ids, or the whole constellation for id 0, is added to the masks and nothing else, except to the SBAS mask when the list has an id whose shift is undefined; the answer says whether any bit is set |
| SvBlacklist.ShiftableIff | gps/gnss/GnssAdapter.cpp:1752-1792 | the ids whose shift is undefined are exactly the SBAS ids from 208 to 246 |
| SvBlacklist.ConvertFromGnssSvIdConfig | gps/gnss/GnssAdapter.cpp:1813-1859 | appends the ids of the constellations in order |
| SvBlacklist.ConvertGnssSvIdMaskToList | gps/gnss/GnssAdapter.cpp:1861-1899 | appends the ids of a mask, or id 0 for a full one |
| SvBlacklist.IdSetsBit | gps/gnss/GnssAdapter.cpp:1709-1899 | the id of a bit sets that bit again |
| SvBlacklist.AllAreListed | gps/gnss/GnssAdapter.cpp:1813-1859 | the list names exactly the bits of the masks, the split SBAS range included |
| SvBlacklist.BackAgain | gps/gnss/GnssAdapter.cpp:1709-1859 | masks that add exactly what the list of a config names to zero are that config |
| SvBlacklist.ThereAndBack | gps/gnss/GnssAdapter.cpp:1709-1899 | any masks converted to a list and back are the same masks, with the answer true |
| SvBlacklist.EffectIsCover | gps/location/LocationDataTypes.h:1362-1390 | bit k of a mask is set exactly by id 0 or by 65+k for GLONASS, 193+k for QZSS, 201+k for BeiDou, 301+k for Galileo, 401+k for NavIC, and 120+k below 39 and 144+k from 39 on for SBAS |
| SvBlacklist.WrittenIds | gps/gnss/GnssAdapter.cpp:1813-1899 | the list has an entry if and only if it is id 0 of a constellation that is wholly listed, or the id, by those numbers, of a set bit |
| SvBlacklist.WrittenInOrder | gps/gnss/GnssAdapter.cpp:1813-1899 | constellations come as BeiDou, Galileo, GLONASS, QZSS, SBAS, NavIC, each with ascending ids, so none twice |
| SvBlacklist.AnyBitIff | gps/gnss/GnssAdapter.cpp:1793-1800 | the answer of the conversion is true if and only if some mask has a bit |
| SetMaps.LocUnorderedSetMap.Add | gps/utils/LocUnorderedSetMap.h:152-181 | adds the values to each key and returns the keys that are new |
| SetMaps.LocUnorderedSetMap.TrimOrRemove | gps/utils/LocUnorderedSetMap.h:118-148 | takes the values from each key, removes the keys left empty, and returns those keys and the values that went |
| SetMaps.LocUnorderedSetMap.Update | gps/utils/LocUnorderedSetMap.h:186-196 | replaces the values of a key; the argument keeps the new ones and the result the ones that stay |
| SetMaps.RemoveAndReturnInterset | gps/utils/LocUnorderedSetMap.h:63-77 | takes the common elements out of the first set and returns them |
| SetMaps.UpdatedHolds | gps/utils/LocUnorderedSetMap.h:186-196 | after an update exactly the given values hold for the key, and no key is left without values |
| SetMaps.NewKeysAre | gps/utils/LocUnorderedSetMap.h:152-181 | the keys returned as new are those that are there afterwards and were not before |
| SubscriptionModel.SubscribeKeeps | gps/core/SystemStatusOsObserver.cpp:105-126 | adds exactly the client's items, keeps the maps inverse and free of empty sets, and mirrors the framework exactly unless data were requested for new items |
| SubscriptionModel.UnsubscribeKeeps | gps/core/SystemStatusOsObserver.cpp:223-242 | removes exactly the client's items and keeps all three invariants |
| SubscriptionModel.UnsubscribeAllKeeps | gps/core/SystemStatusOsObserver.cpp:262-284 | removes exactly the client and keeps all three invariants |
| SubscriptionModel.UpdateServes | gps/core/SystemStatusOsObserver.cpp:151-200 | the client's set becomes the new one, but on the item side it becomes the symmetric difference of old and new |
| SubscriptionModel.UpdateKeepsInverseIff | gps/core/SystemStatusOsObserver.cpp:151-200 | the maps stay inverse if and only if the client had no items |
| SubscriptionModel.UpdateKeepsUnionIff | gps/core/SystemStatusOsObserver.cpp:151-200 | after an update the framework's ids are the union of all clients' items if and only if every item the client had is also wanted by another |
| SubscriptionModel.UpdateBreaksInverse | gps/core/SystemStatusOsObserver.cpp:151-200 | a run after which the item side has lost a client |
| SubscriptionModel.UpdateBreaksUnion | gps/core/SystemStatusOsObserver.cpp:151-200 | a run after which a client's item is not subscribed at the framework |
| SubscriptionModel.IndexInEveryRun | gps/core/SystemStatusOsObserver.cpp:62-284 | in every run no empty sets; the mirror without requestData; the inverse while updates are the client's first |
| SubscriptionModel.UnionInEveryRun | gps/core/SystemStatusOsObserver.cpp:62-284 | in every run without requestData and with updates only as a client's first message the framework, once installed, is subscribed to exactly the items that the messages make clients want |
| SubscriptionModel.ClientsGetWhatTheyAsk | gps/core/SystemStatusOsObserver.cpp:105-284 | in every run a client's items are those its latest messages ask for |
| Subscriptions.SystemStatusOsObserver.SetSubscriptionObj | gps/core/SystemStatusOsObserver.cpp:62-89 | the whole new state when a subscription object is installed |
| Subscriptions.SystemStatusOsObserver.UpdateSubscription | gps/core/SystemStatusOsObserver.cpp:151-200 | the whole new state after an update |
| Subscriptions.SystemStatusOsObserver.UpdateCache | gps/core/SystemStatusOsObserver.cpp:558-589 | an accepted item is cached and a refused one changes nothing, no other item is touched, and the answer is true exactly when the cache changed |
| Subscriptions.SystemStatusOsObserver.SendCachedDataItems | gps/core/SystemStatusOsObserver.cpp:530-556 | the client gets one call with the cached contents of exactly those ids that are cached, and no call if none is |
| Subscriptions.SystemStatusOsObserver.FindCached | gps/core/SystemStatusOsObserver.cpp:538-548 | the loop over the ids finds all that are cached and nothing else |
| Subscriptions.SystemStatusOsObserver.Notify | gps/core/SystemStatusOsObserver.cpp:311-344 | each client that is reached gets one delivery with exactly its subscribed items that changed, and nobody else any |
| Subscriptions.NotifiesEveryone | gps/core/SystemStatusOsObserver.cpp:311-344 | with inverse maps a client is called if and only if one of its items changed, with exactly those items |
| Subscriptions.NotifiedAsWanted | gps/core/SystemStatusOsObserver.cpp:105-344 | in every run with updates only as a client's first message a notification brings a client in one call exactly the changed items that its messages ask for |
| Subscriptions.ChangedIff | gps/core/SystemStatusOsObserver.cpp:558-589 | an item counts as changed if and only if one of the data items for it is accepted and brings a value that those before it have not left in the cache, a first value included |
| Subscriptions.LatestIsCached | gps/core/SystemStatusOsObserver.cpp:558-589 | the cache ends with the value of the last accepted data item for each id, and with what it had for the others |
| Subscriptions.NewsReachesWhoWants | gps/core/SystemStatusOsObserver.cpp:105-344 | from messages and data items to calls: in every run with updates only as a client's first message, a client is called if and only if a data item is news of an item its messages ask for, once, with all such items and no others, each with its last accepted value |
| Subscriptions.UpdateReachesIff | gps/core/SystemStatusOsObserver.cpp:311-344 | after an update every change reaches its clients if and only if the client asks for no item it already had |
| Subscriptions.UpdateForgets | gps/core/SystemStatusOsObserver.cpp:151-200 | a run after which a client is not reached by changes of its item |
| TripProperties.LoopMinIff | gps/batching/BatchingAdapter.cpp:942-958 | the loop that uses 0 for unset finds the minimum if and only if no entry is 0 or the last one is |
| TripProperties.LeastRemaining | gps/batching/BatchingAdapter.cpp:942-958 | over unfinished trips it is the least distance left, positive and without underflow |
| TripProperties.ReportTells | gps/batching/BatchingAdapter.cpp:656-695 | a report completes exactly the trips that have gone their distance, in order, and leaves each other trip with the distance since it began, short of its goal |
| TripProperties.RebaseExactIff | gps/batching/BatchingAdapter.cpp:999-1018 | a successful restart keeps trips exact if and only if the reading used is the counter's at the reset |
| TripProperties.ForcedJoinExactIff | gps/batching/BatchingAdapter.cpp:825-848 | a join that restarts keeps trips exact if and only if every stored distance is what the trip measures at the counter |
| TripRuns.ForcedJoinRun | gps/batching/BatchingAdapter.cpp:825-848 | a run in which a join forgets what was travelled |
| TripProperties.ModemRestartExactIff | gps/batching/BatchingAdapter.cpp:205-238 | after a modem restart trips stay exact if and only if there are none or the modem had counted nothing |
| TripRuns.ModemRestartRun | gps/batching/BatchingAdapter.cpp:205-238 | a run after which a modem restart loses what was travelled |
| TripProperties.ExactInEveryRun | gps/batching/BatchingAdapter.cpp:656-1023 | in every run each trip measures the distance since it began, modulo 2^32 |
| TripPace.RestartTimelyIff | gps/batching/BatchingAdapter.cpp:942-1001 | a restart leaves the batch that the modem was told to run ending before any goal is passed if and only if its distance fits what every trip really has left |
| TripPace.StopTimelyIff | gps/batching/BatchingAdapter.cpp:880-902 | the same for any stop, whether distances are up to date or not |
| TripPace.UpToDateFitsIff | gps/batching/BatchingAdapter.cpp:975-1001 | with distances up to date a restart fits unless it is for the interval alone and the old distance exceeds what some trip has left |
| TripRuns.StaleStopRun | gps/batching/BatchingAdapter.cpp:942-987 | a run in which a stop between reports sends too long a distance |
| TripRuns.IntervalStopRun | gps/batching/BatchingAdapter.cpp:991-1001 | a run in which a stop sends the old distance again |
| TripPace.ForcedJoinTimelyIff | gps/batching/BatchingAdapter.cpp:785-848 | a join that restarts leaves the modem in time if and only if the new distance fits the trips that were there |
| TripPace.ReportFits | gps/batching/BatchingAdapter.cpp:687-691 | the restart after a report fits, as long as nothing comes near 2^32 |
| TripPace.StepTimelyIff | gps/batching/BatchingAdapter.cpp:656-1023 | a step leaves the modem in time if and only if the restart it causes, if any, fits |
| TripPace.TimelyInEveryRun | gps/batching/BatchingAdapter.cpp:656-1023 | in every run of reports, joins that restart only a batch still running and counted, and stops with distances up to date or without a restart, no trip is complete while the distance of the modem's own batch is not counted, and the adapter knows that batch |
| TripPace.StepAgreesIff | gps/batching/BatchingAdapter.cpp:656-1023 | what the adapter records stays the modem's batch in every step but a join whose restart fails and would have changed it |
| TripBatch.IntervalInEveryRun | gps/batching/BatchingAdapter.cpp:743-1023 | in every run of positive intervals whose joins are counted and restart with success, the modem's interval is at most that of any trip, and the shortest of theirs when the modem has answered everything with success |
| TripBatch.RestartShortestIff | gps/batching/BatchingAdapter.cpp:991-996 | after a successful restart the interval is the shortest if and only if a trip asks for the old one or less, or a trip that asked for the batch's has gone |
| TripBatch.MarksTell | gps/batching/BatchingAdapter.cpp:662-685 | a step sets a mark exactly when a trip that asks for the distance, or interval, of the modem's batch is gone after it, and none clears it |
| TripBatch.ReportAims | gps/batching/BatchingAdapter.cpp:687-1001 | a report in time that completes some trips makes the batch end exactly at the nearest goal of the others |
| TripBatch.StopRestartsIff | gps/batching/BatchingAdapter.cpp:880-1001 | when a trip of a batch in time and up to date is stopped, the modem is told nothing unless a trip with the batch's distance went, which aims the batch at the nearest goal left, or no other trip asks for the batch's interval, which gives it the old distance again in full |
| TripBatch.JoinTakesNearer | gps/batching/BatchingAdapter.cpp:785-848 | a counted join moves the end of the batch to the new goal if that is nearer, and the interval to the new one if that is shorter, and otherwise leaves the batch alone |
| TripBatch.BlindJoinTakesShorter | gps/batching/BatchingAdapter.cpp:798-848 | an uncounted join makes the modem begin again with the shorter of both distances and of both intervals, if one of them is the new trip's |
| TripBatch.FirstTripsBatch | gps/batching/BatchingAdapter.cpp:747-767 | the first trip gets a batch of its own distance and interval |
| TripBatch.RestartedSessions | gps/batching/BatchingAdapter.cpp:205-238 | after a modem restart the batch has the least distance a trip was last known to have left, and the shortest interval |
| TripBatch.FailedRestartIsNotMended | gps/batching/BatchingAdapter.cpp:205-238 | when that restart fails no later join starts a batch, though each is answered with success |
| TripBatch.NoTripsNoBatch | gps/batching/BatchingAdapter.cpp:656-938 | in every run, with no trip left the adapter's distance and interval are 0, and the modem runs no batch if it has answered with success |
| TripProperties.AnsweredIffRecorded | gps/batching/BatchingAdapter.cpp:743-852 | a trip answered with success is recorded if and only if there were none before or the query succeeded; one refused is recorded only if others ran and the query succeeded |
| TripRuns.BlindJoinRun | gps/batching/BatchingAdapter.cpp:798-851 | a run in which a join whose query fails sends the old distance again and is answered with success though no trip is recorded |
| Trips.BatchingAdapter.Sweep | gps/batching/BatchingAdapter.cpp:662-685 | the loop of a report erases the finished trips in place and sets the flags |
| Trips.BatchingAdapter.ReportCompletedTrips | gps/batching/BatchingAdapter.cpp:656-695 | the new state, the ids reported and the command to the modem |
| Trips.BatchingAdapter.Minima | gps/batching/BatchingAdapter.cpp:942-958 | the loop computes the two running minima |
| Trips.BatchingAdapter.RestartTripBatching | gps/batching/BatchingAdapter.cpp:918-1023 | the decision, the command, and the new state after the response |
| Trips.BatchingAdapter.StopTripBatching | gps/batching/BatchingAdapter.cpp:855-902 | the new state and command of a stop |
| Trips.BatchingAdapter.StartTripBatching | gps/batching/BatchingAdapter.cpp:743-852 | the new state, command and answer of a start or join, for each of the modem's answers |
| Trips.BatchingAdapter.RestartTrips | gps/batching/BatchingAdapter.cpp:205-238 | the batch's new distance and interval, with the trips as they were |
| NetworkHandles.InsertAsSet | gps/core/SystemStatus.h:519-531 | a connection is inserted if and only if its handle is known and absent and there is room |
| NetworkHandles.RemoveAsSet | gps/core/SystemStatus.h:532-560 | a disconnection removes exactly the entry with its handle and type |
| NetworkHandles.TableInEveryRun | gps/core/SystemStatus.h:513-578 | for any size, in every run of reports the table is a gap-free prefix of distinct handles that holds a bounded set |
| NetworkHandles.UntypedStays | gps/core/SystemStatus.h:532-570 | a handle whose type has no bit, below 0 or from 10 on, is never removed |
| NetworkHandles.TypedGoes | gps/core/SystemStatus.h:532-560 | any later disconnection of a type from 0 to 9 takes exactly its entry out of the table |
| NetworkHandles.ConnectRun | gps/core/SystemStatus.h:519-531 | a run after which the mask has a type that the full table has not |
| NetworkHandles.StoredTypesExactIff | gps/core/SystemStatus.cpp:1360-1364 | the stored item, which stays as it is when the collated one equals it, has the mask of its table after one more report if and only if, for a connection, one was stored already, its handle went in or its type was there; for a disconnection, the collated mask is exact or nothing was connected and nothing is removed |
| NetworkHandles.TypesInEveryRun | gps/core/SystemStatus.h:513-578 | in every run of such reports the stored mask is that of the known handles |
| NetworkHandles.DisconnectRun | gps/core/SystemStatus.h:562-567 | a run after which the mask has lost the type of another network |
| NetworkHandles.UntypedDisconnectRun | gps/core/SystemStatus.h:532-570 | a run after which the mask is empty though a network is in the table |
| NetworkHandles.SystemStatusNetworkInfo.Equals | gps/core/SystemStatus.h:506-512 | compares connection and table |
| NetworkHandles.SystemStatusNetworkInfo.Collate | gps/core/SystemStatus.h:513-578 | the whole new item after collating |
| ReportHistory.StoredIsLastOfLog | gps/core/SystemStatus.cpp:1354-1381 | after any reports the vector is the newest part of the unbounded log, for any type of item and any bound |
| ReportHistory.LogIsRuns | gps/core/SystemStatus.cpp:1354-1371 | without collate the log has one entry for each run of equal items that are not ignored |
| ReportHistory.NewestTime | gps/core/SystemStatus.cpp:1360-1364 | the newest entry carries the time of the latest report that was not ignored |
| ReportHistory.LatestIsLastOfLog | gps/core/SystemStatus.cpp:1383-1391 | reading the latest entry reads that of the log |
| ReportHistory.AnswerIffLogGrows | gps/core/SystemStatus.cpp:1354-1371 | the answer is true if and only if the log grows, which it does by one entry or not at all |
| ReportHistory.FiveAreStored | gps/core/SystemStatus.h:76 | the vector holds the five newest entries of the log, or all if there are fewer |
| ReportHistory.Cache.SetItemInReport | gps/core/SystemStatus.cpp:1354-1371 | the vector and the answer after an item |
| ReportHistory.Cache.GetItemInReport | gps/core/SystemStatus.cpp:1383-1391 | returns the newest entry alone, or nothing |
| Adapters.StepAsSet | gps/core/LocApiBase.cpp:230-275 | adding and removing act on the array as on a bounded set, and the message sent follows from the change |
| Adapters.ArrayInEveryRun | gps/core/LocApiBase.cpp:230-275 | in every run, for any size, the array is a duplicate-free list of the members and the messages are those of the set |
| Adapters.ClosedWhenEmptied | gps/core/LocApiBase.cpp:263-270 | a close is queued exactly as often as the last adapter leaves |
| Adapters.LocApiBase.AddAdapter | gps/core/LocApiBase.cpp:230-239 | takes the first free place unless the adapter is there or the array is full |
| Adapters.LocApiBase.RemoveAdapter | gps/core/LocApiBase.cpp:241-275 | the nested loop ends having removed exactly that adapter |
| Adapters.LocApiBase.GetEvtMask | gps/core/LocApiBase.cpp:167-174 | a bit is in the mask if and only if some adapter wants it and it is not excluded |
| Utf16to8.RoundTrip | libshims/strdup16to8.cpp:109-140 | decoding the encoding by section 4.4.7 of the Java Virtual Machine Specification gives the units back, and no byte of it is zero |
| Utf16to8.ShortestForm | libshims/strdup16to8.cpp:109-140 | no fewer bytes decode to a unit than those of its encoding |
| Utf16to8.Strnlen16to8 | libshims/strdup16to8.cpp:29-94 | both paths return the encoded length, or SIZE_MAX - 1 if that is less |
| Utf16to8.Strncpy16to8 | libshims/strdup16to8.cpp:109-140 | writes the encoding and its terminator and nothing beyond |
| Utf16to8.Strndup16to8 | libshims/strdup16to8.cpp:146-168 | the buffer is exactly the encoding and its terminator; NULL exactly for a NULL string, an overflow or a failed allocation |

## Left out

- BoyerMoore.LeftmostIff: excludes patterns that contain a NUL byte, at which strncmp stops comparing; the if half is proved for them by BoyerMoore.Search.
- The empty pattern, for which `bm_search` returns the text itself, and the partition mapping and edify functions around the search.
- SvBlacklist.ConvertToGnssSvIdConfig: what an undefined shift yields is a mask given from outside; nothing is promised of the SBAS mask for a list that has one.
- TripPace.TimelyInEveryRun: stops that restart with distances out of date, joins whose query fails or whose batch has run out, and distances near 2^32 are not in its runs; StepTimelyIff says exactly which of those steps are in time.
- Tracking.GnssAdapter.UpdateSvConfig: the constellation and blacklist commands sent between suspending and restarting the sessions, which do not touch them.
- NetworkHandles.TypesInEveryRun: one report that loses the mask ends it; later reports may restore it.
- TripProperties.ExactInEveryRun: a report and the restart it causes read the counter at one moment; RebaseExactIff says what a later reset costs. Joins that restart are included when distances are up to date.
- Trips: the batch-full event mask, answers to stops, and ordinary batching sessions. In a report the code reads an erased map node; the model takes the values it had.
- TrackingProperties.ExactInEveryRun: starts are for new sessions, and no update slows the fastest session down unnoticed; UpdateExactIff gives the condition. What becomes of the engine's power mode is stated for each start, stop and restart (TrackingDuties), and not over runs, since a command for the interval alone takes the power mode of the session with the smallest interval.
- Tracking: failed engine responses and what they restore, the distance-based engine, DGNSS, power states, and messages that wait for the engine's capabilities.
- AgpsManagerModel.HandleTold: handles are requested at most once, as the manager's callers do. APN, bearer and type of a connection are not part of the callbacks here, nor are reports for a machine that does not exist.
- SetMaps: the loops of trimOrRemove and removeAndReturnInterset use an iterator after erasing it; the model takes them to visit every key and every element.
- SubscriptionModel.IndexInEveryRun: the inverse holds while an update is a client's first message, and the mirror while requestData is unused, since a request for data does not subscribe.
- Subscriptions: copying a data item is taken to report a change exactly when the contents differ; creation of a data item does not fail.
- NetworkHandles: the copy of table and types back to the framework's object, and names, roaming and availability.
- ReportHistory: the item types' own `equals`, which are parameters.
- Adapters: adding a null adapter, which changes nothing. Adapter event masks are sets of bits given from outside.
- Utf16to8: pointers; a string is a sequence with its length.
- Geofences, NMEA fields, position data in floating point, the C interface files, plugin loading, sockets, configuration files, the light HAL and the Bluetooth header.
