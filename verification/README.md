# EVerest framework: a verified model

EVerest runs charging-station software as separate modules that talk over an MQTT broker. This project models the
parts of the framework where the modules' agreement depends on reasoning across several functions or over whole
runs, and proves what those parts are for:

- **Error replication** (`ErrorDatabase`, `ErrorManagers`, `ErrorReplication`, `ProviderHistory`, `TopicReplication`,
  `GlobalErrors`, `SharedTargets`). A provider keeps its errors in a database and publishes what it raises and
  clears; requirements and global listeners replay the messages. What is stored is told from the history of calls or
  messages alone, the replica agrees with the provider over every run, subscribers hear raise and clear in
  alternation, and the exact conditions are stated where the code needs one: for order kept per topic only, and for
  several requirements of one module.
- **Messages and calls** (`TopicMatching`, `MessageHandling`, `ErrorRouting`, `QueueOrder`, `CommandCalls`). The
  wildcard matcher against sections 4.7.1.1 to 4.7.1.3 of MQTT 3.1.1, the handler tables, the two-stage queues as a
  machine of interleaved steps, and command calls with their pending table and the addresses of their promises over
  every interleaving of callers, providers and workers.
- **Serial line** (`Cobs`, `Crc`). The byte-wise decoder against a reference encoder and a reference reading of
  arbitrary frames of consistent overhead byte stuffing, and the bitwise CRC-32 register against division by the
  generator polynomial of section 3.2.9 of IEEE 802.3.
- **Configuration** (`JsonDocuments`, `UserConfig`, `BootValues`, `Requirements`, `ProbeModule`). User-config writes
  that overlay the main configuration by merge patch (section 2 of RFC 7396), the cache of boot values, requirement
  checking, the ordered map of connections, and the manifest generated for a probe module.
- **Type closure** (`TypeReferences`, `TypeClosure`). The worklist of the Rust code generator over a graph of types
  that grows while it is walked.

`OrderedMaps` gives the iteration order of `std::map`; `Options`, `Sets` and `Bytes` hold shared vocabulary.

Objects whose methods change them are classes (`ErrorDatabaseMap`, `ErrorManagerImpl`, `ErrorManagerReq`,
`ErrorManagerReqGlobal`, `MessageHandler`, `MessageQueue`, `Serial`, `UserConfigStorage`, `ManagerConfig`); each method
is proved equal to a function on values, and the theorems are about those functions and about runs of them.
`dafny verify dfyconfig.toml` checks everything.

## Where the code does not do what it is for

Each of these is a theorem with the exact condition, not only an example.

- A raise whose state is not `Active` is stored by the provider but treated as a clear by the receiver
  (`RaiseNeedsActiveState`).
- A raise with a handle already in use is published although the database drops it, so subscribers are told of an
  error nobody holds (`RaiseKeepsTraceIffHandleFree`, `ActiveAreTheLastingRaisesIffHandlesFree`); a global listener
  misses such an error (`StoredAreTheLastActiveIffHandlesFree`).
- The broker orders messages per topic only. If two error types share a handle, the replica can end up without an
  error the provider still holds (`DrainsToAgreementIffHandlesApart`).
- A module keeps one error handler for each topic. Of two requirements of one module connected to the same
  implementation only the later one hears of errors; the other keeps an empty database for ever
  (`AllAgreeIffNoSharedTarget`).
- A call that times out leaves its result handler in the table, with a reference to a promise that is gone. If the
  result still comes and another call's promise lives at that address by then, that call returns the wrong reply
  (`PromisesAreOwnIffNoneLate`, `LateResultsGoAstray`; a run in `LateResultEndsAnotherCall`).
- `getline` drops a trailing empty level, so some filters and all topics with a trailing separator over-match
  (`FilterIsReadRightIffNotMisread`, `TopicIsMatchedRightIffNoTrailingSlash`).
- A payload of 2047 bytes is delivered unless it ends in a full group (`RoundTripIffDeliverable`).
- A frame whose last group is a full one, as encoders send it that leave out the closing group, loses its last byte
  (`EveryFrameArrivesOnItsOwn`).
- A null in the user config on the way to a written parameter turns into an object, which brings entries of the main
  configuration back (`MergedEditIsLocalIffNoNullAbove`).
- A user-config write rejected because the file could not be saved stays in memory and is saved with the next
  accepted write (`RejectedWritesStayOutIffNotSavedLater`; a run in `RejectedWritesSurface`).
- If the database cannot be read when a parameter is first set, that failure is what later reads return until the
  next boot (`ReadsKeepBootValues`).
- The name generated for an inline enum may be that of a declared type, or of another inline enum, and then replaces
  it: values are lost, and types that only the replaced one mentions are not emitted (`WalkIsExactIffNoClash`; runs
  in `OverwrittenTypeLosesItsMentions` and `SecondEnumReplacesFirst`).

## Model

| member | source | states |
|---|---|---|
| ErrorDatabase.ErrorDatabaseMap.AddError | lib/error/error_database_map.cpp:15-25 | a new handle is stored, a present one leaves the database as it was |
| ErrorDatabase.RemoveUnwanted | lib/error/error_database_map.cpp:40-91 | successive passes, one a filter, leave exactly the elements that all filters accept, in order |
| ErrorDatabase.ErrorDatabaseMap.GetErrors | lib/error/error_database_map.cpp:27-92 | a query returns the selection of all filters from the handle-ordered listing |
| ErrorDatabase.ErrorDatabaseMap.RemoveErrors | lib/error/error_database_map.cpp:94-107 | the selected errors are returned and erased by handle |
| ErrorDatabase.SelectIsExact | lib/error/error_database_map.cpp:32-92 | a query gives exactly the stored errors satisfying every filter, in strictly increasing handle order |
| ErrorDatabase.FiltersFind | lib/error/error_database_map.cpp:41-85 | what each kind of filter finds among the stored errors: time spans with both ends, severities from the given one up, origins by module and implementation |
| ErrorDatabase.FilterOrderIsIrrelevant | lib/error/error_database_map.cpp:41-89 | any list of the same filters, in any order and with repeats, gives the same answer |
| ErrorDatabase.StateFiltersRemoveNothing | lib/error/error_filter.cpp:105-111 | state filters and unset filters, anywhere in the list, change no answer |
| ErrorDatabase.RemovalKeepsTheRest | lib/error/error_database_map.cpp:94-107 | what remains after a removal is exactly the errors some filter rejects, unchanged |
| ErrorDatabase.RemovalSplits | lib/error/error_database_map.cpp:103-107 | removed part and remainder are disjoint and make up the database, and the same query then finds nothing |
| ErrorManagers.SelectedAtMostOnce | lib/error/error_manager_impl.cpp:78-83 | with unique keys a query by type and sub type finds one error if the key is active and none otherwise |
| ErrorManagers.ErrorManagerImpl.RaiseError | lib/error/error_manager_impl.cpp:41-64 | accepted exactly if the type is allowed and no error of the same type and sub type is stored; then published, and stored unless the handle is taken; else nothing changes |
| ErrorManagers.ErrorManagerImpl.ClearErrorOfType | lib/error/error_manager_impl.cpp:66-69 | clears the key with the empty sub type |
| ErrorManagers.ErrorManagerImpl.ClearError | lib/error/error_manager_impl.cpp:71-93 | removes, marks and publishes the selected error; the branch for more than one is unreachable |
| ErrorManagers.ErrorManagerImpl.ClearAllErrors | lib/error/error_manager_impl.cpp:95-111 | removes everything and publishes one clear for each error, in handle order |
| ErrorManagers.ErrorManagerImpl.ClearAllErrorsOfType | lib/error/error_manager_impl.cpp:113-129 | removes the errors of a type and publishes one clear for each, in handle order |
| ErrorManagers.ErrorManagerImpl.CanBeRaised | lib/error/error_manager_impl.cpp:131-134 | true exactly when no stored error has the key |
| ErrorManagers.ErrorManagerImpl.CanBeCleared | lib/error/error_manager_impl.cpp:136-139 | true exactly when a stored error has the key |
| ErrorManagers.ErrorManagerReq.OnErrorRaised | lib/error/error_manager_req.cpp:61-79 | allowed and known types are stored and announced to the type's subscriptions |
| ErrorManagers.ErrorManagerReq.OnErrorCleared | lib/error/error_manager_req.cpp:81-104 | the errors of the key are erased; subscribers hear of it exactly when there was one |
| ErrorManagers.ErrorManagerReq.HandleMessage | lib/everest.cpp:591-615 | a message reaches the replica by the state it carries, and only on the topic of its own type |
| ErrorManagers.ErrorManagerReqGlobal.OnErrorRaised | lib/error/error_manager_req_global.cpp:37-66 | stored, and announced to every subscriber, exactly if the type is known, the handle free, and nothing stored for the type, sub type and origin |
| ErrorManagers.ErrorManagerReqGlobal.OnErrorCleared | lib/error/error_manager_req_global.cpp:68-109 | erased and announced exactly when the key is active for that origin |
| ErrorManagers.ErrorStateMonitor.IsErrorActive | lib/error/error_state_monitor.cpp:22-25 | true exactly when a stored error has the key |
| ErrorManagers.ErrorStateMonitor.AreConditionsSatisfied | lib/error/error_state_monitor.cpp:36-43 | true exactly when every condition of the list is met |
| ErrorReplication.ActKeepsWellformed | lib/error/error_manager_impl.cpp:41-129 | every provider call keeps handles as keys, one error a key, allowed types only |
| ErrorReplication.SuccessfulClearIsOneError | lib/error/error_manager_impl.cpp:71-93 | a clear of an active key removes exactly one error and publishes exactly its clear message |
| ErrorReplication.ReplicaAgreement | lib/error/error_manager_req.cpp:61-104 | over every run of provider calls and deliveries, reused handles included, replaying the messages in flight gives the provider database |
| ErrorReplication.DeliveriesDrain | lib/everest.cpp:591-623 | delivering as many messages as are in flight empties the channel and reaches that replay |
| ErrorReplication.MonitorsAgree | lib/error/error_state_monitor.cpp:22-43 | with the channel empty both monitors answer alike for every key and every list of conditions |
| ErrorReplication.RaiseNeedsActiveState | lib/everest.cpp:599-614 | after a raise the databases agree if and only if it was refused, its handle was taken, or the error is active |
| ErrorReplication.RaiseKeepsTraceIffHandleFree | lib/error/error_manager_impl.cpp:52-63 | an accepted raise keeps subscribers' traces fitting the database if and only if its handle is free |
| ErrorReplication.SubscribersHearAlternation | lib/error/error_manager_req.cpp:77-113 | a subscriber hears strictly alternating raise and clear for each key, and, once drained, an odd number exactly when the key is active |
| ErrorReplication.FreshHandlesDoNotClash | lib/error/error_manager_impl.cpp:60-63 | runs that never reuse a handle meet the condition of the previous row |
| ProviderHistory.RaisesWithFreeKeysAreAccepted | lib/error/error_manager_impl.cpp:41-64 | a raise of an allowed type is published if and only if no error of its type and sub type is stored, whatever other sub types are, and then stored if its handle is free |
| ProviderHistory.ClearsPublishWhatTheyRemove | lib/error/error_manager_impl.cpp:71-129 | every clear removes exactly the errors it covers and publishes one message for each, in handle order: the stored error, marked as cleared by the module |
| ProviderHistory.ActiveAreTheLastingRaisesIffHandlesFree | lib/error/error_manager_impl.cpp:41-129 | after every part of a history of calls the active errors are the raises no later clear covers, if and only if no raise that could be accepted uses a taken handle |
| ProviderHistory.DistinctHandlesTellHistory | lib/error/error_state_monitor.cpp:22-43 | with a handle of its own for every raise, an error is active, and the monitor says so, exactly while some raise of it has not been cleared |
| TopicReplication.TopicsDrainToAgreement | lib/everest.cpp:617-623 | with order kept only per topic and no handle shared by two types, drained topics mean equal databases |
| TopicReplication.SharedHandleBreaksAgreement | lib/error/error_database_map.cpp:15-25 | any handle shared by two types admits a run that drains to an empty replica while the provider holds an error |
| TopicReplication.DrainsToAgreementIffHandlesApart | lib/error/error_manager_req.cpp:61-104 | for any stock of errors: all runs that raise only from it and drain leave equal databases if and only if its errors of allowed types are active and no two of different types share a handle |
| TopicReplication.RequirementsGoByTheState | lib/everest.cpp:591-615 | what a requirement stores, drops and announces for any message, by the type and the state of the error in it |
| GlobalErrors.GlobalSubscriberTrace | lib/error/error_manager_req_global.cpp:26-109 | on any input a subscriber hears strict alternation for each key and origin; raises minus clears is 1 exactly when the error is stored |
| GlobalErrors.RaiseIsStoredAndHeard | lib/error/error_manager_req_global.cpp:37-66 | an active error of a known type, not stored for its origin and under a free handle, is stored and heard by every subscriber as one raise; any other changes nothing |
| GlobalErrors.ClearIsStoredAndHeard | lib/error/error_manager_req_global.cpp:68-109 | a cleared error takes away what is stored for its type, sub type and origin, heard by every subscriber as one clear, if there was something |
| GlobalErrors.StoredAreTheLastActiveIffHandlesFree | lib/error/error_manager_req_global.cpp:37-109 | after every part of any input an error is stored for a key and origin exactly if its type is known and the last message for them was active, if and only if no message that could be stored comes under a taken handle |
| GlobalErrors.SubscribersHearTheLastMessage | lib/error/error_manager_req_global.cpp:26-109 | with free handles the raises heard outnumber the clears, by one, exactly if the last message was an active one of a known type |
| SharedTargets.LastListenerRunsAlone | lib/everest.cpp:164-200 | whatever the other implementations and requirements of a module do, the last requirement connected to an implementation runs the protocol of one provider and one requirement |
| SharedTargets.SupersededHearsNothing | lib/message_handler.cpp:232-236 | a requirement with a later one connected to the same implementation keeps its database unchanged over every run |
| SharedTargets.AgreesIffNotSuperseded | lib/message_handler.cpp:232-236 | a requirement agrees with its implementation after every run that drains if and only if no later one is connected to it, or its interface has no errors |
| SharedTargets.AllAgreeIffNoSharedTarget | lib/everest.cpp:164-200 | all requirements of a module agree with their implementations over every run if and only if no two share one whose interface has errors |
| TopicMatching.SplitTopic | lib/message_handler.cpp:13-21 | the parts are the levels, without the last one if it is empty |
| TopicMatching.CheckTopicMatches | lib/message_handler.cpp:24-61 | the recursion terminates and computes the match of the parts |
| TopicMatching.JoinInvertsLevels | lib/message_handler.cpp:13-21 | joining the levels of a string gives the string back |
| TopicMatching.LevelsInvertsJoin | lib/message_handler.cpp:13-21 | splitting joined levels without separators gives the levels back |
| TopicMatching.MatcherIsMqtt | lib/message_handler.cpp:24-61 | on topic names without trailing separator and valid filters that are not misread the matcher is the relation of MQTT 3.1.1, `#` matching the parent included |
| TopicMatching.FilterIsReadRightIffNotMisread | lib/message_handler.cpp:13-34 | a valid filter is read as MQTT reads it on all such topics if and only if `getline` loses none of its levels |
| TopicMatching.TopicIsMatchedRightIffNoTrailingSlash | lib/message_handler.cpp:41-60 | a topic name is matched right against all such filters if and only if it has no trailing separator |
| MessageHandling.OnMqttMessage | lib/mqtt_abstraction_impl.cpp:400-438 | unparsable framework messages are dropped, foreign ones wrapped, unknown types end the process, all others join their queue |
| MessageHandling.ForeignMessagesAreExternal | lib/mqtt_abstraction_impl.cpp:400-438 | a message from outside the framework is always handled as an external one under its own topic; of its own messages only those that are no JSON are dropped |
| MessageHandling.NamesReadBack | lib/types.cpp:38-98 | every message type reads back from its name, and from no other |
| MessageHandling.RoutesByName | lib/message_handler.cpp:72-102 | which worker gets a message, by the name of its type, and that only an unknown name ends the process |
| MessageHandling.TopicsKeepAllOrLast | lib/message_handler.cpp:215-266 | after any registrations a variable or external topic has every handler ever registered for it, in order, and any other topic or call id only the last one |
| MessageHandling.MessagesReachTheirHandlers | lib/message_handler.cpp:158-325 | which handlers run for each kind of message, told from the registrations alone: all for variables and external topics, the last for commands, requests, ready messages and results, and for errors the last of every filter that matches |
| MessageHandling.MessageHandler.Add | lib/message_handler.cpp:72-102 | results and operations join the back of their own queue |
| MessageHandling.MessageHandler.HandleOperationMessage | lib/message_handler.cpp:158-194 | exactly the recipients of the message's type and topic run, in order |
| MessageHandling.MessageHandler.HandleErrorMessage | lib/message_handler.cpp:284-297 | the handlers of all matching filters run, in filter order |
| MessageHandling.MessageHandler.HandleCmdResult | lib/message_handler.cpp:308-325 | the handler of the id runs and leaves the table; unknown ids change nothing |
| MessageHandling.ErrorRecipientsAreTheMatching | lib/message_handler.cpp:284-297 | a handler runs for an error message if and only if it is registered for a filter that matches |
| ErrorRouting.TypeSubscriptionIsExact | lib/everest.cpp:616-623 | a subscription to a type matches the messages of that implementation and type, no others |
| ErrorRouting.AllErrorsSubscriptionIsExact | lib/everest.cpp:714-723 | a subscription to all errors matches the messages of that implementation, no others |
| ErrorRouting.ErrorsReachTheirSubscribers | lib/message_handler.cpp:284-297 | among any subscriptions an error message runs the one of its implementation and type and the one for all errors of its implementation |
| ErrorRouting.LastRequirementHearsAlone | lib/error/error_manager_req.cpp:30-36 | of all requirements of a module that subscribe to an error type of an implementation only the last one runs for a message of it, and once |
| ErrorRouting.ErrorTopicByName | lib/config.cpp:445-449 | the topic of an error type, spelled out |
| QueueOrder.Perform | lib/message_handler.cpp:123-156 | one call on the queue and handler objects (add, take, sort, stop) hands out the message and leaves the state of the machine that the rows below are about |
| QueueOrder.QueuesKeepOrder | lib/message_queue.cpp:13-38 | in every reachable state the messages dispatched and delivered are prefixes of those of their class that entered; nothing is lost, doubled or reordered |
| QueueOrder.ResultsGoOutInOrder | lib/message_handler.cpp:140-156 | in any interleaving the result at position k is delivered by the result worker's step k + 1 |
| QueueOrder.ResultsNeverWaitForOperations | lib/message_handler.cpp:123-156 | with the operation worker stuck, the other two workers alone can deliver every result that has entered |
| QueueOrder.QueuesHoldTheirTypes | lib/message_handler.cpp:72-102 | in every reachable state the result queue holds only results and the operation queue none, and only types its worker can read |
| QueueOrder.NothingLeavesAfterStop | lib/message_handler.cpp:104-156 | once stopped, the handler hands nothing more out and the queue gives nothing more away, whatever else happens |
| CommandCalls.CallerChecksWhatProvidersCheck | lib/everest.cpp:328-361 | the caller lets exactly the declared arguments through, all there and each allowed; the provider's check misses only undeclared ones |
| CommandCalls.CommandWrapper | lib/everest.cpp:881-996 | the reply to every outcome of the handler: invalid arguments, exceptions by kind, invalid results; and when the wrapper rethrows |
| CommandCalls.FinishEarns | lib/everest.cpp:899-958 | the wrapper runs the handler for every call that passed the caller's check |
| CommandCalls.EveryRunIsSound | lib/everest.cpp:372-406 | in every reachable state the pending table is the registered calls minus the answered ones (a call that timed out stays in it), result handlers have run at most once and only with their own id, exactly the calls in progress have a promise, each its own, and every reply was earned |
| CommandCalls.EveryEndIsPinned | lib/everest.cpp:413-460 | in every reachable state a call that has timed out has failed with just that; any other that is over ended as the one result its promise was set to, sent to its caller by some provider |
| CommandCalls.HandlersGetFittingArguments | lib/everest.cpp:899-925 | with validation on, no handler ever runs on arguments other than the declared ones, all there and each allowed |
| CommandCalls.OnlyFailingHandlersEndProcesses | lib/everest.cpp:926-996 | while no result was late, a process has ended if and only if one of its handlers threw a handler exception or no command error, and exceptions are not forwarded |
| CommandCalls.PromisesAreOwnIffNoneLate | lib/everest.cpp:374-432 | in every reachable state all result handlers that ran found the promise of their own call if and only if none ran for a call that had timed out |
| CommandCalls.AnswersAreTheHandlersOwn | lib/everest.cpp:408-460 | while no result handler has run for a call that had timed out, a call that returns or fails, other than by its own timeout, got the outcome of its own handler on its own arguments |
| CommandCalls.HandlersNeverMismatch | lib/everest.cpp:377-398 | the id test of the result handler never fails and no handler runs twice; while none was late, a handler in time finds the promise of its own call, not yet set |
| CommandCalls.LateResultsGoAstray | lib/everest.cpp:377-432 | in every reachable state the handler of a call that timed out never reaches that call; a call whose unset promise lives at its address by then gets the reply |
| CommandCalls.LateResultEndsAnotherCall | lib/everest.cpp:377-432 | from any state in which a first call can be made, and a second one with its promise at the same address: if the first times out and its result comes late, the second returns that reply though no handler has run for it |
| CommandCalls.CallsCanBeAnswered | lib/everest.cpp:315-460 | a call can be carried through whenever the provider's operation worker and the caller's result worker are free, and ends with the value returned or the kind of exception thrown |
| Cobs.Serial.CobsDecodeByte | lib/serial.cpp:129-164 | every write is inside the buffer, `block` stays a byte, and the new state is the decoder step |
| Cobs.Serial.CobsDecode | lib/serial.cpp:124-127 | a call feeds the decoder its bytes in order |
| Cobs.BufferStaysInBounds | lib/serial.cpp:129-164 | on every input the buffer never holds more than 2047 bytes, nor does a packet, and packets are only added |
| Cobs.ZeroResynchronises | lib/serial.cpp:136-161 | after a zero byte the decoder is fresh, whatever its state |
| Cobs.RoundTripIffDeliverable | lib/serial.cpp:129-164 | an encoded payload comes back if and only if it has at most 2046 bytes, or 2047 and does not end in a full group |
| Cobs.ChunksDoNotMatter | lib/serial.cpp:124-127 | how the stream is cut into calls is irrelevant |
| Cobs.RoundTripAfterResync | lib/serial.cpp:95-164 | after any bytes ending in zero, any stream of encoded payloads in any chunks hands over exactly those payloads, in order |
| Cobs.EncodedUnstuffs | lib/serial.cpp:95-122 | the reading of arbitrary frames takes the encoding of a payload for that payload and a zero |
| Cobs.EveryFrameArrivesOnItsOwn | lib/serial.cpp:129-164 | any frames, sound or broken, of at most 2047 bytes: each is handed over as what it stands for without the last byte, or not at all if it breaks off inside a group or is empty, and none affects another |
| Crc.Crc32 | lib/serial.cpp:101-118 | the result's bits are the remainder of the message, first 32 bits complemented and times x^32, divided by the generator of section 3.2.9 of IEEE 802.3 |
| Crc.ChecksumIsTheRemainder | lib/serial.cpp:101-118 | the checksum is that remainder and no other number is |
| Crc.RemainderIsUnique | lib/serial.cpp:101-118 | division leaves one remainder only |
| Crc.ChecksumOfNothing | lib/serial.cpp:106 | the empty message leaves the register preset to ones |
| Crc.BitStepIsLinear | lib/serial.cpp:111-112 | a bit step commutes with exclusive or |
| Crc.BitStepIsInjective | lib/serial.cpp:111-112 | different registers stay different |
| Crc.DetectsBursts | lib/serial.cpp:101-118 | bit streams differing only inside 32 consecutive bits have different checksums |
| Crc.DetectsFourBytes | lib/serial.cpp:101-118 | different messages that agree outside four consecutive bytes have different checksums |
| Crc.ChecksumAppendedGivesZero | lib/serial.cpp:101-118 | appending the register in little-endian order drives it to zero |
| UserConfig.PathsAreApart | lib/config/userconfig_storage.cpp:72-100 | different parameters are never stored at the same place or inside one another; a missing implementation means the module |
| UserConfig.PlacesInTheDocument | lib/config/userconfig_storage.cpp:72-100 | where a parameter is stored, by the names of the keys |
| UserConfig.UserConfigStorage.WriteConfigurationParameter | lib/config/userconfig_storage.cpp:68-104 | accepted exactly if the text parses, the file can be saved, and nothing on the way is other than null or an object; and what document and file hold afterwards, failures included |
| UserConfig.FailedParseLeavesContainers | lib/config/userconfig_storage.cpp:72-90 | a write whose text does not parse has created the containers, and changed nothing else |
| JsonDocuments.MergeShowsLeaf | lib/config.cpp:1209 | a leaf of the user config is what the merged configuration has there |
| JsonDocuments.MergeRemovesNulls | lib/config.cpp:1209 | a null of the user config removes what the main configuration has there, and all below |
| JsonDocuments.MergeKeepsUnmentioned | lib/config.cpp:1209 | what an object of the user config does not mention stays as in the main configuration |
| JsonDocuments.MergeEndsAtLeaves | lib/config.cpp:1209 | below a leaf of the user config there is nothing |
| JsonDocuments.MergedEditIsLocalIffNoNullAbove | lib/config.cpp:1209 | an edit leaves the rest of every merged configuration alone if and only if no null stands on the way |
| UserConfig.DocumentHoldsLastValues | lib/config/userconfig_storage.cpp:68-104 | after any writes the document has at each parameter the last parsed value, or what it had before |
| UserConfig.BootReadsLastWrites | lib/config.cpp:1199-1212 | the next boot reads at each parameter the last value written before the last save, whatever the main configuration says |
| UserConfig.BootLeavesTheRest | lib/config.cpp:1199-1212 | whatever no parsed attempt before the last save edits reads as at the last boot |
| UserConfig.BootReadsParameter | lib/config.cpp:1199-1212 | every parameter reads as the last value that parsed before the last save, and as at the last boot if none did |
| UserConfig.RejectedWritesStayOutIffNotSavedLater | lib/config/userconfig_storage.cpp:68-104 | the next boot reads what the accepted writes alone would give if and only if no rejected attempt on the parameter, parsed after the last accepted one on it and before the last save, leaves another value |
| UserConfig.RejectedWritesSurface | lib/config/userconfig_storage.cpp:97-103 | a run in which a write rejected at saving reaches the next boot with an accepted one on another parameter |
| BootValues.ManagerConfig.SetConfigValue | lib/config.cpp:1269-1307 | accepted exactly for known parameters when the database can be written; what storage and cache hold afterwards |
| BootValues.ManagerConfig.GetConfigValue | lib/config.cpp:1331-1341 | the cached answer if there is one, else the database's |
| BootValues.ReadsKeepBootValues | lib/config.cpp:1287-1300 | over any settings a parameter reads as at boot (unless the first accepted setting could not read it) while storage holds the last accepted value |
| BootValues.NextBootReadsLastAccepted | lib/config.cpp:1333-1341 | after the next boot it reads as last accepted |
| Requirements.ResolveAllRequirements | lib/config.cpp:885-987 | passes if and only if the configuration is well connected, and otherwise reports a true problem of the module it names |
| Requirements.WellConnectedIffSound | lib/config.cpp:885-987 | what passes: declared requirements only, each connected within its bounds (the upper one only if listed), every connection to an existing module providing the implementation with the required interface |
| Requirements.RequirementLessIsTotalOrder | lib/config/types.cpp:10-18 | the comparison of requirements is a strict total order |
| Requirements.ResolveRequirements | lib/config.cpp:530-549 | one entry for each connection of a declared requirement, under its position |
| Requirements.GetFulfillments | lib/config.cpp:562-572 | regrouping returns every declared requirement its connections, all, in order, numbered from 0 |
| Requirements.ListedInOrder | lib/config.cpp:562-572 | the fulfillments of a requirement are its connections in order, numbered from zero |
| Requirements.CallsFindTheirTarget | lib/everest.cpp:318-320 | the index of a resolved requirement is in range, and the target exists and provides the interface asked for |
| Requirements.RequiredConnectionsAreThere | lib/config.cpp:921-937 | every index below a requirement's minimum is resolved |
| ProbeModule.CollectProvided | lib/config.cpp:259-304 | the collected map answers exactly the wishes of the connections into the probe, or two of them clash, or a requirement is undeclared |
| ProbeModule.WishesClashIffAsksDisagree | lib/config.cpp:280-293 | the wishes collected from all modules clash if and only if two connections ask for one implementation with different interfaces |
| ProbeModule.ProvidingFailsIffAsksDisagree | lib/config.cpp:259-304 | with declared requirements the provides side fails if and only if two connections ask for one implementation with different interfaces |
| ProbeModule.CollectRequired | lib/config.cpp:307-357 | the collected map has the interface found for each requirement, or a target is missing, or two disagree |
| ProbeModule.RequiringSucceedsIffLinksFit | lib/config.cpp:307-357 | the requires side succeeds if and only if every target exists and those of one requirement agree |
| ProbeModule.ProbeConnectionsPass | lib/config.cpp:938-979 | every connection into or out of the probe passes the existence, provides and interface checks |
| ProbeModule.ProbeResolvesIffSingleConnections | lib/config.cpp:921-937 | with the default counts the probe resolves if and only if each of its requirements has one connection |
| ProbeModule.SetupProbeModuleManifest | lib/config.cpp:359-382 | when a manifest is generated; that it provides exactly what is wanted of the probe, or the implementation "none" if nothing is, requires what its own connections lead to, once each, and leaves all others alone; and that all connections of the probe then pass |
| ProbeModule.AsksAgreeIffWantedOnce | lib/config.cpp:280-293 | the connections into the probe agree if and only if no implementation is wanted with two interfaces |
| ProbeModule.LinksFitIffSharedInterfaces | lib/config.cpp:319-352 | its own connections fit if and only if the targets of each requirement provide one interface together |
| TypeReferences.PrintedReadsBackIffPrintable | everestrs/everestrs-build/src/codegen.rs:181-193 | a printed reference reads back if and only if path and name are free of "#/" and the path does not start with a separator |
| TypeReferences.ReadsFileAndName | everestrs/everestrs-build/src/codegen.rs:181-193 | a reference with one "#/" names the file before it and the type after it |
| TypeReferences.ReadIsPrintable | everestrs/everestrs-build/src/codegen.rs:181-193 | whatever was read can be printed and read again |
| TypeReferences.GeneratedReadsBack | everestrs/everestrs-build/src/codegen.rs:562-568 | a generated reference reads back if and only if its name is free of "#/" |
| TypeReferences.GeneratedReadsBackOrFails | everestrs/everestrs-build/src/codegen.rs:181-193 | a generated reference never reads back as some other type |
| TypeClosure.TypeContextFromRef | everestrs/everestrs-build/src/codegen.rs:519-614 | the printed type, the types it mentions, and the library with its inline enums named; or a failure |
| TypeClosure.NamesAreReferences | everestrs/everestrs-build/src/codegen.rs:215-252 | an argument has a type name exactly if none of its references is broken; what counts as mentioned is what it refers to at any depth of lists, and the text names that type inside as many vectors |
| TypeClosure.FieldsFollowProperties | everestrs/everestrs-build/src/codegen.rs:538-600 | an object can be printed exactly if all its properties can; it mentions what they refer to, and each field has its property's name and type, optional unless required |
| TypeClosure.ProcessedIffDefinedAndNameable | everestrs/everestrs-build/src/codegen.rs:527-611 | a type can be processed if and only if it is defined, as an enum or as an object with nameable properties |
| TypeClosure.PathsDetermineTypes | everestrs/everestrs-build/src/codegen.rs:222-227 | printed paths of different types differ if no file or type name holds a colon |
| TypeClosure.CloseTypes | everestrs/everestrs-build/src/codegen.rs:809-829 | the worklist ends for every library; on success it has emitted a complete walk, on failure a walk is stuck at a type it knows |
| TypeClosure.EveryWalkFits | everestrs/everestrs-build/src/codegen.rs:519-614 | whatever names collide, each emitted type is as declared or the named form of an inline enum of an emitted type |
| TypeClosure.KnownAreReachable | everestrs/everestrs-build/src/codegen.rs:809-829 | whatever names collide, a walk comes across reachable types only |
| TypeClosure.StuckOnABadReference | everestrs/everestrs-build/src/codegen.rs:527-533 | a walk fails only at a reachable type that cannot be processed as declared, or that is not declared and is mentioned by someone else than the owner of an inline enum |
| TypeClosure.WalkIsExactIffNoClash | everestrs/everestrs-build/src/codegen.rs:809-829 | a complete walk emits exactly the reachable types, each as declared and each inline enum with its values, if and only if among the reachable types no generated name stands for two definitions |
| TypeClosure.LastInlineEnumWins | everestrs/everestrs-build/src/codegen.rs:538-570 | of several inline enums of an object with one generated name the last one's values stay |
| TypeClosure.OverwrittenTypeLosesItsMentions | everestrs/everestrs-build/src/codegen.rs:612 | an object whose name an inline enum gets is overwritten; what only it mentions is reachable and never emitted, on any walk |
| TypeClosure.SecondEnumReplacesFirst | everestrs/everestrs-build/src/codegen.rs:538-570 | the values of the first of two inline enums with one name are emitted on no walk |
| OrderedMaps.InOrderIsUnique | lib/config.cpp:530-549 | a container that iterates in increasing order has only one possible order |

## Left out

- Errors are values: that databases share one object per error through `shared_ptr`, so that a state change shows in
  both, is not modelled.
- Threads are interleaved atomic steps, one for each critical section; mutexes and condition variables themselves are
  not modelled.
- Sockets, the MQTT client, its poll loop and event descriptors: the broker is assumed to deliver, in order where a
  theorem says so.
- JSON and YAML parsing and printing, schema validation and file look-up: documents, manifests and messages are given
  values, validators are predicates, and a saved user config is assumed to load as it was saved.
- ErrorRouting.CleanType: excludes wildcards and a trailing separator in error types, which the schemas of interfaces
  and errors exclude too; the configured topic prefix is likewise taken to hold no wildcard.
- Messages of a known type that lack the fields their handler needs end the worker that reads them; only well-formed
  ones are modelled.
- Topics that begin with `$` (section 4.7.2 of MQTT 3.1.1): the code treats them like any other.
- The allowed types of `subscribe_error` come from the interface, so its refusal of unlisted types is not modelled.
- The slot for the configuration response, the global ready signal and its thread, heartbeats and the manager's ready
  map.
- Setting a promise through a stale reference is undefined where no promise lives; in `CommandCalls` it then has no
  effect. Timing out and freeing the promise are one step, and so are finding a promise and setting it.
- Call ids in `CommandCalls` are taken to be fresh; how they are generated is not modelled.
- The encoder of the serial line is only declared in the repository; `Cobs.Encode` is written from the published
  algorithm.
- Configuration identifiers without an implementation in the database modes (`BootValues`): reads and writes of the
  code treat them differently. In the YAML mode reads return the configuration loaded at boot, which nothing changes.
- ProbeModule.CollectProvided: runs the two outer loops over modules and requirements as one loop over their pairs.
- The conversion to Pascal case is a parameter of `TypeClosure`.
- Requirements that ignore errors have no error manager and are no listeners in `SharedTargets`; the handler of a
  module that listens to all errors has a topic and a database of its own and is left out there.
- Language bindings, process spawning, the controller, the SQLite schema and migrations, enum and string conversions,
  and settings defaults: plumbing or easy members.
- Log texts and the wording of exceptions.
