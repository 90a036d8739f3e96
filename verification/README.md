# Jewelbots pairing, discovery and messaging, verified

A model of the protocol code in the Jewelbots bracelet firmware, with proofs of what its runs guarantee. Every
stateful routine is a class method that updates fields and arrays in place, and is proved equal to a function on a
snapshot of that state. The results about whole runs are lemmas about those functions, and each protocol has a
method that carries them over to the stateful code: `Discovery.Discover`, `BraceletRuns.HandleAll` and `Session`,
`Messaging.Exchange`, `AdvertisingModes.DeferAll`, `DirectTestMode.Operate`.

| file | models |
|---|---|
| `Options.dfy` | the option type |
| `AttributeTable.dfy` | a server's attribute table and the queries a discovery client can put to it |
| `DiscoveryModel.dfy`, `Discovery.dfy` | the GATT database discovery client: step functions, and the class with its arrays and indices |
| `DiscoveryRuns.dfy`, `DiscoveryTheorems.dfy` | whole discoveries: invariant and progress, main results |
| `DiscoveryExactness.dfy`, `DiscoveryRestart.dfy` | the exact conditions under which a discovery reads the server rightly, on a fresh structure and on a used one |
| `DiscoveryControl.dfy` | what surrounds a discovery: registration, refused starts, disconnects |
| `DiscoveryExamples.dfy` | whole runs on concrete servers on which the client falls short |
| `Friends.dfy` | the list of up to sixteen friends |
| `Device.dfy`, `Bracelet.dfy` | one bracelet while pairing: step functions, and the class |
| `DeviceOutcomes.dfy` | what button presses, timeouts, links and colour timers lead to |
| `Pairing.dfy`, `PairingExamples.dfy` | two bracelets and the radio between them, and concrete runs |
| `BraceletRuns.dfy` | whole runs of one and of two bracelets on the stateful code |
| `CircularBuffer.dfy` | the deduplicating circular buffer |
| `AdStructures.dfy`, `Messaging.dfy` | advertising data structures, and the message pipeline from button to playback |
| `AdvertisingModes.dfy` | the advertising module's mode cascade |
| `TestPatterns.dfy`, `DirectTestMode.dfy` | the radio test mode and its payload patterns |

## What is assumed of the surroundings

- Discovery: the structure is zero-initialised, as its header asks, and services are registered before the start. The
  server's table is well formed (handles ascend and are 16-bit, each declaration is directly followed by its value, a
  service range holds the values declared in it). The server gives one response per request; a success response is a
  non-empty prefix of the matching entries, at most 255 characteristics, and an error response means there are none.
  Nothing is assumed about how responses are split, except where a row says so. `MAX_CHARS`, for how many
  characteristics a stored service has room, is any number from 1 to 255: the counter is a byte. The firmware sets 5.
  At most 6 services are registered.
- Pairing: exactly two bracelets and one connection per session. The radio may lose, repeat and reorder the scan
  responses of the session. No flash write is in progress when advertising starts. No message arrives while pairing.
  The role result (`Device.CleanIdle`) holds for any timing but button releases that come before the dispatcher has
  left friend finding, which is the exact condition (`Device.StaysCleanIff`); the agreement results need no condition.
- The circular buffer starts with head and tail inside it; `CIRCBUF_DEF` (cbuf.h, line 8) sets head to 0xAF.
- Messages: random tag bytes, scan reports and received data are parameters.
- Advertising and test mode: replies of the application, flash state and radio buffers are parameters.

## What the proofs found

- A discovery asks for the descriptors of a characteristic once. A server that answers with some of them, but not yet
  the configuration descriptor, leaves its handle unset. The delivered services are the one-pass reading of the table
  iff no response of the run stops short in this way (`DiscoveryExactness.DiscoveryRefinesIff`, `CccdFoundIff`, and a
  run in `DiscoveryExamples.SplitDescriptorsLoseCccd`).
- With more characteristics than fit, the last stored one is searched up to the end of the service and may be delivered
  with the configuration descriptor of a dropped one (`DiscoveryExactness.LastCccdIsOwnIff`, with runs in
  `DiscoveryExamples.CrowdedServiceMisattributes`). The comment in the code calls that characteristic the last of the
  service.
- A discovery on a used structure is right on every server iff the structure holds no characteristic index and no count
  for its first service, which the start does not reset (`DiscoveryRestart.RestartIsRightIff`). After a disconnect that
  cut a discovery off this is often not so (`DiscoveryControl.RightAfterDisconnectIff`).
- Declining broadcasts the done packet, so a central that gives up after selecting a colour can make the peripheral
  store it alone (`PairingExamples.PeripheralStoresAlone`). A central with a full list completes without a save, and
  has the same effect when it next leaves friend finding (`PairingExamples.PeripheralStoresAloneWhenFull`). There are
  no other ways (`Pairing.PeripheralStoresLast`).
- The colour cycle has five positions, and pairing can succeed with the fifth (`PairingExamples.PairingCanSucceed`), for
  which there is no message queue (`PairingExamples.StoredColourHasQueueIff`). Only one dispatch shows it
  (`DeviceOutcomes.FifthIsBrief`).
- A press after the colour was accepted, or after giving up, leaves the bracelet in the middle of the pairing with the
  on signal, from where no dispatch and no timeout leads out (`DeviceOutcomes.PressStrandsIff`, `StrandedStays`).
- Three quick button releases before the next dispatch take a central back to the on state with its role set
  (`Device.UnsettledIsNotClean`).
- The friend search scans unused slots, so a zero address is found as a friend unless the list is empty or full
  (`Friends.FindAgreesIff`).
- The tag ring starts with zero tags, so a message tagged zero is rejected while fewer than four were accepted
  (`Messaging.WindowHolds`).
- In test mode a command rejected in the idle state may already have written the packet header
  (`DirectTestMode.RejectedWritesHeader`); nothing else of the test changes (`DirectTestMode.RejectedChangesNoTest`).
- The wipe loops leave every slot at the sentinel, but live sentinels stay in the queue (`CircularBuffer.CBuf.Wipe`).

## Model

| member | source | states |
|---|---|---|
| `DiscoveryTheorems.DiscoveryDelivers` | jewelbots_friendship_v121/cores/Jewelbot_v1/nrf51_sdk/ble/ble_db_discovery/ble_db_discovery.c:103-280 | For every conforming server table, every split of the answers into responses and every set of registered services: a discovery takes at most 2 * MAX_CHARS + 2 responses per registered service, can always go on while it is in progress, tells the application nothing before its end, and then has delivered exactly one event per registered service in registration order, COMPLETE with the first min(n, MAX_CHARS) characteristics in handle order iff the server has the service |
| `DiscoveryExactness.DiscoveryRefinesIff` | jewelbots_friendship_v121/cores/Jewelbot_v1/nrf51_sdk/ble/ble_db_discovery/ble_db_discovery.c:582-818 | However the server splits its responses, a finished discovery has delivered the one-pass reading of the table for every registered service iff each descriptor response of the run reached the first configuration descriptor of the range asked for |
| `DiscoveryTheorems.DiscoveryRefinesOnePass` | jewelbots_friendship_v121/cores/Jewelbot_v1/nrf51_sdk/ble/ble_db_discovery/ble_db_discovery.c:582-818 | The direction of DiscoveryRefinesIff from the responses to the delivered services |
| `DiscoveryTheorems.OnePassMeaning` | jewelbots_friendship_v121/cores/Jewelbot_v1/nrf51_sdk/ble/ble_db_discovery/ble_db_discovery.c:727-818 | The one-pass reading holds the first MAX_CHARS characteristics of the service in handle order, each with the first 0x2902 descriptor between its value and the next stored declaration, or the end of the service |
| `DiscoveryRuns.StepKeeps` | jewelbots_friendship_v121/cores/Jewelbot_v1/nrf51_sdk/ble/ble_db_discovery/ble_db_discovery.c:914-942 | Every answer to the outstanding request keeps the invariant: pending index, discovery count and service index are equal and below the handler count, queued events are right, the stored characteristics are a prefix of the server's, and the outstanding request covers exactly what is missing. A finished discovery has delivered its events and emptied the queue |
| `DiscoveryRuns.WorkDecreases` | jewelbots_friendship_v121/cores/Jewelbot_v1/nrf51_sdk/ble/ble_db_discovery/ble_db_discovery.c:440-512 | Every answer strictly lowers a bounded measure over services left, phase, free characteristic slots and characteristics left to check for descriptors |
| `DiscoveryTheorems.RequestsInside` | jewelbots_friendship_v121/cores/Jewelbot_v1/nrf51_sdk/ble/ble_db_discovery/ble_db_discovery.c:336-419 | Every requested range is non-empty and inside the service, and a descriptor request contains no stored declaration and no stored value |
| `DiscoveryTheorems.RequestsAdvance` | jewelbots_friendship_v121/cores/Jewelbot_v1/nrf51_sdk/ble/ble_db_discovery/ble_db_discovery.c:389-512 | Within a service, characteristic requests start strictly later and keep their end, and descriptor requests are disjoint and ascending |
| `DiscoveryTheorems.RefusalStops` | jewelbots_friendship_v121/cores/Jewelbot_v1/nrf51_sdk/ble/ble_db_discovery/ble_db_discovery.c:128-280 | When the SoftDevice refuses the request a step issues, the discovery ends with one error event in place of the queued events; a step that issues no request is unaffected |
| `DiscoveryExactness.CccdFoundIff` | jewelbots_friendship_v121/cores/Jewelbot_v1/nrf51_sdk/ble/ble_db_discovery/ble_db_discovery.c:727-818 | In every finished run a characteristic is delivered with the first configuration descriptor of the range that was asked for iff the one response to that request shows it, or the range has none |
| `DiscoveryExactness.RunSettles` | jewelbots_friendship_v121/cores/Jewelbot_v1/nrf51_sdk/ble/ble_db_discovery/ble_db_discovery.c:727-818 | Once a descriptor handle is settled it stays the same until its service is delivered |
| `DiscoveryExamples.SplitDescriptorsLoseCccd` | jewelbots_friendship_v121/cores/Jewelbot_v1/nrf51_sdk/ble/ble_db_discovery/ble_db_discovery.c:746-776 | A whole run on a concrete conforming server that delivers a characteristic without the configuration descriptor the server has at handle 5 |
| `DiscoveryExactness.LastCccdIsOwnIff` | jewelbots_friendship_v121/cores/Jewelbot_v1/nrf51_sdk/ble/ble_db_discovery/ble_db_discovery.c:341-363 | In every finished run on a server whose service has more characteristics than fit, the last stored one is delivered with its own descriptor if it has one and else with the first of the dropped ones, so with its own iff it has one or they have none; only a response that stops short can instead leave the handle unset |
| `DiscoveryExamples.CrowdedServiceMisattributes` | jewelbots_friendship_v121/cores/Jewelbot_v1/nrf51_sdk/ble/ble_db_discovery/ble_db_discovery.c:341-363 | On a concrete service of MAX_CHARS + 1 characteristics every finished run that misses no descriptor delivers the last stored characteristic, which has none, with the configuration descriptor of the dropped one |
| `DiscoveryExamples.CrowdedRun` | jewelbots_friendship_v121/cores/Jewelbot_v1/nrf51_sdk/ble/ble_db_discovery/ble_db_discovery.c:341-363 | Such a run exists |
| `DiscoveryExactness.CanComplete` | jewelbots_friendship_v121/cores/Jewelbot_v1/nrf51_sdk/ble/ble_db_discovery/ble_db_discovery.c:222-280 | From every state of a run some further answers complete the discovery |
| `DiscoveryRestart.RestartIsRightIff` | jewelbots_friendship_v121/cores/Jewelbot_v1/nrf51_sdk/ble/ble_db_discovery/ble_db_discovery.c:855-896 | A further discovery on the same structure is right on every server and for every split of its answers iff the structure holds no characteristic index and no stored count for its first service |
| `DiscoveryRestart.StaleCountHarms` | jewelbots_friendship_v121/cores/Jewelbot_v1/nrf51_sdk/ble/ble_db_discovery/ble_db_discovery.c:603-616 | With a count left over, a service without characteristics is delivered with the old ones |
| `DiscoveryRestart.LateIndexHarms` | jewelbots_friendship_v121/cores/Jewelbot_v1/nrf51_sdk/ble/ble_db_discovery/ble_db_discovery.c:397-415 | With an index left over, the search may start behind a characteristic, which is missed |
| `DiscoveryRestart.EarlyIndexHarms` | jewelbots_friendship_v121/cores/Jewelbot_v1/nrf51_sdk/ble/ble_db_discovery/ble_db_discovery.c:397-415 | With an index left over, the search may start before the service and store a characteristic of another one |
| `Discovery.Discover` | jewelbots_friendship_v121/cores/Jewelbot_v1/nrf51_sdk/ble/ble_db_discovery/ble_db_discovery.c:855-942 | On the stateful code, a start and one handler call per response of a conforming server end as DiscoveryDelivers says, and with the one-pass reading when no response stopped short |
| `DiscoveryControl.DisconnectFrees` | jewelbots_friendship_v121/cores/Jewelbot_v1/nrf51_sdk/ble/ble_db_discovery/ble_db_discovery.c:904-911 | Losing its connection ends a discovery without an event and without an outstanding request, and the next start on any connection succeeds and asks for the first service; losing another connection, or a response on one, changes nothing |
| `DiscoveryControl.RightAfterDisconnectIff` | jewelbots_friendship_v121/cores/Jewelbot_v1/nrf51_sdk/ble/ble_db_discovery/ble_db_discovery.c:855-911 | From every state of a run: after a disconnect a further discovery is right on every server iff the one cut off had its characteristic index at zero and nothing stored for the first service |
| `DiscoveryControl.FirstSixAreRegistered` | jewelbots_friendship_v121/cores/Jewelbot_v1/nrf51_sdk/ble/ble_db_discovery/ble_db_discovery.c:79-98 | Over any sequence of registrations exactly the first six services mentioned are registered, in the order of first mention |
| `DiscoveryControl.EndIsMarked` | jewelbots_friendship_v121/cores/Jewelbot_v1/nrf51_sdk/ble/ble_db_discovery/ble_db_discovery.c:128-280 | Whatever response ends a discovery, the last one or one whose request is refused, leaves the first slot marked as available on its connection |
| `DiscoveryControl.RegisterMeans` | jewelbots_friendship_v121/cores/Jewelbot_v1/nrf51_sdk/ble/ble_db_discovery/ble_db_discovery.c:79-98 | A registration succeeds iff the service is known or there is room; then it is registered exactly once behind the others, and otherwise nothing changes |
| `DiscoveryControl.StartMeans` | jewelbots_friendship_v121/cores/Jewelbot_v1/nrf51_sdk/ble/ble_db_discovery/ble_db_discovery.c:855-896 | A start without services or while a discovery is in progress changes nothing; otherwise the SoftDevice decides whether a discovery is in progress |
| `DiscoveryControl.RefusedStartIsHarmless` | jewelbots_friendship_v121/cores/Jewelbot_v1/nrf51_sdk/ble/ble_db_discovery/ble_db_discovery.c:876-896 | A start that the SoftDevice refused makes no difference to a later one |
| `DiscoveryControl.UnregisteredGetsNoEvent` | jewelbots_friendship_v121/cores/Jewelbot_v1/nrf51_sdk/ble/ble_db_discovery/ble_db_discovery.c:128-211 | A service that is not registered gets no event and takes no place in the queue |
| `Discovery.DbDiscovery.RegisteredHandlerGet` | jewelbots_friendship_v121/cores/Jewelbot_v1/nrf51_sdk/ble/ble_db_discovery/ble_db_discovery.c:55-68 | Finds a handler iff the service is registered |
| `Discovery.DbDiscovery.Register` | jewelbots_friendship_v121/cores/Jewelbot_v1/nrf51_sdk/ble/ble_db_discovery/ble_db_discovery.c:79-98 | Succeeds iff the service is known or fewer than six are registered, and then the service is registered exactly once, behind the others |
| `Discovery.DbDiscovery.Start` | jewelbots_friendship_v121/cores/Jewelbot_v1/nrf51_sdk/ble/ble_db_discovery/ble_db_discovery.c:855-896 | Refuses without registered services or while busy, changing nothing; otherwise resets the indices and asks for the first service, but resets neither the characteristic index nor the stored count |
| `Discovery.DbDiscovery.OnDisconnected` | jewelbots_friendship_v121/cores/Jewelbot_v1/nrf51_sdk/ble/ble_db_discovery/ble_db_discovery.c:904-911 | Ends the discovery and drops its request iff the connection is its own, and tells the application nothing |
| `Discovery.DbDiscovery.PendingUserEvtsSend` | jewelbots_friendship_v121/cores/Jewelbot_v1/nrf51_sdk/ble/ble_db_discovery/ble_db_discovery.c:103-113 | Delivers the first slots in order, one per registered service, and empties the queue |
| `Discovery.DbDiscovery.DiscoveryCompleteEvtTrigger` | jewelbots_friendship_v121/cores/Jewelbot_v1/nrf51_sdk/ble/ble_db_discovery/ble_db_discovery.c:164-211 | Queues the event of the current service; the one that fills the queue sends all |
| `Discovery.DbDiscovery.StopWithError` | jewelbots_friendship_v121/cores/Jewelbot_v1/nrf51_sdk/ble/ble_db_discovery/ble_db_discovery.c:128-149 | Ends the discovery, reports the error at once and marks slot 0 as available |
| `Discovery.DbDiscovery.OnSrvDiscCompletion` | jewelbots_friendship_v121/cores/Jewelbot_v1/nrf51_sdk/ble/ble_db_discovery/ble_db_discovery.c:222-280 | Turns to the next registered service, or ends the discovery after the last |
| `Discovery.DbDiscovery.FinishService` | jewelbots_friendship_v121/cores/Jewelbot_v1/nrf51_sdk/ble/ble_db_discovery/ble_db_discovery.c:710-718 | Queues the event of the service and turns to the next one |
| `Discovery.DbDiscovery.CharacteristicsDiscover` | jewelbots_friendship_v121/cores/Jewelbot_v1/nrf51_sdk/ble/ble_db_discovery/ble_db_discovery.c:389-419 | Asks from after the last stored value, or from the service start, to the service end |
| `Discovery.DbDiscovery.IsDescDiscoveryReqd` | jewelbots_friendship_v121/cores/Jewelbot_v1/nrf51_sdk/ble/ble_db_discovery/ble_db_discovery.c:336-377 | Yields a range iff there are handles between the value and the next stored declaration or the service end, and which |
| `DiscoveryRuns.GapAgrees` | jewelbots_friendship_v121/cores/Jewelbot_v1/nrf51_sdk/ble/ble_db_discovery/ble_db_discovery.c:336-377 | On a service stored from a conforming server the range is non-empty exactly when one is asked for, and its 16-bit bounds do not wrap |
| `Discovery.DbDiscovery.DescriptorsDiscover` | jewelbots_friendship_v121/cores/Jewelbot_v1/nrf51_sdk/ble/ble_db_discovery/ble_db_discovery.c:440-512 | Stops at the least index from the current one on that has such a range, and finishes the service iff there is none |
| `Discovery.DbDiscovery.OnPrimarySrvDiscoveryRsp` | jewelbots_friendship_v121/cores/Jewelbot_v1/nrf51_sdk/ble/ble_db_discovery/ble_db_discovery.c:523-574 | Takes the first service found and asks for its characteristics, or reports it as not found; ignores other connections |
| `Discovery.DbDiscovery.StoreCharacteristics` | jewelbots_friendship_v121/cores/Jewelbot_v1/nrf51_sdk/ble/ble_db_discovery/ble_db_discovery.c:599-631 | The copy loop appends as many new characteristics as fit, each without configuration descriptor, and changes no other entry |
| `Discovery.DbDiscovery.CopyCharacteristics` | jewelbots_friendship_v121/cores/Jewelbot_v1/nrf51_sdk/ble/ble_db_discovery/ble_db_discovery.c:620-631 | The copy loop writes exactly the new entries |
| `Discovery.DbDiscovery.OnCharacteristicDiscoveryRsp` | jewelbots_friendship_v121/cores/Jewelbot_v1/nrf51_sdk/ble/ble_db_discovery/ble_db_discovery.c:582-719 | Stores the response, then asks for more characteristics or turns to descriptors; the whole new state is that of the model |
| `Discovery.DbDiscovery.StoreCccd` | jewelbots_friendship_v121/cores/Jewelbot_v1/nrf51_sdk/ble/ble_db_discovery/ble_db_discovery.c:746-774 | The search loop stores the first configuration descriptor of the response in the current characteristic, and nothing else |
| `Discovery.DbDiscovery.OnDescriptorDiscoveryRsp` | jewelbots_friendship_v121/cores/Jewelbot_v1/nrf51_sdk/ble/ble_db_discovery/ble_db_discovery.c:727-818 | Stores what was found, then turns to the next characteristic with a range or finishes the service |
| `Discovery.DbDiscovery.TurnToNextCharacteristic` | jewelbots_friendship_v121/cores/Jewelbot_v1/nrf51_sdk/ble/ble_db_discovery/ble_db_discovery.c:774-817 | The end of the descriptor handler: the next characteristic with a range, or the end of the service |
| `Discovery.DbDiscovery.OnBleEvt` | jewelbots_friendship_v121/cores/Jewelbot_v1/nrf51_sdk/ble/ble_db_discovery/ble_db_discovery.c:914-942 | The switch on every event, with responses on other connections ignored. An answer of a conforming server keeps the invariant and lowers the measure; if the request it leads to is refused, the discovery ends with one error event. A disconnect of the own connection leaves no discovery in progress |
| `Discovery.DbDiscovery.OnResponse` | jewelbots_friendship_v121/cores/Jewelbot_v1/nrf51_sdk/ble/ble_db_discovery/ble_db_discovery.c:920-933 | Every response on the own connection leads to the state of the model, and any other changes nothing |
| `Pairing.PairingAgrees` | jewelbots_friendship_v121/cores/Jewelbot_v1/Jewelbots_src/ble_central_event_handler.c:335-361 | In every run of two bracelets, with scan responses lost, repeated and reordered and any timing of buttons, timers and dispatches: what a bracelet stores is the other's address with the colour the central selected, the colour is one of the five of the cycle, the central stores only after the peripheral has echoed it, and so two that both store agree |
| `Pairing.PeripheralStoresLast` | jewelbots_friendship_v121/cores/Jewelbot_v1/Jewelbots_src/advertising.c:276-322 | The peripheral stores only after the central has left its waiting state, and stores alone iff the central declined after selecting or its list was full |
| `Pairing.RunKeeps` | jewelbots_friendship_v121/cores/Jewelbot_v1/Jewelbots_src/ble_central_event_handler.c:148-361 | The two-device invariant behind both results holds after every run |
| `Pairing.StepCKept` | jewelbots_friendship_v121/cores/Jewelbot_v1/Jewelbots_src/fsm.c:124-300 | Every step of the central keeps it: no done packet is broadcast between selecting and leaving, and the colour does not change while waiting |
| `Pairing.StepPKept` | jewelbots_friendship_v121/cores/Jewelbot_v1/Jewelbots_src/fsm.c:124-300 | Every step of the peripheral keeps it: it holds and echoes only the colour the central selected |
| `PairingExamples.PairingCanSucceed` | jewelbots_friendship_v121/cores/Jewelbot_v1/Jewelbots_src/ble_central_event_handler.c:335-361 | For each of the five colours of the cycle a run after which both have stored each other with it |
| `PairingExamples.PeripheralStoresAlone` | jewelbots_friendship_v121/cores/Jewelbot_v1/Jewelbots_src/fsm.c:150-173 | A run in which the central times out and declines, and the non-connectable advertising that follows makes the peripheral store the central alone |
| `PairingExamples.PeripheralStoresAloneWhenFull` | jewelbots_friendship_v121/cores/Jewelbot_v1/Jewelbots_src/fsm.c:203-206 | A run in which the list of the central is full: it completes without a save, and when its user next enters and leaves friend finding the peripheral stores it alone |
| `PairingExamples.StoredColourHasQueueIff` | jewelbots_friendship_v121/cores/Jewelbot_v1/Jewelbots_src/messaging.c:40-50 | A colour that pairing stores has a message queue iff it is not the fifth |
| `BraceletRuns.Session` | jewelbots_friendship_v121/cores/Jewelbot_v1/Jewelbots_src/ble_central_event_handler.c:335-361 | On the stateful code of two bracelets: after every session what either has stored is in its list under the colour the central selected |
| `Device.CleanIdle` | jewelbots_friendship_v121/cores/Jewelbot_v1/Jewelbots_src/fsm.c:124-173 | In every run in which no button release comes too early, a bracelet never plays both roles, and whenever it is in the on state all role flags and the selection are false and the index is the sentinel |
| `Device.SoundKeptIff` | jewelbots_friendship_v121/cores/Jewelbot_v1/Jewelbots_src/fsm.c:229-329 | An input keeps the one-device invariant behind it iff it is not a button release by a central that has lost its link, or a press after the timeout, that comes before the dispatcher has left friend finding |
| `Device.StaysCleanIff` | jewelbots_friendship_v121/cores/Jewelbot_v1/Jewelbots_src/button_handler.c:96-100 | The condition is exact: after an input every run without releases that come too early stays clean iff the input was not such a release |
| `Device.SettledIsLateEnough` | jewelbots_friendship_v121/cores/Jewelbot_v1/Jewelbots_src/fsm.c:770-772 | Once the dispatcher has settled no release comes too early |
| `BraceletRuns.HandleAll` | jewelbots_friendship_v121/cores/Jewelbot_v1/Jewelbots_src/fsm.c:770-772 | On the stateful code, a bracelet that handles any inputs stays clean unless a release comes too early |
| `Device.UnsettledIsNotClean` | jewelbots_friendship_v121/cores/Jewelbot_v1/Jewelbots_src/button_handler.c:88-100 | Three quick button releases before the next dispatch lead to the on state with the central role still set |
| `DeviceOutcomes.TimeoutReturns` | jewelbots_friendship_v121/cores/Jewelbot_v1/Jewelbots_src/fsm.c:697-708 | From anywhere in a pairing the timeout leads, within two dispatches, to the on state with non-connectable advertising, no role, no selection and the friends as before; with a signal outside friend finding it changes nothing |
| `DeviceOutcomes.GivingUpReturns` | jewelbots_friendship_v121/cores/Jewelbot_v1/Jewelbots_src/fsm.c:124-329 | So does giving up or moving out of range, in every state of a pairing |
| `DeviceOutcomes.TurnsToDecline` | jewelbots_friendship_v121/cores/Jewelbot_v1/Jewelbots_src/fsm.c:268-306 | Giving up in friend finding, while a colour is chosen or while waiting turns to the decline state at the next dispatch |
| `DeviceOutcomes.DeclineReturns` | jewelbots_friendship_v121/cores/Jewelbot_v1/Jewelbots_src/fsm.c:150-173 | Declining clears every role, the selection and the index, and leaves friends and pending friend alone |
| `DeviceOutcomes.NoPeerReturns` | jewelbots_friendship_v121/cores/Jewelbot_v1/Jewelbots_src/fsm.c:284-329 | Without a peer a pairing ends in the on state within three dispatches, though accepting sends the offer first |
| `DeviceOutcomes.PressStrandsIff` | jewelbots_friendship_v121/cores/Jewelbot_v1/Jewelbots_src/button_handler.c:133-137 | A release after a colour was accepted, or after giving up, leaves the bracelet in the middle of the pairing with the on signal iff it is a press of at least 1500 ticks |
| `DeviceOutcomes.StrandedStays` | jewelbots_friendship_v121/cores/Jewelbot_v1/Jewelbots_src/fsm.c:697-708 | From there no number of dispatches and timeouts leads out, and role and advertising stay |
| `DeviceOutcomes.PressInOnState` | jewelbots_friendship_v121/cores/Jewelbot_v1/Jewelbots_src/button_handler.c:101-111 | From the idle on state a release and a dispatch lead to friend finding iff the press took from 65000 to below 160000 ticks, to message mode or power-down iff it took from 1500 to below 65000 or at least 160000, and a tap does nothing |
| `DeviceOutcomes.PressReaches` | jewelbots_friendship_v121/cores/Jewelbot_v1/Jewelbots_src/button_handler.c:73-138 | For each signal, exactly which releases in which signal lead to it |
| `DeviceOutcomes.PressWhileWaiting` | jewelbots_friendship_v121/cores/Jewelbot_v1/Jewelbots_src/button_handler.c:112-118 | While waiting for a peer a press leads back to the on state and non-connectable advertising, a tap changes nothing |
| `DeviceOutcomes.OnStateLeaves` | jewelbots_friendship_v121/cores/Jewelbot_v1/Jewelbots_src/fsm.c:516-590 | Which signals lead out of the on state, and where to |
| `DeviceOutcomes.ChargerLeavesOn` | jewelbots_friendship_v121/cores/Jewelbot_v1/Jewelbots_src/fsm.c:516-590 | An idle bracelet on a charger goes to charging within two dispatches, off it a dispatch changes nothing |
| `DeviceOutcomes.BackAndFinding` | jewelbots_friendship_v121/cores/Jewelbot_v1/Jewelbots_src/fsm.c:516-590 | Back from charging, messaging or bonding a long press enters friend finding at once, whatever signal was left |
| `DeviceOutcomes.OtherwiseWaits` | jewelbots_friendship_v121/cores/Jewelbot_v1/Jewelbots_src/fsm.c:150-329 | On which signals each state acts at all: on every other a dispatch changes nothing |
| `DeviceOutcomes.LinkGivesRoleIff` | jewelbots_friendship_v121/cores/Jewelbot_v1/Jewelbots_src/ble_central_event_handler.c:166-253 | A dropped link gives a role, with the sentinel on offer, iff the bracelet was waiting and, as central, the link had been established |
| `DeviceOutcomes.FailedLinkStillWaits` | jewelbots_friendship_v121/cores/Jewelbot_v1/Jewelbots_src/ble_central_event_handler.c:226-253 | A link that was never established leaves the bracelet waiting, and the next one finds it |
| `DeviceOutcomes.PeerRememberedIff` | jewelbots_friendship_v121/cores/Jewelbot_v1/Jewelbots_src/ble_central_event_handler.c:148-161 | The peer becomes the pending friend iff a pairing is on; otherwise advertising is resumed |
| `DeviceOutcomes.HeardChangesIff` | jewelbots_friendship_v121/cores/Jewelbot_v1/Jewelbots_src/ble_central_event_handler.c:335-361 | Which scan responses complete which role, and which set the colour; nothing else changes |
| `DeviceOutcomes.PeripheralAnswers` | jewelbots_friendship_v121/cores/Jewelbot_v1/Jewelbots_src/fsm.c:235-301 | A peripheral waits for an offer, then takes its colour and echoes it |
| `DeviceOutcomes.CompletedRoleStores` | jewelbots_friendship_v121/cores/Jewelbot_v1/Jewelbots_src/fsm.c:131-146 | While waiting, a completed role stores the peer under the colour, as a map update below sixteen friends, and ends the pairing; without one a dispatch changes nothing |
| `DeviceOutcomes.SavedPeerIsForgotten` | jewelbots_friendship_v121/cores/Jewelbot_v1/Jewelbots_src/friend_data_storage.c:48-61 | After a successful save scan responses of the peer do nothing more; after a failed one it stays pending |
| `DeviceOutcomes.ShownColourStays` | jewelbots_friendship_v121/cores/Jewelbot_v1/Jewelbots_src/fsm.c:659-672 | However often the dispatcher runs, one of the first four colours stays on display until the timer over all colours expires |
| `DeviceOutcomes.CycleMovesOn` | jewelbots_friendship_v121/cores/Jewelbot_v1/Jewelbots_src/led_sequence.c:234-253 | Then the next dispatch shows the next colour |
| `DeviceOutcomes.FifthIsBrief` | jewelbots_friendship_v121/cores/Jewelbot_v1/Jewelbots_src/led_sequence.c:234-253 | The fifth colour is shown by one dispatch only; the next one goes back to the first |
| `Bracelets.Bracelet.constructor` | jewelbots_friendship_v121/cores/Jewelbot_v1/Jewelbots_src/fsm.c:118-123 | A new bracelet is idle, in the on state, without friends |
| `Bracelets.Bracelet.JwbOn` | jewelbots_friendship_v121/cores/Jewelbot_v1/Jewelbots_src/fsm.c:516-590 | A long press enters friend finding with connectable advertising, idling on a charger goes on to charging, the other signals lead elsewhere |
| `Bracelets.Bracelet.JwbConnectableState` | jewelbots_friendship_v121/cores/Jewelbot_v1/Jewelbots_src/fsm.c:229-279 | The central goes on to choose a colour, the peripheral waits until one was selected, giving up leads to declining |
| `Bracelets.Bracelet.FoundByCentral` | jewelbots_friendship_v121/cores/Jewelbot_v1/Jewelbots_src/fsm.c:235-249 | The peripheral branch: wait, or accept the selected colour |
| `Bracelets.Bracelet.JwbAddFriend` | jewelbots_friendship_v121/cores/Jewelbot_v1/Jewelbots_src/fsm.c:281-329 | Cycles the colours, offers the accepted one, or declines |
| `Bracelets.Bracelet.AcceptPressed` | jewelbots_friendship_v121/cores/Jewelbot_v1/Jewelbots_src/fsm.c:284-301 | The offer goes out and the accept state is entered even when the pending address is zero |
| `Bracelets.Bracelet.ColourShown` | jewelbots_friendship_v121/cores/Jewelbot_v1/Jewelbots_src/fsm.c:310-319 | A cycle that starts shows the first colour |
| `Bracelets.Bracelet.CycleThroughAllColors` | jewelbots_friendship_v121/cores/Jewelbot_v1/Jewelbots_src/led_sequence.c:234-253 | The colour becomes the cycle index, which may be 4; an index past 3 restarts the cycle |
| `Bracelets.Bracelet.JwbAcceptFriend` | jewelbots_friendship_v121/cores/Jewelbot_v1/Jewelbots_src/fsm.c:124-148 | Stores the friend once a role is complete, and declines when giving up |
| `Bracelets.Bracelet.FriendAccepted` | jewelbots_friendship_v121/cores/Jewelbot_v1/Jewelbots_src/fsm.c:129-143 | Storing clears roles, selection and index and returns to the on state |
| `Bracelets.Bracelet.ReleaseRoles` | jewelbots_friendship_v121/cores/Jewelbot_v1/Jewelbots_src/fsm.c:136-139 | Clears the completed role, the selection and the index |
| `Bracelets.Bracelet.AddOrUpdateAndSave` | jewelbots_friendship_v121/cores/Jewelbot_v1/Jewelbots_src/fsm.c:203-224 | A full list stores nothing and starts no save |
| `Bracelets.Bracelet.JwbDeclineFriend` | jewelbots_friendship_v121/cores/Jewelbot_v1/Jewelbots_src/fsm.c:150-173 | Declining clears every role and broadcasts as non-connectable again |
| `Bracelets.Bracelet.StateMachineDispatch` | jewelbots_friendship_v121/cores/Jewelbot_v1/Jewelbots_src/fsm.c:770-772 | Runs the function of the current state and keeps the one-device invariant; giving up goes on to the decline state and from there to the on state |
| `Bracelets.Bracelet.ButtonReleased` | jewelbots_friendship_v121/cores/Jewelbot_v1/Jewelbots_src/button_handler.c:73-138 | The next signal for every signal, press length and USB state, with the thresholds of the on state spelled out; the invariant is kept iff the release does not come too early |
| `Bracelets.Bracelet.ReleasedOutsidePairing` | jewelbots_friendship_v121/cores/Jewelbot_v1/Jewelbots_src/button_handler.c:101-138 | The cases of the switch outside pairing |
| `Bracelets.Bracelet.DeclineFriendTimeout` | jewelbots_friendship_v121/cores/Jewelbot_v1/Jewelbots_src/fsm.c:697-708 | Declines iff in a friend adding mode |
| `Bracelets.Bracelet.LedTimerDelay` | jewelbots_friendship_v121/cores/Jewelbot_v1/Jewelbots_src/fsm.c:659-672 | Over all colours the cycle index advances from 0 to 4 and wraps |
| `Bracelets.Bracelet.FdsEvtUpdate` | jewelbots_friendship_v121/cores/Jewelbot_v1/Jewelbots_src/friend_data_storage.c:48-61 | A finished save clears the pending friend and goes back to non-connectable advertising |
| `Bracelets.Bracelet.GapConnected` | jewelbots_friendship_v121/cores/Jewelbot_v1/Jewelbots_src/ble_central_event_handler.c:148-161 | The peer becomes the pending friend iff in a friend adding mode |
| `Bracelets.Bracelet.CentralGapDisconnected` | jewelbots_friendship_v121/cores/Jewelbot_v1/Jewelbots_src/ble_central_event_handler.c:226-253 | The central takes its role when the link drops, unless it was never established |
| `Bracelets.Bracelet.PeriphGapDisconnected` | jewelbots_friendship_v121/cores/Jewelbot_v1/Jewelbots_src/ble_central_event_handler.c:166-182 | The peripheral takes its role when the link drops |
| `Bracelets.Bracelet.Handle` | jewelbots_friendship_v121/cores/Jewelbot_v1/Jewelbots_src/fsm.c:770-772 | Each input leads to the state of the model |
| `Bracelets.Bracelet.ScanReport` | jewelbots_friendship_v121/cores/Jewelbot_v1/Jewelbots_src/ble_central_event_handler.c:335-361 | The echo completes the central, an offer sets the peripheral's colour, the done packet completes a peripheral that has echoed; anything else changes nothing |
| `Friends.AddOrUpdateRefinesMap` | jewelbots_friendship_v121/cores/Jewelbot_v1/Jewelbots_src/fsm.c:191-224 | Below sixteen friends the list is updated as a map, at sixteen nothing changes; addresses stay distinct and non-zero |
| `Friends.FindAgreesIff` | jewelbots_friendship_v121/cores/Jewelbot_v1/Jewelbots_src/fsm.c:608-622 | The search over all sixteen slots agrees with the map iff the address is non-zero or the list is empty or full |
| `Friends.ColorOfIsMap` | jewelbots_friendship_v121/cores/Jewelbot_v1/Jewelbots_src/fsm.c:505-512 | For a non-zero address the colour found is the one the map holds |
| `Friends.FriendsList.InFriendsList` | jewelbots_friendship_v121/cores/Jewelbot_v1/Jewelbots_src/fsm.c:191-201 | Returns the index of the address among the entries in use |
| `Friends.FriendsList.AddOrUpdateFriendsList` | jewelbots_friendship_v121/cores/Jewelbot_v1/Jewelbots_src/fsm.c:203-224 | The entries change as the map update says, and unused slots stay zero |
| `Friends.FriendsList.FriendFound` | jewelbots_friendship_v121/cores/Jewelbot_v1/Jewelbots_src/fsm.c:608-622 | Returns the least slot with the address, which for a non-zero address is there iff the map has it |
| `CircularBuffer.CBuf.PushValue` | jewelbots_friendship_v121/cores/Jewelbot_v1/Jewelbots_src/cbuf.c:34-44 | Refines a bounded queue without duplicates: a present value or the sentinel changes nothing, and the buffer is full exactly at one slot less than its length; sentinels in free slots and distinctness are kept |
| `CircularBuffer.PushAllKeepsFirst` | jewelbots_friendship_v121/cores/Jewelbot_v1/Jewelbots_src/cbuf.c:34-44 | Whatever is pushed into an empty queue, it holds the first distinct values that fit, in order |
| `CircularBuffer.FirstInFirstOut` | jewelbots_friendship_v121/cores/Jewelbot_v1/Jewelbots_src/cbuf.c:45-58 | Pops return them in that order, and nothing after the last |
| `CircularBuffer.PushAnswers` | jewelbots_friendship_v121/cores/Jewelbot_v1/Jewelbots_src/cbuf.c:34-44 | A push is refused iff the queue is full, even of a value already in it; no value is ever in it twice |
| `CircularBuffer.CBuf.PopValue` | jewelbots_friendship_v121/cores/Jewelbot_v1/Jewelbots_src/cbuf.c:45-58 | Removes the oldest value, clears its slot and advances, and fails iff the queue is empty |
| `CircularBuffer.CBuf.InitSlot` | jewelbots_friendship_v121/cores/Jewelbot_v1/Jewelbots_src/cbuf.c:22-33 | Appends without the search for duplicates |
| `CircularBuffer.CBuf.ItemExists` | jewelbots_friendship_v121/cores/Jewelbot_v1/Jewelbots_src/cbuf.c:7-15 | Finds a value iff some slot holds it |
| `CircularBuffer.CBuf.Add` | jewelbots_friendship_v121/cores/Jewelbot_v1/Jewelbots_src/cbuf.c:16-21 | Writes the slot at head and moves on unless the value is present |
| `CircularBuffer.FillSlot` | jewelbots_friendship_v121/cores/Jewelbot_v1/Jewelbots_src/cbuf.c:34-44 | Filling the slot at head appends one live value and keeps the other free slots free |
| `CircularBuffer.ClearSlot` | jewelbots_friendship_v121/cores/Jewelbot_v1/Jewelbots_src/cbuf.c:45-58 | Clearing the slot at tail drops the oldest live value and frees its slot |
| `CircularBuffer.StoredIff` | jewelbots_friendship_v121/cores/Jewelbot_v1/Jewelbots_src/cbuf.c:7-15 | The search over all slots finds exactly the live values and the sentinel |
| `CircularBuffer.SnapshotIsLive` | jewelbots_friendship_v121/cores/Jewelbot_v1/Jewelbots_src/cbuf.c:66-77 | The non-sentinel slots are the live values, each as often as it is live, and fewer than the slots |
| `CircularBuffer.CBuf.GetElementsInBuffer` | jewelbots_friendship_v121/cores/Jewelbot_v1/Jewelbots_src/cbuf.c:66-77 | Returns exactly the live values, never more than one less than the slots |
| `CircularBuffer.CBuf.CopyValues` | jewelbots_friendship_v121/cores/Jewelbot_v1/Jewelbots_src/cbuf.c:66-77 | The loop collects the non-sentinel slots in slot order |
| `CircularBuffer.CBuf.HasElements` | jewelbots_friendship_v121/cores/Jewelbot_v1/Jewelbots_src/cbuf.c:78-80 | True iff the queue is not empty |
| `CircularBuffer.CBuf.WipeRound` | jewelbots_friendship_v121/cores/Jewelbot_v1/Jewelbots_src/fsm.c:709-716 | A round of the initialisation loops clears the slot at tail, its pop succeeds, and cleared slots stay clear |
| `CircularBuffer.CBuf.Wipe` | jewelbots_friendship_v121/cores/Jewelbot_v1/Jewelbots_src/fsm.c:709-724 | As many rounds as slots leave every slot at the sentinel from any position, with every pop succeeding; the live sentinels left behind are counted |
| `AdStructures.EncodeDecode` | jewelbots_friendship_v121/cores/Jewelbot_v1/Jewelbots_src/advertising.c:526-543 | Well-formed bytes are the encoding of their decoding, and each decoded structure fits a length byte |
| `AdStructures.DecodeEncode` | jewelbots_friendship_v121/cores/Jewelbot_v1/Jewelbots_src/advertising.c:526-543 | Encoded structures are well formed and decode to themselves |
| `AdStructures.ParseEncoded` | jewelbots_friendship_v121/cores/Jewelbot_v1/Jewelbots_src/advertising.c:545-562 | Parsing an encoding returns the data of the first structure of the type |
| `AdStructures.ReportParse` | jewelbots_friendship_v121/cores/Jewelbot_v1/Jewelbots_src/advertising.c:526-543 | On any data in which the search reads nothing outside, zero lengths and a cut-off end included, the parser returns what the search finds; on well-formed data that is the first structure of the type, and nothing iff there is none |
| `AdStructures.ParseIsFirst` | jewelbots_friendship_v121/cores/Jewelbot_v1/Jewelbots_src/advertising.c:526-543 | On well-formed data the search reads nothing outside and finds the first structure of the type |
| `Messaging.Exchange` | jewelbots_friendship_v121/cores/Jewelbot_v1/Jewelbots_src/ble_central_event_handler.c:292-331 | End to end over both bracelets: pushed symbols are sent in one scan response and taken by the receiver iff it knows the sender under that colour and the tag is not among the last four accepted; then it plays the colour with the first 18 symbols in order, the sender's queue is empty and its other queues are unchanged |
| `Messaging.MessageArrives` | jewelbots_friendship_v121/cores/Jewelbot_v1/Jewelbots_src/advertising.c:371-410 | For any symbols, colour and tag the scan response fits 31 bytes and parses back to them, and counts as from a friend iff the sender is known under that colour |
| `Messaging.AcceptedAreSpaced` | jewelbots_friendship_v121/cores/Jewelbot_v1/Jewelbots_src/messaging.c:156-197 | Over every stream of messages, two accepted ones with equal tags have at least four other accepted ones between them |
| `Messaging.WindowHolds` | jewelbots_friendship_v121/cores/Jewelbot_v1/Jewelbots_src/messaging.c:166-197 | A tag is rejected iff it is among the last four accepted, or all zero while fewer than four were accepted |
| `Messaging.NewTagIsSpaced` | jewelbots_friendship_v121/cores/Jewelbot_v1/Jewelbots_src/messaging.c:166-197 | Accepting a tag that the ring does not hold keeps equal tags apart |
| `Messaging.RingShifts` | jewelbots_friendship_v121/cores/Jewelbot_v1/Jewelbots_src/messaging.c:156-164 | Overwriting the slot at the head drops the oldest tag |
| `Messaging.PushAllKeepsFirst` | jewelbots_friendship_v121/cores/Jewelbot_v1/Jewelbots_src/messaging.c:40-50 | Pushing symbols one by one keeps exactly the first 18 |
| `Messaging.PushSymbols` | jewelbots_friendship_v121/cores/Jewelbot_v1/Jewelbots_src/messaging.c:40-50 | The same for the queue in place, leaving other colours alone |
| `Messaging.MsgQueues.Push` | jewelbots_friendship_v121/cores/Jewelbot_v1/Jewelbots_src/messaging.c:40-50 | Appends to the queue of the colour unless it is full, and touches no other colour |
| `Messaging.MsgQueues.Pop` | jewelbots_friendship_v121/cores/Jewelbot_v1/Jewelbots_src/messaging.c:52-67 | Copies the queue out in order, empties it and touches no other colour |
| `Messaging.MsgQueues.MsgAdvertisingStart` | jewelbots_friendship_v121/cores/Jewelbot_v1/Jewelbots_src/advertising.c:362-410 | The scan response carries the popped queue and fits the advertising packet |
| `Messaging.BuildPacket` | jewelbots_friendship_v121/cores/Jewelbot_v1/Jewelbots_src/advertising.c:383-410 | The loop builds flag, colour, symbols and tag |
| `Messaging.TagRing.Record` | jewelbots_friendship_v121/cores/Jewelbot_v1/Jewelbots_src/messaging.c:156-164 | Overwrites the oldest of the last four tags |
| `Messaging.TagRing.InQueue` | jewelbots_friendship_v121/cores/Jewelbot_v1/Jewelbots_src/messaging.c:166-197 | Finds a tag iff it is in the ring |
| `Messaging.TagRing.SameBytes` | jewelbots_friendship_v121/cores/Jewelbot_v1/Jewelbots_src/messaging.c:178-188 | The match mask is complete iff the tags are equal |
| `Messaging.MsgReceiver.CopyMessage` | jewelbots_friendship_v121/cores/Jewelbot_v1/Jewelbots_src/ble_central_event_handler.c:310-325 | Splits the data into colour with symbols, and tag |
| `Messaging.MsgReceiver.QueueMessageForPlay` | jewelbots_friendship_v121/cores/Jewelbot_v1/Jewelbots_src/messaging.c:111-130 | The playback record holds the colour and the symbols in order |
| `Messaging.MsgReceiver.TakeMessage` | jewelbots_friendship_v121/cores/Jewelbot_v1/Jewelbots_src/ble_central_event_handler.c:327-331 | Takes a message and records its tag iff the tag is not in the ring; the accepted tags stay apart |
| `Messaging.MsgReceiver.ScanReport` | jewelbots_friendship_v121/cores/Jewelbot_v1/Jewelbots_src/ble_central_event_handler.c:292-331 | Takes exactly the messages of senders known under the colour they name with a new tag, and otherwise changes nothing |
| `Messaging.Receive` | jewelbots_friendship_v121/cores/Jewelbot_v1/Jewelbots_src/ble_central_event_handler.c:292-331 | The receiving half of the exchange |
| `AdvertisingModes.StartRunsFirst` | jewelbots_friendship_v121/cores/Jewelbot_v1/nrf51_sdk/ble/ble_advertising/ble_advertising.c:212-374 | Without flash operations a start runs the first mode at or after the requested one that is enabled and, when directed, has a peer, and this mode is unique. The start fails iff that mode uses the whitelist and its advertising data is refused; otherwise the SoftDevice gets exactly that mode, and it is announced last |
| `AdvertisingModes.CascadeIsFirst` | jewelbots_friendship_v121/cores/Jewelbot_v1/nrf51_sdk/ble/ble_advertising/ble_advertising.c:247-266 | The chain of tests finds that mode |
| `AdvertisingModes.TimeoutMovesOn` | jewelbots_friendship_v121/cores/Jewelbot_v1/nrf51_sdk/ble/ble_advertising/ble_advertising.c:407-456 | A timeout of directed, directed slow or fast advertising goes to exactly the next mode that can run, hands it to the SoftDevice and announces it; one of slow advertising only raises the idle event |
| `AdvertisingModes.DeferredTimeoutMovesOn` | jewelbots_friendship_v121/cores/Jewelbot_v1/nrf51_sdk/ble/ble_advertising/ble_advertising.c:407-493 | A timeout during a flash operation puts nothing on the air, and the end of the operation goes to exactly the next mode that can run |
| `AdvertisingModes.InsideRunsFirst` | jewelbots_friendship_v121/cores/Jewelbot_v1/nrf51_sdk/ble/ble_advertising/ble_advertising.c:212-374 | The same as StartRunsFirst for a start inside the module, whose refusal is reported to the error handler |
| `AdvertisingModes.WhitelistUsedIff` | jewelbots_friendship_v121/cores/Jewelbot_v1/nrf51_sdk/ble/ble_advertising/ble_advertising.c:268-373 | A start announces advertising with a whitelist iff it is enabled and not switched off, fast or slow mode runs, its advertising data is accepted, and the application replied with entries, or did not reply and had entries before |
| `AdvertisingModes.AskedIff` | jewelbots_friendship_v121/cores/Jewelbot_v1/nrf51_sdk/ble/ble_advertising/ble_advertising.c:229-280 | The application is asked for the peer iff a directed mode at or after the requested one is enabled, and for a whitelist iff the mode that runs can use one |
| `AdvertisingModes.WhitelistComesBack` | jewelbots_friendship_v121/cores/Jewelbot_v1/nrf51_sdk/ble/ble_advertising/ble_advertising.c:390-565 | Restarting without the whitelist switches it off for every start until a connection drops, after which a reply with entries brings it back |
| `AdvertisingModes.RefusedRestart` | jewelbots_friendship_v121/cores/Jewelbot_v1/nrf51_sdk/ble/ble_advertising/ble_advertising.c:541-565 | A restart without whitelist that is refused leaves mode, air and announcements as they were |
| `AdvertisingModes.LinkLostStarts` | jewelbots_friendship_v121/cores/Jewelbot_v1/nrf51_sdk/ble/ble_advertising/ble_advertising.c:390-405 | Losing the module's own connection runs the first mode from directed on that can run; losing another starts nothing |
| `AdvertisingModes.IdleRepeats` | jewelbots_friendship_v121/cores/Jewelbot_v1/nrf51_sdk/ble/ble_advertising/ble_advertising.c:358-374 | A request for idle mode repeats the event before it |
| `AdvertisingModes.TimeoutsReachIdle` | jewelbots_friendship_v121/cores/Jewelbot_v1/nrf51_sdk/ble/ble_advertising/ble_advertising.c:407-456 | At most four timeouts lead through exactly the modes that can run, in order, to the idle event |
| `AdvertisingModes.DeferredStartIsLast` | jewelbots_friendship_v121/cores/Jewelbot_v1/nrf51_sdk/ble/ble_advertising/ble_advertising.c:467-493 | However many starts flash defers, its end leads to exactly the state of an immediate start of the last one |
| `AdvertisingModes.DeferredStartIsMadeOnce` | jewelbots_friendship_v121/cores/Jewelbot_v1/nrf51_sdk/ble/ble_advertising/ble_advertising.c:467-493 | A deferred start is made once: the end of a further flash operation changes nothing |
| `AdvertisingModes.Advertising.Start` | jewelbots_friendship_v121/cores/Jewelbot_v1/nrf51_sdk/ble/ble_advertising/ble_advertising.c:212-374 | The whole new state and the code of a start, deferred, refused or not; one that is not deferred chooses the first mode that can run |
| `AdvertisingModes.Advertising.FetchPeerAddress` | jewelbots_friendship_v121/cores/Jewelbot_v1/nrf51_sdk/ble/ble_advertising/ble_advertising.c:229-245 | Asks for the peer address iff a directed mode at or after the requested one is enabled |
| `AdvertisingModes.Advertising.SkipDisabledModes` | jewelbots_friendship_v121/cores/Jewelbot_v1/nrf51_sdk/ble/ble_advertising/ble_advertising.c:247-266 | Leaves the mode the cascade ends in |
| `AdvertisingModes.Advertising.FetchWhitelist` | jewelbots_friendship_v121/cores/Jewelbot_v1/nrf51_sdk/ble/ble_advertising/ble_advertising.c:268-280 | Asks for the whitelist iff the mode can use one and it is not switched off |
| `AdvertisingModes.Advertising.Prepare` | jewelbots_friendship_v121/cores/Jewelbot_v1/nrf51_sdk/ble/ble_advertising/ble_advertising.c:227-280 | The mode, the whitelist and the requests before the start |
| `AdvertisingModes.Advertising.Launch` | jewelbots_friendship_v121/cores/Jewelbot_v1/nrf51_sdk/ble/ble_advertising/ble_advertising.c:290-373 | Starts and reports the mode, or ends with the code of the refused advertising data |
| `AdvertisingModes.Advertising.OnTimeout` | jewelbots_friendship_v121/cores/Jewelbot_v1/nrf51_sdk/ble/ble_advertising/ble_advertising.c:407-456 | A timeout outside flash operations goes to exactly the next mode that can run and announces it, or raises the idle event |
| `AdvertisingModes.Advertising.OnConnected` | jewelbots_friendship_v121/cores/Jewelbot_v1/nrf51_sdk/ble/ble_advertising/ble_advertising.c:383-388 | Remembers the connection iff it is one as peripheral |
| `AdvertisingModes.Advertising.OnDisconnected` | jewelbots_friendship_v121/cores/Jewelbot_v1/nrf51_sdk/ble/ble_advertising/ble_advertising.c:390-405 | Switches the whitelist on again, and runs the first mode from directed on iff the connection was the remembered one |
| `AdvertisingModes.Advertising.RestartWithoutWhitelist` | jewelbots_friendship_v121/cores/Jewelbot_v1/nrf51_sdk/ble/ble_advertising/ble_advertising.c:541-565 | Stops, switches the whitelist off and restarts the mode, or ends with the code of the refusal |
| `AdvertisingModes.Advertising.StartInside` | jewelbots_friendship_v121/cores/Jewelbot_v1/nrf51_sdk/ble/ble_advertising/ble_advertising.c:415-421 | A refused start inside the module goes to the error handler |
| `AdvertisingModes.Advertising.OnSysEvt` | jewelbots_friendship_v121/cores/Jewelbot_v1/nrf51_sdk/ble/ble_advertising/ble_advertising.c:467-493 | A pending start is made when flash is done, and with nothing pending nothing changes |
| `AdvertisingModes.DeferAll` | jewelbots_friendship_v121/cores/Jewelbot_v1/nrf51_sdk/ble/ble_advertising/ble_advertising.c:467-493 | On the stateful code, of several starts that flash defers the last one is made |
| `DirectTestMode.ReportCountsGoodPackets` | jewelbots_friendship_v121/cores/Jewelbot_v1/nrf51_sdk/ble/ble_dtm/ble_dtm.c:394-462 | Over every run of commands, resets and test ends included, and receptions: the end of a test is accepted iff one runs, and reports 0x8000 plus the number of packets received with good checksum and valid content since a receiver test began, modulo 0x8000, or 0x8000 after a transmitter or carrier test |
| `DirectTestMode.StepsFollow` | jewelbots_friendship_v121/cores/Jewelbot_v1/nrf51_sdk/ble/ble_dtm/ble_dtm.c:394-554 | Over every run the state shows the test that an independent five-state machine says is running, with the good packets modulo 0x10000 and a blank packet while receiving |
| `DirectTestMode.CommandFollows` | jewelbots_friendship_v121/cores/Jewelbot_v1/nrf51_sdk/ble/ble_dtm/ble_dtm.c:437-554 | Every command is accepted iff it is legal for the running test, and moves that machine as it should |
| `DirectTestMode.RejectionMeans` | jewelbots_friendship_v121/cores/Jewelbot_v1/nrf51_sdk/ble/ble_dtm/ble_dtm.c:437-554 | Which code a command that is not legal gets |
| `DirectTestMode.EventTells` | jewelbots_friendship_v121/cores/Jewelbot_v1/nrf51_sdk/ble/ble_dtm/ble_dtm.c:437-554 | The event of a command is the report of a test's end, or an error iff the command was rejected, but neither before initialization nor for the value of a vendor setting |
| `DirectTestMode.ResetFreesTheRadio` | jewelbots_friendship_v121/cores/Jewelbot_v1/nrf51_sdk/ble/ble_dtm/ble_dtm.c:457-462 | After every run a reset ends the test, keeps packet, power and timer, and a receiver test on a legal channel can begin with count zero |
| `DirectTestMode.SettingsChangeIff` | jewelbots_friendship_v121/cores/Jewelbot_v1/nrf51_sdk/ble/ble_dtm/ble_dtm.c:327-370 | Power and timer change exactly by the accepted vendor commands for them |
| `DirectTestMode.PowerIsLegalIff` | jewelbots_friendship_v121/cores/Jewelbot_v1/nrf51_sdk/ble/ble_dtm/ble_dtm.c:577-602 | A transmit power is accepted iff its low byte is a multiple of four from -40 to 4 |
| `DirectTestMode.TransmittedPacket` | jewelbots_friendship_v121/cores/Jewelbot_v1/nrf51_sdk/ble/ble_dtm/ble_dtm.c:504-553 | The packet of an accepted test has its type and length, then the generated sequence, four ones and four zeros, or ones and zeros in turn; the bytes behind are left as they were |
| `TestPatterns.PrbsIsGenerated` | jewelbots_friendship_v121/cores/Jewelbot_v1/nrf51_sdk/ble/ble_dtm/ble_dtm.c:44-48 | Over all 37 bytes each bit of the pseudo-random pattern is the sum of the bits five and nine before it, low bit first, starting with nine ones |
| `DirectTestMode.Operate` | jewelbots_friendship_v121/cores/Jewelbot_v1/nrf51_sdk/ble/ble_dtm/ble_dtm.c:394-462 | On the stateful code, any run of commands and receptions shows the test of that machine, so that its end reports the good packets |
| `DirectTestMode.AcceptsExactlyWhatIsSent` | jewelbots_friendship_v121/cores/Jewelbot_v1/nrf51_sdk/ble/ble_dtm/ble_dtm.c:104-143 | A packet is valid iff some transmitter command sends the same type, length and payload, for the three types and lengths up to 37 |
| `DirectTestMode.RejectedChangesNoTest` | jewelbots_friendship_v121/cores/Jewelbot_v1/nrf51_sdk/ble/ble_dtm/ble_dtm.c:437-554 | In every phase a rejected command leaves the test state, the count and the settings alone, and it leaves the packet alone iff it does not get as far as the header, or the header already reads the same |
| `DirectTestMode.RejectedWritesHeader` | jewelbots_friendship_v121/cores/Jewelbot_v1/nrf51_sdk/ble/ble_dtm/ble_dtm.c:513-542 | An unknown packet type is rejected after the header has been written |
| `DirectTestMode.Command` | jewelbots_friendship_v121/cores/Jewelbot_v1/nrf51_sdk/ble/ble_dtm/ble_dtm.c:437-554 | Every command keeps the count in sixteen bits and at zero outside a receiver test |
| `DirectTestMode.Received` | jewelbots_friendship_v121/cores/Jewelbot_v1/nrf51_sdk/ble/ble_dtm/ble_dtm.c:394-417 | So does every reception |
| `DirectTestMode.Dtm.CheckReceived` | jewelbots_friendship_v121/cores/Jewelbot_v1/nrf51_sdk/ble/ble_dtm/ble_dtm.c:104-143 | The loop accepts iff the payload is the pattern of its type |
| `DirectTestMode.Dtm.RadioEnd` | jewelbots_friendship_v121/cores/Jewelbot_v1/nrf51_sdk/ble/ble_dtm/ble_dtm.c:394-417 | Counts a reception iff checksum and content are good, and clears the buffer |
| `DirectTestMode.Dtm.FillPayload` | jewelbots_friendship_v121/cores/Jewelbot_v1/nrf51_sdk/ble/ble_dtm/ble_dtm.c:517-532 | Fills the payload with the pattern and leaves the rest of the packet |
| `DirectTestMode.Dtm.VendorSpecific` | jewelbots_friendship_v121/cores/Jewelbot_v1/nrf51_sdk/ble/ble_dtm/ble_dtm.c:327-370 | Carrier tests, transmit power and timer selection, with their rejections |
| `DirectTestMode.Dtm.StartTransmitter` | jewelbots_friendship_v121/cores/Jewelbot_v1/nrf51_sdk/ble/ble_dtm/ble_dtm.c:504-553 | Starts a transmitter test for the three packet types and rejects other lengths and types |
| `DirectTestMode.Dtm.DtmCmd` | jewelbots_friendship_v121/cores/Jewelbot_v1/nrf51_sdk/ble/ble_dtm/ble_dtm.c:437-554 | The new state and code of every command in every state: a reset frees the radio, the end of a test reports its count |
| `DirectTestMode.Dtm.EventGet` | jewelbots_friendship_v121/cores/Jewelbot_v1/nrf51_sdk/ble/ble_dtm/ble_dtm.c:557-565 | Returns the event and whether it is new, and makes it old |

## Left out

- DiscoveryTheorems.DiscoveryDelivers: for a zero-initialised structure; `RestartIsRightIff` says what a used one does.
- Pairing.PairingAgrees: does not claim that a stored colour is ever confirmed back to the peripheral.
- AdStructures.ReportParse: for data in which the search reads nothing outside; otherwise the C code reads past its end.
- Messaging.MsgReceiver.ScanReport: for messages of friends long enough for the bytes that are read, with at most 18 symbols; the C code checks neither and would write outside the playback record.
- Messaging.MsgReceiver.CopyMessage: for the same lengths.
- Messaging.MsgQueues.Push: for the four queue colours; with the fifth the C code indexes outside its arrays. That has_unsent_messages is ever cleared is not claimed, because nothing clears it.
- Messaging.MsgQueues.Pop: for the same colours.
- Messaging.MsgQueues.MsgAdvertisingStart: for the same colours.
- DirectTestMode.Dtm.DtmCmd: a pattern of 256 bytes or more whose low length byte passes the check is left out, because the C code copies it past the end of the packet.
- DirectTestMode.Dtm.StartTransmitter: the same.
- Bracelets.Bracelet.AddOrUpdateAndSave: an update of a known friend also empties the buffer of colours to message, which no pairing decision reads.
- Bracelets.Bracelet.ButtonReleased: while a message is composed a release also pushes a symbol, which `Messaging.MsgQueues.Push` models.
- Discovery.DbDiscovery.OnBleEvt: a response on the own connection is expected only while a request is outstanding.
- A failing start of the SoftDevice's advertising, which resets the device.
- CircularBuffer.CBuf.PushValue: from a head and tail inside the buffer, with at least two slots; the initial head of `CIRCBUF_DEF` is outside.
- Attribute properties and the address type are not kept, since no modelled decision looks at them.
- Other states of the bracelet (charging, bonding, messaging, power-off) are one state that touches no pairing data and can return to the on state.
- The SoftDevice, flash data storage, peer manager, timers and scheduler are environment steps or parameters; a save is an event that later brings back non-connectable advertising.
- The flash-pending paths of the bracelet's own advertising.c, where the remembered mode is not always the requested one.
- The contents of whitelists, and the timeouts and intervals of advertising parameters.
- LED patterns, haptics, power management, I2C and SPI drivers, record access control point, bonding, device firmware update.
