# A verified model of the zigbeemq hub

zigbeemq bridges a Zigbee coordinator to HTTP and MQTT. Its middle layer, the hub, is a handful of
small concurrent machines around a device registry. This project models those machines in Dafny, keeps
the branches, constants and error cases of the Go code, and proves what the code relies on: which
actions a button press can produce when its timers race with incoming frames, that the frame an
exchange returns was read for that exchange, that patching a relay changes what the patch mentions and
nothing else, and what the device registry keeps through any interleaving of its critical sections and
any number of restarts.

`dafny verify dfyconfig.toml` verifies all of it.

## How it is built

Where the Go code changes fields under a lock, the model has two descriptions of the same thing. One is a
value-level step function, on which the properties over whole runs are proved. The other is a class whose
methods update fields, maps, pointers and arrays in place, and whose contracts say that each method is
exactly one step (or section) of the first. Go's locks become the atomicity of a step. Timers, timeouts and
the radio become nondeterministic: a timer that was armed may fire at any later time, stopped or
not; a wait may end at any time; a write that fails may have applied any of its attributes.

| file | part of the hub |
|---|---|
| `Gesture.dfy`, `Presses.dfy`, `Clicks.dfy` | the button gesture recogniser, its map of press watches, and the click counter |
| `Exchange.dfy`, `Radio.dfy`, `Replies.dfy`, `HubView.dfy` | the radio request/response protocol as a step system, its fields, whose answer an exchange returns, and what the hub can know of that |
| `RelayCodec.dfy`, `RelayConfig.dfy`, `RelayHub.dfy`, `RelayRaces.dfy` | relay settings: codecs, decoding of read results, reading and patching over the radio, and reads and patches that overlap |
| `Registry.dfy`, `Effects.dfy`, `HubState.dfy`, `Cache.dfy` | the device registry as a value, what each section does to it in plain field values, the registry in place, and together with its cache file and restarts |
| `Workers.dfy`, `Recovery.dfy` | single-flight background workers, and the recovery worker |
| `Fanout.dfy`, `LastEvent.dfy` | event subscribers and broadcasts, and what a subscriber sees last |
| `AfFrames.dfy` | the two parsers of incoming AF frames |
| `Ieee.dfy`, `Topic.dfy`, `Strings.dfy` | canonical device addresses, command topics, and the string operations under them |

`HubState.Hub`, `Presses.PressMap`, `Radio.Coordinator`, `Workers.Claims` and `Fanout.Broadcaster` carry the
value-level state in their contracts. The methods of `HubState.Hub` that the table does not list are the
in-place form of one section of `Registry.Apply` each; `Effects.dfy` says what every section does without
naming the functions both are written with. `RelayHub.RelayClient` holds both the hub's cached
settings and the attribute store of the relay it talks to.

## What the code does not promise

Some properties one might expect are false of the code. The model keeps the code as it is, gives the
inputs, and proves the exact condition where there is one.

- An answer is matched by source, cluster and command, not by sequence number, so a late answer to an
  abandoned request is returned by the next like one, under the other's number (`Replies.LateAnswerAccepted`).
  Every run returns the exchange's own number if and only if all messages that may be read while its slot is up
  and would answer it carry that number (`Replies.OwnNumberIff`). Among devices that answer each request at
  most once, it is sure to return the answer to its own request if and only if no answer to an
  earlier exchange that asked the same is outstanding (`Replies.OwnReplyIff`). The hub cannot see what is
  outstanding, but it can see which exchanges returned an answer, and that is all it needs: as far as it can
  tell, the next answer is sure to be the exchange's own if and only if every earlier exchange for the same
  address, cluster and command has returned one (`HubView.SureIff`).
- `saveCache` writes its file outside the lock. With two saves under way the older can be written last, and
  a restart then loses a user's label (`Cache.OlderSaveWins`). Which save landed last decides: a restart
  keeps the label if and only if the file was read after the label was given (`Cache.RestartKeepsLabelIff`,
  `Cache.UpdateSurvivesRestartIff`).
- The radio is held for one exchange, not for a whole read of the settings, so a read that misses a field can
  end last and put an older cached value back over a newer one (`RelayRaces.OlderCopyStored`). It is sure to leave
  the field's cached value alone if and only if no other read may end between its beginning and its end
  (`RelayRaces.OverlapIff`).
- A late answer can carry what the device had before. A field read alone is sure to be cached as the device
  shows it if and only if the device has meant nothing else by it since the oldest time an answer may come from
  (`RelayRaces.CurrentIff`); answers from after the beginning of the read are always good enough
  (`RelayRaces.AloneIsCurrent`, `RelayRaces.PatchThenRead`), and exchanges answered in turn get such answers
  (`Replies.AnswerIsRecent`).
- A changed device is looked at and broadcast after `mu` is released, so events can overtake each other. Once
  all callers are done, the last event is sure to show the record as it is if and only if no two callers hold an
  event at a time and none is dropped, unless no caller ever looks (`LastEvent.LatestIff`).
- `publishDevice` keeps a trailing slash of the configured base and `setName` trims it, so with such a base
  no published topic plus `/set` is understood (`Topic.TrailingSlashIsDeaf`); the round trip
  holds if and only if the base has none and the name is plain (`Topic.PublishedTopicRoundTrip`).
- `compactIEEE` is not idempotent on every string, `0x0x12` for one; it is if and only if the text after the
  first prefix does not, colons apart, begin with another `0x` (`Ieee.CompactIdempotentIff`), as no written
  address does.
- `deviceForNwk` depends on map iteration order if and only if two devices have the address asked for
  (`Registry.OrderIndependentIff`); joins that report no address do produce equal addresses
  (`Registry.JoinsMayShareZero`).
- The last range test of `delayRaw` decides nothing (`RelayCodec.RangeTestRedundant`).
- The repository's README says that omitted fields of a relay patch stay as they are. On the device they do, for every
  fate of the radio (`RelayHub.PatchFraming`, `RelayHub.OtherAttrs`); in the answer an omitted field
  is whatever the device then reports, or the cached value if it cannot be read (`RelayHub.ApplyThenRead`).

## Assumptions

- In `RelayHub.dfy` an exchange's answer belongs to its request, which `Replies.OwnReplyIff` and
  `HubView.SureIff` reduce to answers not outstanding; `RelayRaces.dfy` does without that for reads, where an
  answer need only carry a value the device had at some time for the attribute it names. A write confirmed in full was
  applied in full. A failed write may have applied any of
  its attributes, since attribute records are written individually (section 2.5.3 of the Zigbee Cluster Library
  Specification).
- A device reports an attribute in a type that holds the number it was given.
- The coordinator library formats an address as sixteen hexadecimal digits, so `formatIEEE` yields canonical
  keys; `Registry.Sound` states what the callers of a section pass in.
- `time.AfterFunc` runs a callback at most once; the function returned by `Subscribe` is called once
  per subscriber.

## Model

| member | source | states |
|---|---|---|
| Gesture.StateIsHistory | internal/hub/incoming.go:423-489 | for every order of downs, ups, cancellations and callbacks, the watch in the map is the one a closed form of the raw history calls for |
| Gesture.StaleCallback | internal/hub/incoming.go:431-437 | a callback whose watch was replaced or cancelled by any later input decides nothing and changes nothing, although its timer was never trusted to stop |
| Gesture.LogByWatch | internal/hub/incoming.go:423-489 | exactly once under races: for arbitrary input each watch decides precisely the actions its history calls for, in order, so a short press gives one single at most, from its timer or from the next press's flush |
| Gesture.MultiClickReplaces | internal/hub/incoming.go:279-295 | a multi-click report that comes before the wait of a short press ran out silences that press for good, and its own action is decided once |
| Gesture.DecidesGestures | internal/hub/incoming.go:423-479 | for alternating downs and ups and any callback order, the decisions are, in press order, single, or hold then release, of each press |
| Gesture.SettledPress | internal/hub/incoming.go:423-447 | once a later press has begun, an earlier one has come to single or to hold and release, and no later event changes that, so only the last press can be pending |
| Gesture.NothingPending | internal/hub/incoming.go:449-479 | nothing is lost: whenever the map holds no watch for the button, every press has come to single or to hold and release |
| Gesture.SinglesConserved | internal/hub/incoming.go:423-489 | in every reachable state: short ups accepted = singles decided + pending + cancelled + superseded |
| Gesture.HoldsConserved | internal/hub/incoming.go:423-489 | in every reachable state: holds = releases + still held + cancelled + overwritten by a repeated down |
| Presses.PressMap.StartPress | internal/hub/incoming.go:423-447 | updates the map by identity of watches exactly as a down does in the recogniser, and hands noteAction what the down decides (the flushed single) |
| Presses.PressMap.FinishPress | internal/hub/incoming.go:449-479 | the same for an up: release after a hold, otherwise the multi-click wait, or nothing without a watch |
| Presses.PressMap.CancelPress | internal/hub/incoming.go:481-489 | the same for a cancellation; no watch is armed |
| Presses.PressMap.HoldCallback | internal/hub/incoming.go:431-441 | the callback of a down, run at any time, acts only if its own watch is the one in the map |
| Presses.PressMap.SingleCallback | internal/hub/incoming.go:466-476 | the callback of an up, likewise |
| Clicks.ClicksConserved | internal/hub/incoming.go:491-509 | in every interleaving of presses and late noteAction calls, while the device stays registered: decided actions = noted + on their way, and ClickSeq has grown by the noted ones modulo 2^64 |
| Clicks.AllClicksArrive | internal/hub/incoming.go:491-509 | from a button with no history, once nothing is on its way, the noted actions are the decided ones and ClickSeq has grown by their number modulo 2^64 |
| Exchange.OwnersKept | internal/hub/relay.go:436-453 | every step keeps: exactly the exchange between lock and unlock has the radio, exactly the one between install and cleanup has the slot |
| Exchange.ContentsKept | internal/hub/incoming.go:86-100 | every step keeps: all that is in a channel or on its way to it matches its exchange and was read against its slot after installation; channels stay within capacity |
| Exchange.InvKept | internal/hub/relay.go:429-501 | ownership, channel contents and counting hold after every run from a state in which they hold |
| Exchange.SlotBelongsToHolder | internal/hub/relay.go:443-453 | in every reachable state the slot is nil when the radio is free and otherwise the holder's, so the deferred cleanup always finds its own slot and clears it |
| Exchange.ReturnsItsOwn | internal/hub/relay.go:482-500 | a returned frame has the exchange's source, cluster and wanted command, and was read against its slot after installation, whatever stale deliveries happened |
| Exchange.LateDelivery | internal/hub/incoming.go:90-99 | a delivery, however late, changes at most the private channel of the exchange whose slot was read: appended if fewer than eight wait there, else dropped |
| Exchange.TakesFirst | internal/hub/relay.go:488-498 | the waiting loop takes what came first, which is the result exactly if it has the wanted command, and skips it otherwise |
| Exchange.ResultIsFinal | internal/hub/relay.go:447-453 | once an exchange is leaving, no step of anything changes its result |
| Exchange.SequenceNumbers | internal/hub/relay.go:438-442 | over any number of exchanges the n-th uses ((n-1) mod 255)+1: never zero, and any 255 in a row are distinct |
| Replies.OwnNumberIff | internal/hub/relay.go:482-500 | for any set of messages that may be read while the slot is up: every run returns the exchange's own number exactly when each of them that would answer it carries that number |
| Replies.OwnReplyIff | internal/hub/relay.go:482-500 | among devices that answer a request at most once and send nothing else like an answer: every run returns the answer to its own request exactly when no answer to an earlier exchange that asked the same is outstanding as the slot goes up |
| Replies.AnsweredInTurn | internal/hub/relay.go:429-501 | that is so when every earlier exchange for the same address, cluster and command has returned an answer |
| Replies.AnswerIsRecent | internal/hub/relay.go:429-501 | and then the request it answers was dealt with by the device after this exchange went on the air |
| HubView.TruthfulTwin | internal/hub/relay.go:429-501 | every run looks to the hub like a run among truthful devices in which each answer returned was the exchange's own and no other exchange has been answered |
| HubView.SureIff | internal/hub/relay.go:429-501 | over all runs among truthful devices that look the same to the hub: the next answer is sure to be the exchange's own exactly when every earlier like exchange has returned one |
| Replies.LateAnswerAccepted | internal/hub/relay.go:488-498 | a run in which an exchange returns an answer that carries the number of an earlier, abandoned one |
| Radio.Coordinator.NextTransaction | internal/hub/relay.go:436-442 | the uint8 counter in place is the protocol's lock step |
| Radio.Coordinator.InstallSlot | internal/hub/relay.go:443-446 | installing a fresh slot is the protocol's install step |
| Radio.Coordinator.ReadSlot | internal/hub/incoming.go:90-95 | the locked half of noteAF hands back the slot exactly when the message matches it |
| Radio.Coordinator.SendTo | internal/hub/incoming.go:96-99 | the unlocked half, any time later, sends to that slot unless its channel is full |
| Radio.Coordinator.ReceiveFrom | internal/hub/relay.go:488-498 | one receive either skips the frame or takes it as the answer, by its command |
| Radio.Coordinator.RemoveSlot | internal/hub/relay.go:447-453 | the cleanup that compares slots always leaves the slot nil |
| Radio.Await | internal/hub/relay.go:479-500 | over any sequence of wake-ups, the first frame with the wanted command is returned unless the wait ends before it, and all frames before it are the skipped ones |
| RelayCodec.ConversionsWrap | internal/hub/relay.go:503-541 | an int8 read as uint8 and a uint16 read as int16 wrap around as Go's conversions do |
| RelayCodec.NamesInvert | internal/hub/relay.go:577-635 | a name is accepted with value v exactly when v's name is the trimmed, lower-cased input, for both tables |
| RelayCodec.AcceptedNames | internal/hub/relay.go:577-653 | exactly which names are accepted, and the raw value the relay knows each by |
| RelayCodec.DelayExact | internal/hub/relay.go:655-665 | for all real seconds and n: accepted as n exactly when s is in [0.5, 3599.5] and 2s is within 0.05 of n; then 1 <= n <= 7199 and decoding is within 0.025 s |
| RelayCodec.DelayErrors | internal/hub/relay.go:655-663 | which of the two errors a refused delay gets |
| RelayCodec.RangeTestRedundant | internal/hub/relay.go:659-663 | for s in range the rounded value is in 1..7199, so only the step test decides |
| RelayCodec.DelayRoundTrip | internal/hub/relay.go:655-665 | encoding a decoded delay is the identity on 1..7199 |
| RelayCodec.InchingPayload | internal/hub/relay.go:667-696 | refused for exactly the first thing that is wrong; otherwise the payload decodes, checksum included, to the control, mode and half seconds asked for |
| RelayCodec.XorUpdate | internal/hub/relay.go:690-694 | replacing one byte of any sequence changes its XOR by exactly that change |
| RelayCodec.CorruptionDetected | internal/hub/relay.go:690-694 | changing any one byte of an inching payload makes its XOR non-zero |
| RelayConfig.LastValueWins | internal/hub/relay.go:234-275 | after any list of results each field is its last successful decodable value, or what it was |
| RelayConfig.AttributesMean | internal/hub/relay.go:240-272 | for each attribute number, which field it sets, how its raw value is read, and that every other number or a failure changes nothing |
| RelayConfig.ApplyConcat | internal/hub/relay.go:209-211 | applying two lists in turn equals applying their concatenation, and the flag of that is the or of both flags |
| RelayConfig.ApplyRelayRead | internal/hub/relay.go:234-275 | the loop writing through next computes that fold, and reports true exactly when some result was applied |
| RelayHub.KeptIs | internal/hub/relay.go:182-203 | for each field the read loop keeps the device value if the plain or the manufacturer-coded read succeeds, and otherwise at most a failure status |
| RelayHub.GatherLatest | internal/hub/relay.go:181-203 | the results gathered for any list of fields give each field its decoded device value, or nothing |
| RelayHub.ReadBackIs | internal/hub/relay.go:204-222 | applying startup and eWeLink results yields, per field, the decoded device value if readable and the cached value otherwise; something applies exactly when some field reads |
| RelayHub.EncodedDecodes | internal/hub/relay.go:288-346 | what is written for a patched field decodes to the canonical form of the patch, and exactly the mentioned fields are written |
| RelayHub.WriteFraming | internal/hub/relay.go:321-353 | for every fate of the startup write, the eWeLink write and its manufacturer retry: attributes outside the patch are untouched, those inside are as before or as asked, and all as asked on success |
| RelayHub.WritesSucceedIff | internal/hub/relay.go:321-353 | by the fates alone: the writes succeed exactly when the startup write, if any, does, and the eWeLink write, if any, does at the plain or at the manufacturer-coded try |
| RelayHub.WrittenWhere | internal/hub/relay.go:321-353 | attribute by attribute, whatever becomes of the whole: an eWeLink value reaches the device exactly with one of its two writes, and neither is sent after a failed startup write |
| RelayHub.PatchSucceedsIff | internal/hub/relay.go:320-358 | an accepted patch is written in full exactly when each cluster it mentions is, at either try for eWeLink, and its pulse is confirmed |
| RelayHub.PulseSentIff | internal/hub/relay.go:354-358 | by the fates alone: the pulse goes out exactly after all writes succeeded, if there is one and it is heard or confirmed |
| RelayHub.PatchFraming | internal/hub/relay.go:285-358 | the same, field by field, for a patch: no run changes a field the patch omits, and a successful write phase leaves every mentioned one at its encoded value |
| RelayHub.OtherAttrs | internal/hub/relay.go:285-358 | attributes that are no setting at all are never touched |
| RelayHub.ApplyThenRead | internal/hub/relay.go:277-360 | after a successful write phase a readable field reads back as the canonical form of the patch if mentioned and as the prior device value otherwise; an unreadable or undecodable one as cached |
| RelayHub.RelayClient.ReadEwelink | internal/hub/relay.go:181-203 | the loop with its retry and continue gathers exactly those results, and notes a radio error exactly when some read broke |
| RelayHub.RelayClient.ReadRelay | internal/hub/relay.go:159-223 | succeeds exactly when some field can be read and decoded, with every field as the device or the cache has it; otherwise the right error; the cached settings become the answer on success and stay on failure |
| RelayHub.ReadOutcomeIsUnique | internal/hub/relay.go:159-223 | those conditions leave ReadRelay one answer: the error, or all seven fields |
| RelayHub.ReadStartsFromCache | internal/hub/relay.go:170-222 | by the fates of the reads: success exactly when some field is shown; each shown field is the device's and every other one is as it was cached, or unset; the error says exactly whether some read it needed met silence |
| RelayHub.ReadStops | internal/hub/relay.go:159-169 | which devices cannot be read, and the error for each |
| RelayHub.RelayClient.EwelinkPatch | internal/hub/relay.go:328-346 | the attribute map built branch by branch is the one the encoding of the patch prescribes |
| RelayHub.RelayClient.ApplyRelay | internal/hub/relay.go:277-360 | a blocked patch (unknown device, other model, refused value, closed adapter) reaches neither device nor cache; otherwise write phase, pulse and read-back; it succeeds exactly when nothing blocks it, the fates of its writes and pulse allow, and some field reads back; readable patched fields are then canonical |
| RelayHub.Validate | internal/hub/relay.go:285-315 | refuses for exactly the first thing wrong with the patch, and otherwise has the payload for its pulse |
| RelayHub.RefusesIs | internal/hub/relay.go:285-315 | what is refused and in which order, by the patch's own fields: a patch is empty exactly when it has none of its eight, and is accepted exactly when every value in it is |
| RelayHub.BlocksIs | internal/hub/relay.go:278-318 | what comes before the patch is looked at and what after it, by model and adapter |
| RelayRaces.ReadRelayIsRead | internal/hub/relay.go:159-223 | ReadRelay with nothing in between is a read of the interleaved model: its results are answers true of the device, and what it stores is what ReadRelay returns |
| RelayRaces.CacheIsPast | internal/hub/relay.go:159-223 | however reads and patches of one relay interleave, and however late answers are, a cached field holds nothing but what was cached or collected before or what the device has shown |
| RelayRaces.FinishStores | internal/hub/relay.go:170-222 | a read that got anything stores each field as it read it last, and the others as they were cached when it began, whatever ended meanwhile |
| RelayRaces.OverlapIff | internal/hub/relay.go:170-222 | over all runs in which a read gets something but misses a field and only reads of a given set end before it: it always keeps the field's cached value exactly when that set is empty |
| RelayRaces.OlderCopyStored | internal/hub/relay.go:170-222 | in any world and for any other read there is a run in which the device's new value is cached and then replaced by the older one |
| RelayRaces.CurrentIff | internal/hub/relay.go:159-223 | over all runs in which a field is read alone, with answers no older than a given time: it is always cached as the device shows it exactly when the device has meant nothing else by it since that time |
| RelayRaces.AloneIsCurrent | internal/hub/relay.go:159-223 | with answers from after its beginning, a read alone caches a field it gets as the device shows it and leaves any other as it was |
| RelayRaces.PatchThenRead | internal/hub/relay.go:320-359 | apply then read with late answers about: once written, a patch's fields are read back canonical, others as before the patch, when answers come from after the beginning of the read |
| Registry.ApplyKeeps | internal/hub/hub.go:278-313 | every critical section keeps: devices and forgotten disjoint, keys canonical and equal to the device's address, reachable implies no error |
| Registry.OnlyRemoveDeletes | internal/hub/hub.go:499-503 | a section that deletes a device is a removal of it, and leaves it forgotten |
| Registry.OnlyJoinReturns | internal/hub/hub.go:509-542 | a section that brings a forgotten device back, or unforgets it, is noteJoined for it |
| Registry.LabelSurvives | internal/hub/hub.go:296-306 | a user's label survives every section but a removal: the name changes only by an update with a name, the kind only by an update with a kind or by an occupancy report |
| Registry.OrderIndependentIff | internal/hub/incoming.go:303-322 | deviceForNwk has one possible answer exactly when at most one device has the address |
| Registry.ResolvedKeeps | internal/hub/incoming.go:317-320 | at most one address changes, only when no device had it, and distinct addresses stay distinct |
| Registry.ReachedIsUp | internal/hub/hub.go:570-643 | undisturbed, readState leaves a device that answered anything reachable without error, and otherwise at most marks it unreachable |
| Effects.OneDeviceOnly | internal/hub/hub.go:352-457 | a section about one device leaves every other alone, and does nothing if that device is not registered |
| Effects.RefreshGives | internal/hub/hub.go:278-312 | a registered device no row names is there, unreachable and otherwise as it was; a listed one keeps its link and has the address of its last row; who is in the list afterwards, how new devices start, and when a label is touched |
| Effects.WhoIsAnswered | internal/hub/incoming.go:303-322 | a device with the address, else the only switch, else nobody |
| Effects.AnsweredHasAddress | internal/hub/incoming.go:317-320 | the device answered has the address from then on and changes in nothing else |
| Effects.AskedAfterJoin | internal/hub/incoming.go:303-322 | with distinct addresses, asking again gives the same device, even after another switch has joined elsewhere |
| Effects.ProbeGives | internal/hub/hub.go:577-642 | readState field by field: each answered read is recorded, each unasked or unanswered part is as it was, and an unanswered on/off read with nothing else answered leaves the device unreachable |
| Effects.ReadingGives | internal/hub/hub.go:709-718 | what a command or a single read records, field by field |
| Effects.UpdateGives | internal/hub/hub.go:433-457 | an update sets exactly the name, kind and archived flag it names, marks the label as the user's, and nothing else; an unknown kind changes nothing |
| Effects.InterviewGives | internal/hub/hub.go:352-431 | what a failed and a finished interview record, and when they touch the label |
| Effects.JoinGives | internal/hub/hub.go:511-541 | a join unforgets, adds a new device with its first values, keeps an address it was not given, and marks reachable |
| Effects.ZeroDoesNotJoin | internal/hub/hub.go:557-568 | all zeros, or anything that does not come down to sixteen digits, does not join |
| Effects.RemoveGives | internal/hub/hub.go:499-503 | a removal forgets that device and touches no other |
| Effects.ReportsGive | internal/hub/incoming.go:491-506 | what a click, read settings and the two ways of not answering record |
| Effects.OccupancyGives | internal/hub/incoming.go:539-562 | an occupancy report is recorded and turns a sensor or unknown device into a motion sensor |
| Cache.RegistrySound | internal/hub/hub.go:844-895 | over every run with saves landing in any order and restarts at any point, memory, file and pending saves keep the registry invariant |
| Cache.AnyOrderLoads | internal/hub/hub.go:854-867 | whatever order the entries of a file come in, every loaded key has the migrated record of one of its entries and other devices stay |
| Cache.LoadedFromSave | internal/hub/hub.go:844-895 | a file saved from a sound registry loads as that registry, migrated |
| Cache.MigratedIs | internal/hub/hub.go:856-862 | a plug of one of the two models becomes a relay; nothing else in any device changes |
| Cache.LoadAfterSave | internal/hub/hub.go:844-895 | load after save is the identity up to the plug-to-relay migration, which is idempotent, and is the identity exactly when nothing is misfiled |
| Cache.Stable | internal/hub/hub.go:844-895 | any property kept by the sections of a run and by the migration survives the run, if every restart loads a snapshot read after it was established |
| Cache.LabelStable | internal/hub/hub.go:296-306 | in such a run a user's name stays, and stays the user's, until a renaming or removal |
| Cache.KindStable | internal/hub/hub.go:420-457 | in such a run the kind of a labelled device changes, other than by updates, only from sensor or unknown to motion and from plug to relay |
| Cache.RemovedStaysAway | internal/hub/hub.go:281-284 | in such a run a forgotten device stays out of the registry until noteJoined |
| Cache.RegisteredStays | internal/hub/hub.go:499-503 | in such a run a registered device stays registered until removed |
| Cache.UpdateThenStable | internal/hub/hub.go:433-457 | from any sound state, the name an update gives lasts through such a run |
| Cache.RemoveThenAway | internal/hub/hub.go:499-504 | from any sound state, a removed device is away throughout such a run |
| Cache.RestartKeepsLabelIff | internal/hub/hub.go:844-895 | anywhere in such a run, if no snapshot from before the label was given holds it, a restart keeps the label exactly when the file on disk was read after it was given |
| Cache.UpdateSurvivesRestartIff | internal/hub/hub.go:433-460 | the same from the update that gives the name |
| Cache.OlderSaveWins | internal/hub/hub.go:873-895 | a run in which a label already on disk is lost by an older save landing last and a restart |
| HubState.Hub.ReadState | internal/hub/hub.go:570-643 | with nothing in between, true exactly when some read was answered, and then the device is reachable without error |
| HubState.Hub.DeviceForNwk | internal/hub/incoming.go:303-322 | the loop over the map in any order gives an answer the specification allows, and the device it gives has the address |
| HubState.Hub.Refresh | internal/hub/hub.go:278-312 | all rows in order, then exactly the devices not listed become unreachable |
| HubState.Hub.LoseUnseen | internal/hub/hub.go:308-312 | exactly the unseen devices become unreachable, whatever the map order |
| HubState.Hub.SaveCache | internal/hub/hub.go:878-889 | the file built from the maps holds exactly the registry |
| HubState.Hub.LoadCache | internal/hub/hub.go:854-870 | loads what the specification allows for any map order, and asks for a save exactly when something was migrated |
| Workers.ClaimsAreExact | internal/hub/hub.go:925-938 | in every interleaving of claims, attempts and ends, recovering and relayBusy hold exactly the keys being worked on, two workers for a key never overlap, and motionReady also holds what was bound |
| Workers.KeptForGood | internal/hub/incoming.go:573-622 | once a motion setup has bound something its claim is never given back |
| Workers.KeptIff | internal/hub/incoming.go:591-620 | over a worker's whole life, among any others: its claim is kept at its end exactly if it is a motion setup of which some attempt succeeded |
| Workers.Claims.TryClaim | internal/hub/hub.go:925-931 | starts a worker exactly when no claim on the key exists |
| Workers.Claims.Release | internal/hub/incoming.go:618-620 | the end of a worker gives the claim back unless it is a motion setup that bound something |
| Strings.TrimSpaceExact | internal/hub/relay.go:578 | strings.TrimSpace as modelled takes all white space off both ends and nothing else |
| Recovery.Recover | internal/hub/hub.go:939-949 | at most five attempts, stops at the first answer or for a missing or archived device; recovered exactly when some attempt would be answered, and then reachable without error; no other device changes |
| Fanout.SendsAreSafe | internal/hub/hub.go:815-825 | in every reachable state a broadcast can serve every subscriber it has left at once, none of them closed |
| Fanout.ReceivesAccepted | internal/hub/hub.go:802-825 | received plus queued is, in order, exactly what was accepted since subscribing; queues never exceed 256 |
| Fanout.StalledKeepsOldest | internal/hub/hub.go:815-825 | of all events offered to a subscriber while it receives nothing, over any run, it keeps in order as many of the first as there was room for and loses only the newest |
| Fanout.ServedOnce | internal/hub/hub.go:816-823 | while a broadcast runs, each of its subscribers is offered the event exactly once when served, whatever else happens |
| Fanout.BroadcastServesAll | internal/hub/hub.go:815-825 | a whole broadcast, whatever else happens meanwhile, offers its event exactly once to each subscriber there was when it began and to nobody else |
| Fanout.NothingAfterUnsubscribe | internal/hub/hub.go:807-812 | once unsubscribed, a channel is offered nothing more |
| Fanout.Broadcaster.Delete | internal/hub/hub.go:808-810 | the locked half of unsubscribing is the delete step |
| Fanout.Broadcaster.Close | internal/hub/hub.go:811 | its other half, any time later, closes a channel that is open and no longer subscribed |
| Fanout.Broadcaster.OfferAll | internal/hub/hub.go:818-823 | the loop, in any map order, performs one offer step for each subscriber, and leaves the rest of the broadcasts alone |
| Fanout.Broadcaster.Broadcast | internal/hub/hub.go:815-825 | a broadcast is a run of the step model from its beginning to its end; every queue with room gets the event at its end and a full one stays as it is |
| Fanout.Broadcaster.Receive | internal/hub/hub.go:802-813 | a subscriber takes the event at the head of its queue, which is the receive step |
| LastEvent.LatestIff | internal/hub/hub.go:457-470 | over all interleavings of sections, looks at the record and sends: the last event is the latest whenever all callers are done exactly when at most one holds an event at a time and none is dropped, or none ever looks |
| AfFrames.ParseShort | internal/hub/incoming.go:147-191 | for every byte sequence: no read out of range, accepted exactly when at least 17 bytes and 17 plus byte 16 fit, and then the frame is the wire form of the result |
| AfFrames.ShortIsUnique | internal/hub/incoming.go:147-191 | a frame is the short form of at most one message |
| AfFrames.ShortRoundTrip | internal/hub/incoming.go:147-191 | the short form of any message with anything after it is accepted as that message |
| AfFrames.ParseExt | internal/hub/incoming.go:193-240 | the same for the extended form, 27 bytes and a 16-bit length |
| AfFrames.ExtIsUnique | internal/hub/incoming.go:193-240 | a frame is the extended form of at most one message |
| AfFrames.ExtRoundTrip | internal/hub/incoming.go:193-240 | the extended form of any message with anything after it is accepted as that message |
| AfFrames.BothFormsAgree | internal/hub/incoming.go:147-240 | both forms of one message parse to it, whatever follows |
| Ieee.CompactIdempotentIff | internal/hub/ieee.go:9-13 | compacting twice is compacting once exactly when, after the first prefix, the text does not begin with another 0x, colons apart |
| Ieee.CompactNotAlwaysIdempotent | internal/hub/ieee.go:9-13 | two inputs on which it is not |
| Ieee.CompactWritten | internal/hub/ieee.go:9-13 | on hexadecimal digits and colons with an optional 0x the result is lower-case digits and stable |
| Ieee.ZeroIff | internal/hub/hub.go:557-568 | of canonical keys only sixteen zeros count as no address |
| Ieee.SpellingDoesNotMatter | internal/hub/ieee.go:9-13 | colons anywhere, either case and a leading 0x or 0X all give the same key |
| Topic.SetNameExact | internal/mq/bridge.go:191-205 | for all strings: a name is found exactly when the topic is the trimmed base, a slash, that name, non-empty and slash-free, and /set |
| Topic.SetNameInjective | internal/mq/bridge.go:191-205 | two command topics understood as the same name are the same topic |
| Topic.PublishedTopicRoundTrip | internal/mq/bridge.go:308-312 | the topic a device is published under plus /set is understood as its name exactly when the name is plain and the base has no trailing slash |
| Topic.BaseSetIsNoName | internal/mq/bridge.go:191-205 | the topic base/set, where the slash after the base and the one before set are the same, names nothing |
| Topic.TrailingSlashIsDeaf | internal/mq/bridge.go:191-205 | with a trailing slash on the base no published topic plus /set is understood |

## Left out

- RelayHub.RelayClient.ReadRelay: does not model the call of noteUnavailable after an unreachable error; that section is in the registry model.
- RelayHub.RelayClient.ApplyRelay: runs alone; the cache under overlapping reads and patches and late answers is in RelayRaces.dfy, where the inching pulse, refusals and errors are left out. A manufacturer-coded access is taken to reach the same attribute as the plain one.
- RelayCodec.DelayExact: is over real numbers; floating-point rounding at the edges of the tolerance and NaN are not modelled.
- HubState.Hub.ReadState: is sequential; with other sections in between, each of its sections is a step of the registry model.
- Recovery.Recover: runs alone, with its delays and the broadcast at the end left out; the claim around it is in Workers.dfy.
- Workers.KeptForGood: leaves open which cluster was bound and how; the binds and the reporting setup themselves are not modelled.
- Strings.ToLower: maps ASCII letters and the two letters outside ASCII that fold into it; other letters are kept, which no comparison in the hub can tell. Lengths count characters, not bytes.
- LastSeen times, cluster and endpoint lists of a device, the interview of the clusters themselves, and relay endpoints.
- handleIncoming's routing, decodeAction, xiaomiClickCount and the report parsers: tables over parsed ZCL attributes, whose results are the inputs here.
- inferKind, isUnreachable, clickAction, zoneIDForIEEE and the percent arithmetic: finite tables and single branches.
- The goznp adapter, the ZNP serial layer, the ZCL frame library and the registration of endpoint 1: not part of this model.
- LastEvent.LatestIff: is for one device and one subscriber; sections whose callers broadcast no event of the device, and the list snapshots of Refresh, are left out.
- JSON, the file system's atomicity and a cache that does not decode: the file is a snapshot value.
- HTTP handlers, server-sent events, the MQTT client, retained and delayed publishing, parseSet and the bodies of messages.
- Durations: holdDelay, multiClickWait and all timeouts are nondeterministic.
