# Rieul daemon: verified models of its stateful cores

The Rieul daemon lets a remote client run jobs and terminals, and see and control the desktop of a
machine. This project models the parts of it in which a mistake is expensive and hard to see, and
proves in Dafny what those parts promise. `dafny verify dfyconfig.toml` checks everything.

| area | files |
|---|---|
| who may inject keyboard and mouse input, and what an update may do meanwhile | `Maintenance`, `DesktopModel`, `DesktopSafety`, `DesktopOperations`, `DesktopSession`, `Desktop`, `Viewports`, `DesktopRecovery` |
| the crash-tolerant protocol with the desktop helper process | `IpcModel`, `IpcInvariant`, `IpcSafety`, `IpcLedger`, `Ipc` |
| the CBOR codec and the reassembly of messages from a byte stream | `BigEndian`, `Utf8`, `CborModel`, `CborProofs`, `CborTheorems`, `Cbor`, `SocketWire`, `WireFormats` |
| the schedule runner | `ScheduleModel`, `ScheduleSafety`, `ScheduleEdits`, `Schedules` |
| media framing and groups of media objects | `TransportModel`, `Transport` |
| striped video: bundles, layouts, rates, frame regions | `StripeModel`, `Stripes` |
| refinement of still pictures: token bucket and frame differences | `Arithmetic`, `Budget`, `BudgetUse`, `PaintoverModel`, `Paintover`, `PaintoverRuns` |
| retained output of jobs and terminals | `RetainedModel`, `Retained` |
| titles and directories announced in terminal output | `OscModel`, `Osc`, `OscKinds` |
| the pairing utility, and the drain lease of a daemon that failed to start | `PairingModel`, `Pairing`, `PairingDecisions`, `Lease`, `LeaseGrants` |

Each area has a value-level model (states, operations and runs as datatypes and functions), lemmas
about every run or every input of it, and, where the program works by changing things, classes and
loops whose methods are proved to do exactly what the value-level model says.

## How failure and the outside world are modelled

* The operating system is the set of keys and buttons that are physically down. A script decides
  how each send turns out; a failed send leaves any set behind, and so may a recovery that the
  helper confirms. Lemmas quantify over all of this.
* The credential store, the recurrence calendar, the generated object codec, clocks and the
  acceptance of media objects are parameters: functions or numbers a caller supplies.
* The helper protocol is a state machine. Calls are submitted, executed in order, answered or lost;
  connections break, helpers die late and leave any subset of their keys down, numbers restart.
* A lock that the program holds across an operation makes that operation one step.

## Where the code does not keep a promise

These are statements about the code as it is; each has a lemma with the exact condition.

* `proxy_worker` takes the ledger snapshot only for the call that opens a connection
  (`daemon/host/src/desktop_ipc.rs:458-463`). If that call has expired (line 501) the connection
  stays open, and unless the heartbeat comes first a second recovery goes out with an empty
  snapshot, is confirmed, and the ledger is emptied while keys stay down. The theorems about the
  channel hold on every run with those controls named (`IpcSafety.Lost`);
  `IpcSafety.SecondRecoveryIsSafeIff` says exactly when the worker may send such a call,
  `IpcSafety.UnsnapshottedRecoveryForgets` and `IpcSafety.StuckKeyRun` how and from where it goes
  wrong.
* The desktop believes a confirmed recovery: it clears its attachments and its poison
  (`daemon/host/src/desktop.rs:978-994`), and an update drain is granted over whatever the recovery
  left down. Nothing is down under a drain if every confirmed recovery left nothing
  (`DesktopSafety.DrainNeverOverStuckInput`); otherwise exactly what one left can be
  (`DesktopSafety.OnlyStraysUnderDrain`, `DesktopSafety.DrainOverWhatRecoveryLeft`), and the channel
  above does leave a key down (`DesktopRecovery.DrainOverStuckKey`).
* `chunks_after` announces a gap for the cursor just below the oldest chunk although nothing is
  missing, and so for the first output after a subscription (`Retained.FalseAlarmIff`,
  `Retained.FirstOutputRaisesAlarm`).
* `replay_events` says nothing of lost output while its buffer is empty, which is right after a
  piece over the retention limit (`Retained.SilentReplayIsCompleteIff`).
* After a restart under a clock that stepped back, a tick before a run that is persisted already
  takes the checkpoint back, and that run fires again (`ScheduleSafety.EarlyTickRefires`).
* A schedule edit that lands between a job's creation and its checkpoint makes the same run due
  again (`ScheduleSafety.EditInFlightRefires`). A tick that comes after the search horizon skips
  runs (`ScheduleSafety.TickSkipsNothingIff`, `ScheduleSafety.BeyondHorizonIsSkipped`).
* A value with a nonnegative `I64` comes back as `U64` (`CborTheorems.RoundTripIff`).

## Model

| member | source | states |
|---|---|---|
| `DesktopSafety.DrainNeverOverStuckInput` | daemon/host/src/desktop.rs:155-198 | in every run in which each confirmed recovery left nothing down, under every pattern of failed sends: while an update drain is granted nothing is down; what is down is tracked for a live holder, or the machine is poisoned and no drain can be granted |
| `DesktopSafety.OnlyStraysUnderDrain` | daemon/host/src/desktop.rs:155-198 | in every run whatsoever: what is down under a granted drain, or down untracked, was left down by a confirmed recovery |
| `DesktopSafety.DrainOverWhatRecoveryLeft` | daemon/host/src/desktop.rs:978-994 | the condition is exact: from any state, a confirmed recovery is followed by a granted drain over exactly what it left down |
| `DesktopRecovery.RecoveryLeavesTheLost` | daemon/host/src/desktop_ipc.rs:440-558 | a recovery the helper channel confirms leaves down only what the channel lost sight of, and nothing if every recovery that starts a stream carries the ledger |
| `DesktopRecovery.DrainOverStuckKey` | daemon/host/src/desktop.rs:965-1012 | from end to end: a press, a lost helper, a confirmed recovery without a snapshot, and a drain granted with the key down |
| `DesktopSafety.StepKeeps` | daemon/host/src/desktop.rs:96-428 | every lock-protected operation keeps the invariant (guards counted, holder live, held within tracked and stray, poisoned keeps attachments) and only lets attachments age and epochs grow |
| `DesktopSafety.RunKeeps` | daemon/host/src/desktop.rs:96-428 | the invariant holds after any number of operations, with what confirmed recoveries left down as the strays |
| `DesktopSafety.RemoveKeeps` | daemon/host/src/desktop.rs:1154-1156 | removing any number, attached or not, keeps the invariant; one that is not attached changes nothing |
| `DesktopSafety.RefreshLayoutKeeps` | daemon/host/src/desktop.rs:1217-1250 | releasing what is held for a new layout keeps the invariant, also when it fails with the holder still set |
| `DesktopSafety.FeedbackKeeps` | daemon/host/src/desktop.rs:1266-1351 | decoder feedback of any attachment keeps the invariant and the order of numbers |
| `DesktopSafety.RunEvolves` | daemon/host/src/desktop.rs:96-428 | between any two points of a run numbers only grow and control passes only with a new epoch |
| `DesktopSafety.OneHolderPerEpoch` | daemon/host/src/desktop.rs:232-259 | an epoch number has at most one control holder in a whole run, and it is a live attachment |
| `DesktopSafety.RunEvolvesWithin` | daemon/host/src/desktop.rs:155-166 | inside one epoch control can only be given up |
| `DesktopSafety.DeliveryIsTheHolders` | daemon/host/src/desktop.rs:319-335 | whatever reaches the operating system came from the holder of the current epoch under its next sequence number, and never while poisoned |
| `DesktopSafety.DeliveriesAreOrdered` | daemon/host/src/desktop.rs:326-335 | no (attachment, sequence) is delivered twice or out of order in any run |
| `DesktopSafety.EpochDeliveriesShareASource` | daemon/host/src/desktop.rs:326-335 | two deliveries under one epoch come from one attachment |
| `DesktopSafety.AttachmentIdsAreFresh` | daemon/host/src/desktop.rs:112-118 | attachment numbers are never reused |
| `DesktopSafety.PoisonedUntilRecovered` | daemon/host/src/desktop.rs:965-1012 | between a poisoned state of a run and one that is not, some operation is a confirmed recovery of a new generation; up to it nothing is delivered, nobody attaches and every attachment keeps its guard |
| `DesktopSafety.AuthorizedIffEntitled` | daemon/host/src/desktop.rs:138-154 | authorization succeeds exactly for the attachment's own connection with a running lease and a valid credential, once all expiries went through |
| `DesktopSafety.DeliveryIsEntitled` | daemon/host/src/desktop.rs:319-366 | a delivered event is the entitled client's; one that aims at the screen lies inside a viewport of the current layout |
| `DesktopSafety.DeliveredIff` | daemon/host/src/desktop.rs:319-428 | input reaches the operating system if and only if the entitled holder sends it under the current epoch and its next number and the event is admissible; expiries of others cannot get in the way |
| `DesktopSession.OrdinarySession` | daemon/host/src/desktop.rs:96-428 | a run that attaches, takes control and types: both events are delivered in order under one epoch and nothing stays down |
| `DesktopSafety.InputKeeps` | daemon/host/src/desktop.rs:319-428 | one input frame keeps the invariant and spends exactly the next number; a delivered press names a key or button a recovery accepts |
| `DesktopSafety.RemoveAllKeeps` | daemon/host/src/desktop.rs:176-210 | removing any set of attachments in any order keeps the invariant; failure poisons and keeps the holder's guard |
| `DesktopSafety.SetControlKeeps` | daemon/host/src/desktop.rs:232-259 | acquiring, taking over and releasing keep the invariant and fence by epoch |
| `DesktopSafety.ReconcileKeeps` | daemon/host/src/desktop.rs:965-1012 | reconciling with the helper keeps the invariant, with what the recovery left down counted as stray |
| `DesktopOperations.SetControlIff` | daemon/host/src/desktop.rs:232-261 | who gets control, for an authorized caller: acquiring is refused with Busy, changing nothing, exactly while somebody else holds it; taking over is not; a new holder starts the next epoch with nothing down or believed down; only the holder can let go |
| `DesktopOperations.RefusedControl` | daemon/host/src/desktop.rs:232-261 | a caller that is not authorized changes nothing by asking, beyond expiry |
| `DesktopOperations.ReleaseIff` | daemon/host/src/desktop.rs:155-175 | a release goes through exactly if the epoch can grow and the send succeeds; then nothing is down, else the machine is poisoned with its attachments |
| `DesktopOperations.StreamLostIff` | daemon/host/src/desktop.rs:1188-1214 | a lost input stream releases control exactly if it is still the stream of the holder and its epoch |
| `DesktopOperations.DisconnectIs` | daemon/host/src/desktop.rs:199-210 | a lost connection takes away its own attachments and no others, and control exactly if the holder is one of them |
| `DesktopOperations.ExpireIs` | daemon/host/src/desktop.rs:176-187 | an expiry takes away exactly those whose lease has run out or whose credential is no longer valid |
| `DesktopOperations.AttachIff` | daemon/host/src/desktop.rs:96-137 | exactly when a client is attached: next number, a lease of 15 s, no viewports, sequence 0, one work guard; otherwise nothing but expiry |
| `DesktopOperations.AttachRefusals` | daemon/host/src/desktop.rs:96-137 | why nobody is attached, in the order it is found out |
| `DesktopOperations.DetachIs` | daemon/host/src/desktop.rs:211-220 | detaching takes away one's own attachment, and control with it; a failed release keeps both |
| `DesktopOperations.RenewIs` | daemon/host/src/desktop.rs:221-231 | renewing moves the end of the caller's own lease to 15 s from now and nothing else |
| `DesktopOperations.AuthorizeRefusals` | daemon/host/src/desktop.rs:138-154 | expiry, then unknown, then foreign, then poisoned, in this order |
| `DesktopOperations.LayoutChangedIs` | daemon/host/src/desktop.rs:308-318 | the next layout number, and no attachment keeps a viewport |
| `DesktopOperations.RefreshLayoutIs` | daemon/host/src/desktop.rs:1217-1250 | known displays change nothing, the first are noted, others release what is held, change the layout and keep control |
| `DesktopOperations.DeliveredIsBelieved` | daemon/host/src/desktop.rs:366-428 | the bookkeeping of keys and buttons does exactly what the event does to the hardware; a failed send gives up control |
| `DesktopOperations.InputReachesIff` | daemon/host/src/desktop.rs:319-428 | which events reach the hardware, in terms of client, epoch, number, aim and kind of event alone |
| `DesktopOperations.EventErrorIff` | daemon/host/src/desktop.rs:367-418 | which events a client may send, kind by kind, and how others are refused |
| `DesktopOperations.PointErrorIff` | daemon/host/src/desktop.rs:337-366 | a pointer event must land inside a viewport of the current layout; letting a button go need not |
| `DesktopOperations.RejectedSpends` | daemon/host/src/desktop.rs:326-335 | a rejected event of the holder spends its number, a stale one nothing |
| `DesktopOperations.FeedbackIff` | daemon/host/src/desktop.rs:1266-1351 | feedback is taken exactly if configured, bounded and next in number |
| `DesktopOperations.FeedbackRefusals` | daemon/host/src/desktop.rs:1266-1351 | why feedback is not taken |
| `DesktopOperations.ReconcileIs` | daemon/host/src/desktop.rs:965-1012 | the whole state after reconciling, in each of its outcomes |
| `DesktopOperations.DrainIff` | daemon/host/src/maintenance.rs:133-169 | a drain is granted exactly without a drain and without live work, and shuts work out until it ends |
| `DesktopOperations.AtMostSixteen` | daemon/host/src/desktop.rs:111-113 | in every run at most sixteen clients are attached |
| `Viewports.CollectIsExact` | daemon/host/src/desktop.rs:279-301 | a viewport request is collected exactly if every viewport is in bounds, ids are distinct and the bit rates do not overflow; the table then holds exactly the request and its exact total |
| `Viewports.ConfigureIff` | daemon/host/src/desktop.rs:262-307 | configuration succeeds exactly if authorized, current, within the limits and the budget; otherwise nothing but expiry changes |
| `Viewports.ConfigureRefusals` | daemon/host/src/desktop.rs:262-307 | why a configuration is refused: staleness first, then the limits, then the first viewport that spoils it, then the budget |
| `Desktop.Desktop.Attach` | daemon/host/src/desktop.rs:96-137 | the method does exactly what the model's attach does |
| `Desktop.Desktop.Authorize` | daemon/host/src/desktop.rs:138-154 | the method does exactly what the model's authorize does |
| `Desktop.Desktop.ReleaseControl` | daemon/host/src/desktop.rs:155-166 | drops the holder, raises the epoch and releases, or poisons |
| `Desktop.Desktop.ReleaseHeld` | daemon/host/src/desktop.rs:167-175 | clears the tracked controls exactly if the release was sent, else poisons |
| `Desktop.Desktop.RemoveAll` | daemon/host/src/desktop.rs:176-210 | the removal loop, in whatever order it visits, ends as the model's set-wise removal |
| `Desktop.Desktop.Expire` | daemon/host/src/desktop.rs:176-187 | removes exactly the expired and the unauthorized |
| `Desktop.Desktop.Remove` | daemon/host/src/desktop.rs:188-198 | any number may be named; a failed release keeps the attachment and its guard |
| `Desktop.Desktop.Disconnect` | daemon/host/src/desktop.rs:199-210 | removes exactly the attachments of the connection |
| `Desktop.Desktop.Detach` | daemon/host/src/desktop.rs:211-220 | the method does exactly what the model's detach does |
| `Desktop.Desktop.Renew` | daemon/host/src/desktop.rs:221-231 | extends the lease of an authorized attachment and changes nothing else |
| `Desktop.Desktop.SetControl` | daemon/host/src/desktop.rs:232-261 | the method does exactly what the model's set_control does |
| `Desktop.Desktop.Configure` | daemon/host/src/desktop.rs:262-307 | the loop over viewports collects as the model does, with the first error winning |
| `Desktop.Desktop.LayoutChanged` | daemon/host/src/desktop.rs:308-318 | a new layout epoch clears every viewport table |
| `Desktop.Desktop.RefreshLayout` | daemon/host/src/desktop.rs:1217-1250 | new displays release what is held and change the layout; a failed release poisons and changes no layout |
| `Desktop.Desktop.AcceptFeedback` | daemon/host/src/desktop.rs:1266-1351 | feedback is checked in the order of the program and spends exactly the next number |
| `Desktop.Desktop.Input` | daemon/host/src/desktop.rs:319-428 | the method does exactly what the model's input does, including what it delivers |
| `Desktop.Desktop.StreamLost` | daemon/host/src/desktop.rs:1188-1214 | a lost input stream releases control only for the holder and epoch it was opened under |
| `Desktop.Desktop.Reconcile` | daemon/host/src/desktop.rs:965-1012 | the method does exactly what the model's reconciliation does, under a work guard, whatever the recovery left down |
| `Maintenance.WorkGate.Enter` | daemon/host/src/maintenance.rs:133-140 | work is admitted exactly while no drain is granted, and counted |
| `Maintenance.WorkGate.BeginDrain` | daemon/host/src/maintenance.rs:141-148 | a drain is granted exactly without a drain and without live work |
| `Maintenance.WorkGate.Leave` | daemon/host/src/maintenance.rs:156-162 | dropping a guard uncounts it |
| `IpcSafety.LedgerCoversEverything` | daemon/host/src/desktop_ipc.rs:392-439 | across every interleaving of send, late execution, lost answer, crash and reconnect, each control that is or may yet go down is in the ledger or was lost sight of by an unsnapshotted recovery; without one, it is in the ledger |
| `IpcSafety.AcknowledgedRecoveryReleasesEverything` | daemon/host/src/desktop_ipc.rs:440-558 | when a recovery is confirmed the ledger is empty, and nothing is down or on its way to be pressed but what was lost sight of; without an unsnapshotted recovery, nothing at all |
| `IpcSafety.AcknowledgedReleaseAllReleasesEverything` | daemon/host/src/desktop_ipc.rs:415-438 | a confirmed release of everything, with no later press, leaves an empty ledger and nothing down but what was lost sight of |
| `IpcSafety.NoInputBeforeRecovery` | daemon/host/src/desktop_ipc.rs:488-491 | after a reconnection only a recovery or a heartbeat is on the wire until recovery is confirmed |
| `IpcInvariant.StepKeeps` | daemon/host/src/desktop_ipc.rs:440-558 | every step keeps the invariant that ties ledger, wire, answers and what is down, with what the step loses sight of counted as lost |
| `IpcSafety.RunKeeps` | daemon/host/src/desktop_ipc.rs:440-558 | the invariant holds in every state of every run |
| `IpcSafety.SecondRecoveryIsSafeIff` | daemon/host/src/desktop_ipc.rs:458-463 | for the worker on a connection whose opening recovery was dropped: sending a second recovery keeps everything that may be down in sight, whatever the hardware holds, if and only if its ledger is empty |
| `IpcSafety.UnsnapshottedRecoveryForgets` | daemon/host/src/desktop_ipc.rs:500-502 | after an expired opening recovery, a second one empties the ledger while everything down stays down, for every such state |
| `IpcSafety.StuckKeyRun` | daemon/host/src/desktop_ipc.rs:440-558 | a run from the start that reaches that situation with any key down |
| `IpcSafety.RealControlsAreAccepted` | daemon/host/src/desktop_ipc.rs:79-138 | a recovery of real keys and buttons never exceeds the helper's bounds |
| `IpcLedger.LedgerIsOutstanding` | daemon/host/src/desktop_ipc.rs:392-439 | in every run a control is in the ledger exactly if it was pressed and neither released nor recovered since, under the number of its latest press |
| `IpcLedger.QuietLedgerIsEmpty` | daemon/host/src/desktop_ipc.rs:392-439 | when every press has been taken back by a confirmed release or recovery, the ledger is empty |
| `IpcLedger.LaterReleaseTakesBack` | daemon/host/src/desktop_ipc.rs:415-438 | a confirmed release that was sent after the latest press of a control on its connection takes the press back |
| `IpcLedger.AcknowledgeIs` | daemon/host/src/desktop_ipc.rs:415-438 | a confirmed release forgets exactly what it covers and was pressed before it; every other entry stands |
| `IpcLedger.SentIs` | daemon/host/src/desktop_ipc.rs:487-508 | which calls go out, under which number and in which order, and that only these do |
| `IpcLedger.HostStep` | daemon/host/src/desktop_ipc.rs:486-556 | when a step breaks the connection, starts a generation, settles a call or makes the channel ready |
| `IpcLedger.HelperServesWorker` | daemon/host/src/desktop_ipc.rs:190-206 | once its stream has begun, the helper serves all the worker sends, heartbeats included, but a second recovery or beginning |
| `IpcLedger.HelperBegins` | daemon/host/src/desktop_ipc.rs:190-206 | the first request has to begin the stream |
| `Ipc.LedgerTable.Record` | daemon/host/src/desktop_ipc.rs:398-414 | a press is recorded under its request number |
| `Ipc.LedgerTable.Ack` | daemon/host/src/desktop_ipc.rs:415-438 | an acknowledgement forgets exactly what no later request pressed again |
| `Ipc.Worker.Open` | daemon/host/src/desktop_ipc.rs:449-484 | a call of an old generation, or one that cannot open or fails to connect, changes nothing; any other opens the connection, with the ledger if it is a recovery |
| `Ipc.Worker.Process` | daemon/host/src/desktop_ipc.rs:487-508 | a call is fenced by generation and readiness, numbered, dropped if expired, recorded and sent |
| `Ipc.Worker.Accept` | daemon/host/src/desktop_ipc.rs:511-541 | an answer settles its call, its ledger entry and readiness, or breaks the connection |
| `Ipc.Worker.Lose` | daemon/host/src/desktop_ipc.rs:549-556 | losing a connection ends readiness and starts a new generation |
| `Ipc.Helper.Admit` | daemon/host/src/desktop_ipc.rs:190-206 | a helper takes requests only in ascending order and a recovery only first |
| `CborProofs.ParseEncoded` | daemon/core/src/cbor.rs:74-127 | parsing an encoding followed by anything returns the value and exactly its bytes, or finds it too deep |
| `CborProofs.ParseRebuilds` | daemon/core/src/cbor.rs:133-237 | whatever is parsed is an encoding of what it parses to, key order included |
| `CborProofs.ParseStable` | daemon/core/src/cbor.rs:133-237 | more input never changes an answer other than "need more" |
| `CborTheorems.ReencodingDecoded` | daemon/core/src/cbor.rs:46-54 | re-encoding an accepted string has the same length, and is identical exactly if every map listed its keys in ascending order |
| `CborTheorems.DecodeEncoded` | daemon/core/src/cbor.rs:64-71 | decoding an encoding followed by any bytes returns the canonical value and consumes exactly the encoding, or reports too deep a nesting |
| `CborTheorems.RoundTripIff` | daemon/core/src/cbor.rs:64-71 | a value comes back unchanged exactly within the nesting limit and with nonnegative integers as U64 |
| `CborTheorems.DecodeStable` | daemon/core/src/cbor.rs:64-71 | a definite answer stands whatever follows |
| `CborTheorems.StrictPrefixNeedsMore` | daemon/core/src/cbor.rs:64-71 | every strict prefix of an encoding needs more: no error, no shorter value |
| `CborTheorems.KeyOrderIsBytewise` | daemon/core/src/cbor.rs:100-106 | numeric key order is the bytewise order of encoded keys (section 4.2.1 of RFC 8949) |
| `CborTheorems.SortAscends` | daemon/core/src/cbor.rs:208-220 | a decoded map is a permutation of its entries in strictly ascending key order |
| `Cbor.EncodeValue` | daemon/core/src/cbor.rs:74-108 | the encoder appends exactly the model's encoding |
| `Cbor.EncodeHead` | daemon/core/src/cbor.rs:110-127 | the shortest head that holds the number |
| `Cbor.DecodeValueAt` | daemon/core/src/cbor.rs:133-237 | the cursor decoder agrees with the parser in value, error and bytes consumed |
| `Cbor.DecodeArgument` | daemon/core/src/cbor.rs:247-292 | arguments are read canonically or refused |
| `Cbor.DecodeArray` | daemon/core/src/cbor.rs:183-198 | the array loop agrees with the parser |
| `Cbor.DecodeMap` | daemon/core/src/cbor.rs:199-221 | the map loop agrees with the parser, duplicates refused, result in key order |
| `SocketWire.PrefixReturnsMessage` | daemon/core/src/socket_wire.rs:61-73 | a message followed by anything is returned with exactly its bytes |
| `SocketWire.PrefixStable` | daemon/core/src/socket_wire.rs:61-73 | a definite answer stands whatever follows, within the size limit |
| `SocketWire.StrictPrefixOfMessage` | daemon/core/src/socket_wire.rs:61-73 | every strict prefix of a message needs more |
| `SocketWire.SequenceRoundTrips` | daemon/core/src/socket_wire.rs:40-97 | a sequence of messages decodes to itself (RFC 8742); an oversized or empty one is refused as such |
| `SocketWire.ReadValues` | daemon/core/src/cbor.rs:55-63 | the sequence loop agrees with the recursive reading |
| `SocketWire.MessageIsExpected` | daemon/host/src/desktop_ipc.rs:32-58 | a message within the limit at the front of a stream is what the reader returns |
| `SocketWire.Reader.Read` | daemon/host/src/desktop_ipc.rs:32-58 | the result depends only on the bytes of the stream, never on how they arrive in pieces |
| `SocketWire.ReadAll` | daemon/host/src/desktop_ipc.rs:32-58 | any chunking of concatenated messages within the limit yields exactly those messages in order |
| `WireFormats.HeadLayout` | daemon/core/src/cbor.rs:110-127 | the initial byte and the length of every head, the number in its bytes |
| `WireFormats.InitialBytes` | daemon/core/src/cbor.rs:74-108 | which initial byte announces which kind of value (section 3 of RFC 8949) |
| `WireFormats.Examples` | daemon/core/src/cbor.rs:74-127 | examples of appendix A of RFC 8949 |
| `WireFormats.SmallArrays` | daemon/core/src/cbor.rs:94-99 | an array of appendix A of RFC 8949 |
| `WireFormats.SmallMaps` | daemon/core/src/cbor.rs:100-106 | maps of appendix A of RFC 8949 |
| `WireFormats.Significance` | daemon/core/src/cbor.rs:110-127 | the most significant byte comes first |
| `WireFormats.NumbersRefused` | daemon/core/src/cbor.rs:247-292 | longer forms than needed and negative numbers out of range are refused as such |
| `WireFormats.KindsRefused` | daemon/core/src/cbor.rs:133-237 | tags, other simple values and indefinite lengths are refused |
| `WireFormats.TextRefused` | daemon/core/src/cbor.rs:165-182 | text that is not UTF-8 is refused |
| `WireFormats.KeysRefused` | daemon/core/src/cbor.rs:208-220 | repeated keys and keys that are not unsigned are refused |
| `WireFormats.MessageLayout` | daemon/core/src/socket_wire.rs:31-38 | a message is its kind followed by its field map |
| `WireFormats.PrefixRefused` | daemon/core/src/socket_wire.rs:61-73 | values that cannot be read and pairs that are no message are told apart |
| `WireFormats.LoneValueIsIncomplete` | daemon/core/src/socket_wire.rs:75-96 | a kind without fields is an incomplete message, nothing at all an empty sequence |
| `WireFormats.ReadingStops` | daemon/host/src/desktop_ipc.rs:32-58 | a stream that ends inside a message ends the reading, one that reaches the limit inside it is over the limit |
| `ScheduleSafety.QueryLists` | daemon/host/src/command.rs:1626-1664 | a query lists at most sixteen new runs in ascending order, all of them up to its end or to the last one listed |
| `ScheduleSafety.TickSkipsNothingIff` | daemon/host/src/command.rs:1156-1195 | a tick lists every occurrence up to the checkpoint it will store if and only if no occurrence lies between the end of its search and now |
| `ScheduleSafety.WithinHorizonIsSearched` | daemon/host/src/command.rs:1626-1674 | a tick within the search horizon always searches far enough |
| `ScheduleSafety.EveryOccurrenceFires` | daemon/host/src/command.rs:1156-1250 | in every run of ticks, failures in mid-batch and metadata edits, each occurrence after the start and up to the checkpoint has had a job |
| `ScheduleSafety.NoOccurrenceFiresTwice` | daemon/host/src/command.rs:1156-1250 | with a nondecreasing clock and no edit between a job and its checkpoint, no occurrence fires twice |
| `ScheduleSafety.RestoredIsOnce` | daemon/host/src/command.rs:1542-1572 | a restored schedule has every persisted run of its rule text behind its checkpoint, whatever the clock says |
| `ScheduleSafety.RestartDoesNotRefire` | daemon/host/src/command.rs:1542-1572 | after a restart no persisted run of the same rule text fires again, nor any other twice, if no tick comes before a persisted run |
| `ScheduleSafety.EditInFlightRefires` | daemon/host/src/command.rs:1197-1249 | any edit that lands in that window makes the next tick create the same job a second time |
| `ScheduleSafety.EarlyTickRefires` | daemon/host/src/command.rs:1156-1195 | a tick before the checkpoint, after a clock that stepped back, takes it back, and a run in between fires again |
| `ScheduleEdits.EditIs` | daemon/host/src/command.rs:440-500 | an edit takes on what is wanted under a later revision; if it changes rule, start, enabled or archived the checkpoint lies just before the current second, else it stays |
| `ScheduleEdits.RetimedScheduleFires` | daemon/host/src/command.rs:440-500 | over runs: after such an edit nothing from before its second fires, and everything of the new timing from that second on does, up to the checkpoint; what the old timing owed does not |
| `ScheduleEdits.FreshIsJustBefore` | daemon/host/src/command.rs:1534-1540 | a fresh checkpoint lies just before the current second |
| `ScheduleEdits.DormantTick` | daemon/host/src/command.rs:1162-1172 | a schedule that is off, archived or unreadable fires nothing and follows the clock |
| `ScheduleEdits.FireIff` | daemon/host/src/command.rs:770-790 | a due run becomes a job exactly while the schedule is at the revision that listed it, enabled and not archived |
| `ScheduleEdits.AdvanceIs` | daemon/host/src/command.rs:1237-1249 | a checkpoint is stored only for the revision that listed the run, and never goes back by it |
| `ScheduleEdits.RestoredGoesOnFrom` | daemon/host/src/command.rs:1542-1572 | a restarted schedule goes on from the latest persisted run of its rule text or from the current second, whichever is later, and from nowhere else |
| `ScheduleSafety.EdgeRunRefires` | daemon/host/src/command.rs:1626-1664 | if the library counts in the millisecond after the search, a run due exactly then fires at two ticks |
| `ScheduleSafety.BeyondHorizonIsSkipped` | daemon/host/src/command.rs:1626-1674 | a tick after the horizon passes a run beyond it for good |
| `Schedules.Scheduler.ScanDue` | daemon/host/src/command.rs:1156-1195 | the scan of all schedules leaves each as the model's scan does, with exactly its due runs |
| `Schedules.Scheduler.CreateJob` | daemon/host/src/command.rs:770-790 | a job is created exactly if the schedule is unchanged, enabled and not archived |
| `Schedules.Scheduler.AdvanceCheckpoint` | daemon/host/src/command.rs:1237-1249 | the checkpoint rises only for the revision that scheduled the run |
| `Schedules.Scheduler.UpdateSchedule` | daemon/host/src/command.rs:440-500 | an edit raises the revision and resets the checkpoint exactly if timing changed |
| `Schedules.RestoreCheckpoints` | daemon/host/src/command.rs:1542-1572 | the checkpoints after a restart are those of the model's restored schedules |
| `Transport.PartitionDoesNotMatter` | daemon/core/src/desktop_transport.rs:25-67 | feeding in any pieces ends as feeding at once |
| `Transport.FeedIsParsing` | daemon/core/src/desktop_transport.rs:25-67 | feeding agrees with a plain length-prefixed parser |
| `Transport.FeedIsBounded` | daemon/core/src/desktop_transport.rs:16-67 | buffers stay within 4 bytes and 4 MiB |
| `Transport.BytesAreAccounted` | daemon/core/src/desktop_transport.rs:25-67 | the bytes fed are exactly the delivered frames and what is pending |
| `Transport.FinishedIsExact` | daemon/core/src/desktop_transport.rs:68-75 | a stream may finish exactly if it is whole frames of objects the consumer takes, and they are those it delivered |
| `Transport.FramesRoundTrip` | daemon/core/src/desktop_transport.rs:76-87 | framed objects come back as themselves |
| `Transport.FrameLayout` | daemon/core/src/desktop_transport.rs:76-87 | four bytes of length, the most significant first, and the object |
| `Transport.FailuresAre` | daemon/core/src/desktop_transport.rs:25-67 | a bad length, a refused object and an earlier failure are told apart |
| `Transport.GroupIsGapless` | daemon/core/src/desktop_transport.rs:115-149 | accepted objects are numbered 0, 1, 2, …, with a keyframe exactly at 0, nondecreasing timestamps, within the object and byte limits |
| `Transport.SequenceIsTaken` | daemon/core/src/desktop_transport.rs:115-149 | the converse: objects in sequence and within the limits are all taken |
| `Transport.AcceptIff` | daemon/core/src/desktop_transport.rs:115-149 | exactly which object a group takes next, and its counters then |
| `Transport.RefusalIs` | daemon/core/src/desktop_transport.rs:115-149 | why an object is turned away |
| `Transport.FailedGroupIsSilent` | daemon/core/src/desktop_transport.rs:115-149 | a group that turned an object away takes nothing more |
| `Transport.ReceiverSeesGaplessGroup` | daemon/core/src/desktop_transport.rs:16-149 | whatever bytes arrive in whatever pieces, a receiver gets a gapless group |
| `Transport.FrameReader.FeedChunk` | daemon/core/src/desktop_transport.rs:25-67 | the chunk loop ends in the state, and with the error, of feeding byte by byte |
| `Transport.FrameReader.Finish` | daemon/core/src/desktop_transport.rs:68-75 | ends only between objects |
| `Transport.GroupReceiver.AcceptObject` | daemon/core/src/desktop_transport.rs:115-149 | counters, failure and result as in the model |
| `Transport.EncodeObject` | daemon/core/src/desktop_transport.rs:76-87 | what is sent carries exactly the encoded object to any receiver at an object boundary; refused for its size or as not encodable, exactly then |
| `Stripes.EncodeRoundTrips` | daemon/core/src/desktop_stripe.rs:152-174 | encoding succeeds exactly for bundles, and its bytes decode to what was encoded |
| `Stripes.DecodeRoundTrips` | daemon/core/src/desktop_stripe.rs:109-150 | every accepted byte string encodes back to itself |
| `Stripes.DecodedIsSerialized` | daemon/core/src/desktop_stripe.rs:109-150 | whatever is accepted is the serialization of a bundle: ascending indexes, keys only at a group start, Annex B payloads |
| `Stripes.DecodeSerialized` | daemon/core/src/desktop_stripe.rs:109-150 | decoding a serialized list returns it exactly if it is a bundle |
| `Stripes.AcceptedIsPrefixFree` | daemon/core/src/desktop_stripe.rs:109-150 | no accepted string is a strict prefix of another, whatever was negotiated for either |
| `Stripes.BundleIff` | daemon/core/src/desktop_stripe.rs:109-150 | what a bundle is: one or two packets of distinct stripes in ascending order, keys of every stripe at a group start, Annex B payloads, at most 4 MiB |
| `Stripes.StartCodeIff` | daemon/core/src/desktop_stripe.rs:137-140 | which payloads are Annex B |
| `Stripes.RecordLayout` | daemon/core/src/desktop_stripe.rs:104-150 | stripe, key flag, four bytes of length, payload |
| `Stripes.BundleLayout` | daemon/core/src/desktop_stripe.rs:104-150 | the three magic bytes and the count |
| `Stripes.DecodeBundle` | daemon/core/src/desktop_stripe.rs:109-150 | the record loop agrees with the recursive reading |
| `Stripes.EncodeBundle` | daemon/core/src/desktop_stripe.rs:152-174 | the loops serialize, with the size checked first |
| `Stripes.MakeLayout` | daemon/core/src/desktop_stripe.rs:12-25 | always a valid layout of at most the requested count; each stripe but the last is the least multiple of 16 that is an even share; fewer only for a height of at most 16 |
| `Stripes.ValidLayout` | daemon/core/src/desktop_stripe.rs:27-44 | true exactly for even nonempty stripes stacked from 0 to the height |
| `Stripes.LayoutIff` | daemon/core/src/desktop_stripe.rs:27-44 | what a layout is, stripe by stripe |
| `Stripes.Rates` | daemon/core/src/desktop_stripe.rs:46-68 | exactly when it succeeds; then positive shares that sum to the total, each within one unit of proportional to its height |
| `Stripes.Nv12Region` | daemon/core/src/desktop_stripe.rs:70-97 | succeeds exactly for an even frame and a stripe inside it, and returns that stripe's rows of both planes |
| `Stripes.JoiningRestores` | daemon/core/src/desktop_stripe.rs:70-97 | joining the regions of any layout plane by plane restores the frame |
| `Budget.BoostIsRateLimited` | daemon/host/src/desktop_paintover.rs:72-133 | over any window of any run with a nondecreasing clock and base rate within R, boosted bits are at most R times the elapsed time plus a quarter of a second |
| `Budget.RunInRange` | daemon/host/src/desktop_paintover.rs:83-99 | the credit stays within its bounds in every run, so the arithmetic never saturates |
| `Budget.WindowSpends` | daemon/host/src/desktop_paintover.rs:72-133 | spending in a window is covered by the credit at its start and what its time earned |
| `BudgetUse.UpdateIs` | daemon/host/src/desktop_paintover.rs:83-99 | the credit after a time: bits saved at the old rate, at most a quarter of a second of the new one, none after a step back |
| `BudgetUse.AcceptIff` | daemon/host/src/desktop_paintover.rs:120-133 | an object is refused exactly if it is a refinement its credit does not cover |
| `BudgetUse.IdleEarnsABurst` | daemon/host/src/desktop_paintover.rs:72-133 | after a quarter of a second without debt a refinement of that size goes through |
| `BudgetUse.TargetIff` | daemon/host/src/desktop_paintover.rs:105-119 | four times the base within the ceiling, exactly while a whole frame of that is covered and nothing was refused since the last motion |
| `BudgetUse.SuppressedUntilMotion` | daemon/host/src/desktop_paintover.rs:100-133 | once a refinement was refused nothing is boosted until something moves |
| `BudgetUse.MotionIs` | daemon/host/src/desktop_paintover.rs:100-102 | motion lifts the suppression and leaves the account alone |
| `Budget.RefinementBudget.Refresh` | daemon/host/src/desktop_paintover.rs:83-99 | the method does exactly what the model's update does |
| `Budget.RefinementBudget.ChooseTarget` | daemon/host/src/desktop_paintover.rs:105-119 | the method does exactly what the model says and returns its target rate |
| `Budget.RefinementBudget.AcceptObject` | daemon/host/src/desktop_paintover.rs:120-133 | the method does exactly what the model's accept does |
| `PaintoverRuns.PaintedOnlyWhenSettled` | daemon/host/src/desktop_paintover.rs:10-35 | in every run from the first frame on, frames of new sizes included: a selected block last moved at least 200 ms before it was selected and had fewer than four refinements since; no motion is refined more than four times |
| `PaintoverRuns.BlockKnows` | daemon/host/src/desktop_paintover.rs:10-35 | every block remembers when it last moved, and has four refinements less those it got since |
| `PaintoverRuns.SelectedIff` | daemon/host/src/desktop_paintover.rs:312-341 | a selection takes exactly the blocks still for 200 ms, with refinements left, that have a row in one of the first 32 stripes |
| `PaintoverRuns.StripeRefinedIff` | daemon/host/src/desktop_paintover.rs:312-333 | a stripe is in the mask exactly if one of those blocks has a row in it |
| `PaintoverRuns.AcceptableIff` | daemon/host/src/desktop_paintover.rs:259-271 | which frames are taken |
| `Paintover.SpatialPaintover.Observe` | daemon/host/src/desktop_paintover.rs:249-309 | the retained buffer becomes the packed visible frame, and exactly the blocks with a changed luma or chroma byte, or all of a frame of new size, are re-armed, as the model's runs say; a bad frame changes nothing |
| `Paintover.Compare` | daemon/host/src/desktop_paintover.rs:272-309 | the nested block loops update every byte of the buffer and re-arm exactly the blocks that differ |
| `Paintover.ObserveBlock` | daemon/host/src/desktop_paintover.rs:285-305 | one block: its luma and chroma bands are copied and compared, nothing else |
| `Paintover.SpatialPaintover.SelectDue` | daemon/host/src/desktop_paintover.rs:312-333 | the method selects the model's blocks, and its mask names exactly the stripes they refine |
| `Paintover.SpatialPaintover.Delivered` | daemon/host/src/desktop_paintover.rs:337-341 | each selected block uses one refinement |
| `Retained.RunKeepsNewest` | daemon/host/src/command.rs:159-186 | whatever is appended, a contiguous numbered suffix of everything written is kept, with oldest, latest and truncated right |
| `Retained.RunKeepsLongest` | daemon/host/src/command.rs:159-186 | it is the longest suffix within the limit, and its byte count is exact |
| `Retained.DisabledKeepsNothing` | daemon/host/src/command.rs:159-162 | a log that is switched off keeps nothing |
| `Retained.ReplayIsExact` | daemon/host/src/command.rs:188-204 | after an explicit cursor: exactly what is replayed, exactly when a gap is announced; without one the replay is exactly cursor+1 to the latest |
| `Retained.FalseAlarmIff` | daemon/host/src/command.rs:188-204 | a gap is announced with nothing missing exactly for the cursor one below the oldest chunk |
| `Retained.FirstOutputRaisesAlarm` | daemon/host/src/command.rs:681-717 | the first chunk reaches a waiting subscriber behind such an alarm |
| `Retained.PollDelivers` | daemon/host/src/command.rs:681-717 | one look delivers what is due, announces a gap exactly if there is one to announce, and moves the cursor to the latest |
| `Retained.PollIs` | daemon/host/src/command.rs:681-717 | all that one look tells, event by event |
| `Retained.SubscriberMissesNothingSilently` | daemon/host/src/server.rs:2701-2774 | over any subscription chunks are genuine, in order and unrepeated; without an announced gap nothing from its start to the latest is missing |
| `Retained.RetainedOutput.AppendPiece` | daemon/host/src/command.rs:159-186 | the loop drops as the model does; the chunk is returned exactly if it was kept |
| `Retained.SessionRecords` | daemon/host/src/terminal.rs:568-613 | from its opening on the terminal buffer is the longest suffix within the retention limit with an exact byte count, and every piece is broadcast under its number |
| `Retained.TerminalReplay` | daemon/host/src/terminal.rs:737-759 | unless the last piece was over the limit, a gap is announced exactly if there is one, and the replay is exactly the rest |
| `Retained.SilentReplayIsCompleteIff` | daemon/host/src/terminal.rs:737-759 | a replay without an announced gap is complete if and only if the last piece fitted the retention limit or nothing was asked for |
| `Retained.ReplayMeetsLive` | daemon/host/src/terminal.rs:437-471 | from the opening of the terminal on, replay followed by the live chunks has no hole and no duplicate |
| `Retained.ClosedIsSilent` | daemon/host/src/terminal.rs:568-577 | a closed terminal keeps and broadcasts nothing more |
| `Retained.TerminalOutput.Record` | daemon/host/src/terminal.rs:568-613 | the loop keeps and broadcasts as the model does |
| `Osc.ChunksDoNotMatter` | daemon/host/src/terminal.rs:149-196 | state and events do not depend on how output is cut up |
| `Osc.BufferIsBounded` | daemon/host/src/terminal.rs:149-214 | no more than 4096 bytes are buffered |
| `Osc.SequenceIsAnnounced` | daemon/host/src/terminal.rs:149-208 | a sequence ended by BEL is announced if it fits the buffer and dropped without trace if not |
| `Osc.UnescapeEscaped` | daemon/host/src/terminal.rs:270-295 | unescaping undoes the shell's escaping for every byte string |
| `Osc.LossyEscaped` | daemon/host/src/shell_integration.rs:233-237 | replacing ill-formed text and escaping commute |
| `Osc.AnnouncedDirectory` | daemon/host/src/terminal.rs:149-295 | what arrives for any directory name free of ESC and BEL, well-formed or not, fitting or not |
| `Osc.DirectoryComesThrough` | daemon/host/src/shell_integration.rs:233-241 | a well-formed untrimmed-safe name is reported exactly once and as it is, in any chunks, if and only if it fits |
| `OscKinds.TitleArrives` | daemon/host/src/terminal.rs:216-219 | sequences 0 and 2 announce a trimmed title, if it fits and is not blank |
| `OscKinds.FileUrlArrives` | daemon/host/src/terminal.rs:246-268 | a directory as a file URL arrives with its percent signs resolved, whatever the host |
| `OscKinds.PercentRoundTrips` | daemon/host/src/terminal.rs:297-315 | decoding undoes percent-encoding for every byte string |
| `OscKinds.BarePathArrives` | daemon/host/src/terminal.rs:246-250 | a payload that is no file URL is itself the directory |
| `OscKinds.QuotedDirectoryArrives` | daemon/host/src/terminal.rs:222-229 | 9;9; announces a directory without its quotes |
| `OscKinds.QuotesComeOff` | daemon/host/src/terminal.rs:326-328 | quotes around a name are taken off |
| `OscKinds.WhiteIff` | daemon/host/src/terminal.rs:330-337 | which characters are trimmed: those with the Unicode property White_Space |
| `OscKinds.SpacesComeOff` | daemon/host/src/terminal.rs:330-337 | blanks are trimmed from both ends and nowhere else |
| `Osc.MetadataParser.Push` | daemon/host/src/terminal.rs:149-196 | the loop does exactly what the step-wise parser does |
| `Osc.UnescapeValue` | daemon/host/src/terminal.rs:270-295 | the index loop agrees with the recursive reading |
| `Utf8.LossyIsValid` | daemon/host/src/terminal.rs:203-204 | replaced text is always well-formed |
| `Utf8.LossyKeepsText` | daemon/host/src/terminal.rs:203-204 | well-formed text is read as it is |
| `Pairing.RequestsAreConserved` | daemon/gui/src/controller.rs:62-211 | in every run the requests are exactly those answered and the one pending |
| `Pairing.ExactlyOneReply` | daemon/gui/src/controller.rs:126-211 | in every run that disposes the utility each request has exactly one reply |
| `Pairing.AcceptedByItsGeneration` | daemon/gui/src/controller.rs:99-107 | every acceptance was given by resolve(true, g), with g the generation that displayed that very confirmation, which stood until then |
| `PairingDecisions.DecisionReaches` | daemon/gui/src/controller.rs:99-107 | a decision for the confirmation on display adds exactly its reply, as decided, and settles it |
| `PairingDecisions.AcceptedIff` | daemon/gui/src/controller.rs:58-212 | over runs: a confirmation is answered as accepted exactly if the user accepted it while it was up, and as rejected exactly if closing, its connection, disposal, another request or a refusal ended it first |
| `PairingDecisions.StandsIff` | daemon/gui/src/controller.rs:58-212 | a confirmation stands exactly until the first call that ends it |
| `PairingDecisions.OtherRequestsAreDone` | daemon/gui/src/controller.rs:180-211 | what the other requests do, show and answer |
| `PairingDecisions.ShownIs` | daemon/gui/src/controller.rs:146-211 | what the user sees of each request |
| `PairingDecisions.WindowActs` | daemon/gui/src/controller.rs:78-98 | what showing details and closing do |
| `Pairing.PendingStands` | daemon/gui/src/controller.rs:146-179 | a pending confirmation is on display under the generation it was put up with |
| `Pairing.NotifiedGeneration` | daemon/gui/src/controller.rs:166-178 | the user is told exactly the generation of the confirmation that is put up |
| `Pairing.MalformedChangesNothing` | daemon/gui/src/controller.rs:138-145 | a malformed request put anywhere into a run adds its own refusal and changes nothing else, then or later: not the confirmation, the generation or any other reply |
| `Pairing.StaleDecisionChangesNothing` | daemon/gui/src/controller.rs:99-107 | a decision for another generation changes nothing |
| `Pairing.Controller.Serve` | daemon/gui/src/controller.rs:131-211 | the method validates first; its new state, reply and effects are the model's |
| `Pairing.Controller.Settle` | daemon/gui/src/controller.rs:62-67 | the pending reply is used exactly once |
| `Pairing.Controller.CloseWindow` | daemon/gui/src/controller.rs:87-98 | closing rejects a confirmation on display |
| `Pairing.Controller.Decide` | daemon/gui/src/controller.rs:99-107 | only the current generation's pending confirmation is decided |
| `Pairing.Controller.Lost` | daemon/gui/src/controller.rs:108-118 | only the pending request's own connection closes it |
| `Lease.ExitsOnlyUnderCurrentGrant` | daemon/host/src/maintenance.rs:188-247 | the process exits only on a commit under a grant of the same nonce, less than 20 s old and confirmed at every tick in between |
| `Lease.ExpiredIsNotRegranted` | daemon/host/src/maintenance.rs:188-247 | an expired drain is neither granted nor exited under again while its request stays and no other expires |
| `Lease.LeaseIsBacked` | daemon/host/src/maintenance.rs:188-247 | every lease held was given out and confirmed without a break |
| `LeaseGrants.FirstRequestIsGranted` | daemon/host/src/maintenance.rs:234-247 | a drain that is neither granted nor expired is granted for 20 s |
| `LeaseGrants.GrantedTurn` | daemon/host/src/maintenance.rs:212-233 | under a grant: the time left is reported, a commit ends the process, the deadline ends the grant |
| `LeaseGrants.CommitNeedsGrant` | daemon/host/src/maintenance.rs:206-247 | a commit without a current grant of its own nonce is not answered |
| `LeaseGrants.AbsentTurn` | daemon/host/src/maintenance.rs:194-205 | a request that goes away clears the grant and the memory of expiry, one that cannot be read only the grant |
| `LeaseGrants.CommitExits` | daemon/host/src/maintenance.rs:188-247 | the converse of exiting only under a grant: a commit under an unbroken grant, in time and reported, ends the process |
| `Lease.WaitUnstartedDrain` | daemon/host/src/maintenance.rs:188-247 | the loop exits and reports exactly as the model says |

## Left out

- The generated protocol types and field codecs: a socket message is a kind and a field map, a media object a record behind an abstract decoder, a pairing request arrives validated or not at all.
- SQLite, process spawning, PTYs, sockets, pipes, files and tokio scheduling: only the steps taken under a lock remain. Dropped broadcasts of a lagging terminal receiver are not modelled.
- The RRULE library and calendar arithmetic: a rule is a set of times. Whether the library's upper bound is inclusive is not visible in the repository, so `Calendar.reach` covers both answers.
- `desktop_rate.rs`, `desktop_flow.rs` and `desktop_quality.rs`: floating-point and wall-clock heuristics whose rounding a model over numbers would not capture.
- Agent sessions, pairing secrets, certificates, configuration, installers, GUI views and the web client: wrappers, I/O or user interface.
- Desktop attachments: the profile and the server-viewports flag are not part of the model, and ids are numbers instead of `desktop-N`. `BTreeMap` order is replaced by the set `before` of ids visited ahead of the holder, over which every lemma quantifies.
- Which configuration is in force when feedback arrives, and the flow and quality samples it feeds: the first is a parameter, the rest has no effect on input.
- Streams, codecs, feedback and quality tables that reconciliation also clears in `daemon/host/src/desktop.rs:995-1009`: plain clears without effect on input safety.
- IPC: stream groups, tracks, codec epochs and probes are one command `Other`; the two ledger maps are one map over keys and buttons. That no press is sent while an unexpired recovery is pending (`LockFree`) is a rule of the caller, which holds the desktop state locked (`daemon/host/src/desktop.rs:970-977`).
- DesktopSafety.DrainNeverOverStuckInput: assumes that every confirmed recovery left nothing down; `DesktopSafety.OnlyStraysUnderDrain` and `DesktopSafety.DrainOverWhatRecoveryLeft` show what happens otherwise.
- The test of the helper generation in `Runtime::mutate` (`daemon/host/src/desktop.rs:1039-1051`) only turns operations away; the runs here include those in which it does not.
- ScheduleSafety.NoOccurrenceFiresTwice: assumes no edit between a job and its checkpoint and no run in the millisecond after a search; `ScheduleSafety.EditInFlightRefires` and `ScheduleSafety.EdgeRunRefires` show that neither can be dropped.
- ScheduleSafety.RestartDoesNotRefire: assumes that no tick comes before a persisted run; `ScheduleSafety.EarlyTickRefires` shows why.
- Retained.RunKeepsLongest: assumes that no append makes the 64-bit byte count saturate (`Countable`); the suffix property of `Retained.RunKeepsNewest` needs no such assumption.
- Retained.ReplayIsExact: assumes at most 2^64 - 1 chunks, after which the program repeats its last number.
- Restoring retained output of finished jobs from the database, which gives it the default limit: nothing is appended to it afterwards.
- CBOR floats are raw 64-bit patterns; `usize` is 64 bits wide, so `checked_len` never fails.
- Pairing: what validation checks in payloads and URLs, the random candidate codes and the wording of notifications; the generation counter is unbounded.
- Terminal metadata: applying the events to the session record, and the Windows form of `file://` paths.
