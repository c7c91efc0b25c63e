# Central node model

The central node of the LCLS-II machine protection system reads the inputs of its
application cards 360 times a second, evaluates faults against a configuration, and
limits the beam class sent to each destination, in software and through rules it
loads into the firmware. This project models that logic in Dafny and proves what a
maintainer relies on.

- `Engine.dfy` is the evaluation cycle `Engine::checkFaults`, pass by pass, on objects
  whose fields are updated in place. `CycleRules.dfy` says what a cycle means without
  order or mutation, `IntegratorRules.dfy` what the one flag that keeps order and memory
  is worth, with `ThresholdConditions.dfy` for conditions on thresholds,
  `MitigationRules.dfy` and `MitigationWords.dfy` hold the loop of `mitigate` and the two
  mitigation words, `CycleProperties.dfy` what follows from
  the cycle as a whole, `Permits.dfy` the operators' limits, and `Deviations.dfy` where
  the cycle does not do what its comments say. `CycleOutcome.dfy` tells what a cycle leaves
  in the fields of the objects, bit by bit, without any of the rules above.
- `BypassManager.dfy` is the bypass manager with its queue of deadlines, and
  `BypassEffects.dfy` what a bypass does to the faults a cycle sees.
- `Latching.dfy`, `Devices.dfy`, `Layout.dfy` and `Cards.dfy` are the inputs: how status
  bits are sampled and latched, and the image of a card's rules for the firmware.
  `Histories.dfy` tells what any messages and unlatches leave, from their status bits.
- `Compile.dfy` and `FirmwareRules.dfy` compile the fast rules, and relate them to the
  image; `FirmwareOutcome.dfy` tells what is compiled from the rows of the configuration, and
  which bit of a buffer holds what; `Enforcement.dfy` puts cycle and image together: who enforces a rule, and that it
  is enforced.
- `Reload.dfy` puts manager, engine and cards together and shows when the image in the
  firmware is exact; `Firmware.dfy` is the mask of enabled cards, and `StartUp.dfy` the
  first round after a configuration is loaded.
- `Pipeline.dfy` is the four threads of the update pipeline as interleaved steps,
  `Queue.dfy` the queue between them, and `TimeAverage.dfy` the sliding average.
  `SequentialLoop.dfy` shows that the loop of a node is an instance of the pipeline, so that
  what the threads write are the least limits of their cycles.

## How the model is built

- A `uint32_t` or `uint16_t` that the source takes apart with shifts and masks is the
  set of positions of its one bits, so `|` is union and `&` is intersection; bits
  shifted past 31 are lost. Class numbers, times and identifiers are integers.
- Tables loaded from the configuration are rows of a `Database` value whose foreign keys
  are positions in id order; fields written while running are fields of classes.
- A `Snapshot` names what one cycle reads and does not write: latched inputs, bypasses,
  card modes and permits. Devices without a card or without evaluation are left alone
  by the engine, so their value and ignore flag are part of it.
- `std::priority_queue` is modelled by its contract: its top is an entry no other is
  earlier than. Times are passed in; an exception is a result (`None`, `false` or an
  `Outcome`).
- Each call on the bypass manager, each cycle and each reload is one step, and so is each
  critical section of the pipeline threads.
- An integrator index of a bypass is 0 to 3. A request that acts on a negative deadline,
  as only its test mode does, is the one call that breaks the invariant of the bypass queue
  (`Bypass.BypassManager.SetThresholdBypass`), and the repair branch of
  `checkBypassQueueTop` can then be taken (`Bypass.BypassManager.RepairAfterNegativeDeadline`).
  Runs of many calls are taken without it, and there the branch is shown not to be taken.

Where the code does not do what its comments or its use suggest the model follows the code:

- The default state of a fault is meant for a fault without match, but the flag it looks
  at is never reset between faults (`Deviations.DefaultStateAsMeant`).
- A fault takes its offline flag from its last input. Cards go offline as a whole, and that
  is what is meant exactly when all its inputs are on one card (`Deviations.OfflineAsMeant`,
  `Deviations.OfflineMissed`).
- The comment above the compilation of analog rules says that destination masks are
  and'ed; they are or'ed, which is what keeps the rules conservative.
- `ignoredIntegrator` is not cleared at the start of a cycle, and depends on the order of
  conditions (`Deviations.StaleFlagReached`, `Deviations.OrderFlipsFlag`). The last row that
  writes decides it. `IntegratorRules.FlagAsMeantFromStart` tells exactly when it can be
  trusted, over the states of the conditions that occur; where conditions read thresholds
  of their own the placing of the rows alone tells (`ThresholdConditions.FlagAsMeantByPlace`).
- A FAST digital device is compiled from the fault of its last fault input; rules of other
  faults are lost unless covered by that one (`FirmwareRules.DigitalRuleCovered`,
  `FirmwareRules.RuleLost`).
- Whether a card is active is not initialised. Loading enables every card with devices, so
  the first round is safe (`StartUp.FirstRound`). It would not be if a card were disabled
  between loading and the first update, through a call the program offers and does not make
  itself (`StartUp.StaleWhenDisabled`).

## Model

| member | source | states |
|---|---|---|
| Bypass.BypassMask.Raise | src/central_node_bypass.cc:286-292 | the byte of one integrator becomes 0xFF and no other byte changes |
| Bypass.BypassMask.Lower | src/central_node_bypass.cc:462-465 | the byte of one integrator becomes 0x00 and no other byte changes |
| Bypass.CreateFour | src/central_node_bypass.cc:103-120 | an analog device gets one expired bypass per integrator, each with its index and the mask word of the device |
| Bypass.CreateBypassMap | src/central_node_bypass.cc:63-204 | every input and every integrator of every analog device gets a bypass of its own, none valid, tied to its byte of the mask word of its device; the state invariant holds |
| Bypass.BypassManager.constructor | src/central_node_bypass.cc:63-122 | a manager for bypasses linked in this way satisfies the invariant, with an empty queue and no refresh pending |
| Bypass.BypassManager.CheckBypassQueueTop | src/central_node_bypass.cc:247-316 | what each branch does to queue, status, mask and refresh flag, repair branch included, without assuming the invariant |
| Bypass.BypassManager.CheckTopOfValidQueue | src/central_node_bypass.cc:267-275 | in a state that satisfies the invariant the repair branch is not taken: nothing is due, or the soonest entry goes and its bypass expires exactly when the entry reaches its deadline |
| Bypass.BypassManager.ExpireDueEntries | src/central_node_bypass.cc:231-237 | the loop ends, leaves no due entry, keeps every other one, and keeps the invariant |
| Bypass.BypassManager.CheckBypassQueue | src/central_node_bypass.cc:217-238 | the states of all bypasses become those of a scan over all of them: expired when the deadline has passed, unchanged otherwise; every fast bypass that changed asks for a refresh |
| Bypass.BypassManager.CancelBypass | src/central_node_bypass.cc:390-420 | a cancelled bypass is expired with deadline zero, its mask byte is set again, and the stale queue entries do no harm |
| Bypass.BypassManager.StartBypass | src/central_node_bypass.cc:431-470 | a new, extended or shortened bypass is valid until its new deadline, queued under it, with its mask byte cleared and all others kept |
| Bypass.BypassManager.RequestBypass | src/central_node_bypass.cc:390-470 | the three cases of a request change the state of one bypass as described, for every deadline; the invariant is kept exactly unless a negative deadline is acted on |
| Bypass.BypassManager.OwnByte | src/central_node_bypass.cc:286-292 | the eight bits of a bypass in its mask word are zero while it is valid and one while it is expired |
| Bypass.BypassManager.SetThresholdBypass | src/central_node_bypass.cc:357-471 | an unknown device changes nothing; otherwise a future deadline (any, in test mode) makes the bypass named valid with that deadline and the value asked for, zero expires it with its value kept, and a past one changes nothing; its eight mask bits follow, all other bypasses and bytes stay, one queue entry is added, and the refresh flag follows every change of a fast bypass; the invariant is lost exactly when a negative deadline is acted on |
| Bypass.BypassManager.RepairAfterNegativeDeadline | src/central_node_bypass.cc:267-275 | a bypass with a negative deadline, cancelled, is made valid again by the next check, with no deadline waiting and its mask byte still set |
| Bypass.BypassManager.PerformCalls | src/central_node_bypass.cc:217-471 | over any sequence of requests and expiry checks the lazy queue gives the same states as the naive scan |
| Bypass.BypassManager.ValidSinceRequest | src/central_node_bypass.cc:320-350 | after any sequence of calls a bypass is valid exactly when some request gave it a deadline that no later request touched and no later check found passed, and then its value is the one of that request |
| EvaluationCycle.Engine.SetTentativeBeamClass | src/central_node_engine.cc:317-334 | every destination starts at the highest class, and its previous class is remembered |
| EvaluationCycle.Engine.GatherInputs | src/central_node_engine.cc:383-408 | the value of a digital device is made of bypass values where valid and latched values elsewhere |
| CycleRules.GatherBit | src/central_node_engine.cc:383-408 | bit b of a device value is set exactly when some input has bit b less its position |
| CycleRules.CombineBit | src/central_node_engine.cc:429-454 | bit b of a fault value is set exactly when some input device has bit b less the position of that input |
| CycleRules.ConditionMetWhen | src/central_node_engine.cc:512-545 | a condition is met exactly when the bits of its mask are those with a faulted input state |
| BypassEffects.IntegratorSeen | src/central_node_engine.cc:441-447 | a cycle sees of an integrator the latched thresholds, or nothing exactly while its bypass is valid |
| BypassEffects.FaultBitSources | src/central_node_engine.cc:429-454 | a threshold of a validly bypassed integrator contributes to no fault, and all others do |
| EvaluationCycle.Engine.UpdateDigitalDevices | src/central_node_engine.cc:376-416 | every evaluated digital device has the value of its inputs and is ignored if its card is not active; the others keep theirs |
| EvaluationCycle.Engine.FaultWord | src/central_node_engine.cc:429-454 | the value of a fault combines its digital inputs and the latched thresholds that are not bypassed |
| EvaluationCycle.Engine.MatchStates | src/central_node_engine.cc:456-495 | a state of a fault is marked exactly when, at every bit, its value has the bit if its mask and the fault value both do; the display flag says that a matching state restricts the beam |
| EvaluationCycle.Engine.EvaluateFault | src/central_node_engine.cc:421-505 | one fault is evaluated, with the default state set when neither it nor an earlier fault matched |
| EvaluationCycle.Engine.EvaluateFaults | src/central_node_engine.cc:366-508 | all devices and faults are evaluated; each fault remembers its previous value |
| EvaluationCycle.Engine.BreakAnalogIgnore | src/central_node_engine.cc:723-744 | evaluated analog devices start ignored exactly when their card is not active |
| EvaluationCycle.Engine.EvaluateIgnoreConditions | src/central_node_engine.cc:512-608 | every condition gets its state, every fault state and device is ignored exactly when some condition that is met names it, and the result says that a condition changed |
| EvaluationCycle.Engine.DecideIgnores | src/central_node_engine.cc:512-608 | the ignore flags after the pass are a disjunction over the conditions, free of their order: an analog device is ignored if it was at the start or a met condition has a row with that device and no fault state, a digital one on any row with it |
| EvaluationCycle.Engine.SetFaultIgnore | src/central_node_engine.cc:610-644 | a fault is ignored exactly when some input device is ignored or inactive; offline and active follow the last input |
| EvaluationCycle.Engine.ApplyAllowedClass | src/central_node_engine.cc:679-698 | one allowed class keeps the tentative class of every destination the least limit met so far |
| EvaluationCycle.Engine.MitigateFault | src/central_node_engine.cc:654-717 | one fault: limits, reported state, and at most one log call, made exactly when the reported state changed |
| EvaluationCycle.Engine.Mitigate | src/central_node_engine.cc:646-721 | after all faults the tentative classes are the least limits, and the log is still a chain of changes |
| EvaluationCycle.ChainGrows | src/central_node_engine.cc:707-717 | a log call of mitigate keeps the history a chain: each entry differs from and starts at the last one of its fault |
| EvaluationCycle.Engine.ChooseAllowed | src/central_node_database_tables.h:508-534 | with force, max and soft permits applied the allowed class is the least of all limits: none of the three permits and not the tentative class is below it, and it is one of the four |
| EvaluationCycle.Engine.WriteAllowed | src/central_node_database_tables.h:535-540 | a destination adds the nibbles of its class at its bits, and nothing elsewhere |
| EvaluationCycle.Engine.SetAllowedBeamClass | src/central_node_engine.cc:340-356 | every destination is allowed its least limit, and the buffer holds these classes |
| EvaluationCycle.Engine.CheckFaults | src/central_node_engine.cc:747-779 | from any leftover flags, a cycle allows every destination exactly the least of the highest class, the class of every rule of a faulted, non-ignored state of an online, non-ignored slow fault, and the permits; and it asks for a reload exactly when a condition or a card mode changed |
| CycleOutcome.RunCycle | src/central_node_engine.cc:747-779 | one cycle in terms of fields alone: device and fault values, matching and default states, conditions, everything ignored, integrator flags, fault flags, allowed classes, mitigation words, displayed states and the log are each given bit by bit from the inputs, cards, permits and flags at the start |
| CycleOutcome.MatchIsBitwise | src/central_node_engine.cc:467-473 | a state matches exactly when each bit of its value is in its mask and in the fault value, and no other bit is in both |
| CycleOutcome.ZeroState | src/central_node_engine.cc:456-495 | a state of value zero that is not the default is faulted exactly when no input supplies a bit of its mask |
| CycleOutcome.ZeroStateOfSwitch | src/central_node_engine.cc:456-495 | for one digital device of one input and a full mask, exactly while the input, bypassed or latched, reads zero |
| CycleOutcome.DevicesIgnoredHold | src/central_node_engine.cc:559-602 | a device is ignored exactly when it starts so or a row in force names it, an analog one only by a row without fault state |
| CycleOutcome.BesideStatesAlone | src/central_node_engine.cc:559-590 | an analog device named only beside fault states keeps the flag it starts with |
| CycleOutcome.LeastClassHolds | src/central_node_engine.cc:646-721 | the allowed class is no higher than the highest class, the class of any rule in force and any of the three permits, and is one of these |
| CycleOutcome.BufferWrittenHolds | src/central_node_database_tables.h:535-540 | bit b of the first word is bit b % 4 of the class of a destination with mask bit 8 + b / 4, and of the second with mask bit b / 4 |
| CycleOutcome.ShowsHold | src/central_node_engine.cc:654-717 | what is displayed and logged for a fault: -1 offline, else the first state of least class below 100, else what was shown or 0 |
| CycleOutcome.ChangesShownHold | src/central_node_engine.cc:707-717 | a cycle logs each change of a reported state once, in fault order, with the state before, the state now and the class reported |
| CycleOutcome.FlagsWrittenHold | src/central_node_engine.cc:559-578 | an integrator flag is the state of the condition of the last row that writes it, or stays |
| CycleRules.IgnoredInAnyOrder | src/central_node_engine.cc:512-608 | fault states and devices ignored are the same for conditions in any order |
| CycleRules.LeastLimitUnique | src/central_node_engine.cc:646-721 | the least limit of a destination is one number |
| CycleRules.IntegratorFlagSettled | src/central_node_engine.cc:559-578 | a second pass with the same conditions met leaves the integrator flags as the first did |
| IntegratorRules.LastWriterDecides | src/central_node_engine.cc:559-578 | the last row that writes an integrator flag decides it: the flag is the state of its condition |
| IntegratorRules.NoWriterKeeps | src/central_node_engine.cc:559-578 | without such a row the flag stays as an earlier cycle left it |
| IntegratorRules.FreeOfLeftover | src/central_node_engine.cc:559-578 | the flag is free of earlier cycles exactly when some row writes it |
| IntegratorRules.FlagAsMeantNow | src/central_node_engine.cc:559-578 | in one cycle the flag says that some met condition names the integrator exactly when the last writing row is met or none is |
| IntegratorRules.FlagAsMeantAlways | src/central_node_engine.cc:540-602 | in a well-placed configuration it does so in every cycle and whatever was left; in any other whose tell-tale states of the conditions occur, it fails in some cycle |
| IntegratorRules.FlagAsMeantFromStart | src/central_node_engine.cc:540-602 | it does so after every run of cycles since loading exactly when, in each state of the conditions that occurs, the last writing row is met or none is meant, or no row writes and the flag is never meant |
| IntegratorRules.SoundWhenWellPlaced | src/central_node_engine.cc:540-602 | that holds in configurations without a row for the flag and in well-placed ones, and, if the tell-tale states of the conditions occur, in no others |
| ThresholdConditions.ThresholdMet | src/central_node_engine.cc:512-545 | a condition on one threshold state is met exactly when the threshold is latched and not bypassed |
| ThresholdConditions.AllAttained | src/central_node_engine.cc:512-545 | all states of conditions that read thresholds of their own occur |
| ThresholdConditions.FlagAsMeantByPlace | src/central_node_engine.cc:540-602 | with such conditions the flag is as meant after every run exactly when it has no row or its rows are well placed, and whatever was left exactly when they are well placed |
| CycleProperties.IntegratorFlagsAfterCycle | src/central_node_engine.cc:747-779 | the flags a cycle leaves in the devices are those of this account |
| MitigationRules.OneRule | src/central_node_engine.cc:679-698 | one rule done: the least limit so far goes down to its class exactly if it applies to the destination |
| MitigationRules.AllDone | src/central_node_database_tables.h:508-534 | with all rules done the permits complete the least limit |
| MitigationRules.WorstIsFirstLeast | src/central_node_engine.cc:666-705 | at every place of the loop the reported state is the first one that attains the least class met, or the start value if no class is below 100 |
| MitigationRules.ReportedState | src/central_node_engine.cc:654-717 | an online fault with an active rule of class below 100 reports the first state that attains its least class |
| MitigationWords.SpreadByte | src/central_node_yaml.h:929-976 | the nibble mask of a byte of the destination mask has four bits for each of its bits |
| MitigationWords.BitShift | src/central_node_yaml.h:983-993 | the shift loop computes four times the position of the lowest bit |
| Words.NibbleBits | src/central_node_database_tables.h:535-538 | the four low bits of a class are the binary digits of the class modulo 16 |
| MitigationWords.Position | src/central_node_yaml.h:922-993 | word index and shift of a destination mask: the high byte counts if it has a bit |
| MitigationWords.SingleBitPosition | src/central_node_yaml.h:922-993 | for a mask of one bit the nibble mask is 0xF shifted by bitShift, in the word of the index alone |
| MitigationWords.ExpandClass | src/central_node_database_tables.h:535-538 | the low four bits of a class fill all eight nibbles |
| MitigationWords.ExtractMitigation | src/central_node_firmware.cc:628-635 | the sixteen nibbles of two words |
| MitigationWords.MitigationRoundTrip | src/central_node_firmware.cc:628-635 | reading the words back gives at every destination bit the class of the one destination that owns it, and zero where none does |
| CycleProperties.SnapshotExists | src/central_node_engine.cc:747-779 | a cycle can be run from every state of a wired engine |
| CycleProperties.Memoryless | src/central_node_engine.cc:723-779 | two engines that see the same configuration and inputs finish with the same classes and the same mitigation words, whatever flags they carried |
| CycleProperties.RunBoth | src/central_node_engine.cc:747-779 | two engines with the same configuration and inputs, each run from flags and a history of its own, end with the same classes and the same words |
| CycleProperties.FirmwareReadsLeastLimit | src/central_node_engine.cc:747-779 | what the firmware decodes at a bit of a destination after a cycle is the least limit of that destination, and zero at a bit of none |
| CycleProperties.NoReloadNoChange | src/central_node_engine.cc:540-602 | a cycle that finds conditions and card modes unchanged leaves every ignore flag the firmware image depends on unchanged |
| Permits.ForceBeamDestination | src/central_node_database.cc:1090-1112 | a known class is forced on one destination, an unknown one or class id 99 clears it |
| Permits.SoftPermitDestination | src/central_node_database.cc:1114-1136 | the same for the soft permit |
| Permits.SetMaxPermit | src/central_node_database.cc:1138-1168 | the maximum is set or cleared on every destination but the laser |
| Permits.EachPermitCaps | src/central_node_database_tables.h:508-534 | the class allowed is no higher than the forced class, the maximum and the soft permit, each if set, nor the highest class, and is one of these or the class of a rule that applies |
| Permits.PermitCaps | src/central_node_database_tables.h:508-534 | no class above a permit in force is ever allowed |
| Permits.MoreLimitsNeverRaise | src/central_node_database_tables.h:508-534 | adding permits never raises the allowed class, and lowers it only to one of them |
| Deviations.DefaultStateAsMeant | src/central_node_engine.cc:497-504 | the default state is on as its comment says exactly when the fault has a match or no earlier fault has one |
| Deviations.DefaultStateMissed | src/central_node_engine.cc:370-503 | a configuration and input for which it is not |
| Deviations.OfflineAsMeant | src/central_node_engine.cc:620-640 | whatever cards are offline, a fault counts as offline when one of its inputs is, exactly when all its inputs are on one card |
| Deviations.OfflineOnSnapshot | src/central_node_engine.cc:620-640 | for one state of the cards it does exactly when the last input is offline or all before it are online |
| Deviations.OfflineMissed | src/central_node_engine.cc:620-640 | two inputs on different cards, of which the first is offline, for which it does not |
| Deviations.StaleFlag | src/central_node_engine.cc:559-578 | a configuration and inputs for which an integrator flag keeps what an earlier cycle left |
| Deviations.StaleFlagReached | src/central_node_engine.cc:540-602 | the inputs of two cycles after which the flag is set though no met condition names the integrator |
| Deviations.OrderFlipsFlag | src/central_node_engine.cc:540-602 | two conditions whose order decides the flag for the same inputs |
| Latching.LatchedSinceUnlatch | src/central_node_inputs.cc:72-116 | over any history, without auto-reset, the latched value is the fault value if a sample since the last unlatch was a fault, and else the value at that unlatch |
| Histories.InputHistory | src/central_node_inputs.cc:72-122 | over any messages and unlatches a digital input reads 0 when the last message had it only low, 1 when only high, and the fault value otherwise; without auto-reset the fault value is latched if a message since the last unlatch carried a fault by these bits, and else what that unlatch found; with auto-reset the latch is the value |
| Histories.AnalogHistory | src/central_node_inputs.cc:168-232 | a threshold is on when the last message says high or not low, and latched when a message since the last unlatch did, or that unlatch found it on |
| Histories.LatchTold | src/central_node_inputs.cc:104-111 | the same of the latch of a digital input, as a law of its states |
| Latching.AutoResetFollows | src/central_node_inputs.cc:109-111 | with auto-reset the latch follows the sample |
| Latching.AnalogLatchedSinceUnlatch | src/central_node_inputs.cc:168-232 | over any history a threshold is latched exactly when it was exceeded since the last unlatch or was in the value then |
| Latching.AnalogLatchContainsValue | src/central_node_inputs.cc:168-232 | after any update or unlatch the latched bits contain the current ones, and from then on |
| Devices.DeviceInput.Update | src/central_node_inputs.cc:72-122 | a digital input reads 0 when the signal was only low, 1 when it was only high, and the fault value when it was neither or both; the latch takes a fault, and any value with auto-reset |
| Devices.DeviceInput.Unlatch | src/central_node_database_tables.cc:133-135 | the latch takes the current value |
| Devices.AnalogDevice.Update | src/central_node_inputs.cc:168-240 | the threshold loops leave exactly the exceeded thresholds in the value and add them to the latch |
| Devices.AnalogDevice.ThresholdsAt | src/central_node_inputs.cc:180-186 | threshold j of integrator i is read at its place in the status bits |
| Devices.AnalogDevice.ThresholdBits | src/central_node_inputs.cc:180-204 | the thresholds exceeded are those whose status bit says high or not low, and no others |
| Devices.StatusOffset | src/central_node_inputs.cc:180-186 | the status bit of threshold j of integrator i is 8 times the channels of the card times i, plus 8 times the channel, plus j |
| Devices.StatusBitsApart | src/central_node_database_defs.h:126-172 | no two thresholds of a card share a status bit |
| Devices.UnlatchAll | src/central_node_database.cc:111-122 | every analog device and every input is unlatched |
| Layout.SlotsApart | src/central_node_database_defs.h:146-172 | a slot of the mixed-radix layout tells the channel and the integrator |
| Cards.SilentCardFaultsInput | src/central_node_inputs.cc:88-111 | a card whose status bits are all zero drives each of its inputs to the fault value and latches it |
| Cards.SilentCardFaultsAnalog | src/central_node_inputs.cc:185-191 | such a card exceeds and latches every threshold of an analog device |
| Cards.ApplicationCard.UpdateInputs | src/central_node_inputs.cc:312-363 | online and active follow the firmware flags, every device gets them, every input its sample, and the result says that the mode changed |
| Cards.ApplicationCard.WriteAnalogConfiguration | src/central_node_inputs.cc:477-540 | the buffer is bit by bit the image of the FAST devices |
| Cards.AnalogClassRoundTrip | src/central_node_inputs.cc:493-511 | decoding by the layout gives back the class of every threshold of every FAST device |
| Cards.AnalogMaskRoundTrip | src/central_node_inputs.cc:513-535 | decoding gives back the mask of every integrator, zero exactly when it is bypassed or ignored |
| Cards.AnalogRestIsZero | src/central_node_inputs.cc:477-480 | every other bit is zero |
| Cards.AnalogImageKept | src/central_node_inputs.cc:513-535 | the image depends on nothing but the compiled rules, the ignore flags and the bypasses of FAST devices |
| Cards.ApplicationCard.WriteDigitalConfiguration | src/central_node_inputs.cc:402-447 | a FAST device without exactly one input is an error; otherwise the buffer is the image of all records |
| Cards.DigitalRoundTrip | src/central_node_inputs.cc:412-437 | decoding a record gives back class, mask (zero when bypassed) and expected state of every FAST device |
| Cards.DigitalRestIsZero | src/central_node_inputs.cc:402-404 | every bit outside the records is zero |
| Cards.SampledTells | src/central_node_inputs.cc:72-122 | what an update of a card does to one of its inputs, in status bits |
| FirmwareOutcome.AnalogClassWritten | src/central_node_inputs.cc:493-511 | the class of threshold j of integrator i of a FAST device stands in four bits at 32 * (i * channels + channel) + 4 * j |
| FirmwareOutcome.AnalogMaskWritten | src/central_node_inputs.cc:513-535 | its mask stands in sixteen bits at 768 + 16 * (i * channels + channel), all zero when the integrator is bypassed or it or the device is ignored |
| FirmwareOutcome.AnalogOtherBits | src/central_node_inputs.cc:477-540 | every bit outside these places is zero |
| FirmwareOutcome.DigitalRecordWritten | src/central_node_inputs.cc:402-447 | the record of a FAST digital device stands at 21 * channel: four bits of class, sixteen of mask, zero when bypassed, and the expected state |
| FirmwareOutcome.DigitalOtherBits | src/central_node_inputs.cc:402-404 | every bit outside the records is zero |
| FirmwareOutcome.CardHolds | src/central_node_inputs.cc:368-388 | with an exact image the buffer of a card holds all of this for every FAST device on it |
| FirmwareOutcome.AnalogMaskCompiled | src/central_node_database.cc:499-504 | a mask bit is set exactly when an allowed class of a listed state whose highest bit lies in the byte of that integrator names it |
| FirmwareOutcome.AnalogClassCompiled | src/central_node_database.cc:512-527 | the class of a threshold is the least of the listed states whose lowest bit it is, and 0 without one |
| FirmwareOutcome.LoadRules | src/central_node_database.cc:386-587 | every FAST device ends up with exactly the rules the rows list for it; configuring fails exactly when some fault input cannot be compiled, and the first such one decides how |
| Compile.IntegratorIndex | src/central_node_database.cc:448-466 | the chain of tests gives the same integrator as getIntegrator for every value but zero |
| Tables.DeviceState.GetIntegrator | src/central_node_database_tables.cc:83-96 | the integrator whose byte holds the highest one bit, and 0 for a value of zero |
| Compile.ThresholdIndex | src/central_node_database.cc:468-489 | the scan ends at the lowest bit, and gives up exactly for zero |
| Compile.OneByte | src/central_node_database.cc:448-489 | the lowest bit lies in the byte of the integrator exactly when all bits of the value lie in one byte |
| Compile.CompileAllowedClass | src/central_node_database.cc:499-527 | one more rule keeps each mask the union and each class the least of the rules compiled |
| Compile.CompileAnalog | src/central_node_database.cc:443-531 | a fault input adds exactly the rules of its fault, or fails for a state value of zero |
| Compile.CompileDigital | src/central_node_database.cc:546-582 | a FAST digital device gets union, least class and expected state of its one fault state, or fails |
| Compile.Configuration.ConfigureFaultInputs | src/central_node_database.cc:386-587 | the first fault input that cannot be compiled decides the outcome; without one, every FAST device has exactly the rules collected for it, which `FirmwareRules.RulesAreFed` ties to the configuration |
| FirmwareRules.RulesAreFed | src/central_node_database.cc:443-531 | the rules compiled into an analog device are those of states of faults it feeds, all of them and no others |
| FirmwareRules.CompiledMaskExact | src/central_node_database.cc:499-504 | bit b is in the mask of an integrator exactly when an allowed class of such a state of that integrator names it |
| FirmwareRules.CompiledClassExact | src/central_node_database.cc:512-527 | the class of a threshold is the least of such a state of that threshold, and 0 without one |
| FirmwareRules.CompilationIsConservative | src/central_node_database.cc:443-528 | every rule of a FAST analog device is covered: class no higher, destinations in the mask |
| FirmwareRules.ImageEnforcesRule | src/central_node_inputs.cc:477-540 | for a state of one threshold bit the packed image limits every rule at least as strictly as the configuration asks, unless bypassed or ignored |
| FirmwareRules.ImageEnforcesAnyRule | src/central_node_inputs.cc:477-540 | for a state value of any bits the class is in force at its lowest threshold and the mask at its integrator |
| FirmwareRules.DigitalRuleCovered | src/central_node_database.cc:546-582 | a FAST digital device limits given destinations to a class exactly when the fault it is compiled from does; rules of other faults are lost otherwise |
| FirmwareRules.DigitalCompilationIsConservative | src/central_node_database.cc:546-582 | every rule of that fault is covered |
| FirmwareRules.DigitalImageEnforcesRule | src/central_node_inputs.cc:402-447 | the record in the packed image limits such a rule at least as strictly as asked, unless bypassed, and expects the state that is not faulted |
| FirmwareRules.CompileTwoRules | src/central_node_database.cc:533-582 | a FAST digital device that is an input of two faults of one state is compiled without error |
| FirmwareRules.RuleLost | src/central_node_database.cc:546-582 | of the two rules that of the first fault input is in neither class nor mask of the record |
| Enforcement.AssignEvaluations | src/central_node_database.cc:615-653 | a fault is slow exactly when one of its input devices is, fast otherwise, and one without inputs is an error |
| Enforcement.EveryRuleEnforced | src/central_node_database.cc:615-653 | with exact images, a rule of a fault with a slow input limits every cycle in which the fault counts, and a rule of any other fault is in force on the card of each evaluated input device, a digital one for the fault it is compiled from |
| Cards.ImageFollowsMasks | src/central_node_inputs.cc:477-540 | an image written earlier is still exact if and only if every mask in force is as it was |
| FirmwareMask.Firmware.SetAppTimeoutEnable | src/central_node_firmware.cc:329-340 | one bit of the mask is set or cleared, and none for an id that does not exist |
| Reload.CentralNode.WriteFirmwareConfiguration | src/central_node_database.cc:1170-1190 | afterwards every card's buffer is the exact image of the current state; when asked to, it enables exactly the cards with devices besides those that are |
| Reload.CentralNode.RequestBypass | src/central_node_bypass.cc:357-471 | a request, in test mode or not and for every deadline, changes status, deadline and value of the bypass of the device named and of no other, and keeps the claim that a refresh is pending or the images are exact |
| Reload.CentralNode.BypassRound | src/central_node_bypass.cc:512-525 | after a round of the bypass thread no refresh is pending and the images are exact |
| Reload.CentralNode.UpdateInputs | src/central_node_database.cc:192-204 | every input or analog device of every card takes its sample, devices get the flags of their card, active being its bit in the mask, a reload is asked for exactly when some card changed its mode, and without it no analog device did |
| Reload.CentralNode.EngineRound | src/central_node_engine.cc:1048-1086 | a round writes the images, or leaves all the ignore flags they depend on |
| Reload.CentralNode.SettleUnlatch | src/central_node_database.cc:111-122 | unlatching everything keeps what holds between two steps |
| Reload.CentralNode.SettlePermit | src/central_node_database.cc:1090-1168 | so does a forced class, soft permit or maximum, which changes exactly the limits it is meant for |
| Reload.CentralNode.PermitRound | src/central_node_database.cc:1090-1168 | a known class that is forced, permitted or set as the maximum caps the classes of the next cycle: of one destination, or of all but the laser |
| Reload.CentralNode.CardSampledTells | src/central_node_database.cc:192-204 | what an update does to the inputs and analog devices of a card, in status bits |
| Reload.CentralNode.TakeSteps | src/central_node_engine.cc:1026-1094 | over any sequence of bypass requests, bypass rounds, unlatches, permits, enabled and disabled cards, updates and cycles, a refresh is pending or every buffer is the exact image of the current state, the classes are the least limits of the last cycle, which after a cycle are those of the current inputs, and the history stays a chain that only grows |
| StartUp.EvaluateFirst | src/central_node_engine.cc:747-779 | a first cycle, from flags as constructed, asks for a reload exactly when a mode changed or a condition is met; without one each image stays exact exactly when no device with rules is ignored |
| StartUp.RoundAfterLoad | src/central_node_engine.cc:1048-1086 | with images written and any cards enabled, the first update and cycle establish what every later step keeps exactly when a reload is asked for or no device with rules is on an inactive card |
| StartUp.FirstRound | src/central_node_engine.cc:137-259 | loading, which enables all cards with devices, the first update and the first cycle always establish it |
| StartUp.Operate | src/central_node_engine.cc:137-259 | so from loading on, after any steps, a refresh is pending or the images are exact, and the classes are the least limits of the last cycle |
| StartUp.StaleWhenDisabled | src/central_node_inputs.cc:316-334 | a card disabled between loading and the first update, and taken to be inactive before, keeps an image that is not exact |
| Pipeline.EveryStep | src/central_node_database.cc:127-215 | every step of every thread keeps the invariant that ties queues, devices and evaluation to the sequential loop |
| Pipeline.WrittenIsPrefix | src/central_node_database.cc:1841-1878 | under every interleaving the mitigation messages written are a prefix of those of the sequential loop, one per update and in order |
| Pipeline.DevicesStillWhileEvaluating | src/central_node_engine.cc:1030-1063 | devices are never written while the engine evaluates, and it evaluates a whole number of updates |
| Pipeline.NoDeadlock | src/central_node_database.cc:139-167 | while a message read is unanswered some thread can work |
| Pipeline.WorkGetsDone | src/central_node_database.cc:127-215 | every such step brings the pipeline nearer to having answered all messages |
| SequentialLoop.Loop | src/central_node_engine.cc:1026-1094 | updating the inputs and checking faults on any messages gives, message by message, the words of the pipeline made of card updates and cycles |
| SequentialLoop.LoopStarts | src/central_node_engine.cc:1026-1094 | the loop can be started from every state of a node |
| SequentialLoop.WrittenAreLeastLimits | src/central_node_database.cc:1841-1878 | under every interleaving of the threads mitigation message k holds the words for the least limits of the inputs as update messages up to k leave them |
| SequentialLoop.WordDecodes | src/central_node_firmware.cc:628-635 | those words give, at a bit of one destination, its least limit |
| Queues.Queue.PushBack | src/queue.cc:10-21 | the value is last, and the watermark follows |
| Queues.Queue.PopFront | src/queue.cc:31-45 | the first value is taken |
| Queues.Queue.TryPopFront | src/queue.cc:47-54 | the first value is taken, or nothing when there is none |
| Queues.Queue.GetMaxSize | src/queue.cc:64-69 | the watermark, of which `Queues.WatermarkIsPeak` says what it is |
| Queues.FirstInFirstOut | src/queue.cc:10-62 | over any operations without reset, values come out in the order they went in, none lost and none twice |
| Queues.WatermarkIsPeak | src/queue.cc:10-76 | the watermark is the largest size a push left since it was last cleared |
| TimeAverages.TimeAverage.Update | src/time_util.cc:193-214 | the running sum stays the sum of the last samples, for every size |
| TimeAverages.TimeAverage.UpdateAll | src/time_util.cc:193-214 | so it does over any run of updates |
| TimeAverages.TimeAverage.GetAverage | src/time_util.cc:224-234 | the average divides that sum by exactly the number of samples in it, truncating |
| TimeAverages.TimeAverage.Clear | src/time_util.cc:259-275 | everything is forgotten |
| TimeAverages.WindowIsEnd | src/time_util.cc:193-214 | the window is the last samples, as many as there are up to its size |
| TimeAverages.QuotientTruncates | src/time_util.cc:224-234 | the division truncates toward zero |
| TimeAverages.WindowMoves | src/time_util.cc:193-214 | the sum of the window changes by the new sample less the one that leaves |

## Left out

- Register and stream access, sockets, YAML parsing, logging, printing, thread naming and priorities, clocks: messages, firmware flags and times are parameters.
- Heartbeat, timers, the history sender, the power-class-change reader, DataBuffer, the show functions and uninitialised fields other than the mode of a card: little that could be proved of them. The history is the sequence of fault log calls; logged values are not narrowed to 32 bits.
- Operator calls between pipeline steps: `Pipeline` and `SequentialLoop` leave unlatching, permits, bypasses and enabled cards as they are; `Reload` takes each of them as one step. The images a reload writes play no part in the loop.
- assignBypass as a pass of its own: `Bypass.CreateBypassMap` ties each bypass to its mask word as it is created; its exceptions for inputs without a bypass, which createBypassMap rules out for the configuration it was called with, are left out.
- An integrator index of -1 or 8 for an analog bypass, which indexes outside its array.
- DbAnalogDevice::unlatch with a mask, and writeTimingChecking: the first has no caller, the second no inverse.
- Inputs of a digital device that sit on another card than the device, and the invalid-value counters.
- Bypass.BypassManager.PerformCalls: runs of calls leave out the test mode, whose negative deadlines break the invariant.
- MitigationWords.ExtractMitigation: states the nibbles of any two words; that the first word read is buffer word 1 is in `CycleProperties.DecodedClass`.
- Bypass history records and the reasons logged with them.
