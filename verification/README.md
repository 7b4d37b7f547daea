# Verification of the ESP32 RC controller's stateful cores

This project models the parts of the firmware that keep state over time, and proves
what they guarantee over every input or every run. Each component has its own module.
Code that updates state in place is a class or a method with loops, proved against a
function or relation; the lemmas beside it prove the properties a user relies on.

| files | component |
|---|---|
| `RcTypes`, `PresetNames`, `PresetStore`, `PresetMap` | the user preset store: a name directory and numbered blobs in NVS, seen as a bounded case-insensitive map |
| `RcConfig`, `OutputPins`, `ConfigRoundTrip`, `Rollback`, `RcModel` | the output model: pin allocation, transactional apply with rollback, packed export, failsafe writes |
| `Toggles`, `ControlInputs`, `SignalPath`, `SignalLaws` | toggle inputs, the signal path from a raw HID axis to servo ticks, and what direct inputs and mixed outputs amount to |
| `Clock`, `FailsafeLoop` | the control loop with a wrapping 32-bit clock |
| `ControllerSeats`, `ControllerDrivers` | controller seats, connect and disconnect edges, the active gamepad |
| `ScanScheduler` | the Bluetooth scan scheduler |
| `Sketch` | the controller update with its connection callbacks, as one event to the gamepad pointer, the control loop and the scheduler |
| `JsonText`, `JsonWriter` | the JSON emitter, a recursive printer and a parser for its text |
| `LedcAllocator`, `ServoChannels` | the LEDC channel and timer allocator of ESP32Servo, and which outputs of a configuration get a channel |
| `PartitionCodec`, `PartitionLayout` | the partition table tool: binary records, offset fix-up, overlap check |
| `Crc32` | the reflected CRC-32 |
| `ReportRing` | the ring of outgoing HID reports and its re-send path |

Floats are reals. The board (which pins carry PWM, on which pins a servo attaches), the
NVS call outcomes, the radio's answers, the MD5 digest and the general `powf` exponent
are arbitrary functions, so the results hold for every choice of them; where order along
the expo curve matters, the power function is required to be monotone on 0..1 with fixed
ends (`SignalPath.GoodPower`). Times are real milliseconds, read through a 32-bit counter
where the firmware does so.

Some natural claims are false of the code. For each there is a lemma with a concrete
input, and one with the exact condition:

- A suggested model name is not always free (`PresetNames.SuggestionCanBeTaken`, exactly when: `PresetNames.NextNameIsFreeIff`): a suffix does not survive the 23-character limit.
- One export and apply is not always the identity (`ConfigRoundTrip.OneTripCanChange`, `ConfigRoundTrip.OneTripIsIdentityIff`): failsafe modes Center and Max are exchanged.
- A rejected configuration does not always give the old pins back (`Rollback.RollbackCanMovePins`; `Rollback.RejectionIsExactIff` and, in the configuration's own terms, `Rollback.RejectionAsAskedIff`), and can leave two outputs on one pin (`Rollback.RollbackCanSharePin`, `Rollback.RollbackIsDistinctIff`).
- A silence can go unnoticed when the counter wraps between ticks (`FailsafeLoop.GapBoundIsSharp`, `FailsafeLoop.SafeIff`).
- A joining gamepad can stay unbound although no other is bound (`ControllerSeats.ConnectedPadCanStayUnbound`, `ControllerSeats.NoneBoundIff`).
- An allocation at a frequency that truncates to -1 breaks the timer tables (`LedcAllocator.AllocateCanBreakTables`, `LedcAllocator.AllocateKeepsInvIff`), and so can setting up an allocated object again (`LedcAllocator.SetupCanBreakTables`, `LedcAllocator.CheckKeepsInvIff`).
- Sizes given as end addresses can defeat the offset fix-up (`PartitionLayout.NegativeSizeBreaksLayout`; in order: `PartitionLayout.FixUpIsOrderedIff`; passing verify: `PartitionLayout.FixUpPassesVerifyIff`).
- Waiting reports can be overtaken (`ReportRing.ReportsCanBeOvertaken`, `ReportRing.RunInOrderIff`).
- A scan pulse can be cut short when the counter wraps (`ScanScheduler.PulseCanBeCutShort`, `ScanScheduler.PulsesAreLongIff`), or run on for a whole counter period (`ScanScheduler.PulseCanRunOn`, `ScanScheduler.PulsesEndOnTimeIff`), and pairing can outlast its window (`ScanScheduler.PairingCanOutlastWindow`, `ScanScheduler.TickGuarantees`).
- An accepted servo can lack a hardware channel (`ServoChannels.AcceptedServoCanLackChannel`, `ServoChannels.ServosServedIff`): there are sixteen.
- Deleting a preset can lose another one, when its blob cannot be read (`PresetStore.DeleteCanLoseAPreset`, `PresetStore.DeleteKeepsOthersIff`).

## Model

| member | source | states |
|---|---|---|
| PresetNames.SanitizePresetName | main/preset_store.cpp:24-42 | stopping the scan at 23 characters gives the same name as cleaning the whole trimmed text and cutting it |
| PresetNames.SanitizeIsClean | main/preset_store.cpp:24-42 | every sanitized name has 1 to 23 characters, all letters, digits, underscore or dash |
| PresetNames.SanitizeFixedPoints | main/preset_store.cpp:24-42 | the names sanitizing leaves alone are exactly the clean ones |
| PresetNames.SanitizeIsIdempotent | main/preset_store.cpp:24-42 | sanitizing twice is sanitizing once |
| PresetNames.SpacesBecomeUnderscores | main/preset_store.cpp:24-42 | a short name of allowed characters and inner spaces only has its spaces replaced |
| PresetNames.OuterSpaceIsDropped | main/preset_store.cpp:24-42 | white space around a name makes no difference |
| PresetNames.OtherCharactersAreDropped | main/preset_store.cpp:24-42 | a character that is neither allowed nor a space makes no difference inside a name |
| PresetNames.SanitizeKeepsFront | main/preset_store.cpp:24-42 | a name of allowed characters keeps its first 23, and an empty one becomes "preset" |
| PresetNames.AllowedIff | main/preset_store.cpp:24-42 | the allowed characters, by code |
| PresetNames.SameNameIff | main/preset_store.cpp:13-20 | two names are the same to the store exactly when they have equal length and at each position the same letter in either case, or the same other character |
| PresetNames.SanitizeKeepsCase | main/preset_store.cpp:24-42 | spellings that differ in letter case only sanitize to names that do |
| PresetNames.DecimalIsItsNumber | main/preset_service.cpp:29-41 | a suffix is its number in decimal digits without leading zeros |
| PresetNames.OneSuffixIsFree | main/preset_service.cpp:29-41 | eight stored names cannot cover a base of at most 21 characters and its suffixes 2 to 9 |
| PresetNames.ShortBaseGetsShortSuffix | main/preset_service.cpp:29-41 | for such a base the search returns a clean unused name among base, base_2 .. base_9, never the clock fallback |
| PresetNames.NextNameIsFreeIff | main/preset_service.cpp:29-41 | the exact condition under which the returned name is unused once sanitized |
| PresetNames.SuggestionCanBeTaken | main/preset_service.cpp:29-41 | a stored 23-character name for which the returned name is taken |
| PresetStore.Store.LoadPresetDirectory | main/preset_store.cpp:44-75 | a directory that cannot be opened or read, is foreign or outdated reads as an empty one, and the count is clamped to 8 |
| PresetStore.Store.FindPresetSlotByName | main/preset_store.cpp:13-20 | the first slot whose name matches regardless of case, or -1 |
| PresetStore.Store.SaveUserPresetBlob | main/preset_store.cpp:91-140 | replaces or appends one entry; whichever write fails the list is either untouched or fully updated; a directory that cannot be opened or read is taken for empty, so a save then leaves its preset alone in the list, or fails having at most overwritten the first one; other NVS keys are unchanged |
| PresetStore.Store.LoadUserPreset | main/preset_store.cpp:142-190 | returns the stored configuration or the error for unknown, damaged, foreign or outdated presets |
| PresetStore.Store.DeleteUserPreset | main/preset_store.cpp:192-273 | removes the target and every slot that is damaged or whose read fails, keeps the rest in order, leaves no blob at or above the new count, and changes nothing when the directory cannot be read |
| PresetStore.Store.CompactBlobs | main/preset_store.cpp:213-252 | the in-place downward copy leaves exactly the entries that are intact and could be read in the first slots |
| PresetStore.Store.EraseTail | main/preset_store.cpp:254-258 | the leftover slots are erased and the kept ones are not touched |
| PresetStore.KeptIsRemoval | main/preset_store.cpp:213-252 | when no blob is damaged, what survives a delete is the list without its target, in order |
| PresetStore.DeleteKeepsOthersIff | main/preset_store.cpp:213-252 | a delete keeps every intact preset but its target if and only if the read of none of them fails |
| PresetStore.DeleteCanLoseAPreset | main/preset_store.cpp:228-232 | deleting one of two presets while the other cannot be read leaves none |
| PresetStore.Store.PresetNameExists | main/preset_service.cpp:17-27 | true exactly when the sanitized name is in the directory, regardless of case |
| PresetStore.Store.NextAvailableCustomModelName | main/preset_service.cpp:29-41 | the loop computes the first free candidate over the stored directory |
| PresetMap.RunRefines | main/preset_store.cpp:91-273 | over any run of saves, loads and deletes the store answers as a case-insensitive map of at most 8 names, and keeps representing it |
| PresetMap.StepRefines | main/preset_store.cpp:91-273 | the same for one request: distinct names, no damaged entry, every binding held once |
| PresetMap.Serve | main/preset_store.cpp:91-273 | each store method is one step of that run when its NVS calls succeed, and blobs stay only below the count |
| PresetMap.ServeAll | main/preset_store.cpp:91-273 | any run of saves, loads and deletes on the store itself, when its NVS calls succeed, is answered as the map answers it, and leaves the store representing what the map ends as, with blobs only below the count |
| PresetMap.ServeFromEmpty | main/preset_store.cpp:91-273 | the same from an empty flash and the empty map, with no assumption on the store |
| PresetMap.LastTouchDecides | main/preset_store.cpp:91-273 | after any run, the last acknowledged save or delete of a name decides what it is bound to |
| PresetMap.UntouchedStaysBound | main/preset_store.cpp:91-273 | a name no acknowledged request touches stays bound as it was |
| PresetMap.LoadAfter | main/preset_store.cpp:91-273 | a load from the store after any run returns what the last acknowledged save of that name stored, in any spelling, and is unknown after an acknowledged delete |
| PresetMap.SaveThenLoad | main/preset_store.cpp:91-190 | on the store, a preset whose save is acknowledged loads back under any spelling, and other names load as before |
| PresetMap.SaveThenLoadAnyCase | main/preset_store.cpp:13-190 | on the store, after an acknowledged save any spelling that differs in letter case only loads that configuration, and a name that differs otherwise once sanitized answers as before |
| PresetMap.SameKeyIff | main/preset_store.cpp:13-42 | two spellings reach the same preset exactly when what the sanitizer leaves of them differs in letter case only |
| PresetMap.DeleteThenLoad | main/preset_store.cpp:142-273 | on the store, a preset whose delete is acknowledged is unknown, and other names load as before |
| RcConfig.ChannelRoundTrip | main/rc_model.cpp:547-566 | a packed channel unpacks to itself, up to the failsafe exchange, exactly when its fields are in range |
| RcConfig.FailsafeField | main/rc_model.cpp:101-114 | bits 4 and 5 of the mode byte: 1 is Min, 2 is Max, and 3 as well as the historical 0 is Center |
| RcConfig.ChannelBytes | main/rc_model.cpp:547-566 | the bytes a channel is written as, with Min as 1, Center as 2 and Max as 3 |
| RcConfig.InputBytes | main/rc_model.cpp:534-545 | the bytes a virtual input is written as |
| RcConfig.InputCarriesSettings | main/rc_model.cpp:596-660 | a used input slot of a configuration installs the settings its bytes say: type nibble, range and rumble bits, modifier codes 1 to 4, cut percentages, terminated name |
| RcConfig.InputRoundTrip | main/rc_model.cpp:534-545 | a packed virtual input unpacks to itself exactly when its fields are in range |
| RcConfig.InputsRoundTrip | main/rc_model.cpp:596-660 | exporting and applying the virtual inputs is the identity exactly on tables with in-range used slots and blank unused ones |
| ConfigRoundTrip.ExportThenApply | main/rc_model.cpp:525-742 | applying an exported in-range configuration with distinct attachable pins succeeds and keeps every field but the failsafe mode |
| ConfigRoundTrip.OneTripIsIdentityIff | main/rc_model.cpp:101-114 | one trip is the identity if and only if every used channel fails safe to Min |
| ConfigRoundTrip.OneTripCanChange | main/rc_model.cpp:101-114 | a channel failing safe to Center for which one trip is not the identity |
| ConfigRoundTrip.TwoTripsAreIdentity | main/rc_model.cpp:525-742 | two trips are the identity on inputs and outputs |
| ConfigRoundTrip.StoredConfigIsAccepted | main/rc_model.cpp:572-760 | what an accepted configuration writes back to NVS is accepted at the next start, on the same pins and with every field but the failsafe mode |
| OutputPins.ChoosePinFailsIff | main/rc_model.cpp:420-457 | a PWM channel is refused exactly when its requested pin and all pins 0 to 48 are incapable, taken or refused by the attach |
| OutputPins.SetupEffect | main/rc_model.cpp:413-472 | a successful setup changes only the channel's pin, to one nobody else holds, and not at all if the requested one is usable |
| OutputPins.ApplyIsSound | main/rc_model.cpp:680-737 | an accepted configuration has pairwise distinct pins, valid sources, capable and attachable PWM pins, and all other fields as asked |
| OutputPins.AcceptedCarriesSettings | main/rc_model.cpp:680-737 | every channel of an accepted configuration carries the settings its bytes say: type, inversion, mode bit, sources within -1..15, cut weights, offsets and threshold, terminated name |
| OutputPins.BadSourceIsRefused | main/rc_model.cpp:685-693 | a channel is refused for a bad source exactly when one of its sources is not within -1..15 |
| OutputPins.AcceptedWithoutRemap | main/rc_model.cpp:680-737 | distinct attachable pins and valid sources mean acceptance pin for pin |
| OutputPins.ApplyOneRefusesIff | main/rc_model.cpp:680-737 | a channel is refused exactly for a bad source, a taken switch pin, or no usable PWM pin, and what it is left as |
| OutputPins.RejectedIff | main/rc_model.cpp:680-737 | a configuration is rejected exactly when some channel is refused after those before it were accepted |
| OutputPins.RefusalLeaves | main/rc_model.cpp:680-737 | a rejection leaves the channels before the refused one as if asked for alone, and that one, unless its sources were bad, on the pin it asked for last |
| OutputPins.BeforeRefusal | main/rc_model.cpp:680-737 | those channels have distinct suitable pins and all other fields as asked |
| Rollback.RollbackKeepsAllButPins | main/rc_model.cpp:662-678 | after a rollback every field of every channel but its pin is the old one, and channels that were not attached are wholly unchanged |
| Rollback.RollbackIsExactIff | main/rc_model.cpp:662-678 | pins and attachments all come back if and only if no attached channel shares its old pin with a later channel of the partial table or an earlier one of the old table |
| Rollback.AcceptedIsSound | main/rc_model.cpp:572-742 | an accepted configuration leaves distinct pins, and attachments the rollback results apply to |
| Rollback.RejectionIsExactIff | main/rc_model.cpp:572-742 | a rejected configuration gives the old outputs back, pins and servos included, if and only if no channel up to the refused one was put on the old pin of an earlier attached channel, and no attached channel already shared its pin with an earlier one |
| Rollback.RejectionAsAskedIff | main/rc_model.cpp:572-742 | the same when the channels before the refused one ask for distinct drivable pins: none of them asks for, and the refused one is not left on, such a pin |
| Rollback.RollbackCanMovePins | main/rc_model.cpp:662-678 | a configuration whose rejection makes channel 0 lose its pin |
| Rollback.RollbackIsDistinctIff | main/rc_model.cpp:662-678 | a rollback leaves distinct pins if and only if no earlier channel was moved onto the pin of one that is put back unchecked, and always leaves attachments sound |
| Rollback.RunIsSound | main/rc_model.cpp:572-742 | over every run of accepted and rejected configurations attachments are sound, and pins are distinct exactly after an acceptance or a rollback that put no channel onto a taken pin |
| Rollback.RollbackCanSharePin | main/rc_model.cpp:662-678 | a rejection that leaves a servo and a switch on one pin |
| RcModels.FailsafeLevelIsItsPulse | main/rc_model.cpp:496-517 | the level reported at failsafe is the one whose pulse is the failsafe pulse |
| RcModels.AcceptedFailsafeUs | main/rc_model.cpp:82-114 | from the persisted mode byte to the pulse: at failsafe a servo of an accepted configuration holds 1000, 2000, or, for the codes 0 and 3, 1500 us |
| RcModels.RcModel.OutputPinAlreadyUsed | main/rc_model.cpp:241-251 | true exactly when another used channel has the pin |
| RcModels.RcModel.FirstAvailablePwmPin | main/rc_model.cpp:253-264 | the least capable pin of 0 to 48 that no other channel holds, if any |
| RcModels.RcModel.TryAttachOnPin | main/rc_model.cpp:420-438 | attaches exactly when the pin is capable, free and accepted |
| RcModels.RcModel.ScanPins | main/rc_model.cpp:440-451 | the fallback scan ends on the least usable pin or leaves the channel detached |
| RcModels.RcModel.SetupOutputHardware | main/rc_model.cpp:413-472 | agrees with the table-level setup; on success the channel is driven on its pin and holds its failsafe |
| RcModels.RcModel.ReleaseOutputHardware | main/rc_model.cpp:406-411 | the servo and its flag are both cleared, and nothing else |
| RcModels.RcModel.WriteFailsafeForOutput | main/rc_model.cpp:496-517 | the channel holds its failsafe pulse or a low pin, and no other channel moves |
| RcModels.RcModel.ApplyFailsafeAllOutputs | main/rc_model.cpp:519-523 | every attached servo of a used output holds its failsafe pulse, every switch is off, and inputs and other servos are untouched |
| RcModels.RcModel.ApplyPersistedConfig | main/rc_model.cpp:572-742 | success installs exactly the accepted tables on distinct pins with every PWM channel attached and all outputs at failsafe; a failure returns the inputs exactly and the outputs as the rollback leaves them; toggle memory is reset either way; an accepted configuration, and no other, is written back to NVS as exported, whether or not that write works |
| RcModels.RcModel.SaveRuntimeConfigToNvs | main/rc_model.cpp:744-760 | reports success exactly when every NVS call worked, and then the exported configuration is stored |
| RcModels.RcModel.RestoreOld | main/rc_model.cpp:662-678 | the rollback loop computes the table-level rollback, with flags and servos in step |
| RcModels.RcModel.InstallOutputs | main/rc_model.cpp:680-737 | the channel loop computes the table-level apply, up to the first refusal |
| RcModels.RcModel.InstallInputs | main/rc_model.cpp:596-660 | installs the decoded inputs and gives each used one its starting toggle state |
| RcModels.RcModel.EvaluateVirtualRuntime | main/rc_model.cpp:328-383 | every input takes one tick of its own state machine and no other; without a controller all levels rest, buttons are forgotten and positions kept |
| RcModels.RcModel.EvaluateToggleVirtualInput | main/rc_model.cpp:129-186 | one tick of one toggle, disturbing no other toggle |
| RcModels.RcModel.MoveToggle | main/rc_model.cpp:149-173 | the position update of an enabled toggle |
| RcModels.RcModel.ProcessGamepadToOutputs | main/rc_model.cpp:385-404 | every input takes one tick, every attached servo of a used output holds the pulse of its mixed signal and, on distinct pins, every switch its level; other servos are untouched |
| Toggles.TwoPositionsAreParity | main/rc_model.cpp:129-186 | after any run of ticks and disconnects a two-position toggle stands at the parity of its counted presses |
| Toggles.ThreePositionsAreWave | main/rc_model.cpp:129-186 | a single-button three-position toggle stands on the triangle wave at its phase, recentering included |
| Toggles.PlainThreePositions | main/rc_model.cpp:129-186 | with no recentering modifier that phase is the start plus the counted presses |
| Toggles.TwoButtonsCommand | main/rc_model.cpp:129-186 | a three-position toggle with two buttons stands where its last lone press or recentering put it |
| Toggles.ToggleLevels | main/rc_model.cpp:175-186 | a bipolar toggle contributes -1, 0 or 1 and a unipolar one 0, 0.5 or 1 by position, and nothing when lost or disabled |
| Toggles.StartsForgotten | main/rc_model.cpp:638-655 | an applied input starts with every button forgotten, at rest or, for a bipolar three-position toggle, at its middle |
| Toggles.RuntimeIsToggleRun | main/rc_model.cpp:328-383 | any run of firmware ticks on a toggle input, with or without a controller, is a toggle run over what its buttons show |
| Toggles.TwoPositionInputIsParity | main/rc_model.cpp:328-383 | from the state apply sets, a two-position input stands at the parity of its counted presses after any run of firmware ticks |
| Toggles.ThreePositionInputIsWave | main/rc_model.cpp:328-383 | likewise a single-button three-position input stands on the triangle wave |
| Toggles.TwoButtonInputFollows | main/rc_model.cpp:328-383 | likewise a two-button three-position input follows its last command |
| Toggles.DirectInputContributes | main/rc_model.cpp:363-382 | a direct input contributes its evaluated level, nothing without a controller, and keeps its position |
| Toggles.DisabledPressIsConsumed | main/rc_model.cpp:116-147 | a press that begins while disabled and is held into an enabled tick moves nothing |
| ControlInputs.AxisScales | components/bluepad32/parser/uni_hid_parser.c:78-100 | for ranges up to 2^22 the unsigned subtraction and 32-bit product are exact and the axis lands in -512..511 |
| ControlInputs.AxisIsMonotone | components/bluepad32/parser/uni_hid_parser.c:78-100 | a larger logical value never gives a smaller axis |
| ControlInputs.AxisLandmarks | components/bluepad32/parser/uni_hid_parser.c:78-100 | the middle of the range reads 0 and the lower end of an even range reads -512 |
| ControlInputs.ByteAxisScales | components/bluepad32/parser/uni_hid_parser.c:78-100 | a byte axis, signed or unsigned, moves four steps per unit, from -512 over 0 at its middle to 508 |
| ControlInputs.MaximumIsUnsigned | components/bluepad32/parser/uni_hid_parser.c:82-86 | a maximum of -1 stands for all bits of the field set |
| ControlInputs.AxesAreScaled | main/control_inputs.cpp:51-69 | each axis id reads its own axis, of which 512 steps are full deflection |
| ControlInputs.TriggersAreScaled | main/control_inputs.cpp:51-69 | throttle and brake read their own triggers, of which 1023 steps are a full press |
| ControlInputs.DigitalsAreOnOff | main/control_inputs.cpp:70-99 | a digital input reads 1 exactly when its button or its bit of the pad is down |
| ControlInputs.AnalogsAreActiveAtHalf | main/control_inputs.cpp:102-118 | a stick counts as pressed from half deflection either way, a trigger from half its travel, and no other id does |
| SignalPath.DeadzoneShape | main/rc_model.cpp:62-70 | the deadzone is odd, vanishes exactly within its band and keeps full deflection |
| SignalPath.ExpoShape | main/rc_model.cpp:72-81 | the expo curve is odd and keeps the centre and both ends |
| SignalPath.SourcesCommute | main/rc_model.cpp:290-326 | in both mixing modes the order of the three sources does not matter |
| SignalLaws.DeadzoneIsLinear | main/rc_model.cpp:62-70 | outside its band the deadzone is linear from 0 at the edge to full deflection |
| SignalLaws.ExpoIsPower | main/rc_model.cpp:72-81 | expo 50 squares and 100 cubes the deflection, 0 leaves it, and in between the library's power applies |
| SignalLaws.ExchangeNegates | main/rc_model.cpp:266-288 | exchanging the two inputs of a pair negates its value |
| SignalLaws.PairIsMonotone | main/rc_model.cpp:266-288 | a pair never falls when its primary rises and never rises when its secondary does |
| SignalLaws.PairEnds | main/rc_model.cpp:266-288 | a full press of one input of a pair alone is full deflection, and equal presses cancel |
| SignalLaws.ThrottleAgainstBrake | main/rc_model.cpp:266-288 | full throttle alone gives 1 and full brake alone -1, whatever deadzone and expo |
| SignalLaws.UnshapedIsPassedOn | main/rc_model.cpp:266-288 | without deadzone and expo a single input is passed on, and a pair as its difference |
| SignalLaws.ModifierActs | main/rc_model.cpp:276-284 | a released modifier blocks an Activate input and a pressed one a Desactivate input, a pressed one negates a Reverse input, and otherwise it makes no difference |
| SignalLaws.AddedSourcesSuperpose | main/rc_model.cpp:290-326 | short of the ends, changing one added source by d changes the signal by d times its weight, whatever the others hold |
| SignalLaws.OffsetsAddUp | main/rc_model.cpp:290-326 | with every source at rest an adding output stands at the cut sum of its offsets |
| SignalLaws.RestingFactorSilences | main/rc_model.cpp:290-326 | a resting source without offset silences a multiplying output |
| SignalLaws.MultipliedSourcesScale | main/rc_model.cpp:290-326 | short of the ends, scaling one multiplied source scales the signal alike |
| SignalLaws.UnitFactorIsAbsent | main/rc_model.cpp:290-326 | a source at full level and weight, like an absent one, makes no difference to a multiplying output |
| SignalLaws.NoTermIsSilent | main/rc_model.cpp:290-326 | an output without terms, or unused, is silent |
| SignalLaws.PulseScale | main/rc_model.cpp:188-192 | an output following one source at full weight spans 1000 to 2000 us, with 1500 at rest |
| SignalLaws.PulseIsNearest | main/rc_model.cpp:188-192 | the pulse is the nearest microsecond to 1500 plus 500 per full signal |
| SignalLaws.SwitchThreshold | main/rc_model.cpp:194-199 | a switch is on exactly when its signal, either way, reaches its threshold percentage |
| SignalLaws.TicksAreLimited | components/ESP32Servo/src/ESP32Servo.cpp:167-185 | a pulse outside 1000 to 2000 us is written as the nearer end |
| SignalLaws.TicksAreShareOfPeriod | components/ESP32Servo/src/ESP32Servo.cpp:262-265 | timer ticks are the pulse's share of the 20 ms period, rounded down |
| SignalPath.DeadzoneIsMonotone | main/rc_model.cpp:62-70 | the deadzone keeps order and stays within -1..1 |
| SignalPath.ExpoIsMonotone | main/rc_model.cpp:72-81 | the expo curve keeps order |
| SignalPath.DirectIsMonotone | main/rc_model.cpp:266-288 | a direct axis input keeps the order of the axis |
| SignalPath.PulseIsMonotone | main/rc_model.cpp:188-192 | an output that follows one source keeps its order in the pulse, which stays in 1000..2000 |
| SignalPath.TicksAreNotClamped | components/ESP32Servo/src/ESP32Servo.cpp:167-185 | within the pulse range the servo library's limits never alter the ticks |
| SignalPath.StickToServoIsMonotone | main/rc_model.cpp:266-326 | end to end, a larger raw HID value never gives a shorter pulse or fewer timer ticks |
| SignalPath.InvertMirrorsPulse | main/rc_model.cpp:290-326 | inverting an output mirrors its pulse about 1500 to within one microsecond |
| FailsafeLoop.ControlLoop.ProcessControlTick | main/runtime_loop.cpp:5-30 | one tick of the loop relation and of its outputs: a packet puts every output on its mixed signal, a timeout or a missing controller on its failsafe, the latter with all inputs at rest, and any other tick changes nothing |
| FailsafeLoop.ControlLoop.OnConnectedController | main/sketch.cpp:1067-1083 | a gamepad is bound only when none is; binding restarts the silence timer and leaves the outputs as they are |
| FailsafeLoop.ControlLoop.OnDisconnectedController | main/sketch.cpp:1085-1092 | losing the bound gamepad makes the outputs safe |
| FailsafeLoop.SilenceMeansSafe | main/runtime_loop.cpp:5-30 | in every run paced below 2^32-450 ms, a tick after more than 450 ms of real silence, or with no controller, leaves every used output safe |
| FailsafeLoop.ReportIsTruthful | main/sketch.cpp:602 | whenever the status reports failsafe the outputs are safe, with no assumption on timing |
| FailsafeLoop.TickIsSafeIff | main/runtime_loop.cpp:18-25 | however a run is paced, a tick without data makes unsafe outputs safe exactly when the silence since the last contact, modulo the counter period, exceeds the timeout |
| FailsafeLoop.SafeIff | main/runtime_loop.cpp:5-30 | over every run, the outputs are safe exactly when the last contact left them so or some event since found the controller missing or such a silence |
| FailsafeLoop.SafeUntilNextPacket | main/runtime_loop.cpp:5-30 | safe outputs stay safe until the next packet, however often the clock wraps |
| FailsafeLoop.PacketIsHeld | main/runtime_loop.cpp:5-30 | from a packet until the next packet, failsafe or disconnect, each attached servo holds the pulse of that packet's levels, and each switch its level |
| FailsafeLoop.FailsafeIsHeld | main/runtime_loop.cpp:5-30 | from a failsafe or disconnect until the next packet every servo holds its failsafe pulse and every switch is off |
| FailsafeLoop.StatusIff | main/sketch.cpp:602 | over every run the status reports failsafe exactly when no controller is bound or some tick since the last contact saw more than the timeout of silence |
| FailsafeLoop.GapBoundIsSharp | main/runtime_loop.cpp:18-25 | the pacing bound cannot be raised by one millisecond |
| ControllerSeats.UpdateConsumesReports | components/bluepad32_arduino/arduino_platform.c:303-321 | an update leaves every seat to its device and no report waiting |
| ControllerSeats.SeatsAreExclusive | components/bluepad32_arduino/arduino_platform.c:168-232 | no two devices share a seat |
| ControllerSeats.ReadyGetsSeatIff | components/bluepad32_arduino/arduino_platform.c:192-232 | a waiting device gets a seat exactly when one is free, and that seat was free |
| ControllerSeats.ReportWaits | components/bluepad32_arduino/arduino_platform.c:234-249 | a seated device's report waits on its seat and on no other until the seats are polled |
| ControllerSeats.UpdateEffect | components/bluepad32_arduino/ArduinoBluepad32.cpp:19-71 | after an update the flags match the seats, a bound gamepad is connected, and its successor is given by an independent rule |
| ControllerSeats.RunKeepsInv | components/bluepad32_arduino/arduino_platform.c:168-232 | under any interleaving of device events and updates: seats counted and exclusive, bound gamepad connected, callbacks alternating per index |
| ControllerSeats.NoneBoundIff | components/bluepad32_arduino/ArduinoBluepad32.cpp:41-71 | an update leaves no gamepad bound if and only if the bound one is gone or missing and every gamepad that joins does so below it; else a present one is kept and an absent one replaced by the first that joins above |
| ControllerSeats.ConnectedPadCanStayUnbound | main/sketch.cpp:1067-1092 | a pad that joins below a bound pad leaving in the same update is not bound |
| ControllerDrivers.Platform.OnDeviceConnected | components/bluepad32_arduino/arduino_platform.c:168-172 | a connected device starts without a seat |
| ControllerDrivers.Platform.OnControllerData | components/bluepad32_arduino/arduino_platform.c:234-249 | a report is left waiting on the device's own seat |
| ControllerDrivers.Platform.OnDeviceReady | components/bluepad32_arduino/arduino_platform.c:192-232 | refuses when full or already seated, else takes the first free seat |
| ControllerDrivers.Platform.OnDeviceDisconnected | components/bluepad32_arduino/arduino_platform.c:174-190 | frees the device's seat and counts it |
| ControllerDrivers.Platform.GetControllerData | components/bluepad32_arduino/arduino_platform.c:303-321 | hands a waiting report out once |
| ControllerDrivers.Bluepad32.PollSeats | components/bluepad32_arduino/ArduinoBluepad32.cpp:24-39 | collects exactly the occupied seats and the reports waiting on them |
| Sketch.Callbacks.OnConnectedController | main/sketch.cpp:1067-1083 | binding happens to the gamepad pointer, the control loop and the scheduler together or to none of them |
| Sketch.Callbacks.OnDisconnectedController | main/sketch.cpp:1085-1092 | so does losing the bound gamepad |
| Sketch.Callbacks.Update | components/bluepad32_arduino/ArduinoBluepad32.cpp:19-71 | the loops, the early return included, compute the update of the link; the control loop and the scheduler see the bound gamepad leave and another bound exactly as the link does; and an update that finds the bound gamepad's seat empty leaves every used output safe |
| Sketch.Callbacks.ReportEdge | components/bluepad32_arduino/ArduinoBluepad32.cpp:46-66 | one edge calls the matching callback, and all three see the same change |
| ScanScheduler.Scheduler.UpdateBtScanScheduler | main/sketch.cpp:290-328 | one tick of the scheduler relation |
| ScanScheduler.Scheduler.OnGamepadBound | main/sketch.cpp:1077-1082 | binding a gamepad ends pairing and stops the scan |
| ScanScheduler.Scheduler.HandleApiPairingOn | main/sketch.cpp:970-975 | opens the pairing window from now and lets the next tick start a pulse |
| ScanScheduler.Scheduler.HandleApiPairingOff | main/sketch.cpp:977-982 | closes the pairing window |
| ScanScheduler.SwitchTimes | main/sketch.cpp:290-328 | how long a tick waits before the next switch: 1500 and 12000 ms on and off, 3500 and 900 ms while pairing, 2000 ms with a gamepad |
| ScanScheduler.ExpiryActsAtOnce | main/sketch.cpp:290-296 | the tick that finds the window over ends pairing and switches at once, on idle times |
| ScanScheduler.RequestsActAtOnce | main/sketch.cpp:970-982 | a pairing request opens a two minute window, and each request, binding or loss lets the next tick act at once |
| ScanScheduler.CommandsAlternate | main/sketch.cpp:274-288 | over every run the radio is told to start, stop, start, stop, ... |
| ScanScheduler.TickAgreesIff | main/sketch.cpp:290-328 | a tick does what it would do on a counter that never wraps, exactly when it misjudges no deadline |
| ScanScheduler.CountersAgreeIff | main/sketch.cpp:290-328 | a run is the run on such a counter if and only if no tick has its deadline beyond the next wrap, or behind the last one with a reading above the clock's |
| ScanScheduler.RunsAgreeIff | main/sketch.cpp:290-328 | the same for the whole run from setup on |
| ScanScheduler.NoneMisjudgedBeforeWrap | main/sketch.cpp:290-328 | no deadline is misjudged until two minutes before the counter's first wrap |
| ScanScheduler.PairingIff | main/sketch.cpp:290-328 | over every run, however often the counter wraps, pairing is on exactly when the last request or binding that sets it was a pairing request and no tick since has read past the end of its window |
| ScanScheduler.TickGuarantees | main/sketch.cpp:290-328 | scanning is off after any tick with a gamepad; after a tick past the window pairing is on exactly when every tick since the request took the window for open, which takes a wrap between the window's end and each tick past it |
| ScanScheduler.PairingCanOutlastWindow | main/sketch.cpp:290-296 | a window that ends just before a wrap, and a tick after it that leaves pairing on |
| ScanScheduler.PulsesAreLongIff | main/sketch.cpp:310-327 | in an idle stretch an on pulse lasts at least 1500 ms and an off pulse at least 12000 ms, except exactly when it would end beyond the counter's next wrap and the next tick comes before that wrap |
| ScanScheduler.PulseCanBeCutShort | main/sketch.cpp:310-327 | a pulse of one millisecond |
| ScanScheduler.PulsesEndOnTimeIff | main/sketch.cpp:310-327 | a pulse ends at the first tick at or past its deadline, except exactly when the counter wrapped in between and reads below the deadline; then it runs on through every tick of a whole counter period |
| ScanScheduler.PulseCanRunOn | main/sketch.cpp:310-327 | a pulse due half a second before the wrap and still on after it |
| ScanScheduler.PaidForInMilliseconds | main/sketch.cpp:310-327 | the bound of the next row: 12000 times the time on is at most 1500 plus the gap times the time off plus 12000 |
| ScanScheduler.ScanDutyIsBounded | main/sketch.cpp:310-327 | in an idle stretch whose ticks neither miss the end of an on pulse nor anticipate that of an off pulse, every 12000 ms off pays for at most 1500 ms plus a tick gap of scanning, with one pulse free and what a running pulse has left at the start |
| JsonText.EscapeRoundTrip | main/json_utils.cpp:88-122 | unescaping an escaped string gives the string back, for every string |
| JsonText.EscapesAre | main/json_utils.cpp:88-122 | what each character is written as |
| JsonText.PrintRoundTrip | main/json_utils.cpp:7-145 | a parser recovers every well-formed tree from its printed text and stops where the text ends |
| JsonText.PrintIsInjective | main/json_utils.cpp:7-145 | two documents with the same text are the same document |
| JsonWriters.JsonWriter.BeforeValue | main/json_utils.cpp:124-139 | writes a comma exactly between two items of the innermost array |
| JsonWriters.JsonWriter.Key | main/json_utils.cpp:37-48 | writes the comma, the quoted key and the colon inside an object, and nothing elsewhere |
| JsonWriters.JsonWriter.BeginObject | main/json_utils.cpp:7-12 | opens an object as a value of the enclosing container |
| JsonWriters.JsonWriter.BeginArray | main/json_utils.cpp:22-27 | opens an array as a value of the enclosing container |
| JsonWriters.JsonWriter.EndObject | main/json_utils.cpp:14-20 | closes the innermost container, if any |
| JsonWriters.JsonWriter.EndArray | main/json_utils.cpp:29-35 | closes the innermost container, if any |
| JsonWriters.JsonWriter.StringValue | main/json_utils.cpp:50-54 | writes a quoted string in value position |
| JsonWriters.JsonWriter.RawValue | main/json_utils.cpp:60-82 | writes a number, a boolean or ready JSON in value position |
| JsonWriters.EscapeString | main/json_utils.cpp:88-122 | the loop computes the recursive escape |
| JsonWriters.JsonWriter.Write | main/json_utils.cpp:7-145 | driven by a tree nested within the 16-deep stack, the writer appends exactly the printed text and restores its stack |
| JsonWriters.WriteDocument | main/json_utils.cpp:7-145 | the text of a whole document parses back to the document |
| LedcAllocator.Ledc.TimerAndIndexToChannel | components/ESP32Servo/src/ESP32PWM.cpp:98-109 | the search returns the timer's channel of that index, or -1 past the fourth |
| LedcAllocator.Ledc.AllocateNext | components/ESP32Servo/src/ESP32PWM.cpp:110-213 | an allocated object keeps its channel; an unallocated one takes the first free channel of the first timer that accepts it |
| LedcAllocator.Ledc.Deallocate | components/ESP32Servo/src/ESP32PWM.cpp:214-241 | frees the channel and marks its timer idle when it was the last owner |
| LedcAllocator.Ledc.CheckFrequencyForSideEffects | components/ESP32Servo/src/ESP32PWM.cpp:571-612 | on any object: allocates if it has no channel, brings the owners it looks at to the frequency, and keeps the tables consistent exactly when that is harmless |
| LedcAllocator.ChannelsAreExclusive | components/ESP32Servo/src/ESP32PWM.cpp:110-241 | no channel has two owners |
| LedcAllocator.AllocateFailsIff | components/ESP32Servo/src/ESP32PWM.cpp:184-212 | allocation fails exactly when every timer is full or has an owner at another truncated frequency |
| LedcAllocator.TruncDropsFraction | components/ESP32Servo/src/ESP32PWM.cpp:111 | a frequency's truncation drops its fraction, whatever the sign |
| LedcAllocator.AllocateKeepsInvIff | components/ESP32Servo/src/ESP32PWM.cpp:110-213 | the tables stay consistent unless a successful allocation's frequency truncates to -1 |
| LedcAllocator.AllocateCanBreakTables | components/ESP32Servo/src/ESP32PWM.cpp:110-213 | an allocation at -1 Hz that breaks them |
| LedcAllocator.CheckKeepsInvIff | components/ESP32Servo/src/ESP32PWM.cpp:571-612 | the check keeps the tables consistent if and only if an unallocated object stays clear of the idle mark, and an allocated one asks for its timer's truncated frequency or for one no other owner looked at is away from |
| LedcAllocator.SetupCanBreakTables | components/ESP32Servo/src/ESP32PWM.cpp:571-612 | two servos on one timer, one of which is set up again at another frequency |
| LedcAllocator.ReleaseKeepsInv | components/ESP32Servo/src/ESP32PWM.cpp:214-241 | a deallocation keeps the tables consistent |
| LedcAllocator.RunKeepsInv | components/ESP32Servo/src/ESP32PWM.cpp:98-241 | over every run of creations, harmless setups and disposals counts equal owned channels, owners agree with their timer's frequency, and idle timers read -1 |
| ServoChannels.SetUpServesFirst | components/ESP32Servo/src/ESP32PWM.cpp:110-213 | servos set up in turn at one frequency get a channel each, first come first served, until all sixteen are taken, and take none from others |
| ServoChannels.ServosServedIff | components/ESP32Servo/src/ESP32PWM.cpp:485-535 | the first sixteen PWM outputs of a table get a channel each and no other does: all have one if and only if there are at most sixteen |
| ServoChannels.AcceptedServoCanLackChannel | main/rc_model.cpp:413-472 | an accepted configuration whose seventeenth servo counts as attached and has no channel |
| PartitionCodec.FromBinary | components/arduino/tools/gen_esp32part.py:370-390 | the loop over rows computes the recursive parse |
| PartitionCodec.RecordRoundTrip | components/arduino/tools/gen_esp32part.py:593-626 | a record reads back with at most its name cut, and unchanged exactly when its name has at most 16 bytes and no zero byte |
| PartitionCodec.RecordLayout | components/arduino/tools/gen_esp32part.py:609-626 | where a record keeps its fields, byte by byte |
| PartitionCodec.RecordsAreChecked | components/arduino/tools/gen_esp32part.py:593-607 | a record is rejected exactly for a wrong magic byte, and only the two lowest flag bits matter |
| PartitionCodec.RecordStep | components/arduino/tools/gen_esp32part.py:373-389 | a record is never mistaken for an end marker or an MD5 row |
| PartitionCodec.TableReadsBack | components/arduino/tools/gen_esp32part.py:369-399 | every table that can be packed reads back row for row, names cut to their fields, with or without the MD5 row |
| PartitionCodec.TableRoundTripIff | components/arduino/tools/gen_esp32part.py:369-399 | a table survives packing and reading back if and only if its fields and names fit and it has at most 95 rows, the MD5 row included |
| PartitionCodec.TableRoundTrip | components/arduino/tools/gen_esp32part.py:369-399 | every storable table that fits reads back unchanged, with or without the MD5 row |
| PartitionCodec.EndMarkerRemains | components/arduino/tools/gen_esp32part.py:392-399 | every packed image ends in an end marker |
| PartitionCodec.CutImagesAreRejected | components/arduino/tools/gen_esp32part.py:370-390 | an image that ends without an end marker, or in part of a row, is rejected for that |
| PartitionCodec.ToBinaryFailsIff | components/arduino/tools/gen_esp32part.py:392-399 | packing fails for a field that is too wide, else for more than 95 rows, and each has its own error |
| PartitionCodec.WrongDigestIsCaught | components/arduino/tools/gen_esp32part.py:379-386 | a digest row that does not match its records is rejected |
| PartitionLayout.FixUp | components/arduino/tools/gen_esp32part.py:221-250 | the in-place pass computes the recursive placement, and fails exactly when that does |
| PartitionLayout.FixUpFollowsSpans | components/arduino/tools/gen_esp32part.py:221-250 | a table is accepted exactly when each ordinary row starts at or after the end of the ordinary row above it; they then land where the given rows say |
| PartitionLayout.PrimaryRowsAreTransparent | components/arduino/tools/gen_esp32part.py:221-250 | primary bootloader and partition-table rows are passed over: the others land, or are refused, as if those were not there |
| PartitionLayout.PrimaryRowsByCode | components/arduino/tools/gen_esp32part.py:223-228 | the rows passed over, and allowed below the table, are those of type 2 or 3 and subtype 0 |
| PartitionLayout.FixUpIsOrderedIff | components/arduino/tools/gen_esp32part.py:221-250 | the ordinary rows of an accepted table come out in increasing order without overlap if and only if none of them, as given, starts behind the one above it when that one names an end behind its own start |
| PartitionLayout.FixUpIsOrdered | components/arduino/tools/gen_esp32part.py:221-250 | in particular they do when no final size is negative |
| PartitionLayout.OffsetsAreLeast | components/arduino/tools/gen_esp32part.py:241-248 | given offsets are kept; a missing one is the least aligned address at or after the previous end |
| PartitionLayout.FixUpPassesVerifyIff | components/arduino/tools/gen_esp32part.py:221-312 | an accepted table passes verify's overlap check if and only if each ordinary row that, as given, starts behind an earlier one fits into a gap there, and no primary row overlaps another row |
| PartitionLayout.FixUpPassesVerify | components/arduino/tools/gen_esp32part.py:221-312 | in particular it passes, and no two rows share an address, when no primary row overlaps another and no final size is negative or no row steps back |
| PartitionLayout.NegativeSizeBreaksLayout | components/arduino/tools/gen_esp32part.py:246-248 | a table with a negative final size that the pass accepts and verify rejects |
| PartitionLayout.SteppingBackCanPass | components/arduino/tools/gen_esp32part.py:246-248 | a table out of order that still passes verify |
| PartitionLayout.VerifyDecidesPairs | components/arduino/tools/gen_esp32part.py:298-312 | whatever the sizes, checking neighbours of the sorted list decides every pair of the list as given |
| PartitionLayout.VerifyOverlaps | components/arduino/tools/gen_esp32part.py:298-312 | the loop over the sorted rows decides the neighbour check |
| PartitionLayout.VerifiedIsDisjoint | components/arduino/tools/gen_esp32part.py:298-312 | a list that passes has no address in two of its rows, whatever the sizes |
| PartitionLayout.VerifyIsExact | components/arduino/tools/gen_esp32part.py:298-312 | with positive sizes it passes if and only if no row is too low and no two rows share an address |
| Crc32.UpdateCrc | components/bluepad32/uni_utils.c:9-22 | the nested loops compute the recursive checksum |
| Crc32.ShiftIsInvertible | components/bluepad32/uni_utils.c:16-17 | one shift step loses no information |
| Crc32.CrcIsRemainder | components/bluepad32/uni_utils.c:7-22 | bit-reversed, the checksum is the remainder of polynomial division by the generator of section 8 of RFC 1952 |
| Crc32.CrcComposes | components/bluepad32/uni_utils.c:9-22 | the checksum of a concatenation continues from the checksum of its first part |
| Crc32.CrcIsLinear | components/bluepad32/uni_utils.c:9-22 | the checksum is linear over xor in the start value and the message together |
| Crc32.CrcIsBitCrc | components/bluepad32/uni_utils.c:9-22 | the byte loop computes the bit-serial register |
| Crc32.BitBurstsAreDetected | components/bluepad32/uni_utils.c:9-22 | messages of any length that differ only within 32 consecutive bits, wherever these start, have different checksums |
| Crc32.BurstsAreDetected | components/bluepad32/uni_utils.c:9-22 | in particular messages that differ only within four consecutive bytes |
| ReportRing.Ring.Put | components/bluepad32/uni_circular_buffer.c:11-26 | appends to a queue of capacity 31 or reports full or too big, writing only the tail slot |
| ReportRing.Ring.Get | components/bluepad32/uni_circular_buffer.c:28-40 | removes the oldest packet and names its slot, or reports empty |
| ReportRing.Ring.IsFull | components/bluepad32/uni_circular_buffer.c:46-48 | true exactly at 31 packets |
| ReportRing.Ring.Reset | components/bluepad32/uni_circular_buffer.c:50-52 | empties the queue |
| ReportRing.HidDevice.SendReport | components/bluepad32/uni_hid_device.c:797-822 | sends, queues or drops a report; queueing never writes another slot than the tail |
| ReportRing.HidDevice.SendQueuedReports | components/bluepad32/uni_hid_device.c:844-863 | re-sends the oldest report without disturbing the slot it is read from |
| ReportRing.SlotRoundTrip | components/bluepad32/uni_hid_device.c:844-863 | the channel id survives the signed field |
| ReportRing.DrainNeverLoses | components/bluepad32/uni_hid_device.c:844-863 | the oldest report is sent or moved to the back: the requeue never fails |
| ReportRing.RunConserves | components/bluepad32/uni_hid_device.c:797-863 | over any run the reports waiting and sent are exactly those taken on |
| ReportRing.AcceptedDrainsAreFifo | components/bluepad32/uni_hid_device.c:844-863 | while the radio accepts, reports leave in queue order |
| ReportRing.StepKeepsOrderIff | components/bluepad32/uni_hid_device.c:797-863 | an event keeps the order reports were taken on if and only if it moves none past a different one |
| ReportRing.RunInOrderIff | components/bluepad32/uni_hid_device.c:797-863 | over any run the reports sent and waiting are, at every moment, in the order they were taken on if and only if no event moves one past a different one |
| ReportRing.ReportsCanBeOvertaken | components/bluepad32/uni_hid_device.c:797-863 | a refused re-send, and a direct send while a report waits, that reorder reports |

## Left out

- Wi-Fi, web server, DNS, HTML, console, logging, rumble and trace text: input and output plumbing.
- Bluetooth connection, SDP, GATT and BLE service code, and the per-controller HID parsers.
- PresetStore.Store.DeleteUserPreset: after a failing write nothing is claimed beyond untouched foreign keys, because blobs may already have moved under the old directory.
- PresetStore.Store.SaveUserPresetBlob: null pointer arguments are not modelled.
- PresetStore.Store.CompactBlobs: the guard against a ninth slot is not written out, because at most seven entries survive.
- RcModels.RcModel.ApplyPersistedConfig: toggle memory is not rolled back, as in the code.
- RcModels.RcModel: the C++ global arrays are fields of sequence type that methods reassign, so only aliasing between arrays, which the code does not have, is not captured. A servo attach is an oracle on the pin; the timers and channels behind it are the subject of LedcAllocator, and ServoChannels says which outputs get one.
- rebuildOutputHardware and the web handlers that edit one channel or input at a time.
- Boot-model and current-model bookkeeping, and the built-in preset tables.
- Exact float32 rounding, `powf` exponents other than 2 and 3 beyond monotonicity with fixed ends, and Arduino's number formatting (JSON numbers are opaque tokens).
- JsonText.PrintRoundTrip: the parser reads the compact form the writer produces; insignificant white space and surrogate pairs in `\u` escapes are not parsed.
- JsonWriters.JsonWriter.Write: documents deeper than the 16-entry stack are excluded, as the code does not check for them.
- JsonWriters.JsonWriter.BeginObject: a seventeenth open container, which would overrun the stack, is excluded; likewise for BeginArray.
- LedcAllocator: PWM objects are named by ids instead of pointers; MCPWM on the ESP32-S3, explicit timer mode, `PWMCount`, `adjustFrequency` and `writeTone` are not part of this model.
- ControlInputs.AxisScales: ranges above 2^22 overflow the 32-bit product, which C leaves undefined.
- CSV text parsing and printing, UTF-8 decoding of names, and verify's checks of alignment, duplicate names and otadata rows in the partition tool.
- PartitionLayout.FixUpPassesVerifyIff: primary rows without an offset are excluded, as verify cannot sort them.
