/**
 The persisted configuration of main/preset_store.h, shared by the preset store and
 the output model. Field widths are explicit; a name is its full 24-byte buffer.
 */
module RcTypes {

  const MAX_VIRTUAL_INPUTS := 16
  const MAX_OUTPUT_CHANNELS := 24
  const MAX_USER_PRESETS := 8
  const CONFIG_MAGIC := 0x52434346
  const CONFIG_VERSION := 5
  const DIRECTORY_VERSION := 2

  type uint8 = x: int | 0 <= x < 0x100
  type int8 = x: int | -0x80 <= x < 0x80

  const NAME_SIZE := 24

  type Name = s: seq<uint8> | |s| == NAME_SIZE witness seq(24, _ => 0)

  const NO_NAME: Name := [0, 0, 0, 0, 0, 0, 0, 0, 0, 0, 0, 0, 0, 0, 0, 0, 0, 0, 0, 0, 0, 0, 0, 0]

  datatype PersistedChannel = PersistedChannel(
    used: uint8, kind: uint8, pin: uint8, inverted: uint8, mixMode: bv8,
    sourceA: int8, sourceB: int8, sourceC: int8,
    weightA: int8, weightB: int8, weightC: int8,
    offsetA: int8, offsetB: int8, offsetC: int8,
    threshold: uint8, name: Name)

  datatype PersistedVirtualInput = PersistedVirtualInput(
    used: uint8, input: uint8, inputSecondary: uint8, inputModifier: uint8, modifierFunction: uint8,
    deadzone: uint8, expo: uint8, packed: bv8, name: Name)

  type InputTable = s: seq<PersistedVirtualInput> | |s| == MAX_VIRTUAL_INPUTS
    witness seq(16, _ => PersistedVirtualInput(0, 0, 0, 0, 0, 0, 0, 0, NO_NAME))

  type ChannelTable = s: seq<PersistedChannel> | |s| == MAX_OUTPUT_CHANNELS
    witness seq(24, _ => PersistedChannel(0, 0, 0, 0, 0, 0, 0, 0, 0, 0, 0, 0, 0, 0, 0, NO_NAME))

  datatype PersistedConfig = PersistedConfig(magic: nat, version: nat, inputs: InputTable, channels: ChannelTable)
}
