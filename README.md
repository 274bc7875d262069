# Fertilizer machine, analog adder circuit and BuildCraft debug switches

A Dafny model of three small pieces of a game-content mod collection (MineFactory Reloaded, with a copy of the
BuildCraft API):

- **`Debugging`** (`bc_debugging.dfy`) models BuildCraft's `BCDebugging`. The JVM property `buildcraft.debug`
  picks a `DebugStatus` once, when the class is initialised. The recognised values are `enable`, `all`, `disable`
  and `log`. Any other value falls back to a dev-environment test. The status fixes two flags, `debugAll` and
  `debugLogging`. For each debug key, an extra property `buildcraft.<key>.debug=true` switches debugging on for
  that key alone. The class is `Debugging.BCDebugging`. Its `const` fields are the static final fields, and its
  constructor is the static initialiser with the same if/else chain. System properties are a
  `map<string, string>`. The initialiser reads that map at class-load time, and `ShouldDebug` reads it at the
  time of each call. `SelectedStatus` states the same decision as a lookup table, and the constructor is proved
  against it.
- **`FertilizerMachine`** (`fertilizer.dfy`) models the tile entity `TileEntityFertilizer`.
  - It is a class with an `idleTicks` field and a ten-slot `array` of optional item stacks.
  - `ActivateMachine` is the source's `for` loop. It has the same early returns, the same skip conditions and
    the same in-place slot update. It is proved equal to the function `Activate`.
  - `Activate`'s contract states the machine's promises. The call fails, with idle ticks set to 20 and the
    inventory untouched, when the block is not loaded or has no fertilizable. Otherwise the call succeeds exactly
    when some slot succeeds. The first such slot is the only one that is consumed, and idle ticks are then left
    alone.
  - `canInsertItem` and the slot layout constants are modelled too.
  - The host world and the registries are inputs. The `Target` says whether the block is loaded and what it
    is. The `Registry` maps blocks to fertilizable handlers and items to fertilizer handlers. The handlers'
    `canFertilize`, `fertilize`, `getFertilizerType` and `consume` are oracle functions.
- **`AdderAnalog`** (`adder_analog.dfy`) models the RedNet analog adder: 2 inputs and 1 output. The output is
  the Java `int` sum of the first two inputs. The module also gives the pin labels `"I" + pin` and `"O" + pin`.
  **`JavaInt`** (`java_int.dfy`) provides the Java semantics these rely on. `Wrap` is 32-bit two's-complement
  wrap-around. `IntToString` is `Integer.toString`, and `ParseInt` is its proved inverse.

## Model

| member | source | states |
|---|---|---|
| `JavaInt.Wrap` | src/powercrystals/minefactoryreloaded/circuits/AdderAnalog.java:22 | the result is a Java `int` congruent to its argument modulo 2^32, and equals it when it is already in range |
| `JavaInt.WrapUnique` | src/powercrystals/minefactoryreloaded/circuits/AdderAnalog.java:22 | exactly one Java `int` is congruent to a number modulo 2^32, so `Wrap` is the wrap-around |
| `JavaInt.Add` | src/powercrystals/minefactoryreloaded/circuits/AdderAnalog.java:22 | Java `a + b` on `int`: congruent to the mathematical sum modulo 2^32 |
| `JavaInt.NatToString` | src/powercrystals/minefactoryreloaded/circuits/AdderAnalog.java:32-41 | the decimal text of a non-negative number is non-empty, all digits, and has no leading zero except for `"0"` itself |
| `JavaInt.DigitsValueOfNatToString` | src/powercrystals/minefactoryreloaded/circuits/AdderAnalog.java:32-41 | reading the decimal text back gives the number (induction on the digits) |
| `JavaInt.IntToString` | src/powercrystals/minefactoryreloaded/circuits/AdderAnalog.java:32-41 | `Integer.toString`: a leading `-` exactly for negative numbers, then the digits of the magnitude with no leading zero (never `-0`, and `0` only as `"0"`) |
| `JavaInt.IntToStringRoundTrip` | src/powercrystals/minefactoryreloaded/circuits/AdderAnalog.java:32-41 | `ParseInt(IntToString(n)) == n` for every integer |
| `JavaInt.NatToStringOfDigitsValue` | src/powercrystals/minefactoryreloaded/circuits/AdderAnalog.java:32-41 | every canonical digit string is the decimal text of the number it denotes |
| `JavaInt.ParseIntRoundTrip` | src/powercrystals/minefactoryreloaded/circuits/AdderAnalog.java:32-41 | `IntToString(ParseInt(s)) == s` for every canonical text, so `ParseInt` and `IntToString` are inverse bijections |
| `JavaInt.IntToStringInjective` | src/powercrystals/minefactoryreloaded/circuits/AdderAnalog.java:32-41 | distinct integers have distinct decimal texts |
| `AdderAnalog.RecalculateOutputValues` | src/powercrystals/minefactoryreloaded/circuits/AdderAnalog.java:20-23 | needs at least `InputCount` (2) inputs; returns `OutputCount` (1) values; the output is congruent to `inputValues[0] + inputValues[1]` modulo 2^32 and equal to it when no overflow occurs |
| `AdderAnalog.OutputIsWrappedSum` | src/powercrystals/minefactoryreloaded/circuits/AdderAnalog.java:20-23 | the output is exactly the wrapped sum of the first two inputs |
| `AdderAnalog.OverflowWraps` | src/powercrystals/minefactoryreloaded/circuits/AdderAnalog.java:22 | `MAX_VALUE + 1` yields `MIN_VALUE` |
| `AdderAnalog.OutputIndependentOfWorldTime` | src/powercrystals/minefactoryreloaded/circuits/AdderAnalog.java:20-23 | the world time has no effect on the output |
| `AdderAnalog.OutputCommutative` | src/powercrystals/minefactoryreloaded/circuits/AdderAnalog.java:22 | swapping the two inputs gives the same output |
| `AdderAnalog.ExtraInputsIgnored` | src/powercrystals/minefactoryreloaded/circuits/AdderAnalog.java:20-23 | inputs after the second do not affect the output |
| `AdderAnalog.InputPinLabel` | src/powercrystals/minefactoryreloaded/circuits/AdderAnalog.java:32-35 | an input label is `I` followed by a canonical decimal text that reads back as the pin |
| `AdderAnalog.OutputPinLabel` | src/powercrystals/minefactoryreloaded/circuits/AdderAnalog.java:38-41 | an output label is `O` followed by a canonical decimal text that reads back as the pin |
| `AdderAnalog.PinLabelsUseIntegerText` | src/powercrystals/minefactoryreloaded/circuits/AdderAnalog.java:32-41 | the text after the letter is exactly `Integer.toString(pin)` |
| `AdderAnalog.PinLabelsDistinct` | src/powercrystals/minefactoryreloaded/circuits/AdderAnalog.java:32-41 | distinct pins have distinct labels, and no input label equals an output label |
| `Debugging.GetProperty` | src/buildcraft/api/core/BCDebugging.java:31 | `System.getProperty`: a value exactly when the name is set, and it is that name's value |
| `Debugging.SelectedStatus` | src/buildcraft/api/core/BCDebugging.java:31-46 | `All` exactly for `"all"`. `LoggingOnly` exactly for `"log"`. `Enable` exactly for `"enable"`, or for an unrecognised or absent value in a dev environment. `None` exactly for `"disable"`, or for an unrecognised or absent value outside one |
| `Debugging.ExplicitValuesSelect` | src/buildcraft/api/core/BCDebugging.java:31-39 | `enable`, `all`, `disable` and `log` select `Enable`, `All`, `None` and `LoggingOnly`, whatever the environment |
| `Debugging.OtherValuesFollowEnvironment` | src/buildcraft/api/core/BCDebugging.java:40-46 | any other value, or an absent property, selects `Enable` in a dev environment and `None` otherwise |
| `Debugging.CaseVariantsNotRecognised` | src/buildcraft/api/core/BCDebugging.java:32-39 | any value that differs from a recognised value only in letter case is not recognised, so the dev-environment test decides |
| `Debugging.ExplicitValueOverridesEnvironment` | src/buildcraft/api/core/BCDebugging.java:34-40 | a recognised value selects the same status in and out of a dev environment; `disable` gives `None` even in a dev environment |
| `Debugging.GetRaw` | src/buildcraft/api/core/BCDebugging.java:96-98 | true exactly when the property is set and is exactly `"true"`; an absent property gives false |
| `Debugging.GetProp` | src/buildcraft/api/core/BCDebugging.java:100-102 | the per-key name is `buildcraft.`, then the key, then `.debug` |
| `Debugging.KeyOfProp` | src/buildcraft/api/core/BCDebugging.java:100-102 | the candidate inverse of `getProp`: when it accepts a name, the key it returns accounts for the rest of the name's length. `KeyOfPropRoundTrip` and `GetPropRoundTrip` prove that it recovers the key |
| `Debugging.KeyOfPropRoundTrip` | src/buildcraft/api/core/BCDebugging.java:100-102 | `KeyOfProp(GetProp(key)) == Some(key)` |
| `Debugging.GetPropRoundTrip` | src/buildcraft/api/core/BCDebugging.java:100-102 | every name that `KeyOfProp` accepts is the per-key property name of the key it returns |
| `Debugging.GetPropDistinct` | src/buildcraft/api/core/BCDebugging.java:100-102 | distinct keys have distinct property names, and no per-key name is `buildcraft.debug` |
| `Debugging.BCDebugging.constructor` | src/buildcraft/api/core/BCDebugging.java:22-61 | the if/else chain picks the status `SelectedStatus` gives for the value of `buildcraft.debug` and the environment test; `debugAll` holds iff the status is `All`; `debugLogging` holds iff the status is `All` or `LoggingOnly` |
| `Debugging.BCDebugging.FlagsOrdered` | src/buildcraft/api/core/BCDebugging.java:59-60 | `debugAll` implies `debugLogging`; `debugLogging` holds iff the status is `All` or `LoggingOnly` |
| `Debugging.BCDebugging.ShouldDebug` | src/buildcraft/api/core/BCDebugging.java:71-94 | true exactly when `isAll` holds, or when the status is not `None` and `buildcraft.<key>.debug` is set to exactly `"true"` |
| `Debugging.BCDebugging.ShouldDebugComplex` | src/buildcraft/api/core/BCDebugging.java:63-65 | true exactly under `All`, or under `Enable` or `LoggingOnly` when the key's property is `"true"` |
| `Debugging.BCDebugging.ShouldDebugLog` | src/buildcraft/api/core/BCDebugging.java:67-69 | true exactly under `All` or `LoggingOnly`, or under `Enable` when the key's property is `"true"` |
| `Debugging.BCDebugging.IsAllOverridesKey` | src/buildcraft/api/core/BCDebugging.java:73-76 | `shouldDebug` is true when `isAll` is, whatever the properties say |
| `Debugging.BCDebugging.NoneSilencesKey` | src/buildcraft/api/core/BCDebugging.java:77-79 | with status `None` and `isAll` false, the answer is false, even when the key's property is set to `"true"` |
| `Debugging.BCDebugging.KeySwitchDecides` | src/buildcraft/api/core/BCDebugging.java:71-94 | with any other status and `isAll` false, the answer is true iff `buildcraft.<key>.debug` is set to exactly `"true"` |
| `Debugging.BCDebugging.UnderAll` | src/buildcraft/api/core/BCDebugging.java:63-69 | under `All`, `shouldDebugComplex` and `shouldDebugLog` are true for every key |
| `Debugging.BCDebugging.UnderLoggingOnly` | src/buildcraft/api/core/BCDebugging.java:63-69 | under `LoggingOnly`, `shouldDebugLog` is true for every key, and `shouldDebugComplex` follows the key's property |
| `Debugging.BCDebugging.UnderEnable` | src/buildcraft/api/core/BCDebugging.java:63-69 | under `Enable`, both answers follow the key's property |
| `Debugging.BCDebugging.UnderNone` | src/buildcraft/api/core/BCDebugging.java:63-69 | under `None`, both answers are false |
| `FertilizerMachine.SlotLayout` | src/powercrystals/minefactoryreloaded/tile/machine/TileEntityFertilizer.java:100-134 | the 9 side-accessible slots start at 0 and are followed by upgrade slot 9, the last of the 10 slots; the work and idle maxima, 1 and 20, are positive |
| `FertilizerMachine.FirstSuccess` | src/powercrystals/minefactoryreloaded/tile/machine/TileEntityFertilizer.java:72-94 | the scan in increasing slot order returns the first slot whose stack passes every filter and whose `fertilize` call succeeds, or none when no slot does |
| `FertilizerMachine.Consumed` | src/powercrystals/minefactoryreloaded/tile/machine/TileEntityFertilizer.java:86-90 | after `consume`, the slot is emptied exactly when the remaining size is not positive; otherwise it holds the same stack with its size reduced by exactly the consumed amount |
| `FertilizerMachine.Activate` | src/powercrystals/minefactoryreloaded/tile/machine/TileEntityFertilizer.java:54-98 | an unloaded block or an unregistered block gives false, idle ticks 20 and an unchanged inventory. Otherwise the result is true iff some slot succeeds. On success only the first succeeding slot is replaced, by its consumed stack, and idle ticks are unchanged. On failure the inventory is unchanged and idle ticks are 20 |
| `FertilizerMachine.FirstSuccessUnique` | src/powercrystals/minefactoryreloaded/tile/machine/TileEntityFertilizer.java:85-92 | the slot that is consumed is determined uniquely |
| `FertilizerMachine.OnlyChosenSlotChanges` | src/powercrystals/minefactoryreloaded/tile/machine/TileEntityFertilizer.java:85-92 | when slot `k` is the first success, the call succeeds and every other slot keeps its contents |
| `FertilizerMachine.LaterSlotsNotExamined` | src/powercrystals/minefactoryreloaded/tile/machine/TileEntityFertilizer.java:72-94 | the slots after the first success do not affect the result or the earlier slots, and they stay as they were |
| `FertilizerMachine.TileEntityFertilizer.constructor` | src/powercrystals/minefactoryreloaded/tile/machine/TileEntityFertilizer.java:31-38 | a new machine has 10 empty slots and idle ticks 0 |
| `FertilizerMachine.TileEntityFertilizer.CanInsertItem` | src/powercrystals/minefactoryreloaded/tile/machine/TileEntityFertilizer.java:137-147 | a null stack is always refused. Any slot below 9, the side-accessible range, takes exactly the registered fertilizer items. The upgrade slot 9 takes exactly usable augments. Every slot above 9 refuses |
| `FertilizerMachine.TileEntityFertilizer.ActivateMachine` | src/powercrystals/minefactoryreloaded/tile/machine/TileEntityFertilizer.java:54-98 | the in-place loop returns, and leaves in the inventory array and `idleTicks`, exactly what `Activate` gives for the old state |

## Left out

- Logging: every `BCLog.logger.info` call in `BCDebugging` is output only. The model keeps only the statuses and booleans that are returned.
- The `type` argument of `shouldDebug` (`"complex"` or `"log"`) appears only in log messages, so `ShouldDebug` does not take it.
- The dev-environment test `World.class.getName().contains("World")` is a boolean parameter of the `BCDebugging` constructor. Class names and reflection are not modelled.
- `getGui` and `getContainer` build client GUI and container objects. They are not modelled.
- `Random`, the particle and sound `playEvent` call and the `MFRConfig.playSounds` check are not modelled. They have no effect on the return value or the inventory.
- The abstract host: `_areaManager.getNextBlock`, `worldObj.isBlockLoaded` and `getBlockState` become the `Target` input. `MFRRegistry` becomes the `Registry` input. The block's real changes from `fertilize` are not modelled, only the boolean it returns.
- FactoryFertilizable.fertilize: its outcome is an oracle indexed by the slot being tried. This stands for the world and random state at that call; the world changes themselves are not modelled.
- FactoryFertilizable.canFertilize: it is a function of the fertilizer type alone, fixed for the whole scan. The model therefore assumes that a failed `fertilize` call does not change what `canFertilize` answers for later slots.
- FactoryFertilizer.consume: the amount taken off the stack is an oracle `nat`. Other effects of `consume` on the stack are not modelled.
- ItemStack: a value, not a shared object. The model does not capture two slots holding the same Java object. The same goes for references to a stack that are kept outside the inventory.
- Stack sizes are unbounded integers. A Java `int` underflow from a `consume` on a stack near `Integer.MIN_VALUE` is not modelled.
- `FertilizerType`: its declaration is not part of this model. Only `None` is told apart; every other constant is `Other(ordinal)`.
- `getUnlocalizedName` returns a fixed localisation key. It is not modelled.
- The arguments `side` of `canInsertItem`, `getStartInventorySide` and `getSizeInventorySide` are unused by the code. The getters are constants.
- The base classes `TileEntityFactoryPowered` and `TileEntityFactoryInventory` are not part of this model. These are where `setIdleTicks`, `setInventorySlotContents`, `isUsableAugment` and the inventory allocation live. `setIdleTicks` is modelled as assigning the field. `setInventorySlotContents` is modelled as assigning the array slot. `isUsableAugment` is an oracle parameter of `CanInsertItem`. The constructor's starting state (empty slots, idle ticks 0) is assumed.
- `IFactoryHarvestable` and `ILiquidDrinkHandler` are interfaces with no code, so there is nothing in them to model.
- AdderAnalog.RecalculateOutputValues: requires at least two inputs. With a shorter array, Java throws `ArrayIndexOutOfBoundsException`, and that exception is not modelled.
- A `null` `inputValues` array in `recalculateOutputValues` is not modelled; inputs are a `seq`. The `long` world time is an unbounded `int`, and it is unused.
