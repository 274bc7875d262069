/**
 * The Fertilizer machine: each time it works it looks at the next block of its
 * work area and, if that block is a registered fertilizable, tries the stacks in
 * its inventory in slot order until one fertilizes the block, consuming from that
 * stack. The host world and the registries are inputs: `Target` is what the world
 * reports about the block, `Registry` holds the fertilizable and fertilizer
 * registries, and the handlers' effects are oracle functions inside them.
 */
module FertilizerMachine {
  import Wrappers

  /** `getSizeInventory()`: ten slots, nine side-accessible from slot 0, then the upgrade slot. */
  const SizeInventory: int := 10
  /** `getStartInventorySide(side)` and `getSizeInventorySide(side)`, for every side. */
  const StartInventorySide: int := 0
  const SizeInventorySide: int := 9
  /** `getUpgradeSlot()`. */
  const UpgradeSlot: int := 9
  /** `getWorkMax()` and `getIdleTicksMax()`. */
  const WorkMax: int := 1
  const IdleTicksMax: int := 20

  /** The upgrade slot is the last slot, just past the side-accessible ones. */
  lemma SlotLayout()
    ensures StartInventorySide + SizeInventorySide == UpgradeSlot
    ensures UpgradeSlot == SizeInventory - 1
    ensures 0 < WorkMax && 0 < IdleTicksMax
  {
  }

  type BlockId = int
  type ItemId = int

  /** An item stack, as a value: its item and its size. */
  datatype ItemStack = ItemStack(item: ItemId, stackSize: int)

  /** An inventory slot: `None` is Java's `null` stack. */
  type Slot = Wrappers.Option<ItemStack>

  /** `FertilizerType`: `None`, or one of the other constants by ordinal. */
  datatype FertilizerType = None | Other(ordinal: nat)

  /**
   * An `IFactoryFertilizer`: the type it reports for a stack, and how much its
   * `consume` takes off that stack's size.
   */
  datatype FactoryFertilizer = FactoryFertilizer(fertilizerType: ItemStack -> FertilizerType, consume: ItemStack -> nat)

  /**
   * An `IFactoryFertilizable`, as it answers for the target block: whether it
   * accepts a type, and whether the `fertilize` call made while trying slot `i`
   * with a type succeeds (world state and randomness are folded into the oracle).
   */
  datatype FactoryFertilizable = FactoryFertilizable(canFertilize: FertilizerType -> bool, fertilize: (int, FertilizerType) -> bool)

  datatype Registry = Registry(fertilizables: map<BlockId, FactoryFertilizable>, fertilizers: map<ItemId, FactoryFertilizer>)

  /** What the world reports about the block the area manager returns next. */
  datatype Target = Target(loaded: bool, block: BlockId)

  /** The result of one `activateMachine` call: its return value and the new state. */
  datatype Outcome = Outcome(worked: bool, inventory: seq<Slot>, idleTicks: int)

  /** The type a slot's stack is fertilizer of, when its item is registered. */
  function TypeOf(fertilizers: map<ItemId, FactoryFertilizer>, stack: ItemStack): FertilizerType
    requires stack.item in fertilizers
  {
    fertilizers[stack.item].fertilizerType(stack)
  }

  /** The slot passes every filter of the scan, so `fertilize` is called for it. */
  predicate Tried(fertilizable: FactoryFertilizable, fertilizers: map<ItemId, FactoryFertilizer>, slot: Slot) {
    slot.Some? && slot.value.item in fertilizers
    && TypeOf(fertilizers, slot.value) != FertilizerType.None
    && fertilizable.canFertilize(TypeOf(fertilizers, slot.value))
  }

  /** Slot `i` is tried and fertilizing with it succeeds. */
  predicate Succeeds(fertilizable: FactoryFertilizable, fertilizers: map<ItemId, FactoryFertilizer>, inv: seq<Slot>, i: int)
    requires 0 <= i < |inv|
  {
    Tried(fertilizable, fertilizers, inv[i])
    && fertilizable.fertilize(i, TypeOf(fertilizers, inv[i].value))
  }

  /** Slot `k` is the first that succeeds. */
  predicate IsFirstSuccess(fertilizable: FactoryFertilizable, fertilizers: map<ItemId, FactoryFertilizer>, inv: seq<Slot>, k: int) {
    0 <= k < |inv| && Succeeds(fertilizable, fertilizers, inv, k)
    && forall j :: 0 <= j < k ==> !Succeeds(fertilizable, fertilizers, inv, j)
  }

  /** The first slot at or after `from` that succeeds, if any. */
  function FirstSuccess(fertilizable: FactoryFertilizable, fertilizers: map<ItemId, FactoryFertilizer>, inv: seq<Slot>, from: nat): (r: Wrappers.Option<nat>)
    requires from <= |inv|
    ensures r.Some? ==> from <= r.value < |inv| && Succeeds(fertilizable, fertilizers, inv, r.value)
    ensures r.Some? ==> forall j :: from <= j < r.value ==> !Succeeds(fertilizable, fertilizers, inv, j)
    ensures r.None? ==> forall j :: from <= j < |inv| ==> !Succeeds(fertilizable, fertilizers, inv, j)
    decreases |inv| - from
  {
    if from == |inv| then Wrappers.None
    else if Succeeds(fertilizable, fertilizers, inv, from) then Wrappers.Some(from)
    else FirstSuccess(fertilizable, fertilizers, inv, from + 1)
  }

  /** The slot after `consume`: emptied exactly when the remaining size is not positive. */
  function Consumed(fertilizer: FactoryFertilizer, stack: ItemStack): (slot: Slot)
    ensures slot.None? <==> stack.stackSize - fertilizer.consume(stack) <= 0
    ensures slot.Some? ==> slot.value == stack.(stackSize := stack.stackSize - fertilizer.consume(stack))
    ensures slot.Some? ==> 0 < slot.value.stackSize <= stack.stackSize
  {
    var size := stack.stackSize - fertilizer.consume(stack);
    if size <= 0 then Wrappers.None else Wrappers.Some(stack.(stackSize := size))
  }

  /**
   * `activateMachine()` as a function of the world's answers, the registries and
   * the old inventory and idle ticks.
   */
  function Activate(target: Target, registry: Registry, inv: seq<Slot>, idleTicks: int): (o: Outcome)
    requires |inv| == SizeInventory
    ensures |o.inventory| == |inv|
    ensures !target.loaded || target.block !in registry.fertilizables ==>
              o == Outcome(false, inv, IdleTicksMax)
    ensures o.worked <==>
              target.loaded && target.block in registry.fertilizables
              && exists k :: 0 <= k < |inv| && Succeeds(registry.fertilizables[target.block], registry.fertilizers, inv, k)
    ensures !o.worked ==> o.inventory == inv && o.idleTicks == IdleTicksMax
    ensures o.worked ==> o.idleTicks == idleTicks
    ensures o.worked ==>
              exists k :: IsFirstSuccess(registry.fertilizables[target.block], registry.fertilizers, inv, k)
                          && o.inventory == inv[k := Consumed(registry.fertilizers[inv[k].value.item], inv[k].value)]
  {
    if !target.loaded || target.block !in registry.fertilizables then Outcome(false, inv, IdleTicksMax)
    else
      var fertilizable := registry.fertilizables[target.block];
      match FirstSuccess(fertilizable, registry.fertilizers, inv, 0)
      case None => Outcome(false, inv, IdleTicksMax)
      case Some(k) =>
        assert IsFirstSuccess(fertilizable, registry.fertilizers, inv, k);
        Outcome(true, inv[k := Consumed(registry.fertilizers[inv[k].value.item], inv[k].value)], idleTicks)
  }

  /** At most one slot is the first success. */
  lemma FirstSuccessUnique(fertilizable: FactoryFertilizable, fertilizers: map<ItemId, FactoryFertilizer>, inv: seq<Slot>, k1: int, k2: int)
    requires IsFirstSuccess(fertilizable, fertilizers, inv, k1)
    requires IsFirstSuccess(fertilizable, fertilizers, inv, k2)
    ensures k1 == k2
  {
  }

  /** Only the chosen slot may change, and slots other than the first success never do. */
  lemma OnlyChosenSlotChanges(target: Target, registry: Registry, inv: seq<Slot>, idleTicks: int, k: int, i: int)
    requires |inv| == SizeInventory
    requires target.loaded && target.block in registry.fertilizables
    requires IsFirstSuccess(registry.fertilizables[target.block], registry.fertilizers, inv, k)
    requires 0 <= i < |inv| && i != k
    ensures Activate(target, registry, inv, idleTicks).worked
    ensures Activate(target, registry, inv, idleTicks).inventory[i] == inv[i]
  {
    var fertilizable := registry.fertilizables[target.block];
    var o := Activate(target, registry, inv, idleTicks);
    var k' :| IsFirstSuccess(fertilizable, registry.fertilizers, inv, k')
              && o.inventory == inv[k' := Consumed(registry.fertilizers[inv[k'].value.item], inv[k'].value)];
    FirstSuccessUnique(fertilizable, registry.fertilizers, inv, k, k');
  }

  /**
   * The scan stops at the first success: whatever the slots after it hold, the
   * call succeeds with the same slot and leaves those later slots as they were.
   */
  lemma LaterSlotsNotExamined(target: Target, registry: Registry, inv1: seq<Slot>, inv2: seq<Slot>, idleTicks: int, k: int)
    requires |inv1| == SizeInventory && |inv2| == SizeInventory
    requires target.loaded && target.block in registry.fertilizables
    requires IsFirstSuccess(registry.fertilizables[target.block], registry.fertilizers, inv1, k)
    requires inv1[..k + 1] == inv2[..k + 1]
    ensures Activate(target, registry, inv2, idleTicks).worked
    ensures Activate(target, registry, inv1, idleTicks).inventory[..k + 1] == Activate(target, registry, inv2, idleTicks).inventory[..k + 1]
    ensures Activate(target, registry, inv2, idleTicks).inventory[k + 1..] == inv2[k + 1..]
  {
    var fertilizable := registry.fertilizables[target.block];
    var fertilizers := registry.fertilizers;
    forall j | 0 <= j <= k
      ensures inv1[j] == inv2[j]
    {
      assert inv1[j] == inv1[..k + 1][j];
    }
    assert IsFirstSuccess(fertilizable, fertilizers, inv2, k) by {
      forall j | 0 <= j < k
        ensures !Succeeds(fertilizable, fertilizers, inv2, j)
      {
        assert inv1[j] == inv2[j];
        assert !Succeeds(fertilizable, fertilizers, inv1, j);
      }
    }
    var o1 := Activate(target, registry, inv1, idleTicks);
    var o2 := Activate(target, registry, inv2, idleTicks);
    var k1 :| IsFirstSuccess(fertilizable, fertilizers, inv1, k1)
              && o1.inventory == inv1[k1 := Consumed(fertilizers[inv1[k1].value.item], inv1[k1].value)];
    var k2 :| IsFirstSuccess(fertilizable, fertilizers, inv2, k2)
              && o2.inventory == inv2[k2 := Consumed(fertilizers[inv2[k2].value.item], inv2[k2].value)];
    FirstSuccessUnique(fertilizable, fertilizers, inv1, k, k1);
    FirstSuccessUnique(fertilizable, fertilizers, inv2, k, k2);
  }

  class TileEntityFertilizer {
    var idleTicks: int
    const inventory: array<Slot>

    ghost predicate Valid() {
      inventory.Length == SizeInventory
    }

    /** A fresh machine with an empty inventory. */
    constructor ()
      ensures Valid() && fresh(inventory)
      ensures forall i :: 0 <= i < inventory.Length ==> inventory[i] == Wrappers.None
      ensures idleTicks == 0
    {
      inventory := new Slot[SizeInventory](_ => Wrappers.None);
      idleTicks := 0;
    }

    /**
     * `canInsertItem(slot, stack, side)`: fertilizer into the side-accessible
     * slots (any index below 9), a usable augment into the upgrade slot, nothing
     * else; `isUsableAugment` is the base machine's test.
     */
    function CanInsertItem(slot: int, stack: Slot, registry: Registry, isUsableAugment: ItemStack -> bool): (ok: bool)
      ensures ok ==> stack.Some?
      ensures slot < StartInventorySide + SizeInventorySide ==> (ok <==> stack.Some? && stack.value.item in registry.fertilizers)
      ensures slot == UpgradeSlot ==> (ok <==> stack.Some? && isUsableAugment(stack.value))
      ensures slot > UpgradeSlot ==> !ok
    {
      if stack.Some? then
        if slot < 9 then stack.value.item in registry.fertilizers
        else if slot == 9 then isUsableAugment(stack.value)
        else false
      else false
    }

    /** `activateMachine()`: `target` is what the world reports about `_areaManager.getNextBlock()`. */
    method ActivateMachine(target: Target, registry: Registry) returns (worked: bool)
      requires Valid()
      modifies this, inventory
      ensures Valid()
      ensures Activate(target, registry, old(inventory[..]), old(idleTicks)) == Outcome(worked, inventory[..], idleTicks)
    {
      if !target.loaded {
        idleTicks := IdleTicksMax;
        return false;
      }
      if target.block !in registry.fertilizables {
        idleTicks := IdleTicksMax;
        return false;
      }
      var fertilizable := registry.fertilizables[target.block];
      var fertilizers := registry.fertilizers;
      ghost var inv := inventory[..];
      for stackIndex := 0 to SizeInventory
        invariant inventory[..] == inv && idleTicks == old(idleTicks)
        invariant forall j :: 0 <= j < stackIndex ==> !Succeeds(fertilizable, fertilizers, inv, j)
      {
        var fertStack := inventory[stackIndex];
        if fertStack.None? || fertStack.value.item !in fertilizers {
          continue;
        }
        var fertilizer := fertilizers[fertStack.value.item];
        var fertilizerType := fertilizer.fertilizerType(fertStack.value);
        if fertilizerType == FertilizerType.None {
          continue;
        }
        if !fertilizable.canFertilize(fertilizerType) {
          continue;
        }
        if fertilizable.fertilize(stackIndex, fertilizerType) {
          var size := fertStack.value.stackSize - fertilizer.consume(fertStack.value);
          if size <= 0 {
            inventory[stackIndex] := Wrappers.None;
          } else {
            inventory[stackIndex] := Wrappers.Some(fertStack.value.(stackSize := size));
          }
          assert IsFirstSuccess(fertilizable, fertilizers, inv, stackIndex);
          assert inventory[..] == inv[stackIndex := Consumed(fertilizer, fertStack.value)];
          return true;
        }
      }
      idleTicks := IdleTicksMax;
      return false;
    }
  }
}
