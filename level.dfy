/**
 * Level selection (src/level.rs).
 *
 * A `LoadLevel` request names the level to play next: the one after the
 * current level, the first level with a given name, or a level by index. It
 * resolves against the list of levels to a level index, to the end of the
 * game (only a `Next` past the last level), or to an error that changes
 * nothing. Loading a level stores its index and name in the `Level` resource
 * and gives the inventory one slot per entry of the level's inventory map.
 */
module Level {
  import opened Wrappers
  import opened Primitives
  import opened Serialize
  import Inventory

  /** Which level to load. */
  datatype LoadLevel = Next | ByName(name: string) | ByIndex(index: nat)

  /** The outcome of resolving a request against the level list. */
  datatype Resolution = Load(index: nat) | TheEnd | NotFound

  /** The lowest index of a level called `name`, as `enumerate().find` returns it. */
  function FindByName(levels: seq<LevelDesc>, name: string): (r: Option<nat>)
    ensures r.None? <==> forall k :: 0 <= k < |levels| ==> levels[k].name != name
    ensures r.Some? ==> r.value < |levels| && levels[r.value].name == name
    ensures r.Some? ==> forall k :: 0 <= k < r.value ==> levels[k].name != name
  {
    if levels == [] then None
    else if levels[0].name == name then Some(0)
    else
      match FindByName(levels[1..], name)
      case None => None
      case Some(k) => Some(k + 1)
  }

  /** Resolves `request` while level `current` is loaded. */
  function Resolve(request: LoadLevel, current: nat, levels: seq<LevelDesc>): (r: Resolution)
    ensures r.Load? ==> r.index < |levels|
    ensures r.TheEnd? ==> request.Next?
  {
    match request
    case Next =>
      if current + 1 < |levels| then Load(current + 1) else TheEnd
    case ByName(name) =>
      (match FindByName(levels, name)
       case Some(k) => Load(k)
       case None => NotFound)
    case ByIndex(i) =>
      if i < |levels| then Load(i) else NotFound
  }

  /** `Next` moves one level on while there is one, and ends the game after the last level. */
  lemma ResolveNext(current: nat, levels: seq<LevelDesc>)
    ensures Resolve(Next, current, levels) == Load(current + 1) <==> current + 1 < |levels|
    ensures Resolve(Next, current, levels) == TheEnd <==> current + 1 >= |levels|
  {
  }

  /** `ByName` loads the first level of that name; with no such level it is an error. */
  lemma ResolveByName(name: string, current: nat, levels: seq<LevelDesc>)
    ensures Resolve(ByName(name), current, levels).Load? <==> exists k :: 0 <= k < |levels| && levels[k].name == name
    ensures Resolve(ByName(name), current, levels).Load? ==>
              var k := Resolve(ByName(name), current, levels).index;
              levels[k].name == name && forall l :: 0 <= l < k ==> levels[l].name != name
    ensures !Resolve(ByName(name), current, levels).Load? ==> Resolve(ByName(name), current, levels) == NotFound
  {
  }

  /** `ByIndex` loads an existing index and is an error otherwise; neither depends on the current level. */
  lemma ResolveByIndex(i: nat, current: nat, levels: seq<LevelDesc>)
    ensures Resolve(ByIndex(i), current, levels) == (if i < |levels| then Load(i) else NotFound)
  {
  }

  /** The level being played. */
  class Level {
    /** Index into the level list. */
    var index: nat
    /** Display name. */
    var name: string

    constructor ()
      ensures index == 0 && name == ""
    {
      index := 0;
      name := "";
    }
  }

  /** `slots` holds exactly one slot per entry of `inventory`, with that entry's count. */
  ghost predicate SlotsMatch(slots: seq<Inventory.Slot>, inventory: map<BuildableRef, u32>)
    reads slots
  {
    && |slots| == |inventory|
    && (forall k :: 0 <= k < |slots| ==> slots[k].bref in inventory && slots[k].count == inventory[slots[k].bref])
    && (forall k, l :: 0 <= k < l < |slots| ==> slots[k].bref != slots[l].bref)
  }

  /**
   * One new slot per entry of `inventory`. The map's iteration order is not
   * specified, so each step takes any entry not yet taken.
   */
  method SlotsFromInventory(inventory: map<BuildableRef, u32>) returns (slots: seq<Inventory.Slot>)
    ensures SlotsMatch(slots, inventory)
    ensures forall k :: 0 <= k < |slots| ==> fresh(slots[k])
  {
    slots := [];
    var remaining := inventory.Keys;
    while remaining != {}
      invariant remaining <= inventory.Keys
      invariant |slots| + |remaining| == |inventory.Keys|
      invariant forall k :: 0 <= k < |slots| ==> fresh(slots[k])
      invariant forall k :: 0 <= k < |slots| ==>
                  slots[k].bref in inventory && slots[k].bref !in remaining && slots[k].count == inventory[slots[k].bref]
      invariant forall k, l :: 0 <= k < l < |slots| ==> slots[k].bref != slots[l].bref
      decreases |remaining|
    {
      var bref :| bref in remaining;
      var slot := new Inventory.Slot(bref, inventory[bref]);
      slots := slots + [slot];
      remaining := remaining - {bref};
    }
  }

  /**
   * The level-loading system: acts on the last of the pending `events` only.
   * On success it stores the resolved level and replaces the inventory slots;
   * a `Next` past the last level reports the end of the game; an unknown name
   * or index changes nothing. `theEnd` says whether the app moves to its end
   * screen.
   */
  method LoadLevelSystem(level: Level, inventory: Inventory.Inventory, levels: seq<LevelDesc>, events: seq<LoadLevel>)
    returns (theEnd: bool)
    requires inventory.Valid()
    modifies level, inventory
    ensures inventory.Valid()
    ensures events == [] ==> !theEnd && unchanged(level) && unchanged(inventory)
    ensures events != [] ==>
              var r := Resolve(events[|events| - 1], old(level.index), levels);
              && (theEnd <==> r.TheEnd?)
              && (!r.Load? ==> unchanged(level) && unchanged(inventory))
              && (r.Load? ==>
                    && level.index == r.index
                    && level.name == levels[r.index].name
                    && SlotsMatch(inventory.slots, levels[r.index].inventory)
                    && inventory.selectedIndex == Inventory.SetSlotsSelection(old(inventory.selectedIndex), |inventory.slots|))
  {
    theEnd := false;
    if events == [] {
      return;
    }
    var request := events[|events| - 1];
    var levelIndex: nat;
    match request {
      case Next =>
        var nextLevelIndex := level.index + 1;
        if nextLevelIndex < |levels| {
          levelIndex := nextLevelIndex;
        } else {
          theEnd := true;
          return;
        }
      case ByName(levelName) =>
        match FindByName(levels, levelName) {
          case Some(k) =>
            levelIndex := k;
          case None =>
            return;
        }
      case ByIndex(i) =>
        if i < |levels| {
          levelIndex := i;
        } else {
          return;
        }
    }
    var desc := levels[levelIndex];
    level.index := levelIndex;
    level.name := desc.name;
    var slots := SlotsFromInventory(desc.inventory);
    inventory.SetSlots(slots);
  }
}
