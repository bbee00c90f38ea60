/**
 * Inventory of a level being played (src/inventory.rs, the part without UI).
 *
 * An inventory is a list of slots, each holding a buildable reference and a
 * `u32` item count, and the index of the selected slot. The selection moves
 * with wrap-around (previous / next) or jumps to an index.
 */
module Inventory {
  import opened Wrappers
  import opened Primitives
  import opened Serialize

  /** Visual state of a slot frame. */
  datatype SlotState = Normal | Selected | Empty

  /** The visual state of a slot: empty slots show as empty whether selected or not. */
  function SlotStateFromData(count: u32, selected: bool): (r: SlotState)
    ensures r == Empty <==> count == 0
    ensures r == Selected <==> count > 0 && selected
    ensures r == Normal <==> count > 0 && !selected
  {
    if count == 0 then Empty
    else if selected then Selected
    else Normal
  }

  /** One inventory slot; `PopItem` changes its count in place. */
  class Slot {
    const bref: BuildableRef
    var count: u32

    constructor (bref: BuildableRef, count: u32)
      ensures this.bref == bref && this.count == count
    {
      this.bref := bref;
      this.count := count;
    }

    /** Takes one item out of the slot, if there is one. */
    method PopItem() returns (item: Option<BuildableRef>)
      modifies this
      ensures old(count) > 0 ==> item == Some(bref) && count == old(count) - 1
      ensures old(count) == 0 ==> item == None && count == 0
      ensures item.None? <==> old(IsEmpty())
    {
      if count > 0 {
        count := count - 1;
        item := Some(bref);
      } else {
        item := None;
      }
    }

    /** An empty slot is the one shown in the empty state, and the one `PopItem` yields nothing from. */
    function IsEmpty(): (r: bool)
      reads this
      ensures r <==> SlotStateFromData(count, false) == Empty
      ensures r <==> SlotStateFromData(count, true) == Empty
    {
      count == 0
    }
  }

  /** How a selection request names the slot to select. */
  datatype SelectSlot = Prev | Next | Index(index: nat)

  /** The slot after `current`, wrapping from the last slot to the first. */
  function NextIndex(current: nat, n: nat): (r: nat)
    requires 0 < n
    ensures r < n
    ensures current < n - 1 ==> r == current + 1
    ensures current == n - 1 ==> r == 0
  {
    (current + 1) % n
  }

  /** The slot before `current`, wrapping from the first slot to the last. */
  function PrevIndex(current: nat, n: nat): (r: nat)
    requires 0 < n
    ensures r < n
    ensures 0 < current <= n ==> r == current - 1
    ensures current == 0 ==> r == n - 1
  {
    (current + n - 1) % n
  }

  /** Stepping back after stepping forward returns to the original slot. */
  lemma PrevUndoesNext(current: nat, n: nat)
    requires current < n
    ensures PrevIndex(NextIndex(current, n), n) == current
  {
  }

  /** Stepping forward after stepping back returns to the original slot. */
  lemma NextUndoesPrev(current: nat, n: nat)
    requires current < n
    ensures NextIndex(PrevIndex(current, n), n) == current
  {
  }

  /**
   * The slot a selection request asks for, or `None` when the request is
   * ignored: there are no slots, or an explicit index is out of range.
   */
  function SelectTarget(select: SelectSlot, current: nat, n: nat): (r: Option<nat>)
    ensures r.None? <==> n == 0 || (select.Index? && select.index >= n)
    ensures r.Some? ==> r.value < n
    ensures r.Some? && select.Index? ==> r.value == select.index
  {
    if n == 0 then None
    else
      match select
      case Prev => Some(PrevIndex(current, n))
      case Next => Some(NextIndex(current, n))
      case Index(i) => if i >= n then None else Some(i)
  }

  /** Rust's `Ord::clamp`, which panics when `lo > hi`. */
  function Clamp(v: nat, lo: nat, hi: nat): (r: nat)
    requires lo <= hi
    ensures lo <= r <= hi
    ensures lo <= v <= hi ==> r == v
  {
    if v < lo then lo else if v > hi then hi else v
  }

  /**
   * The selection `set_slots` computes as written: `clamp(0, slot_count)`.
   * Its result may equal `n`, one past the last slot.
   */
  function SetSlotsSelectionAsWritten(current: nat, n: nat): (r: nat)
    ensures r <= n
    ensures n > 0 && current >= n ==> r == n
  {
    if n > 0 then Clamp(current, 0, n) else 0
  }

  /**
   * As written, keeping selection 2 while moving to a level with 2 slots
   * leaves the selection at 2, which `selected_slot` then asserts against.
   */
  lemma SetSlotsSelectionAsWrittenOverruns()
    ensures SetSlotsSelectionAsWritten(2, 2) == 2
    ensures !(SetSlotsSelectionAsWritten(2, 2) < 2)
  {
  }

  /**
   * The selection `set_slots` is evidently meant to compute: the old
   * selection when it is still a slot, otherwise the last slot, or 0 when
   * there are no slots.
   */
  function SetSlotsSelection(current: nat, n: nat): (r: nat)
    ensures n == 0 ==> r == 0
    ensures n > 0 ==> r < n
    ensures current < n ==> r == current
    ensures n > 0 && current >= n ==> r == n - 1
  {
    if n > 0 then Clamp(current, 0, n - 1) else 0
  }

  /** The exact total of the counts. */
  function Sum(cs: seq<u32>): nat {
    if cs == [] then 0 else cs[0] + Sum(cs[1..])
  }

  /** The total is zero exactly when every count is zero. */
  lemma {:induction false} SumZeroIffAllZero(cs: seq<u32>)
    ensures Sum(cs) == 0 <==> forall k :: 0 <= k < |cs| ==> cs[k] == 0
  {
    if cs != [] {
      SumZeroIffAllZero(cs[1..]);
      assert forall k :: 1 <= k < |cs| ==> cs[k] == cs[1..][k - 1];
    }
  }

  /**
   * The `u32` fold of `is_empty` as a build without overflow checks runs it:
   * each addition wraps, so the fold yields the exact total modulo 2^32.
   */
  function WrappingFold(acc: u32, cs: seq<u32>): (r: u32)
    ensures r == (acc + Sum(cs)) % U32_LIMIT
    decreases cs
  {
    if cs == [] then acc
    else
      var acc' := (acc + cs[0]) % U32_LIMIT;
      ModAddU32(acc + cs[0], Sum(cs[1..]));
      WrappingFold(acc', cs[1..])
  }

  /** Reducing modulo 2^32 before a further addition does not change the final remainder. */
  lemma ModAddU32(a: nat, b: nat)
    ensures (a % U32_LIMIT + b) % U32_LIMIT == (a + b) % U32_LIMIT
  {
    var q := a / U32_LIMIT;
    assert a == q * U32_LIMIT + a % U32_LIMIT;
    assert a + b == (a % U32_LIMIT + b) + q * U32_LIMIT;
  }

  /** Two slots of 2^31 items each fold to 0, so the wrapping test calls a full inventory empty. */
  lemma WrappingFoldMissesNonEmpty()
    ensures WrappingFold(0, [0x8000_0000, 0x8000_0000]) == 0
    ensures Sum([0x8000_0000, 0x8000_0000]) != 0
  {
    assert [0x8000_0000, 0x8000_0000][1..] == [0x8000_0000 as u32];
    assert [0x8000_0000 as u32][1..] == [];
  }

  /** The index of the first positive count, if any. */
  function FirstNonEmpty(cs: seq<u32>): (r: Option<nat>)
    ensures r.None? <==> forall k :: 0 <= k < |cs| ==> cs[k] == 0
    ensures r.Some? ==> r.value < |cs| && cs[r.value] > 0
    ensures r.Some? ==> forall k :: 0 <= k < r.value ==> cs[k] == 0
  {
    if cs == [] then None
    else if cs[0] > 0 then Some(0)
    else
      match FirstNonEmpty(cs[1..])
      case None => None
      case Some(k) => Some(k + 1)
  }

  /** The item counts of `slots`, in slot order. */
  function Counts(slots: seq<Slot>): (r: seq<u32>)
    reads slots
    ensures |r| == |slots|
    ensures forall k :: 0 <= k < |slots| ==> r[k] == slots[k].count
  {
    seq(|slots|, k reads slots requires 0 <= k < |slots| => slots[k].count)
  }

  /** No slot object appears twice: the inventory owns each of its slots, as a `Vec<Slot>` does. */
  predicate Distinct(slots: seq<Slot>) {
    forall i, j :: 0 <= i < j < |slots| ==> slots[i] != slots[j]
  }

  class Inventory {
    var slots: seq<Slot>
    var selectedIndex: nat

    /** The selection names a slot whenever there is one. */
    ghost predicate Valid()
      reads this
    {
      && (if slots == [] then selectedIndex == 0 else selectedIndex < |slots|)
      && Distinct(slots)
    }

    constructor ()
      ensures Valid()
      ensures slots == [] && selectedIndex == 0
    {
      slots := [];
      selectedIndex := 0;
    }

    /** Replaces all slots and moves the selection back inside the new list. */
    method SetSlots(newSlots: seq<Slot>)
      requires Distinct(newSlots)
      modifies this
      ensures Valid()
      ensures slots == newSlots
      ensures selectedIndex == SetSlotsSelection(old(selectedIndex), |newSlots|)
    {
      slots := newSlots;
      var slotCount := |slots|;
      selectedIndex := if slotCount > 0 then Clamp(selectedIndex, 0, slotCount - 1) else 0;
    }

    /** Appends a new slot and returns it. */
    method AddSlot(bref: BuildableRef, count: u32) returns (slot: Slot)
      requires Valid()
      modifies this
      ensures Valid()
      ensures fresh(slot) && slot.bref == bref && slot.count == count
      ensures slots == old(slots) + [slot]
      ensures selectedIndex == old(selectedIndex)
    {
      slot := new Slot(bref, count);
      slots := slots + [slot];
    }

    /** The slot at `index`, or `None` past the end. */
    function SlotAt(index: u32): (r: Option<Slot>)
      reads this
      ensures r.Some? <==> index < |slots|
      ensures r.Some? ==> r.value == slots[index]
    {
      if index < |slots| then Some(slots[index]) else None
    }

    /** The selected slot, or `None` when there are no slots. */
    function SelectedSlot(): (r: Option<Slot>)
      reads this
      requires Valid()
      ensures r.Some? <==> slots != []
      ensures r.Some? ==> r.value == slots[selectedIndex]
    {
      if |slots| > 0 then Some(slots[selectedIndex]) else None
    }

    /**
     * Moves the selection as `select` asks; reports whether it changed. An
     * ignored request changes nothing.
     */
    method SelectSlot(select: SelectSlot) returns (changed: bool)
      requires Valid()
      modifies this`selectedIndex
      ensures Valid()
      ensures changed <==> selectedIndex != old(selectedIndex)
      ensures SelectTarget(select, old(selectedIndex), |slots|).None? ==> selectedIndex == old(selectedIndex)
      ensures SelectTarget(select, old(selectedIndex), |slots|).Some? ==>
                selectedIndex == SelectTarget(select, old(selectedIndex), |slots|).value
    {
      var numSlots := |slots|;
      if numSlots == 0 {
        return false;
      }
      var oldIndex := selectedIndex;
      var newIndex;
      match select {
        case Prev =>
          newIndex := (oldIndex + (numSlots - 1)) % numSlots;
        case Next =>
          newIndex := (oldIndex + 1) % numSlots;
        case Index(index) =>
          if index >= numSlots {
            return false;
          }
          newIndex := index;
      }
      changed := newIndex != selectedIndex;
      selectedIndex := newIndex;
    }

    /** No slot holds an item. */
    function IsEmpty(): (r: bool)
      reads this, slots
      ensures r <==> forall k :: 0 <= k < |slots| ==> slots[k].count == 0
    {
      SumZeroIffAllZero(Counts(slots));
      Sum(Counts(slots)) == 0
    }

    /** The lowest index of a slot that holds an item; `None` exactly when the inventory is empty. */
    function FindNonEmptySlotIndex(): (r: Option<nat>)
      reads this, slots
      ensures r.None? <==> IsEmpty()
      ensures r.Some? ==> r.value < |slots| && slots[r.value].count > 0
      ensures r.Some? ==> forall k :: 0 <= k < r.value ==> slots[k].count == 0
    {
      FirstNonEmpty(Counts(slots))
    }
  }
}
