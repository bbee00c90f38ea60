# libracity core in Dafny

libracity is a balance puzzle game built on Bevy. The player takes buildables
from an inventory and places them on a square plate (the grid), trying to keep
the plate level. This project models the game's deterministic cores and proves
properties of them:

- **Loader** (`loader.dfy`, from `src/loader.rs`): a batch asset loader. It
  holds a pending-request counter, a queue of enqueued paths and a queue of
  handles still loading. The asset server becomes an `AssetSource` oracle, a
  snapshot of what the server answers during one tick. The count invariant
  `count == |requestQueue| + |workQueue|` holds throughout, so neither
  `fetch_sub` can underflow. The model follows `src/loader.rs` as written.
  That file defines only `new`, `is_empty`, `pending_count`, `is_done`,
  `enqueue` and `tick`. It has no ready/loading/done state and no
  `submit`/`take`/`reset`, although its call sites in `src/boot.rs` and
  `src/mainmenu.rs` use them.
- **Inventory** (`inventory.dfy`, from `src/inventory.rs`): slots, each holding
  a buildable reference and a `u32` count, plus a selected index. Selection
  wraps around on Prev/Next and can jump to an index. The module also covers
  popping items, the emptiness test, the first non-empty slot and the visual
  state of a slot.
- **Grid** (`grid.dfy`, from `src/main.rs`): grid bounds centred with Rust's
  truncating `i32` division, clamping, the row-major cell index, sizing and
  clearing of the cell vector, and the single-cell update of `spawn_item`. It
  also covers the 32×32 RGBA tile texture that `create_grid_tex` builds.
- **Game** (`game.dfy`, from `src/game.rs`): the per-level sequence
  Intro → Play → Victory, and the per-frame sequencer. After Victory the
  sequencer either requests the next level or enters the end screen.
- **Level** (`level.dfy`, from `src/level.rs`): resolving a `LoadLevel`
  request (Next / ByName / ByIndex) against the level list, and the
  level-loading system that updates the `Level` resource and the inventory.

`primitives.dfy` holds the Rust `u32`, `i32` and `u8` types. `serialize.dfy`
holds the `BuildableRef` and `LevelDesc` records that the level logic reads.
`wrappers.dfy` holds `Option`.

## Model

| member | source | states |
|---|---|---|
| Loader.Loader.constructor | src/loader.rs:15-21 | a new loader has count 0 and both queues empty, so the count invariant holds |
| Loader.FreshLoader | src/loader.rs:118-122 | a fresh loader reports 0 pending and is empty |
| Loader.Loader.PendingCount | src/loader.rs:27-29 | the pending count is the number of queued paths plus in-flight handles |
| Loader.Loader.IsEmpty | src/loader.rs:23-25 | empty exactly when the pending count is 0, that is, when both queues are empty |
| Loader.Loader.IsDone | src/loader.rs:31-34 | done is the same test as empty |
| Loader.Loader.Enqueue | src/loader.rs:36-40 | appends the path at the end of the request queue, raises the count by exactly 1, leaves the work queue alone and keeps the count invariant |
| Loader.EnqueueOnFreshLoader | src/loader.rs:125-132 | after one enqueue on a fresh loader, exactly 1 request is pending and the loader is not empty |
| Loader.Loader.Tick | src/loader.rs:42-87 | the request queue ends empty; the work queue becomes the unresolved old handles followed by the unresolved new handles, in order; the count drops by one per resolved handle; the count invariant is kept, so no decrement underflows |
| Loader.Loader.DropResolved | src/loader.rs:44-63 | phase 1 removes exactly the Loaded or Failed handles of the work queue in place, one decrement each, and keeps the order of the rest |
| Loader.Loader.Dispatch | src/loader.rs:66-86 | phase 2 appends each dispatched path's handle to the work queue when it is NotLoaded or Loading; a resolved one is counted off without entering the queue |
| Loader.UnresolvedMembers | src/loader.rs:48-62 | a handle survives phase 1 exactly when it was in the queue and is not resolved |
| Loader.UnresolvedAppend | src/loader.rs:72-86 | filtering distributes over concatenation, so the order of appends is kept |
| Loader.UnresolvedIdempotent | src/loader.rs:44-63 | a second filter under the same snapshot removes nothing more |
| Loader.UnresolvedDependsOnlyOnResolution | src/loader.rs:51-52 | only whether a state counts as resolved matters to the filter |
| Loader.FailedTicksLikeLoaded | src/loader.rs:74-84 | a snapshot reporting Failed ticks exactly like one reporting Loaded: nothing is retried |
| Loader.UnresolvedAllResolved | src/loader.rs:51-56 | when every handle is resolved, the work queue ends empty |
| Loader.UnresolvedNoneResolved | src/loader.rs:76-80 | when no handle is resolved, every handle stays, in order |
| Loader.SecondTickUnderSameSnapshotIsStable | src/loader.rs:42-87 | two ticks under one unchanged snapshot give the same work queue as one tick |
| Loader.TickOnIdleLoaderChangesNothing | src/loader.rs:42-87 | a tick with both queues empty leaves them empty |
| Inventory.SlotStateFromData | src/inventory.rs:13-23 | Empty exactly when the count is 0, whatever the selection; otherwise Selected exactly when selected, else Normal |
| Inventory.Slot.constructor | src/inventory.rs:98-100 | a new slot holds the given reference and count |
| Inventory.Slot.PopItem | src/inventory.rs:110-122 | with items, returns the slot's reference and removes exactly one; without, returns None and the count stays 0; it returns None exactly when the slot was empty |
| Inventory.Slot.IsEmpty | src/inventory.rs:124-126 | a slot is empty exactly when `SlotStateFromData` shows it in the empty state, selected or not; `PopItem` yields nothing exactly when the slot was empty |
| Inventory.NextIndex | src/inventory.rs:213 | the next slot is in range, one on, and wraps from the last slot to the first |
| Inventory.PrevIndex | src/inventory.rs:212 | the previous slot is in range, one back, and wraps from the first slot to the last |
| Inventory.PrevUndoesNext | src/inventory.rs:212-213 | Prev after Next restores the selection |
| Inventory.NextUndoesPrev | src/inventory.rs:212-213 | Next after Prev restores the selection |
| Inventory.SelectTarget | src/inventory.rs:205-220 | a request is ignored exactly when there are no slots or an index is out of range; otherwise the target is a valid slot, and an index request targets that index |
| Inventory.Clamp | src/inventory.rs:152 | `Ord::clamp` stays within its range and is the identity inside it |
| Inventory.SetSlotsSelectionAsWritten | src/inventory.rs:150-155 | as written, the clamped selection is at most the slot count and reaches it whenever the old selection does |
| Inventory.SetSlotsSelectionAsWrittenOverruns | src/inventory.rs:151-155 | a selection of 2 kept when moving to a level with 2 slots stays at 2, outside the slot list |
| Inventory.SetSlotsSelection | src/inventory.rs:150-155 | the corrected selection keeps a still-valid index, otherwise picks the last slot, and is always a valid slot (0 when there are none) |
| Inventory.SumZeroIffAllZero | src/inventory.rs:226-228 | the exact total of the counts is zero exactly when every count is zero |
| Inventory.WrappingFold | src/inventory.rs:227 | the as-written `u32` fold, with each addition wrapping, yields the exact total of the counts modulo 2^32 |
| Inventory.WrappingFoldMissesNonEmpty | src/inventory.rs:227 | two slots of 2^31 items fold to 0 in wrapping `u32` arithmetic, although they hold items |
| Inventory.FirstNonEmpty | src/inventory.rs:230-237 | the lowest index with a positive count; None exactly when every count is 0 |
| Inventory.Counts | src/inventory.rs:227 | the item counts of the slots, one per slot and in order |
| Inventory.Inventory.constructor | src/inventory.rs:137-143 | a new inventory has no slots, selection 0 and is valid |
| Inventory.Inventory.SetSlots | src/inventory.rs:145-156 | the slots are replaced, and the selection becomes the corrected clamp, which is a valid slot; the new slots are distinct objects, as the values of a `Vec` are |
| Inventory.Inventory.AddSlot | src/inventory.rs:158-161 | the slot list grows by exactly one new slot, placed last, with the given reference and count; the selection is unchanged |
| Inventory.Inventory.SlotAt | src/inventory.rs:167-174 | Some exactly when the index is below the slot count, and then the slot at that index |
| Inventory.Inventory.SelectedSlot | src/inventory.rs:185-193 | Some exactly when there are slots, and then the selected one; the bounds assert holds under the invariant only because `SetSlots` uses the corrected clamp, whereas the source's clamp can break it (see Findings) |
| Inventory.Inventory.SelectSlot | src/inventory.rs:205-224 | the selection moves to the requested target, or stays when the request is ignored; the result is true exactly when the selection changed; the selection stays valid |
| Inventory.Inventory.IsEmpty | src/inventory.rs:226-228 | empty exactly when every slot count is 0 |
| Inventory.Inventory.FindNonEmptySlotIndex | src/inventory.rs:230-237 | the lowest index of a slot with items; None exactly when the inventory is empty |
| Grid.HalfTowardZero | src/main.rs:220-227 | `i32` division by 2 truncates toward zero: the remainder `a - 2 * r` is 0 or 1 for `a >= 0` and 0 or -1 for `a < 0` |
| Grid.MinCoord | src/main.rs:220-221 | on an axis of `s >= 0` cells the lowest coordinate is `-(s / 2)`, at or below the origin |
| Grid.MaxCoord | src/main.rs:226-227 | on an axis of `s >= 1` cells the highest coordinate is `(s - 1) / 2`, at or above the origin; truncation makes it 0 for `s == 0` |
| Grid.MinPos | src/main.rs:219-223 | the lowest cell of the grid lies at or below the origin on both axes |
| Grid.MaxPos | src/main.rs:225-229 | the highest cell of the grid lies at or above the origin on both axes, so the bounds are never empty |
| Grid.Index | src/main.rs:253-258 | for a position at or above `MinPos` and within `MaxPos` horizontally, the index divided by the width gives back the row offset and its remainder the column offset (row-major order) |
| Grid.SpanIsSize | src/main.rs:219-229 | an axis of at least one cell spans exactly `size` coordinates from min to max, around the origin |
| Grid.EmptyAxisBounds | src/main.rs:219-229 | an axis of no cells has min and max 0 |
| Grid.ClampCoord | src/main.rs:234 | `i32::clamp` stays within its range, is the identity inside it and snaps to the nearer end outside |
| Grid.Clamp | src/main.rs:231-235 | the clamped position lies inside the grid bounds and equals the input when that is already inside |
| Grid.ClampIdempotent | src/main.rs:231-235 | clamping twice is clamping once |
| Grid.IndexInRange | src/main.rs:253-258 | the index of an in-bounds cell of a grid with cells lies below `size.x * size.y` |
| Grid.IndexInjective | src/main.rs:253-258 | distinct in-bounds cells have distinct indices |
| Grid.ZeroWidthGridHasNoCells | src/main.rs:231-258 | a grid of width 0 clamps to (0, 0), and that position has index 0 while the grid has no cells |
| Grid.Grid.constructor | src/main.rs:164-175 | a new grid is 8 by 8 with 64 zero cells and no entities |
| Grid.Grid.SetSize | src/main.rs:181-186 | the size is stored and the content becomes `size.x * size.y` zero cells |
| Grid.Grid.Clear | src/main.rs:305-312 | the content becomes `size.x * size.y` zero cells |
| Grid.Grid.SpawnItem | src/main.rs:270-274 | only the cell at `Index(pos)` changes, by the weight, and exactly one entity is appended |
| Grid.PixelColour | src/main.rs:727-737 | each pixel has four channels |
| Grid.TexelByteAt | src/main.rs:724-739 | channel `c` of pixel (i, j) sits at offset `(j * 32 + i) * 4 + c` of the row-major buffer |
| Grid.CreateGridTex | src/main.rs:722-746 | a 32 × 32 × 1 texture of exactly 4096 bytes whose border pixels are (192, 192, 192, 255) and interior pixels are (128, 128, 128, 255) |
| Game.Rank | src/game.rs:6-12 | phases are ranked 0 to 2 in the order Intro, Play, Victory |
| Game.Advanced | src/game.rs:35-41 | advancing moves exactly one phase on; it is not defined from Victory |
| Game.RankInjective | src/game.rs:6-12 | each rank names exactly one phase |
| Game.VictoryOutcome | src/game.rs:89-98 | after Victory, the next level is requested exactly when one exists; otherwise the game ends |
| Game.VictoryAgreesWithLevelLoader | src/game.rs:91-98 | the sequencer requests the next level exactly when a `Next` request selects `index + 1`, and ends exactly when a `Next` request would end the game |
| Game.Game.constructor | src/game.rs:20-25 | a new game starts in Intro |
| Game.Game.ResetSequence | src/game.rs:27-30 | from any phase the sequence returns to Intro, so a second reset changes nothing |
| Game.Game.AdvanceSequence | src/game.rs:32-44 | Intro becomes Play and Play becomes Victory, and the new phase is returned; the call requires a phase other than Victory, where the source panics |
| Game.Game.Step | src/game.rs:58-101 | Intro and Play advance on their triggers; Victory, once its timer ends, resets to Intro and requests the next level, or requests the end screen; the panicking advance is never reached |
| Game.StepMovesAtMostOnePhase | src/game.rs:58-101 | a frame moves at most one phase on, and moves back only from Victory to Intro |
| Level.Level.constructor | src/level.rs:30-35 | a new level has index 0 and an empty name |
| Level.FindByName | src/level.rs:86-90 | the lowest index of a level with the name; None exactly when no level has it |
| Level.Resolve | src/level.rs:64-118 | a selected index is always a valid level, and only Next can end the game |
| Level.ResolveNext | src/level.rs:65-81 | Next selects `index + 1` exactly when it exists, and ends the game otherwise |
| Level.ResolveByName | src/level.rs:83-100 | ByName selects a level exactly when one has that name, namely the first one; otherwise it is an error |
| Level.ResolveByIndex | src/level.rs:102-116 | ByIndex selects `i` when it is a valid level, and is an error otherwise, whatever the current level |
| Level.SlotsFromInventory | src/level.rs:125-130 | one new slot per inventory entry, with that entry's count and no reference twice |
| Level.LoadLevelSystem | src/level.rs:61-130 | only the last event acts, and no event changes nothing; on success the level gets the resolved index and name and the inventory gets exactly one slot per entry of that level's inventory; an end or an error leaves level and inventory unchanged, and only Next past the last level reports the end; the new selection follows the corrected clamp `SetSlotsSelection`, not the source's `clamp(0, slot_count)` (see Findings) |

## Left out

- Bevy glue is not modelled: plugins, systems, queries, `Commands`, entity spawning and despawning, UI text, the cursor, and the events sent to regenerate the inventory UI and reset the plate. These only wire engine resources together.
- Loader concurrency is not modelled: `Mutex`, the `AtomicUsize` memory orderings, and the scheduling of `tick_loaders`. Within the single-threaded stage these behave as plain field updates.
- Loader.Loader.Tick: the asset source is one snapshot for the whole tick. The real asset server may change state between two queries in the same tick, and its caching is not modelled.
- `submit`, `take` and `reset` of the loader are not modelled, because `src/loader.rs` does not define them.
- The loader's count is an unbounded `nat`: the `usize` wrap-around at 2^64 is not modelled, because the count invariant bounds the count by the queue lengths.
- Inventory.Inventory.SlotAt: this also stands for `slot_mut`, and Inventory.Inventory.SelectedSlot stands for `selected_slot_mut`. Slots are objects, so the returned reference already permits in-place changes such as `PopItem`.
- Inventory.Inventory.FindNonEmptySlotIndex: returns the index unbounded; the `index as u32` truncation is not modelled, since it would need more than 2^32 slots.
- `Inventory::clear_entities` and the inventory's `root_node` are not modelled; they are UI entities.
- Float geometry is not modelled: `foffset`, `fpos`, `hit_test`, `calc_cog_offset`, `calc_rot` and `is_victory`. Cell weights are `f32` in the source and `real` here; nothing is claimed about their sums.
- `can_spawn_item` is not modelled: it only compares one cell against the float threshold 0.1.
- Float timing is not modelled: the Game's phase timer is the input `timerFinished`. The input `levelCleared` stands for "a victory check was requested and `is_victory` holds".
- Game.Game.Step: the lookup `levels[level_index]` in the Play branch is not modelled, because it sits inside the abstracted victory test.
- Grid.Index: negative grid sizes are excluded by requiring `size >= 0`, since the source casts `size.x` to `usize`. Positions below `MinPos`, which the source's `as usize` casts wrap, are also excluded.
- Grid.Grid.Clear: only the `None` form is modelled; the despawning of entities when `Commands` are given is left out. The entity list is left as it is, as in the source.
- `Grid::regenerate` and `Grid::set_material` are not modelled; they spawn and style render entities.
- Level.SlotsFromInventory: `HashMap` iteration order is unspecified, so the slot order is any order. Only the set of slots and their counts is determined.
- The `info!`, `trace!` and `error!` logging is not modelled, nor the `AppState::TheEnd` switch itself. That switch is the `theEnd` / `EnterTheEnd` result.
- `GameDataArchive::from_json`, `Config`, the text asset loader, the error conversions, and the fields of `LevelDesc` other than `name` and `inventory` are not modelled.

## Findings

| source | as written | input that shows it | evidently intended | confidence | as-written member | corrected member |
|---|---|---|---|---|---|---|
| src/inventory.rs:151-155 | `set_slots` clamps the selection to `0..=slot_count`, so it can equal `slot_count`; `selected_slot` and `selected_slot_mut` then fail their `selected_index < num_slots` asserts (src/inventory.rs:188, src/inventory.rs:198) | selection 2, then a level with 2 slots: the selection stays 2 | clamp to `slot_count - 1`, so the selection always names a slot | high, not executed | Inventory.SetSlotsSelectionAsWrittenOverruns | Inventory.SetSlotsSelection |
| src/inventory.rs:227 | `is_empty` folds the counts with `u32` `+`, which panics on overflow in debug builds and wraps in release builds | two slots of 2^31 items each: the wrapping sum is 0, so the inventory reads as empty | compare the exact total, or test every count for zero | medium, not executed | Inventory.WrappingFoldMissesNonEmpty | Inventory.Inventory.IsEmpty |
