# Skip list (ordered map) — a Dafny model

This project models `src/skiplist.rs`, a single-threaded skip list used as an
ordered map from keys to values. It covers the following parts:

- **`KVPair` and `Node` records.** A `Node` holds its pair and one forward link per
  level it was built with.
- **`Skiplist`.** It has 21 level heads and an optional `top_level`.
- **`_generate_level`.** The coin-flip loop that draws a new node's level.
- **`find_no_greater_than`.** The shared top-down search. It returns the node with
  the greatest key not above the probe and can fill a per-level predecessor frame.
- **`get`.** Reports a value only on an exact key match.
- **`insert` / `_insert_internal`.** Refuses a key that is already stored, splices
  a new node in, and raises `top_level`.

The model uses a node arena:

- **Nodes and links.** Every node lives in `nodes: seq<Node<V>>`, and a link is the
  optional index of the next node. This replaces the reference-counted cells of
  the source.
- **The `Skiplist` class.** Its fields are `heads: array<Option<nat>>` (21 slots),
  `topLevel` and `nodes`.
- **Ghost fields.** `chains` lists, for each level, the nodes visited by following
  that level's links from its head. `contents` is the stored map.
- **`Valid()`.** It ties the ghost fields to the links (`Links.Shape`,
  `Links.Abstracts`):
  - every level's chain is exactly what its links visit, and its keys strictly
    ascend;
  - level 0 holds every node;
  - a level's chain holds only nodes of the levels below it;
  - every node reachable at level L has more than L links, so `nexts[level]` is
    always in bounds;
  - `top_level` is the largest node height minus one, and it is absent exactly
    when nothing is stored;
  - `contents` is exactly the set of stored pairs.

Keys are `int`. The source only asks for `PartialOrd`, and the model takes the
order to be total.

**The splice is modelled as the code writes it**
(`src/skiplist.rs:73-99`):

- When a predecessor exists, the new node is linked after it at level 0 only. Its
  other links stay absent.
- When every stored key is above the new one, the node is prepended at every level
  `0..=level`.
- In both cases `top_level` is raised to `level`.

The code does not splice the new node into every level up to its height through
the predecessor frame, though that is what the frame would be for. The model
follows the code. So the proved invariant does not claim that a node of height h
sits on every level below h. The frame is computed, returned and then discarded
by `InsertInternal`, because the source only prints it.

The random level is a parameter `draws: seq<bool>`, where `draws[i]` holds when
the i-th `f64` drawn exceeds 0.5. A draw past the end of the sequence counts as a
losing draw.

## Model

| member | source | states |
|---|---|---|
| Levels.LevelFrom | src/skiplist.rs:50-53 | from any start level up to 20, the coin-flip loop settles on a level between the start and 20 |
| Levels.DrawnLevel | src/skiplist.rs:47-55 | the drawn level is at most 20, so a new node's height `level + 1` never exceeds the 21 heads |
| Levels.LevelFromStops | src/skiplist.rs:50-53 | each level the loop climbs past was a winning draw; the loop stops at 20 or at the first losing draw |
| Levels.DrawnLevelCountsLeadingWins | src/skiplist.rs:48-54 | the level is the number of leading draws above 0.5, cut off at 20 |
| Levels.GenerateLevel | src/skiplist.rs:47-55 | the `while` loop returns exactly the drawn level, which is at most 20 |
| Links.NewNode | src/skiplist.rs:29-31 | a node holding `elem` whose `height` links are all absent |
| Links.Raise | src/skiplist.rs:97-99 | the new top level is at least the old one and at least `level`, and it is one of the two |
| Links.NextOfScan | src/skiplist.rs:139-142 | the link the search follows, from the head or from the current node, is the next node of that level's chain; the current node has more than `level` links, so `nexts[level]` is in bounds |
| Links.StepRight | src/skiplist.rs:144-148 | when the next key is not above the probe, moving onto that node keeps the scan's position facts |
| Links.StopAtFloor | src/skiplist.rs:143-159 | where the scan stops (next node absent or above the probe), the current node is the last node of that chain not above the probe; absent means before the head |
| Links.FloorAtStop | src/skiplist.rs:143-159 | on an ascending chain, the node before the stopping position is the chain's floor of the probe |
| Links.DropLevel | src/skiplist.rs:161-163 | dropping a level keeps the current node, which lies on the lower chain too, so the scan continues from the same horizontal position |
| Links.RecordLevel | src/skiplist.rs:150-158 | writing the current node into `frame[level]` extends the frame's floor entries down to `level` and leaves every other entry unchanged |
| Links.FloorOfCoveringChain | src/skiplist.rs:168-172 | the floor on level 0, which holds every node, is the stored node with the greatest key not above the probe |
| Links.FloorDecides | src/skiplist.rs:103-115 | a key is stored iff its floor exists and carries that key, and the stored value is the floor's value |
| Links.Level0HoldsEachKeyOnce | src/skiplist.rs:80-93 | the level-0 chain from `heads[0]` holds every stored key, each exactly once, in strictly ascending order |
| Links.AbstractsGrow | src/skiplist.rs:78-95 | adding a node whose key is new stores exactly the old pairs plus the new one |
| Links.TopLevelGrows | src/skiplist.rs:97-99 | after a node of height `level + 1` is added, `Raise(top, level)` is again the largest height minus one |
| Links.HeadSpliceLevel | src/skiplist.rs:89-94 | prepending at levels `0..=level` keeps each single level linked and ascending |
| Links.HeadSpliceLevels | src/skiplist.rs:89-94 | prepending at levels `0..=level` keeps every level linked from its redirected head and ascending |
| Links.PrependedNesting | src/skiplist.rs:89-94 | prepending keeps each chain within the chains below it and puts the new node on level 0 |
| Links.HeadSplicePreserves | src/skiplist.rs:84-99 | head branch: the key was not stored; afterwards the shape invariant holds with the redirected heads and raised top, and the map gains exactly the new pair |
| Links.LinkAfterLinked | src/skiplist.rs:78-81 | linking after the floor `p` at level 0 makes level 0 the old chain with the new node right after `p` |
| Links.LinkAfterAscending | src/skiplist.rs:78-81 | the new key falls strictly between `p`'s key and its successor's, so level 0 stays ascending |
| Links.MidSpliceKeepsLevel | src/skiplist.rs:80-81 | only `p`'s level-0 link changes, so every higher level keeps its chain, linked and ascending |
| Links.MidSpliceLevels | src/skiplist.rs:78-81 | every level is linked and ascending after the mid-list splice; only level 0 gains the node |
| Links.InsertAfterNesting | src/skiplist.rs:80-81 | inserting into level 0 keeps each chain within the chains below it and puts the new node on level 0 |
| Links.MidSpliceOnlyLevel0 | src/skiplist.rs:78-81 | as written, a node linked after a predecessor gets `level + 1` links, but every link above level 0 stays absent; every level above 0 is still linked from its unchanged head along its old chain, which does not hold the new node, so it is reachable at level 0 only |
| Links.MidSplicePreserves | src/skiplist.rs:74-99 | mid-list branch: the key was not stored; afterwards the shape invariant holds with the heads unchanged and the top raised, and the map gains exactly the new pair |
| Skiplists.Skiplist.constructor | src/skiplist.rs:43-45 | a new list has 21 absent heads, no top level and nothing stored, and is valid |
| Skiplists.Skiplist.FindNoGreaterThan | src/skiplist.rs:118-173 | returns the stored node with the greatest key not above `key` (absent when empty or all keys are above). With a frame, every entry up to the top level is that level's floor and every other entry is kept |
| Skiplists.Skiplist.Get | src/skiplist.rs:103-115 | returns `Some(v)` exactly when `key` is stored with value `v`, else `None`; nothing is changed |
| Skiplists.Skiplist.LinkAfter | src/skiplist.rs:78-81 | the mid-list splice: the new node takes `p`'s level-0 link and `p` points to it; nothing else changes |
| Skiplists.Skiplist.PrependAtHeads | src/skiplist.rs:85-94 | for each level `i <= level`, the new node's link `i` takes the old head `i` and head `i` points to the new node |
| Skiplists.Skiplist.InsertInternal | src/skiplist.rs:64-101 | `Err` iff the key was stored, and then nothing changes; on `Ok` the map gains the pair, the top level is raised to the drawn level, and the arena and heads are those of the branch taken; validity is kept |
| Skiplists.Skiplist.Insert | src/skiplist.rs:58-62 | the contract of `InsertInternal` on the pair `(key, value)`: `Err` iff `key` was stored, and then nothing changes; on `Ok` the map gains the pair, the top level is raised to the drawn level, and the arena and heads are those of the branch taken (prepended at the heads, or linked after the floor at level 0); validity is kept |
| Scenarios.FreshListFindsNothing | src/skiplist.rs:120-124 | on a new list `get` finds no key |
| Scenarios.InsertThenGet | src/skiplist.rs:64-115 | a duplicate is refused and keeps its old value; a new key is then found with its value; every other key reads as before |
| Scenarios.InsertTwoNewKeys | src/skiplist.rs:64-99 | two keys not yet stored are both accepted, and the map gains exactly those two pairs |
| Scenarios.InsertBasicKeys | src/skiplist.rs:190-193 | inserting 1, 2, 3 and 5 into an empty list stores exactly those four pairs |
| Scenarios.BasicScenario | src/skiplist.rs:183-202 | the `basic` test's assertions hold for every sequence of level draws |

## Left out

- The thread RNG and its `f64` draws are not modelled. They are replaced by the
  `draws` parameter, so the geometric level distribution and the expected
  O(log n) cost are not modelled either.
- The `println!` debug output and the `Debug` bounds are left out. They are I/O
  with no effect on behaviour.
- `Rc`/`RefCell` sharing and runtime borrow panics are left out. Links are arena
  indices instead.
- Keys are `int`. The generic `PartialOrd` key is taken to be totally ordered,
  and values are any type `V`.
- `KVPair::greater` is not modelled. Nothing in the core calls it.
- The source has no deletion, no update of an existing key, no iteration and no
  concurrency.
- Skiplists.Skiplist.InsertInternal does not keep the predecessor frame. The
  source fills it but only prints it.
