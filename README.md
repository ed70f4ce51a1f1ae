# Coexistence — a verified model of the ecosystem core

Coexistence is a predator–prey simulation. The world is a pixel grid of land
and water. Rabbits graze on plants, wolves hunt rabbits, and both drink and
breed. Every entity is recorded in the *position blueprint*, a grid holding one
list of character tags per pixel: `'l'` land, `'w'` water, `'p'` plant, `'r'`
rabbit, `'W'` wolf. Agents perceive the world only by asking the blueprint
whether a tag is on a cell.

The model covers:

- **the blueprint**: its strict bounds check, and add / check / remove of
  one tag;
- **terrain generation**: tagging every cell land or water, given the noise
  value of each pixel;
- **the three populations**: add and remove for rabbits, wolves and plants;
- **the agents' senses**: the proximity windows (at plant, at water, at
  mate, at rabbit) and the "first hit wins" ring sweep of
  `scanSurroundings`;
- **the agent update**: needs grow, the priority chain hunger > thirst >
  mate > roam, the death check, and the move with its two blueprint edits;
- **the per-frame sweeps**: `updateAllRabbits`, `updateAllWolves` and
  `masterUpdate`.

Five modules, one file each:

| file | module | contents |
|---|---|---|
| `seqs.dfy` | `Seqs` | first-occurrence search and erase on sequences (the shape of every list removal in the program) |
| `occupancy.dfy` | `Occupancy` | tags, cells, `InBounds`; the abstract grid with `Put`/`Take`/`Holds`; the agreement of tags with entity positions (`Consistent`); the mutable `Blueprint` over a 2-D array |
| `perception.dfy` | `Perception` | proximity windows, the ring sweep and its caches |
| `behaviour.dfy` | `Behaviour` | needs, species constants, goal choice, satisfaction, death, roaming |
| `ecosystem.dfy` | `Ecosystem` | the `World` (terrain, populations, sweeps), the `Rabbit` and `Wolf` classes |

Behaviour of the code that the model reproduces rather than corrects:

- `isWithinBounds` is strict at both ends, so column 0 and row 0 are outside
  the world. Nothing can be tagged there and nothing is ever found there.
  A scan for food at (3, 0) therefore finds nothing, even though that cell
  lies inside the picture. The model follows the code.
- `atMate` filters its 3 x 3 loop with `i != 0 && j != 0`. The window it
  actually looks at is offsets {0, +1} x {0, +1}, which includes the agent's
  own cell: an agent with its own tag underfoot is always "at a mate".
- A rabbit or wolf that dies in `update` is erased from its population, and
  then still runs `move`. The move takes a tag off its old cell and puts one
  on the new cell, so a tag survives that no living agent accounts for.
  For a rabbit, `removeRabbit` matches floored positions, so the removal
  erases the *first* rabbit on the cell, which need not be the one that
  died. (A wolf's removal matches its exact position; see "Left out".)
- `updateAllRabbits` / `updateAllWolves` walk the population by index while
  updates erase from it and append to it. An erasure at or before the
  cursor makes the loop skip the next agent, and a dying agent's removal
  always erases at or before the cursor. Newborns appended during the
  sweep are updated in the same sweep.
- A wolf eats through `atRabbit`, which looks only at its own cell. A
  rabbit's `atPlant` looks at a 5 x 5 window, and grazing leaves the plant in
  place.

Because of the last three points, the model does not claim that the tags
match the agents after an update. What it proves instead:

- each add keeps that agreement (`Consistent`), stated on the world's own
  lists; each remove keeps it through `RabbitCellsRemoved` /
  `WolfCellsRemoved` and `TakeKeepsConsistent` (plant removal states it
  directly); a single move keeps it too, proved on the grid and a
  cell list (`Occupancy.MoveKeepsConsistent`) but not tied to `Rabbit.Move`
  / `Wolf.Move` on the world's lists;
- the dead agent's move breaks it (`Occupancy.MoveAfterEraseLeaks`).

## Model

| member | source | states |
|---|---|---|
| Occupancy.EdgeIsOutside | main.cpp:895-899 | column 0 and row 0 never hold a tag, and adding a tag there leaves the grid unchanged (the strict bounds test) |
| Occupancy.Blueprint.Add | main.cpp:823-830 | the grid becomes `Put`: the tag is appended to the list of an in-bounds cell, and nothing changes out of bounds; the array stays equal to the grid |
| Occupancy.HoldsAfterPut | main.cpp:823-847 | after an add, a tag is found at a cell exactly when it was found before, or it is the added tag at the added in-bounds cell |
| Occupancy.Blueprint.Check | main.cpp:833-847 | true exactly when the cell is in bounds and its list contains the tag |
| Occupancy.Blueprint.Locate | main.cpp:854-864 | the search loop returns the index of the first occurrence of the tag in the cell's list, or -1 when it is absent |
| Occupancy.Blueprint.Remove | main.cpp:850-875 | the grid becomes `Take`: the first occurrence of the tag is erased from an in-bounds cell; a missing tag or an out-of-bounds cell changes nothing |
| Occupancy.TakeUndoesPut | main.cpp:823-875 | removing a tag just added to a cell that did not hold it restores the grid |
| Occupancy.TagsMarkEntities | main.cpp:823-875 | when tags agree with positions, a tag is found exactly on the in-bounds cells where some entity stands |
| Occupancy.PutKeepsConsistent | main.cpp:904-920 | appending an entity and tagging its cell keeps tags and positions in agreement |
| Occupancy.TakeKeepsCount | main.cpp:923-948 | on any single cell, erasing the first entity on `c` and one tag of `c` lowers the tag count and the entity count together, or neither |
| Occupancy.TakeKeepsConsistent | main.cpp:923-948 | erasing the first entity on `c` and one tag of `c` keeps tags and positions in agreement |
| Occupancy.ConsistentUpToOrder | main.cpp:923-948 | the agreement depends only on how many entities stand on each cell, not on their order in the list |
| Occupancy.MoveShiftsOneTag | main.cpp:265-272 | with both cells in bounds and the tag on the old cell, a move takes one tag off the old cell and puts one on the new cell (a move within one cell keeps its count), and every other cell is unchanged, whether or not the mover is still in its population |
| Occupancy.MoveKeepsConsistent | main.cpp:254-275 | a move (untag the old cell, step, tag the new cell) keeps the agreement with the entity's new position |
| Occupancy.MoveAfterEraseLeaks | main.cpp:451-458 | an agent already erased from its list that still moves into a different in-bounds cell (whoever else still stands on its old cell, such as its newborn), or stays on its own cell when no listed agent stands there, leaves an extra tag: the agreement is broken |
| Seqs.FirstIndexMeans | main.cpp:854-864 | the first-match search returns -1 exactly when the element is absent; otherwise the element is at that index and nowhere before it |
| Seqs.FirstIndexIs | main.cpp:857-863 | an index that holds the element, with no earlier occurrence, is what the search returns |
| Seqs.RemoveFirstMeans | main.cpp:866-873 | erasing the first occurrence changes nothing when the element is absent; otherwise it shortens the list by one and takes exactly one copy out of its multiset |
| Seqs.RemoveFirstKeepsOrder | main.cpp:866-873 | elements before the erased one keep their index, and those after it move up by one |
| Seqs.RemoveFirstUndoesAppend | main.cpp:823-875 | appending an element absent from the list and erasing its first occurrence gives the list back |
| Seqs.EraseFirstAtCursor | main.cpp:971-977 | erasing the first element whose key equals the key at the cursor shortens the list by one and shifts the two elements after the cursor down by one slot: the one right after the cursor is never visited |
| Seqs.EraseBehindCursorSkips | main.cpp:971-977 | in an index walk, an erasure at or before the cursor moves the next element into the slot just visited, so the walk skips it |
| Ecosystem.World.IsLand | main.cpp:880-892 | a cell counts as land only if it is in bounds |
| Ecosystem.World.GenerateTerrain | main.cpp:790-807 | every pixel is painted land when its noise is above 0.4 and water otherwise; every in-bounds cell gains exactly one tag (`'l'` or `'w'`) at the end of its list; on a grid without land tags, `IsLand` and the blueprint's land check then agree everywhere; no population changes |
| Ecosystem.World.PaintColumn | main.cpp:792-806 | the inner loop paints and tags column `i` and leaves every other column as it was |
| Ecosystem.World.AddRabbit | main.cpp:904-920 | a fresh rabbit with the drawn needs and empty caches is appended; the cell list gains its cell; the cell gains one `'r'` tag; when tags agreed with positions before, they still do |
| Ecosystem.World.FindRabbit | main.cpp:926-936 | the index of the first rabbit on the cell, -1 when there is none |
| Ecosystem.World.RemoveRabbit | main.cpp:923-948 | the first rabbit on the cell is erased from the population and one `'r'` tag leaves the cell; with no rabbit there nothing changes |
| Ecosystem.RabbitCellsRemoved | main.cpp:923-948 | erasing the first rabbit on `pos` erases exactly the first occurrence of `pos` from the cell list, so `TakeKeepsConsistent` applies to removeRabbit |
| Ecosystem.World.UpdateRabbit | main.cpp:971-977 | one visit of the sweep, `rabbits[i]->update()`: the visited rabbit ends with the needs, caches and target of the plan read off the state before, and one step from its old cell towards that target; a newborn stands on the visited rabbit's old cell, headed there, with empty caches and the drawn needs; the population becomes the old list plus the newborn, less the first rabbit on the visited rabbit's cell when it dies; the grid gets the newborn's tag, loses the dead rabbit's tag and has the move applied; when the visited rabbit dies, the rabbit after the cursor is now in slot `i` and its successor in slot `i + 1`, so the next visit passes over it |
| Ecosystem.World.UpdateAllRabbits | main.cpp:971-977 | the walk ends only after its index has passed the end of the list as it then is (or the budget is spent); the blueprint stays well formed; every rabbit left was there before or is new |
| Ecosystem.World.AddWolf | main.cpp:993-1009 | as AddRabbit, for wolves and the `'W'` tag |
| Ecosystem.World.FindWolf | main.cpp:1015-1024 | the index of the first wolf on the cell, -1 when there is none |
| Ecosystem.World.RemoveWolf | main.cpp:1011-1034 | the first wolf on the cell is erased and one `'W'` tag leaves the cell; with no wolf there nothing changes |
| Ecosystem.WolfCellsRemoved | main.cpp:1011-1034 | erasing the first wolf on `pos` erases exactly the first occurrence of `pos` from the cell list |
| Ecosystem.World.UpdateWolf | main.cpp:1054-1060 | one visit, `wolves[i]->update()`: the visited wolf ends with the needs, caches and target of its plan and one step from its old cell towards that target; a newborn stands on its old cell, headed there, with empty caches and the drawn needs; the rabbits lose the first rabbit on the wolf's cell when it eats; the wolves become the old list plus the newborn, less the first wolf on the cell when it dies; the grid changes accordingly; when the visited wolf dies, the wolf after the cursor is passed over |
| Ecosystem.World.UpdateAllWolves | main.cpp:1054-1060 | as UpdateAllRabbits for wolves; in addition, no rabbit is ever created |
| Ecosystem.World.AddPlant | main.cpp:1073-1079 | the plant is appended and its cell gains one `'p'` tag; agreement of `'p'` tags with plants is kept |
| Ecosystem.World.FindPlant | main.cpp:1083-1092 | the index of the first plant on the cell, -1 when there is none |
| Ecosystem.World.RemovePlant | main.cpp:1081-1104 | the first plant on the cell is erased and one `'p'` tag leaves the cell, nothing happens without one; agreement of `'p'` tags with plants is kept |
| Ecosystem.World.MasterUpdate | main.cpp:1136-1142 | the counts returned are the population sizes afterwards; every agent left was there before or is new; plants and terrain are untouched |
| Perception.AnyInColumnMeans | main.cpp:283-296 | the inner early-return loop is true exactly when some cell of the column range holds the tag |
| Perception.AnyInBoxMeans | main.cpp:283-296 | the nested early-return loops are true exactly when some cell of the box holds the tag |
| Perception.NearbyMeans | main.cpp:283-312 | atPlant / atWater hold exactly when a cell at offsets -2..+2 in both axes holds the tag |
| Perception.AtMateMeans | main.cpp:315-332 | atMate holds exactly when a cell at offsets {0, +1} x {0, +1} holds the agent's own tag |
| Perception.AtMateSeesOwnTag | main.cpp:315-332 | an agent whose own tag is on its cell is always at a mate |
| Perception.AtMateIgnoresWestAndNorth | main.cpp:315-332 | with the tag on all five cells at offset -1 in x or y and none in the {0, +1} x {0, +1} window, atMate is false: the filtered loop never looks west or north |
| Perception.AtRabbitMeans | main.cpp:523-527 | atRabbit holds exactly when the wolf's own cell holds `'r'`; that cell lies in both wider windows |
| Perception.FirstHitMeans | main.cpp:366-394 | a cache is empty exactly when no visited cell is a hit; otherwise it holds the earliest hit, which carries the tag and is not excluded |
| Perception.FirstHitGrows | main.cpp:374-394 | offering one more cell: a full cache keeps its value, an empty one takes the cell when it is a hit |
| Perception.FirstHitIsEarliest | main.cpp:366-394 | a hit with no hit before it in sweep order is what the cache holds |
| Perception.ScanMeans | main.cpp:335-398 | food and water caches look at the own cell and the ring, the mate cache at the ring without the own cell; each is empty exactly when none of its cells holds its tag, and otherwise holds such a cell |
| Perception.Offer | main.cpp:374-394 | one cache test: the cache takes the cell only while empty, only when the cell holds the tag and is not excluded |
| Perception.Sweep | main.cpp:335-398 | the scanning loop produces exactly the caches `Scan` defines |
| Behaviour.Choose | main.cpp:414-448 | the chosen branch is pressing (need above half its maximum and target seen) and no branch before it in the order hunger, thirst, mate is pressing |
| Behaviour.NeedsStep | main.cpp:404-448 | in one update each need either grows by exactly its increment or is reset by its own branch with the target reached; only a need above half its maximum is ever reset |
| Behaviour.SatisfiedNeedIsNotFatal | main.cpp:414-455 | after eating or drinking, death depends only on the other of hunger and thirst |
| Behaviour.UnfedGrowth | main.cpp:404-406 | with nothing consumed, after k ticks each need has grown by k times its increment |
| Behaviour.RabbitStarves | main.cpp:31-39 | a rabbit that never eats is over its hunger maximum after 2001 ticks, from any non-negative start |
| Behaviour.RoamKeepsFarTarget | main.cpp:172-198 | roaming keeps a target at distance 5 or more |
| Ecosystem.Branch | main.cpp:414-448 | the if / else-if chain sets needs, target, feeding and breeding as `Choose`, `Settle`, `Target` and `RoamTarget` define |
| Ecosystem.Rabbit.constructor | main.cpp:223-252 | the Rabbit constructor, through the Animal constructor (main.cpp:137-161): empty caches, roam target on the starting cell, needs as drawn |
| Ecosystem.Rabbit.Move | main.cpp:254-275 | one `'r'` tag leaves the old cell, the rabbit steps towards its target, one `'r'` tag is added on the new cell; nothing else of the rabbit changes |
| Ecosystem.Rabbit.ScanSurroundings | main.cpp:335-398 | the caches become `Scan` of the blueprint around the rabbit (plants as food, rabbits as mates) |
| Ecosystem.Rabbit.Pursue | main.cpp:414-448 | needs, target and breeding flag after the chain are those of the branch `Choose` picks on the needs and caches beforehand |
| Ecosystem.Rabbit.Think | main.cpp:404-448 | after tick, scan and chain, the rabbit is as the plan read off its prior state says |
| Ecosystem.Rabbit.Resolve | main.cpp:438-443 | a rabbit that bred adds exactly one fresh rabbit on its cell, headed to that cell, with empty caches, the drawn needs and one `'r'` tag |
| Ecosystem.Rabbit.Conclude | main.cpp:451-458 | a rabbit over its hunger or thirst maximum has the first rabbit on its cell erased; then, dead or not, it moves |
| Ecosystem.Rabbit.Update | main.cpp:400-459 | the whole update: final needs, caches, target and position, the newborn, the population and the blueprint are all given in terms of the plan read off the state before |
| Ecosystem.Wolf.constructor | main.cpp:467-495 | the Wolf constructor, through the Animal constructor (main.cpp:137-161): empty caches, roam target on the starting cell, needs as drawn |
| Ecosystem.Wolf.Move | main.cpp:497-516 | as Rabbit.Move with the `'W'` tag |
| Ecosystem.Wolf.ScanSurroundings | main.cpp:563-624 | the caches become `Scan` around the wolf (rabbits as food, wolves as mates) |
| Ecosystem.Wolf.Pursue | main.cpp:636-670 | as Rabbit.Pursue with the wolf's constants; reaching food means a rabbit on the wolf's own cell |
| Ecosystem.Wolf.Think | main.cpp:629-670 | after tick, scan and chain, the wolf is as the plan read off its prior state says |
| Ecosystem.Wolf.Resolve | main.cpp:640-665 | a wolf that ate erases the first rabbit on its cell and one `'r'` tag; a wolf that bred adds exactly one fresh wolf on its cell, headed to that cell, with empty caches, the drawn needs and one `'W'` tag |
| Ecosystem.Wolf.Spawn | main.cpp:660-665 | breeding adds one fresh wolf on this wolf's cell, headed to that cell, with empty caches and the drawn needs |
| Ecosystem.Wolf.Conclude | main.cpp:673-678 | a wolf over its hunger or thirst maximum has the first wolf on its cell erased; then, dead or not, it moves |
| Ecosystem.Wolf.Update | main.cpp:626-679 | the whole update, including the eaten rabbit, given in terms of the plan read off the state before |

## Left out

- Rendering, window events, textures, sprites and the intro screen: SFML
  output only.
- Perlin noise: `GenerateTerrain` takes the noise of each pixel as a function
  argument. Only the 0.4 threshold is modelled.
- `isLand` reads the terrain image's pixel colour. The model keeps one
  boolean per pixel, written by terrain generation and read behind the same
  bounds check.
- `rand()`: the newborn needs and the roaming target arrive as a `Draw`.
  Nothing constrains a draw to the source's ranges, or the roaming target to be land. The model does not capture that the roaming
  sampler loops forever when no land lies within reach.
- Floating-point geometry: positions are integer cells, and `floor` and
  `round` of a position are the position itself. The step of `move`
  (direction, speed, velocity) is the world's `step` function. The ring of
  `scanSurroundings` (radius 1 to the vision radius, angle increments
  1/(2r)) is a fixed list of offsets per species. `removeRabbit` matches
  floored positions while `removeWolf` and `removePlant` match exact ones;
  on integer cells both are cell equality.
- Zero-length step: `Animal::move` divides the vector to the target by
  its length, so an agent already standing on its target gets a NaN
  direction and a NaN position. The model's `step` is an arbitrary function
  of (position, target) and does not capture that NaN.
- Ecosystem.Rabbit.Pursue, Ecosystem.Wolf.Pursue: roaming uses the rabbit's vision radius for
  both species. In the model this is inside the drawn roaming target.
- Speed: each agent's speed, drawn at birth from the species range
  (rabbits 0.3 to 0.5, wolves 0.5 to 1), is not modelled. It is folded
  into the world's one `step` function, which both species share.
- Ecosystem.World.RemoveWolf, Ecosystem.Wolf.Conclude, Ecosystem.Wolf.Update: `removeWolf` matches the
  exact float position, so a dying wolf erases itself (or a wolf at the
  very same position). On integer cells the model erases the first wolf on
  the dying wolf's cell, which can be a different wolf, and that dying wolf
  stays in the list. Either way the erased index is at or before the dying
  wolf's own, so the sweep skip is the same.
- Needs are reals. Float rounding of the 0.05 increments is not modelled.
- `threatsAverageLocation` is reset by the rabbit's scan and never read, so
  it is not modelled.
- The stderr line with population counts printed by `masterUpdate`: the
  counts are returned instead.
- Ecosystem.World.UpdateAllRabbits, Ecosystem.World.UpdateAllWolves, Ecosystem.World.MasterUpdate: take a
  visit budget. The source loop has no bound; since newborns are appended
  during the sweep, it need not end. The contracts state membership and the
  exit condition, not the exact final lists, which depend on every draw.
  MasterUpdate's body updates the rabbits and then the wolves; its contract
  does not state that order.
- Ecosystem.World.RemoveRabbit, Ecosystem.World.RemoveWolf: the contracts do not state that tags
  keep agreeing with positions. That follows from the stated population and
  grid effects by `RabbitCellsRemoved` / `WolfCellsRemoved` and
  `TakeKeepsConsistent`.
- Ecosystem.Wolf.Resolve, Ecosystem.Wolf.Update: the eaten rabbit is removed after the wolf's
  own needs and target are written. In the source it is removed in the
  middle of the chain; nothing in between reads the populations, so the
  order is not observable.
- Initialisation (`initializeRabbits`, `initializeWolves`,
  `initializePlant`) and the main loop: they are random placement loops
  around the modelled add operations.
