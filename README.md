# A verified model of the colour-merge puzzle solver

`solve.py` solves a grid puzzle. Cells of several kinds (Basic, Square,
Turret, Line, Diamond, Triangle, Area, and Blank holes) carry colours. A move
is a path that starts and ends on cells of one colour and runs through cells
of a second colour. It recolours the interior of the path with the start
colour. Recoloured cells of some kinds then pass the colour on to other cells
in rounds. The puzzle is solved when every non-Blank cell has one colour.
`solve` is a depth-first search over moves. It visits the boards each move
leads to in order of their entropy, and it never returns to a board already
seen on the way down.

This project models that engine in Dafny and proves what it does.

- `types.dfy` (`Types`): colours, axes, orientations, the kind of a cell
  (a Turret carries its facings, a Line its axis) and cells.
- `board.dfy` (`Boards`): the board as two maps, `all` (every cell) and
  `nodes` (the non-Blank ones). It covers construction from a list of
  cells, cloning, board equality, `is_solved`, the entropy score, and the
  bounding box of the non-Blank cells.
- `geometry.dfy` (`Geometry`): rays, the neighbour met in one direction
  (with the Line gate), and each kind's neighbour rule.
- `discovery.dfy` (`Discovery`): paths, action equality and its hash, the
  recursive `explore`, and the set of moves `get_actions` discovers. That
  set is proved to be exactly the set of valid moves.
- `effects.dfy` (`Effects`): what each kind passes a new colour on to, and
  the round-by-round cascade of `apply_to`. The cascade is modelled both as
  the source's queue loop (`ApplyTo`) and as a function (`Apply`), and the
  two are proved equal.
- `search.dfy` (`Search`): `get_actions` as the source accumulates it, the
  sort of the candidates by their key, and `solve`.
- `divergence.dfy` (`Divergence`): a board on which `solve` never returns,
  because a move `get_actions` finds has a cascade that never settles.

`solve` is proved sound and, where it gives up, complete. A solution it
returns is a sequence of discovered moves through pairwise different boards,
ending on a solved board. When it answers that there is no solution, no such
sequence exists.

The model is written in the source's own form. The loops that update
state step by step are methods with loop invariants. Five of them are
proved equal to a specification function:
- `raycast`;
- the Diamond search, a breadth-first queue;
- the Turret targets;
- the `entrophy` count;
- the `apply_to` queue.

Two loops meet a contract instead of a function:
- The accumulation of `get_actions` returns discovered moves only, holds
  each discovered move or its reversal, and holds no two equal actions.
  Which of the two it keeps depends on the set's iteration order.
- The loop over candidates in `solve` returns a solution whose next move
  is the move of the first candidate, in sorted order, whose board is
  unseen and admits a win. `Solve` states this in terms of the key order
  itself. Among candidates with equal keys the order is not fixed.

Recursion and comprehensions are functions. Two loops that only collect
positions are set comprehensions too: the `for i, j in product(...)` loop
of `AreaNode.get_surrounding_neighbors` is `Effects.AreaTargets`, and the
`for neighbor in neighbors` loop of `explore` is the set of continuations
inside the recursive `Discovery.Explore`. Boards are values. The only
in-place update in the source, `node.color = color`, acts on a fresh clone,
so it is modelled as reassigning a local board.

Where the code and its written description differ, the model follows the
code. There are six such points:
- **Duplicate positions.** Construction keeps the last cell at a duplicate
  position, in `all` and separately in `nodes`; it does not reject the input.
  `DuplicatePositionKept` shows a Blank cell winning in `all` while a Basic
  cell stays in `nodes`.
- **Move length.** Every discovered move has at least three cells, not two.
- **Batches are not pruned.** The next batch of the cascade is every target
  of the current batch. Cells already recoloured are not removed.
- **Turret rays.** A Turret targets every non-Blank cell ahead of it in the
  bounding box. Lines do not stop it.
- **Non-termination.** A cascade need not settle, so `apply_to` can loop for
  ever. On a board holding only two Turrets of one colour that face each
  other, the move `[a, a, b, b]` never settles (`ApplyFacingTurrets`). No
  move is discovered on that board, though. A case `solve` does meet is a
  row of four cells: a Basic cell, a Turret facing right, a Turret facing
  left and a Basic cell. The ends share one colour and the Turrets share
  another. The move along the row is discovered, and its cascade passes
  the colour back and forth for ever (`TurretRowUnsettled`). `solve`
  applies every discovered move before it tries any, so on such a board it
  never returns. The model's `Solve` returns `Failed` there.
- **Action hash.** For a path that starts and ends on one cell, `__hash__`
  disagrees with `__eq__` (`HashDiffersOnClosedPath`). No discovered move
  is such a path.

## Model

| member | source | states |
|---|---|---|
| Boards.FromCells | solve.py:277-279 | `all_nodes` holds a cell at exactly the positions given |
| Boards.FromCellsWF | solve.py:277-282 | a board built from any list of cells is well formed: every cell sits at its own position, `nodes` holds only non-Blank cells, and every non-Blank cell of `all` is in `nodes` |
| Boards.FromCellsLastWins | solve.py:279 | `all_nodes` keeps the last cell given for a position |
| Boards.FromCellsLastActiveWins | solve.py:280-282 | `nodes` keeps the last non-Blank cell given for a position |
| Boards.DuplicatePositionKept | solve.py:277-282 | a Basic cell followed by a Blank cell at one position leaves the Blank in `all_nodes` and the Basic in `nodes` |
| Boards.Clone | solve.py:303-304 | a clone has the same cells, its `nodes` is exactly the non-Blank part of them, it equals the original as a map, and cloning a clone changes nothing |
| Boards.SameMapIffSameNodes | solve.py:295-301 | two boards are equal exactly when they hold cells at the same positions and the cells at each position have the same class, colour and position |
| Boards.CountColors | solve.py:290-292 | the count dictionary has a key exactly for each colour present among the non-Blank cells, mapped to the number of cells of that colour |
| Boards.PresentIffCounted | solve.py:286 | a colour is present among the non-Blank cells iff it is counted at least once |
| Boards.Entrophy | solve.py:288-293 | returns the number of distinct colours and the product of the per-colour counts |
| Boards.SolvedIffOneColour | solve.py:284-293 | `is_solved` holds iff the first component of `entrophy` is 1, and then the product is the number of non-Blank cells |
| Boards.ProductPositive | solve.py:293 | the product of the counts is at least 1 |
| Boards.MinOf | solve.py:90-93 | `min` of a non-empty set of coordinates is a member no larger than any other |
| Boards.MaxOf | solve.py:90-93 | `max` of a non-empty set of coordinates is a member no smaller than any other |
| Boards.Box | solve.py:332-338 | the box of `min`/`max` of `x` and `y` contains every non-Blank cell, and each bound is attained by one |
| Geometry.Walk | solve.py:89-101 | every position the scan collects is a non-Blank cell of `all_nodes` inside the box, at or beyond the start |
| Geometry.WalkOrdered | solve.py:87-103 | the positions come in order of increasing distance along the direction |
| Geometry.WalkMembers | solve.py:89-101 | a position is collected iff it is a non-Blank cell in the box at or beyond the start, and, without pass-through, no gap in `all_nodes` lies before it |
| Geometry.Raycast | solve.py:76-103 | the `while` loop returns exactly the specified ray |
| Geometry.RayCharacterised | solve.py:76-103 | a position is on the ray iff it is a non-Blank cell inside the box strictly ahead of the cell, and, without pass-through, every position between them is in `all_nodes` (Blank cells do not stop the ray) |
| Geometry.AheadGivesAxis | solve.py:361-364 | a cell strictly ahead in direction `d` gets `d`'s axis from `get_direction` |
| Geometry.NeighborInDirection | solve.py:105-117 | any neighbour returned is a non-Blank cell strictly ahead |
| Geometry.NeighborCharacterised | solve.py:105-117 | `p` is the neighbour in direction `d` iff it is the first non-Blank cell ahead with only Blank cells between, and, if it is a Line, its axis is the axis of `d` |
| Geometry.NeighborSound | solve.py:105-117 | the neighbour returned is the first non-Blank cell ahead, reached over Blank cells only, and passes the Line gate |
| Geometry.FirstHitBlankBefore | solve.py:95-100 | every position between a cell and its neighbour holds a Blank cell |
| Geometry.NeighborComplete | solve.py:105-117 | a first non-Blank cell ahead, reached over Blank cells only, that passes the Line gate is the neighbour returned |
| Geometry.Collect | solve.py:139 | the collected neighbours are non-Blank cells other than the cell itself |
| Geometry.CollectMembers | solve.py:132-139 | a position is collected iff it is the neighbour in one of the probed directions |
| Geometry.ProbedDirections | solve.py:129-206 | the directions probed: Basic and Turret follow the inbound axis (all four with none); Square probes all four; Line probes its own axis, and nothing when the inbound axis is another |
| Geometry.Neighbors | solve.py:129-140 | `get_neighbors` returns non-Blank cells other than the cell itself |
| Geometry.NeighborsByKind | solve.py:129-206 | `p` is a neighbour iff it is the neighbour in some direction the kind's rule probes for that inbound axis |
| Discovery.Extend | solve.py:424-425 | `extend` appends exactly the given positions after the path |
| Discovery.ReversedAt | solve.py:428 | the reversal holds the path's positions back to front |
| Discovery.ReversedTwice | solve.py:428 | reversing twice gives the path back |
| Discovery.ActionEqSymmetric | solve.py:427-428 | action equality is reflexive and symmetric |
| Discovery.ActionEqTransitive | solve.py:427-428 | action equality is transitive |
| Discovery.HashAgreesWithEq | solve.py:430-433 | for a path whose ends differ, equal actions hash alike |
| Discovery.HashDiffersOnClosedPath | solve.py:427-433 | a path starting and ending on one cell equals its reversal but hashes differently |
| Discovery.Candidates | solve.py:381-385 | the cells `explore` continues to are non-Blank and not yet on the path |
| Discovery.Seeds | solve.py:312-314 | the first neighbours are non-Blank cells other than the start |
| Discovery.ClosedPathIsMove | solve.py:378-379 | a path recorded when it reaches the start colour is a valid move |
| Discovery.ExtendPartialPath | solve.py:386-398 | extending the path with a candidate keeps it a distinct, linked, correctly coloured path from the same seed |
| Discovery.ExploreStep | solve.py:386-398 | each recursive call keeps the invariant of `explore` and visits one more cell |
| Discovery.ExploreSound | solve.py:367-400 | every path `explore` returns is a valid move beginning with the seed pair |
| Discovery.NextIsCandidate | solve.py:381-385 | each later cell of a valid move is a candidate of the cell before it |
| Discovery.ExploreComplete | solve.py:367-400 | `explore` called on any prefix of a valid move returns that move |
| Discovery.SeedPath | solve.py:315-328 | each seed pair of `get_actions` satisfies the invariant of `explore` |
| Discovery.DiscoveredIsValid | solve.py:306-330 | every discovered move has at least three distinct cells, both ends of the start colour, every interior cell of one other colour, and each cell a neighbour of the one before along the axis of the previous step |
| Discovery.ValidIsDiscovered | solve.py:306-330 | every such path is discovered |
| Discovery.DiscoveredIffValid | solve.py:306-400 | a path is discovered iff it is a valid move |
| Effects.TurretTargets | solve.py:172-177 | Turret targets are non-Blank cells other than the Turret |
| Effects.TurretTargetsCharacterised | solve.py:172-177 | `q` is a Turret target iff it is a non-Blank cell inside the box strictly ahead along one of the facings |
| Effects.TurretRaycasts | solve.py:172-177 | the loop over the facings returns exactly the Turret targets |
| Effects.ColorNeighborList | solve.py:230-240 | `get_color_neighbors` returns exactly the non-Blank 4-neighbours of the Diamond's colour |
| Effects.Flood | solve.py:215-228 | the flood holds its seed and only non-Blank cells |
| Effects.FloodClosed | solve.py:215-228 | the flood is closed under same-colour 4-adjacency |
| Effects.FloodLeast | solve.py:215-228 | the flood lies inside every closed set holding the seed |
| Effects.RegionCharacterised | solve.py:215-240 | the region is the least closed set holding the Diamond, and all of it but the Diamond has the Diamond's colour |
| Effects.Fresh | solve.py:222-226 | the filtered neighbours are exactly those not yet visited |
| Effects.VisitKeepsClosed | solve.py:219-227 | one step of the breadth-first search keeps every visited cell's same-colour neighbours visited or queued |
| Effects.SearchStep | solve.py:219-227 | one step keeps the search inside the region and brings it closer to the end |
| Effects.DiamondTargets | solve.py:215-228 | the breadth-first search returns exactly the same-colour region minus the Diamond |
| Effects.Targets | solve.py:72-272 | `get_targets` returns non-Blank cells other than the cell itself |
| Effects.TargetsCharacterised | solve.py:72-272 | targets by kind: Turret, every non-Blank cell ahead along a facing; Diamond, its same-colour region; Triangle, the other Triangles not of the new colour; Area, the non-Blank 8-neighbours not of the new colour; other kinds, none |
| Effects.GetTargets | solve.py:72-272 | the dispatch returns exactly the targets of the cell's kind |
| Effects.RecolorCanonical | solve.py:417-419 | recolouring keeps a cloned board a clone: `nodes` stays the non-Blank part of `all` |
| Effects.RecolorKeepsCells | solve.py:417-419 | recolouring keeps every position and kind, and cells shared by both maps stay shared |
| Effects.RecolorTwice | solve.py:411-421 | recolouring two batches with one colour is recolouring their union |
| Effects.RecolorSameColour | solve.py:417-419 | recolouring cells that already have the colour changes nothing |
| Effects.CascadeRound | solve.py:411-421 | one round: targets are computed before the batch is recoloured, and the loop ends when no targets remain |
| Effects.CascadeEffect | solve.py:411-421 | a cascade that settles recolours exactly the cells its batches held, each to the move colour, and no later batch undoes an earlier one |
| Effects.CascadeCycles | solve.py:410-421 | a batch that targets exactly itself on a board its recolouring leaves unchanged comes back every round, so the loop never ends |
| Effects.TurretSees | solve.py:172-177 | a Turret with a single facing targets exactly the non-Blank cells strictly ahead of it that way |
| Effects.AimedAt | solve.py:172-177 | a Turret facing the only other non-Blank cell targets that cell alone |
| Effects.PairCycles | solve.py:410-421 | two cells already of the move colour that target only each other keep the cascade going for ever |
| Effects.FacingTurretsNeverSettle | solve.py:410-421 | the `while` loop started from two Turrets of one colour that face each other (and target each other by lines 172-177) never ends, whatever the round budget |
| Effects.ApplyFacingTurrets | solve.py:407-422 | `apply_to` of the move `[a, a, b, b]` between two such Turrets never returns |
| Effects.ApplyEffects | solve.py:407-422 | a move that settles keeps positions and kinds, gives every interior cell the colour of the first cell, leaves Blank cells and cells outside every batch as they were, and gives every other cell its old colour or the move colour |
| Effects.ReversedInterior | solve.py:410 | a path and its reversal have the same interior |
| Effects.ApplyReversed | solve.py:407-428 | a move and its reversal, which compare equal as actions, do the same thing to the board |
| Effects.CollectTargets | solve.py:414-416 | the first loop fails iff a batch cell is not a non-Blank cell, and otherwise collects every target of the batch |
| Effects.RecolorBatch | solve.py:417-419 | the second loop recolours exactly the batch |
| Effects.Round | solve.py:412-421 | one iteration of the `while` loop advances the cascade by one round, or fails where the source raises `KeyError` |
| Effects.ApplyTo | solve.py:407-422 | the queue loop ends exactly as the cascade function does: the new board, `IndexError` for an empty path, `KeyError` for a missing cell, or the round budget spent |
| Search.AddAction | solve.py:329 | adding an action keeps the set free of equal actions and adds the action unless an equal one is present |
| Search.AddAll | solve.py:329 | `update` adds every path or an equal action, nothing else, and keeps the set free of equal actions |
| Search.SeedFound | solve.py:320-328 | the paths found from one seed are discovered moves |
| Search.GatherFrom | solve.py:315-329 | the inner loop gathers every path found from each seed of one cell |
| Search.AllSeedsSeen | solve.py:308-330 | covering every seed of every cell covers every discovered move |
| Search.GetActions | solve.py:306-330 | `get_actions` returns discovered moves only, holds every discovered move or its reversal, and holds no two equal actions |
| Search.BeforeTotal | solve.py:458 | any two candidates are comparable by `(entrophy, len(path))` |
| Search.BeforeTransitive | solve.py:458 | that order is transitive |
| Search.InsertPermutes | solve.py:455-460 | inserting adds exactly the one item |
| Search.InsertSorted | solve.py:455-460 | inserting into a sorted list keeps it sorted |
| Search.SortByKeyCorrect | solve.py:455-460 | the sorted candidates are ordered by the key and are a permutation of the input |
| Search.WinsStep | solve.py:462-466 | a move to an unseen board followed by a win from there is a win |
| Search.WinsTrace | solve.py:442-467 | a winning move list passes through pairwise different boards, none of them in `visited` after the first; each move is one `get_actions` finds on the board before it and settles into the board after it; the last board is solved |
| Search.ActionsOfAppend | solve.py:451-453 | appending a candidate adds exactly its move |
| Search.Reordered | solve.py:455-460 | sorting keeps the moves and the boards they lead to |
| Search.CandidatesComplete | solve.py:451-453 | every candidate is a move to the board it records, and every board a discovered move reaches is some candidate's board, including moves dropped as the reversal of a kept one |
| Search.ListedMovesSettle | solve.py:451-453 | when the cascade of every listed action settles and the list holds every discovered move or its reversal, every discovered move settles |
| Search.NoWinFromCandidates | solve.py:462-467 | if no candidate leads to an unseen board from which a win exists, no win exists from the board |
| Search.Neighbours | solve.py:451-453 | the mapping pairs every action with the board `apply_to` gives, or fails when some cascade does not settle |
| Search.Solve | solve.py:442-467 | a solved board returns the moves so far; a solution extends the moves so far with a win from the board that avoids `visited`, and its next move leads to an unseen board such that no move that comes strictly earlier in `(entrophy, len(path))` order leads to an unseen board with a win; "no solution" means no such win exists; when some discovered move never settles, the search fails, as the source never returns |
| Search.FirstInOrder | solve.py:455-466 | a candidate found first in the sorted list comes first in key order among the moves whose boards are unseen and admit a win |
| Search.TryInOrder | solve.py:462-467 | the loop returns a solution whose next move is that of a candidate with an unseen board, every earlier candidate's board being visited or admitting no win; when it finds none, every candidate's board is already visited or admits no win |
| Search.TryOne | solve.py:463-466 | the recursive call on a copy of the visited set yields a win from the parent whose next move is the candidate's, at least one move longer than the moves so far, or proves there is none from the child |
| Search.SolutionExtends | solve.py:464-466 | a solution from a candidate's board, prefixed with its move, is a solution from the parent |
| Search.SolvePuzzle | solve.py:442-453 | `solve(map_, [], set())`: an already solved board gives the empty list; a list returned wins from the board; "no solution" means no winning sequence of moves through distinct boards exists; a board with a discovered move that never settles gives no answer |
| Divergence.RowTargets | solve.py:172-177 | on the row, the right-facing Turret targets the two cells to its right, the left-facing one the two to its left, and the Basic cells nothing |
| Divergence.RowTurretTargets | solve.py:172-177 | a Turret of the row targets exactly the cells of the row ahead of it |
| Divergence.FourCellLoop | solve.py:410-421 | four cells whose targets are those of the row, before and after the Turrets are recoloured, keep the `while` loop going for ever once all four share the move colour |
| Divergence.GrowsThenCycles | solve.py:410-421 | a first batch that targets a set which then targets itself, on a board its recolouring no longer changes, keeps the loop going for ever |
| Divergence.RowSettled | solve.py:417-419 | once the Turrets take the colour of the ends, recolouring the whole row changes nothing |
| Divergence.RowApply | solve.py:407-411 | `apply_to` of the move along the row starts the loop from the two Turrets, in the colour of the first cell, on the board itself |
| Divergence.RowCascade | solve.py:410-421 | on the row, the loop started from the two Turrets in the colour of the ends never ends |
| Divergence.RowNeverSettles | solve.py:407-422 | `apply_to` of the move along the row never returns when its ends share a colour |
| Divergence.NextDoor | solve.py:105-140 | a non-Line cell right next to a cell, in a direction its kind probes for the inbound axis, is one of its neighbours |
| Divergence.RowLink | solve.py:128-170 | entering a Turret of the row horizontally, the cell to its right is a neighbour |
| Divergence.RowLinked | solve.py:128-170 | every cell of the move along the row is a neighbour of the one before, along the axis of the previous step |
| Divergence.RowMoveDiscovered | solve.py:306-400 | with the Turrets of one colour and the ends of another, `get_actions` discovers the move along the row |
| Divergence.TurretRowUnsettled | solve.py:407-453 | such a row has a discovered move that never settles, so the mapping in `solve` never completes |

## Left out

- Presentation is not modelled: the ANSI values of `Color`, `ENDC`, `char`, `colored_char`, `__repr__`, `__str__`, `Map.draw`, `width`, `height`, `draw_solution` and `main`. They print, and they lay out the hard-coded puzzle.
- The `cached_property` caching of `x` and `y` is not modelled. Positions never change, so recomputing the box gives the same values.
- Python's `hash()` values are not modelled. Board equality is modelled as equality of the position-to-(class, colour) map that `__hash__` hashes, so hash collisions are ignored.
- Geometry.Raycast: requires a non-empty `nodes`, where `min()` of an empty list would raise `ValueError`. Every call in the source starts from a non-Blank cell, so that case never arises.
- Effects.ApplyTo: the cascade is given a budget of `rounds` rounds, and `OutOfRounds` stands for a cascade the source would run for ever. The source does not terminate in general (see `ApplyFacingTurrets` and `TurretRowUnsettled`).
- Search.Solve: the search is given a depth budget `depth`. `Failed` stands for three things: an exception escaping `apply_to`, a cascade that does not settle, or the budget being spent. Python's recursion limit is not modelled.
- Search.GetActions: which of a move and its reversal ends up in the set depends on the set's iteration order. The model states only that one of them does.
- Search.SortByKey: among candidates with equal keys the order is unspecified, as it is for the source's set iteration. Every property of `Solve` holds whatever that order is.
- Search.SolvePuzzle: an already solved board gives `Solution([])`. The caller's `if sol:` in `main` reads that as "No solution", and `main` is not modelled.
- Aliasing is not modelled. `apply_to` mutates only cells of the fresh clone, so boards are values, `visited.copy()` is a value, and the input board is never changed.

