# RummikubSolver, modelled in Dafny

A model of the greedy Rummikub move-maker of RummikubSolver. It covers:

- **Tiles.** A tile has an id, a value (1..13, or 0 for a joker) and a colour (none for a joker). Equality is by id.
- **Melds (`RummiSet`).** A meld is a list of tiles. It is checked as a group (at most four tiles of one value in distinct colours) or as a run (one colour, ascending values, with jokers filling the gaps). It answers the queries stage 3 uses: the missing colours of a group, and the colour, next value and preceding value of a run.
- **The hand and the board.** Both are mutable lists.
- **The solver.** One move runs three stages, each repeated while it succeeds:
  1. play new melds from the hand, runs before groups;
  2. steal one board tile to complete a hand pair;
  3. put single hand tiles onto board melds.

## How the model is built

- **Tiles and sorting.** `Tiles` holds tiles and the id-based list operations. `Sorting` holds the stable sort the solver relies on.
- **Meld rules.** `Melds` gives the meld rules as functions on tile sequences. `MeldFacts` proves the properties of those rules.
- **Mutable objects.** `RummiSets`, `Hands` and `Boards` are classes with sequence fields. Their methods mirror the Java code, loops included, and are proved equal to those functions.
- **Value-level solver.** `Strategy` states each solver step as a function on a `Table`: the tiles of each meld in board order, plus the hand. `Moves` states the whole move on the same `Table`.
- **Step properties.** `StrategyFacts` and `Conservation` prove what each step does:
  - which meld is played;
  - which indices are tried;
  - that the hand strictly shrinks;
  - that no tile is created or lost.
- **Solver methods.** The `Solver` module holds the methods on the mutable board and hand. Each is proved to leave the table exactly as its value-level counterpart says, and `MakeMove` is proved equal to `Moves.Move`.

The model reproduces the source's greedy behaviour, quirks included:

- **The move.** Each stage runs once, in order; a later stage never re-runs an earlier one.
- **Stage 1.** The run scan stops at the first colour change.
- **Stage 2.** A steal from inside a run whose remainders are not both melds gives up on that index, even when later pairs remain.
- **Run extension values.** The next and preceding values of a run subtract every joker from the lowest value. So a joker inside a run is counted below the run (`MeldFacts.InnerJokerCountedBelow`).
- **Stage 2 can leave an invalid meld.** A steal at index 0 takes the first tile listed, not the lowest. Losing an end tile keeps a run a meld when its numbered tiles are listed in ascending order and it has two numbered tiles or at most five tiles. Without these conditions it may not.
  - B4 and K4 steal R4 from the run listed as {R4, R3, R5, R6}, leaving {R3, R5, R6} (`StrategyFacts.StealCanBreakRun`).
  - On a board of melds whose runs are listed in ascending order, and where every run has two numbered tiles or at most five tiles, every steal leaves a board of melds (`StrategyFacts.TheftKeepsMelds`).
- **Stage 3 can leave an invalid meld.**
  - A second R7 fits the end of {R5, J, R7} (`StrategyFacts.AppendCanBreakRun`).
  - A fourth colour fits a group that already has four tiles, one of them a joker (`StrategyFacts.AppendCanOverfillGroup`).

## Worked examples

`Scenarios` follows two whole moves, step by step, through `Moves.Move`:

- **A new run and a new group.** The board is empty and the hand is R1, R2, R3, B7, K7, Y7. Stage 1 plays the run R1-R3 and then the group of sevens. The move succeeds and leaves the hand empty (`Scenarios.ScenarioA`).
- **A split run.** The board holds R1 to R7 and the hand is B4, K4. Stage 2 tries index 0, then index 6, then index 3. It steals R4 and leaves R1-R3, R5-R7 and the group {R4, B4, K4} (`Scenarios.ScenarioC`).

A steal completed by a joker in the hand has no such example, because the source cannot reach it:

- with two or more hand tiles, stage 1 first sorts the hand by colour, and comparing a joker's missing colour faults (Solver.java:60-64);
- the pair check `isPotentiallyValidPair` (Solver.java:319-329) never accepts a joker. Its value 0 matches no numbered tile, and its missing colour equals no colour.

## Model

| member | source | states |
|---|---|---|
| Tiles.RegularTileFields | app/src/main/java/com/example/rummikubsolver/Tile.java:15-20 | a numbered tile reports the value and colour it was built with, is no joker, and is well formed for values 1..13 |
| Tiles.JokerTileFields | app/src/main/java/com/example/rummikubsolver/Tile.java:23-28 | a joker has value 0, no colour, and is a joker |
| Tiles.EqualityIsById | app/src/main/java/com/example/rummikubsolver/Tile.java:50-60 | (by definition) two tiles are equal exactly when their ids are, whatever their value, colour or joker flag; equal tiles hash alike |
| Tiles.RemoveFirst | app/src/main/java/com/example/rummikubsolver/Hand.java:21-23 | `remove(Object)` on a tile list: the result is a sub-multiset of the list, one element shorter or unchanged |
| Tiles.RemoveFirstIds | app/src/main/java/com/example/rummikubsolver/Hand.java:21-23 | removal succeeds exactly when some element has the id: the list then loses exactly one copy of that id; otherwise it is unchanged |
| Tiles.RemoveFirstAt | app/src/main/java/com/example/rummikubsolver/Hand.java:21-23 | what is removed is the element at the first index whose id matches |
| Tiles.IdBagHolds | app/src/main/java/com/example/rummikubsolver/Hand.java:21-23 | `contains` (equality by id) holds exactly when the id is among the list's ids |
| Tiles.RemoveEach | app/src/main/java/com/example/rummikubsolver/Solver.java:298-303 | removing the tiles of a list one after another keeps a sub-multiset, losing at most as many elements as were listed |
| Tiles.RemoveEachIds | app/src/main/java/com/example/rummikubsolver/Solver.java:298-303 | when all the listed ids are present, exactly that many elements and exactly those ids leave |
| Tiles.RemoveEachPair | app/src/main/java/com/example/rummikubsolver/Solver.java:236-238 | removing a pair is removing its first tile, then its second |
| Sorting.SortBy | app/src/main/java/com/example/rummikubsolver/Solver.java:57-64 | the sorted copy of the hand has the same length and the same tiles (a permutation) |
| Sorting.SortBySorted | app/src/main/java/com/example/rummikubsolver/Solver.java:57-64 | the sorted copy is ordered by the key: (colour, value), or value only |
| Sorting.SortIsStable | app/src/main/java/com/example/rummikubsolver/Solver.java:101-104 | the sort is stable: tiles with equal keys keep their relative order |
| Sorting.SortKeepsSorted | app/src/main/java/com/example/rummikubsolver/Solver.java:101-104 | sorting a list already in key order leaves it as it is |
| Sorting.InsertSorted | app/src/main/java/com/example/rummikubsolver/Solver.java:101-104 | inserting into an ordered list keeps it ordered |
| Melds.JokerCount | app/src/main/java/com/example/rummikubsolver/RummiSet.java:99-115 | jokers and numbered tiles together are the whole list |
| Melds.NumberedMembers | app/src/main/java/com/example/rummikubsolver/RummiSet.java:99-115 | the numbered-tile list holds exactly the non-jokers of the meld |
| Melds.AbsentMembers | app/src/main/java/com/example/rummikubsolver/RummiSet.java:156-173 | a colour is reported missing exactly when it is one of the candidates and no numbered tile has it |
| Melds.AllColorsListed | app/src/main/java/com/example/rummikubsolver/RummiSet.java:156-173 | the colour list names every colour, once each |
| Melds.FirstHue | app/src/main/java/com/example/rummikubsolver/RummiSet.java:233-239 | the first colour found exists exactly when a numbered tile does, and it is a colour of the meld |
| Melds.AscendingSpread | app/src/main/java/com/example/rummikubsolver/RummiSet.java:117-137 | in strictly ascending values, q - p steps apart means a value gap of at least q - p |
| Melds.GapsTooWide | app/src/main/java/com/example/rummikubsolver/RummiSet.java:117-137 | when the gaps up to some tile need more jokers than there are, the run check fails |
| Melds.AbsentStep | app/src/main/java/com/example/rummikubsolver/RummiSet.java:156-173 | adding a numbered tile to a meld drops exactly its colour from the missing ones |
| RummiSets.RummiSet.Empty | app/src/main/java/com/example/rummikubsolver/RummiSet.java:10-12 | a new meld has no tiles |
| RummiSets.RummiSet.constructor | app/src/main/java/com/example/rummikubsolver/RummiSet.java:14-20 | a meld built from a list holds exactly that list's tiles, in order |
| RummiSets.RummiSet.Copy | app/src/main/java/com/example/rummikubsolver/RummiSet.java:22-24 | a copy holds the same tiles |
| RummiSets.RummiSet.AddTile | app/src/main/java/com/example/rummikubsolver/RummiSet.java:27-29 | the tile is appended at the end |
| RummiSets.RummiSet.AddTileAt | app/src/main/java/com/example/rummikubsolver/RummiSet.java:31-35 | the tile is inserted at index when 0 <= index <= size; otherwise the tiles are unchanged |
| RummiSets.RummiSet.RemoveTile | app/src/main/java/com/example/rummikubsolver/RummiSet.java:43-45 | reports whether a tile of that id was there and removes the first one |
| RummiSets.RummiSet.RemoveTileAt | app/src/main/java/com/example/rummikubsolver/RummiSet.java:47-52 | in range: returns the tile at index and removes it; out of range: returns nothing and changes nothing |
| RummiSets.RummiSet.IsValid | app/src/main/java/com/example/rummikubsolver/RummiSet.java:56-66 | valid exactly when there are at least 3 tiles and they form a group or a run |
| RummiSets.RummiSet.IsGroup | app/src/main/java/com/example/rummikubsolver/RummiSet.java:69-91 | a group check passes exactly when the meld has at most 4 tiles and all numbered tiles share one value and have distinct colours |
| RummiSets.RummiSet.IsRun | app/src/main/java/com/example/rummikubsolver/RummiSet.java:94-138 | a run check passes exactly when the numbered tiles share a colour and, sorted, ascend strictly with gaps the jokers can fill |
| RummiSets.RummiSet.JokersFillGaps | app/src/main/java/com/example/rummikubsolver/RummiSet.java:117-137 | the joker-spending walk succeeds exactly when the sorted values ascend strictly and the spread is less than tiles plus jokers |
| RummiSets.RummiSet.GetSetType | app/src/main/java/com/example/rummikubsolver/RummiSet.java:147-153 | INVALID exactly when not valid, GROUP exactly when valid and a group, RUN exactly when valid and not a group |
| RummiSets.RummiSet.GetGroupMissingColors | app/src/main/java/com/example/rummikubsolver/RummiSet.java:156-173 | for a group, a colour is listed exactly when no numbered tile has it; for anything else the list is empty |
| RummiSets.RummiSet.FindLogicalStart | app/src/main/java/com/example/rummikubsolver/RummiSet.java:177-230 | the logical start is the lowest numbered value minus the number of jokers |
| RummiSets.RummiSet.GetRunNextValue | app/src/main/java/com/example/rummikubsolver/RummiSet.java:177-199 | -1 for a non-run or when the logical end is 13 or more; else the logical end plus one |
| RummiSets.RummiSet.GetRunPrecedingValue | app/src/main/java/com/example/rummikubsolver/RummiSet.java:203-230 | -1 for a non-run or when the logical start is 1 or less; else the logical start minus one |
| RummiSets.RummiSet.GetRunColor | app/src/main/java/com/example/rummikubsolver/RummiSet.java:233-239 | the colour of the first numbered tile of a run; none for a non-run |
| MeldFacts.ShortListIsInvalid | app/src/main/java/com/example/rummikubsolver/RummiSet.java:57-59 | fewer than 3 tiles is never a meld |
| MeldFacts.JokersAloneFormGroup | app/src/main/java/com/example/rummikubsolver/RummiSet.java:69-91 | 3 or 4 jokers alone are a GROUP (and not a run) |
| MeldFacts.GroupTooLarge | app/src/main/java/com/example/rummikubsolver/RummiSet.java:70 | more than 4 tiles is never a group |
| MeldFacts.GroupNeedsOneNumber | app/src/main/java/com/example/rummikubsolver/RummiSet.java:76-85 | two numbered tiles of different values rule out a group |
| MeldFacts.GroupNeedsDistinctColors | app/src/main/java/com/example/rummikubsolver/RummiSet.java:76-89 | two numbered tiles of the same colour rule out a group |
| MeldFacts.RunNeedsOneColor | app/src/main/java/com/example/rummikubsolver/RummiSet.java:100-111 | two numbered tiles of different colours rule out a run |
| MeldFacts.RunRejectsRepeatedNumber | app/src/main/java/com/example/rummikubsolver/RummiSet.java:117-137 | numbered tiles of the same value at two positions rule out a run, including the same tile listed twice |
| MeldFacts.RepeatedNumberIsInvalid | app/src/main/java/com/example/rummikubsolver/RummiSet.java:117-137 | {R3, R3, J, R5} is neither a run nor any meld |
| MeldFacts.ClassifyMeaning | app/src/main/java/com/example/rummikubsolver/RummiSet.java:147-153 | (by definition) the classification in terms of the group and run checks, both directions |
| MeldFacts.LogicalStartIsLowestLessJokers | app/src/main/java/com/example/rummikubsolver/RummiSet.java:177-230 | for well-formed tiles, logical start plus joker count is the lowest numbered value of the meld |
| MeldFacts.StartFromLowest | app/src/main/java/com/example/rummikubsolver/RummiSet.java:177-230 | the logical start is the lowest value less every joker, wherever the jokers sit |
| MeldFacts.FirstNumberIsLowest | app/src/main/java/com/example/rummikubsolver/RummiSet.java:177-230 | after sorting by value the first numbered tile has the lowest value |
| MeldFacts.LeadingJokersAreAll | app/src/main/java/com/example/rummikubsolver/RummiSet.java:177-230 | after sorting by value every joker comes before the numbered tiles |
| MeldFacts.JokerCountSorted | app/src/main/java/com/example/rummikubsolver/RummiSet.java:177-230 | sorting keeps the number of jokers |
| MeldFacts.RunFromOrderedNumbers | app/src/main/java/com/example/rummikubsolver/RummiSet.java:94-138 | one colour plus strictly ascending numbered values within reach of the jokers make a run |
| MeldFacts.ConsecutiveIsRun | app/src/main/java/com/example/rummikubsolver/RummiSet.java:94-138 | 3 or more consecutive values of one colour are a RUN |
| MeldFacts.ConsecutiveRunExtensions | app/src/main/java/com/example/rummikubsolver/RummiSet.java:177-230 | for such a run: its colour, no missing colours, next value start+size (or -1 past 13), preceding value start-1 (or -1 at 1) |
| MeldFacts.PlainRunExtensions | app/src/main/java/com/example/rummikubsolver/RummiSet.java:177-230 | {R3, R4, R5}: run, next 6, preceding 2, colour red |
| MeldFacts.LeadingJokerRunExtensions | app/src/main/java/com/example/rummikubsolver/RummiSet.java:177-230 | {J, R5, R6}: run, next 7, preceding 3 |
| MeldFacts.InnerJokerCountedBelow | app/src/main/java/com/example/rummikubsolver/RummiSet.java:177-230 | {R5, J, R7}: run, yet next 7 and preceding 3, because the inner joker is counted below the lowest value |
| Strategy.FindRunFrom | app/src/main/java/com/example/rummikubsolver/Solver.java:66-93 | a run candidate is played only when it has 3 or more tiles and is a meld |
| Strategy.FindGroupFrom | app/src/main/java/com/example/rummikubsolver/Solver.java:106-128 | a group candidate is played only when it has 3 or more tiles and is a meld |
| Strategy.PairFrom | app/src/main/java/com/example/rummikubsolver/Solver.java:187-207 | the pair found comes from the hand in scan order (i < j), is worth trying and makes a meld with the stolen tile |
| Strategy.StealIndices | app/src/main/java/com/example/rummikubsolver/Solver.java:145-172 | every index theft tries is an index of the meld |
| StrategyFacts.RunToPlayIsRun | app/src/main/java/com/example/rummikubsolver/Solver.java:56-95 | the run stage 1 plays: 3+ tiles, consecutive values of one colour, a RUN, drawn from the hand |
| StrategyFacts.GroupToPlayIsGroup | app/src/main/java/com/example/rummikubsolver/Solver.java:100-130 | the group stage 1 plays: 3+ tiles, a meld, starting with a numbered tile, drawn from the hand; for well-formed hands a GROUP of at most 4 without jokers |
| StrategyFacts.DistinctHuesAtMostFour | app/src/main/java/com/example/rummikubsolver/Solver.java:113-119 | numbered tiles of pairwise distinct colours number at most 4 |
| StrategyFacts.NewSetStepEffect | app/src/main/java/com/example/rummikubsolver/Solver.java:43-51 | a stage-1 step adds exactly one meld of 3+ tiles at the end of the board and removes exactly its tiles from the hand; a run is preferred to a group |
| StrategyFacts.SortableAfterRemoval | app/src/main/java/com/example/rummikubsolver/Solver.java:57-64 | a hand that could be sorted by colour still can after tiles leave it |
| StrategyFacts.RemoveDrawn | app/src/main/java/com/example/rummikubsolver/Solver.java:298-303 | removing tiles drawn from the hand shrinks it by their number and removes exactly their ids |
| StrategyFacts.PotentialPairSymmetric | app/src/main/java/com/example/rummikubsolver/Solver.java:319-329 | the pair test does not depend on the order of the two tiles |
| StrategyFacts.PotentialPairExcludesJokers | app/src/main/java/com/example/rummikubsolver/Solver.java:319-329 | no pair with a joker (and well-formed tiles) qualifies |
| StrategyFacts.StealIndicesMeaning | app/src/main/java/com/example/rummikubsolver/Solver.java:145-172 | an index is tried exactly when: any index of a group of more than 3; 0 or size-1 of another meld of more than 3; 3..size-4 of one of 7 or more |
| StrategyFacts.MiddleLeavesThree | app/src/main/java/com/example/rummikubsolver/Solver.java:167-171 | a middle index leaves at least 3 tiles on each side |
| StrategyFacts.GroupLosesOne | app/src/main/java/com/example/rummikubsolver/Solver.java:147-152 | a group of more than 3 stays a group without any one of its tiles |
| StrategyFacts.TripleHolds | app/src/main/java/com/example/rummikubsolver/Solver.java:197-207 | the candidate meld of a steal is the stolen tile and the pair, sorted |
| StrategyFacts.TryAtPair | app/src/main/java/com/example/rummikubsolver/Solver.java:182-239 | a successful steal takes a numbered tile and the first qualifying pair (i < j) of the hand, and removes exactly that pair from the hand |
| StrategyFacts.PairRemoved | app/src/main/java/com/example/rummikubsolver/Solver.java:236-238 | removing the pair shrinks the hand by exactly 2 and removes exactly their ids |
| StrategyFacts.TryAtMelds | app/src/main/java/com/example/rummikubsolver/Solver.java:211-234 | (by definition) from a group or an end: the tile leaves its meld and the new meld is added last; from the middle: both remainders are melds and replace the source, followed by the new meld |
| StrategyFacts.TryIndicesIndex | app/src/main/java/com/example/rummikubsolver/Solver.java:145-172 | a successful theft over a meld is the steal at one of the indices tried |
| StrategyFacts.TryIndicesAppend | app/src/main/java/com/example/rummikubsolver/Solver.java:158-172 | the index lists are tried in order and the first success wins |
| StrategyFacts.TryRangeSplit | app/src/main/java/com/example/rummikubsolver/Solver.java:150-152 | trying a range of indices is trying its first part, then the rest only when that fails |
| StrategyFacts.TryStealIndicesGroup | app/src/main/java/com/example/rummikubsolver/Solver.java:147-153 | (by definition) theft from a group tries all indices when it has more than 3 tiles, none otherwise |
| StrategyFacts.TryStealIndicesRun | app/src/main/java/com/example/rummikubsolver/Solver.java:157-172 | theft from anything else tries the ends first and the middle indices only after both fail |
| StrategyFacts.PairFromSkipped | app/src/main/java/com/example/rummikubsolver/Solver.java:189-195 | the pair scan passes over the partners of h[i] that do not qualify |
| StrategyFacts.AppendFromSkipped | app/src/main/java/com/example/rummikubsolver/Solver.java:256-286 | stage 3 passes over the hand tiles that fit neither end of the meld |
| StrategyFacts.TheftFromIndex | app/src/main/java/com/example/rummikubsolver/Solver.java:140-176 | a successful theft is the steal at some allowed index of some meld |
| StrategyFacts.TheftStepEffect | app/src/main/java/com/example/rummikubsolver/Solver.java:140-239 | a stage-2 step steals a numbered tile at an allowed index of some meld with the first qualifying hand pair (i, j). The new meld is the sorted triple: three tiles, a meld, made of exactly the stolen tile and the pair. From a group or an end, the board is the old board with that tile taken out of its meld and the new meld added last. From inside a run, both remainders are melds, and they replace the source meld, followed by the new meld. The hand shrinks by exactly 2, loses exactly the pair's ids and stays sortable by colour |
| StrategyFacts.StealKeepsMelds | app/src/main/java/com/example/rummikubsolver/Solver.java:210-239 | on a board of melds, a successful steal leaves a board of melds when it splits a run, or when its source is a group or a run listed in ascending order with two numbered tiles or at most five tiles |
| StrategyFacts.TheftKeepsMelds | app/src/main/java/com/example/rummikubsolver/Solver.java:140-176 | on a board of melds whose runs are listed in ascending order, and where every run has two numbered tiles or at most five tiles, a stage-2 step leaves a board of melds |
| StrategyFacts.StealCanBreakRun | app/src/main/java/com/example/rummikubsolver/Solver.java:157-172 | B4 and K4 steal R4 from the run listed as {R4, R3, R5, R6}; the board becomes {R3, R5, R6} and {R4, B4, K4}, and {R3, R5, R6} is no meld |
| StrategyFacts.AppendFromIndex | app/src/main/java/com/example/rummikubsolver/Solver.java:253-289 | a successful append is the first (meld, tile) that fits, put at the end or the start |
| StrategyFacts.AppendStepEffect | app/src/main/java/com/example/rummikubsolver/Solver.java:253-289 | a stage-3 step changes one meld by one tile at an end and removes exactly that tile from the hand |
| MeldFacts.RunLosesEnd | app/src/main/java/com/example/rummikubsolver/RummiSet.java:94-138 | a run of more than three tiles, numbered tiles listed ascending, that loses a numbered end tile is still a meld, provided it had two numbered tiles or at most five tiles |
| StrategyFacts.AppendCanBreakRun | app/src/main/java/com/example/rummikubsolver/Solver.java:269-277 | a second R7 fits the end of {R5, J, R7}, and the result is no meld |
| StrategyFacts.AppendCanOverfillGroup | app/src/main/java/com/example/rummikubsolver/Solver.java:259-265 | Y5 fits the group {R5, B5, K5, J}, and the five tiles are no meld |
| Conservation.NewSetStepConserves | app/src/main/java/com/example/rummikubsolver/Solver.java:43-51 | stage 1 neither creates nor loses a tile: the ids on the table are the same |
| Conservation.TryAtConserves | app/src/main/java/com/example/rummikubsolver/Solver.java:182-239 | a steal neither creates nor loses a tile |
| Conservation.TheftStepConserves | app/src/main/java/com/example/rummikubsolver/Solver.java:140-176 | stage 2 neither creates nor loses a tile |
| Conservation.AppendStepConserves | app/src/main/java/com/example/rummikubsolver/Solver.java:253-289 | stage 3 neither creates nor loses a tile |
| Conservation.BoardIdsUpdate | app/src/main/java/com/example/rummikubsolver/Solver.java:253-289 | replacing one meld swaps its ids for the new meld's |
| Conservation.BoardIdsWithout | app/src/main/java/com/example/rummikubsolver/Board.java:24-26 | taking a meld off the board takes exactly its ids |
| Conservation.BoardIdsAppend | app/src/main/java/com/example/rummikubsolver/Board.java:21-23 | the ids of two boards put together are the sum of their ids |
| Moves.NewSetProgress | app/src/main/java/com/example/rummikubsolver/Solver.java:18-21 | each stage-1 success strictly shrinks the hand, which stays sortable by colour |
| Moves.TheftProgress | app/src/main/java/com/example/rummikubsolver/Solver.java:23-26 | each stage-2 success strictly shrinks the hand |
| Moves.AppendProgress | app/src/main/java/com/example/rummikubsolver/Solver.java:28-31 | each stage-3 success strictly shrinks the hand |
| Moves.RepeatNew | app/src/main/java/com/example/rummikubsolver/Solver.java:18-21 | stage 1 repeated ends when no new meld can be played, with a hand no larger |
| Moves.RepeatTheft | app/src/main/java/com/example/rummikubsolver/Solver.java:23-26 | stage 2 repeated ends when no steal succeeds |
| Moves.RepeatAppend | app/src/main/java/com/example/rummikubsolver/Solver.java:28-31 | stage 3 repeated ends when no tile fits |
| Moves.Move | app/src/main/java/com/example/rummikubsolver/Solver.java:15-34 | after a move no single hand tile fits any meld, and the hand is no larger |
| Moves.RepeatNewEffect | app/src/main/java/com/example/rummikubsolver/Solver.java:18-21 | the stage changes nothing when its first step fails, and shrinks the hand when it succeeds |
| Moves.RepeatTheftEffect | app/src/main/java/com/example/rummikubsolver/Solver.java:23-26 | the stage changes nothing when its first step fails, and shrinks the hand when it succeeds |
| Moves.RepeatAppendEffect | app/src/main/java/com/example/rummikubsolver/Solver.java:28-31 | the stage changes nothing when its first step fails, and shrinks the hand when it succeeds |
| Moves.RepeatNewConserves | app/src/main/java/com/example/rummikubsolver/Solver.java:18-21 | the stage keeps the table's ids; the hand only loses tiles |
| Moves.RepeatTheftConserves | app/src/main/java/com/example/rummikubsolver/Solver.java:23-26 | the stage keeps the table's ids; the hand only loses tiles |
| Moves.RepeatAppendConserves | app/src/main/java/com/example/rummikubsolver/Solver.java:28-31 | the stage keeps the table's ids; the hand only loses tiles |
| Moves.MoveEffect | app/src/main/java/com/example/rummikubsolver/Solver.java:15-34 | a move reports progress exactly when the hand shrank; without progress nothing changed; the ids on the table are kept |
| Moves.EmptyHandNoMove | app/src/main/java/com/example/rummikubsolver/Solver.java:15-34 | from an empty hand a move changes nothing and reports false |
| Moves.NewSetKeepsMelds | app/src/main/java/com/example/rummikubsolver/Solver.java:298-303 | a stage-1 step keeps every meld there was and adds a valid one |
| Moves.RepeatNewKeepsMelds | app/src/main/java/com/example/rummikubsolver/Solver.java:18-21 | stage 1 keeps the melds there were as a prefix, and a board of melds stays a board of melds |
| Hands.Hand.constructor | app/src/main/java/com/example/rummikubsolver/Hand.java:8-10 | a new hand is empty |
| Hands.Hand.Copy | app/src/main/java/com/example/rummikubsolver/Hand.java:13-15 | a copy holds the same tiles in the same order |
| Hands.Hand.AddTile | app/src/main/java/com/example/rummikubsolver/Hand.java:18-20 | the tile is appended, so the size grows by one |
| Hands.Hand.RemoveTile | app/src/main/java/com/example/rummikubsolver/Hand.java:21-23 | true exactly when a tile with that id is held: then the first one leaves and the size drops by one; otherwise nothing changes |
| Hands.Hand.GetSize | app/src/main/java/com/example/rummikubsolver/Hand.java:27-29 | the number of tiles held |
| Hands.Hand.IsEmpty | app/src/main/java/com/example/rummikubsolver/Hand.java:30-32 | true exactly when the size is 0 |
| Boards.Board.constructor | app/src/main/java/com/example/rummikubsolver/Board.java:9-11 | a new board has no melds |
| Boards.Board.Copy | app/src/main/java/com/example/rummikubsolver/Board.java:14-19 | the copy has the same melds tile for tile, each a new object, so changing one board's melds leaves the other's alone |
| Boards.Board.AddSet | app/src/main/java/com/example/rummikubsolver/Board.java:21-23 | the meld is appended, so the count grows by one |
| Boards.Board.RemoveSet | app/src/main/java/com/example/rummikubsolver/Board.java:24-26 | true exactly when that meld object is on the board: its first occurrence is removed; otherwise nothing changes |
| Boards.Board.GetSetsCount | app/src/main/java/com/example/rummikubsolver/Board.java:30-32 | the number of melds on the board |
| Boards.Board.IsValid | app/src/main/java/com/example/rummikubsolver/Board.java:36-43 | true exactly when every meld on the board is valid (so an empty board is valid) |
| Boards.Board.Melds | app/src/main/java/com/example/rummikubsolver/Board.java:27-29 | the tiles of the melds, in board order |
| Boards.FirstIndexOf | app/src/main/java/com/example/rummikubsolver/Board.java:24-26 | the first position of a meld object on the board |
| Solver.HasColor | app/src/main/java/com/example/rummikubsolver/Solver.java:308-313 | true exactly when some tile of the list has the colour |
| Solver.IsPotentiallyValidPair | app/src/main/java/com/example/rummikubsolver/Solver.java:319-329 | true exactly for the same value with different colours, or the same colour with values 1 or 2 apart |
| Solver.PlaceNewSet | app/src/main/java/com/example/rummikubsolver/Solver.java:298-303 | the meld is appended to the board and each listed tile leaves the hand |
| Solver.RemoveAll | app/src/main/java/com/example/rummikubsolver/Solver.java:300-302 | the hand afterwards is the hand with each listed tile removed (its first occurrence by id), in order |
| Solver.FindAndPlayRun | app/src/main/java/com/example/rummikubsolver/Solver.java:56-95 | plays exactly the run the scan over the (colour, value)-sorted hand finds, or changes nothing when there is none |
| Solver.CollectRun | app/src/main/java/com/example/rummikubsolver/Solver.java:70-84 | the run candidate collected from a starting tile: it follows the colour block and takes each next value |
| Solver.TryPlace | app/src/main/java/com/example/rummikubsolver/Solver.java:86-91 | plays the candidate exactly when it has 3+ tiles and is a meld, leaving the table as stage 1 says; otherwise changes nothing |
| Solver.CollectGroup | app/src/main/java/com/example/rummikubsolver/Solver.java:107-119 | the group candidate collected from a starting tile |
| Solver.FindAndPlayGroup | app/src/main/java/com/example/rummikubsolver/Solver.java:100-130 | plays exactly the group the scan over the value-sorted hand finds, or changes nothing when there is none |
| Solver.PlayNewSetFromHand | app/src/main/java/com/example/rummikubsolver/Solver.java:43-51 | does exactly one stage-1 step: a run if any, else a group, else nothing |
| Solver.StealInPlace | app/src/main/java/com/example/rummikubsolver/Solver.java:216-218 | the tile leaves its meld in place and the new meld goes last on the board |
| Solver.SplitAround | app/src/main/java/com/example/rummikubsolver/Solver.java:220-234 | commits only when both remainders are melds: the source is replaced by left, right and the new meld; otherwise the board is untouched |
| Solver.ReplaceWithParts | app/src/main/java/com/example/rummikubsolver/Solver.java:230-233 | the source meld leaves the board and left, right and the new meld are added last, in that order |
| Solver.ExecuteSteal | app/src/main/java/com/example/rummikubsolver/Solver.java:211-239 | the execution of a found steal, in its three outcomes |
| Solver.RemovePair | app/src/main/java/com/example/rummikubsolver/Solver.java:236-238 | the pair leaves the hand, first tile then second |
| Solver.TryToMatchAndExecute | app/src/main/java/com/example/rummikubsolver/Solver.java:182-244 | succeeds exactly when the value-level steal at that index does, leaving the table as it says; on failure nothing changes |
| Solver.FindStealPair | app/src/main/java/com/example/rummikubsolver/Solver.java:189-210 | finds exactly the first qualifying pair, with its sorted new meld |
| Solver.FindPartner | app/src/main/java/com/example/rummikubsolver/Solver.java:190-241 | the inner scan for h[i]: the first qualifying partner j > i, or none, as the pair scan defines it |
| Solver.TryPair | app/src/main/java/com/example/rummikubsolver/Solver.java:191-210 | a pair is accepted exactly when it is worth trying and its sorted meld with the stolen tile is valid |
| Solver.TryRange | app/src/main/java/com/example/rummikubsolver/Solver.java:150-152 | tries the indices of a range in order; the first success wins |
| Solver.TryEnds | app/src/main/java/com/example/rummikubsolver/Solver.java:159-164 | tries the first index, then the last |
| Solver.StealFromSet | app/src/main/java/com/example/rummikubsolver/Solver.java:144-174 | tries exactly the indices the rules allow for that meld, in order |
| Solver.StealFromGroup | app/src/main/java/com/example/rummikubsolver/Solver.java:147-153 | from a group: every index in order when it has more than 3 tiles, none otherwise |
| Solver.StealFromRun | app/src/main/java/com/example/rummikubsolver/Solver.java:157-172 | from anything else: the two ends, then the middle indices leaving 3 on each side |
| Solver.PlaySmartPairTheft | app/src/main/java/com/example/rummikubsolver/Solver.java:140-176 | does exactly one stage-2 step over a snapshot of the board, or changes nothing |
| Solver.FitSlot | app/src/main/java/com/example/rummikubsolver/Solver.java:259-284 | where a tile fits a meld: group end, run end, run start, or nowhere |
| Solver.PutTile | app/src/main/java/com/example/rummikubsolver/Solver.java:262-282 | the tile joins the meld at the end (or the start) and leaves the hand |
| Solver.GrowMeld | app/src/main/java/com/example/rummikubsolver/Solver.java:274-280 | only the meld that receives the tile changes on the board, by exactly that tile at its end or start |
| Solver.AppendToSet | app/src/main/java/com/example/rummikubsolver/Solver.java:256-286 | plays the first hand tile that fits the meld, or reports that none does |
| Solver.FirstFit | app/src/main/java/com/example/rummikubsolver/Solver.java:256-285 | the first hand tile that fits the meld; every earlier one fits neither end |
| Solver.AddSingleTileToExistingSet | app/src/main/java/com/example/rummikubsolver/Solver.java:253-289 | does exactly one stage-3 step, or changes nothing |
| Solver.PlayNewSets | app/src/main/java/com/example/rummikubsolver/Solver.java:18-21 | stage 1 repeated: the table afterwards and whether a first step succeeded |
| Solver.PlayThefts | app/src/main/java/com/example/rummikubsolver/Solver.java:23-26 | stage 2 repeated: the table afterwards and whether a first step succeeded |
| Solver.PlaySingleTiles | app/src/main/java/com/example/rummikubsolver/Solver.java:28-31 | stage 3 repeated: the table afterwards and whether a first step succeeded |
| Scenarios.ScenarioA | app/src/main/java/com/example/rummikubsolver/Solver.java:15-34 | from an empty board and the hand R1, R2, R3, B7, K7, Y7, the move succeeds: the board becomes the run R1-R3 and the group of sevens, and the hand is empty |
| Scenarios.ScenarioC | app/src/main/java/com/example/rummikubsolver/Solver.java:15-34 | from the board R1 to R7 and the hand B4, K4, the move succeeds: the board becomes R1-R3, R5-R7 and {R4, B4, K4}, and the hand is empty |
| Scenarios.MiddleSteal | app/src/main/java/com/example/rummikubsolver/Solver.java:157-172 | with R1 to R7 on the board and B4, K4 in hand, stage 2 steals R4 from the middle and splits the run |
| Scenarios.EmptyHandStalls | app/src/main/java/com/example/rummikubsolver/Solver.java:15-34 | with an empty hand, no stage can make a step: every stage leaves the table as it is |
| Solver.MakeMove | app/src/main/java/com/example/rummikubsolver/Solver.java:15-34 | the table afterwards and the result are exactly those of the value-level move |

## Left out

- `toString` of every class is left out: it is display formatting.
- `Tiles.HashCode` is the id itself. The source hashes the id with `Objects.hash`; only "the hash is a function of the id" is modelled.
- Tile values are natural numbers. The source stores an `int` and documents 1..13, or 0 for a joker. Where a property needs real game values, `WellFormed` states it (1..13).
- Tile colours are an enumeration and jokers carry none, so a null colour is modelled as no colour.
- `RummiSets.RummiSet.constructor` takes a sequence. The null-list branch of the source constructor has no counterpart.
- `RummiSets.RummiSet.IsRun` returns false when a meld has no numbered tile. The source reads the first numbered tile and would fault. This case is only reachable for more than four jokers, because the group check accepts three or four jokers first.
- `Strategy.NewSetStep` requires a hand with fewer than two tiles, or with no joker. Sorting by colour compares a joker's missing colour and faults in the source.
  - This shows as a precondition on the stage-1 and stage-2 methods and functions, and on `Solver.MakeMove`.
  - The precondition is preserved from step to step.
  - A faulting run is not modelled.
- The Java sort is modelled by a stable insertion sort. Only its result matters, and a stable sort's result is determined by the comparisons it makes.
  - The keys agree with the source comparators on numbered tiles.
  - A joker gets major key -1 under `ByHueValue`. The source has no such key: comparing a joker by colour faults. The solver sorts by colour only lists with no joker or with a single tile, so that key never takes part in a comparison.
- Mutable meld objects:
  - The board's melds must be distinct objects (`Boards.Board.Valid`), which the solver keeps true.
  - The source never puts one meld on the board twice, and `removeSet` matches by identity.
- Some inline code is extracted into separate methods, with the same effect:
  - `Solver.CollectRun`, `Solver.CollectGroup` and `Solver.TryPlace` (candidate collection and placement in stage 1);
  - `Solver.RemoveAll` (the removal loop of `placeNewSet`);
  - `Solver.FindStealPair`, `Solver.FindPartner`, `Solver.TryPair`, `Solver.ExecuteSteal`, `Solver.StealInPlace`, `Solver.SplitAround`, `Solver.ReplaceWithParts` and `Solver.RemovePair` (pair scan and steal execution);
  - `Solver.TryRange`, `Solver.TryEnds`, `Solver.StealFromSet`, `Solver.StealFromGroup` and `Solver.StealFromRun` (index loops);
  - `Solver.FitSlot`, `Solver.FirstFit`, `Solver.PutTile`, `Solver.GrowMeld` and `Solver.AppendToSet` (stage 3);
  - `Solver.PlayNewSets`, `Solver.PlayThefts` and `Solver.PlaySingleTiles` (the three `while` loops of `makeMove`);
  - `RummiSets.RummiSet.JokersFillGaps` and `RummiSets.RummiSet.FindLogicalStart`.
- Getters that only return a field (`getTiles`, `getSets`, the tile getters, `RummiSet.getSize`) are field reads in the model.
- Turn management, the tile pool, scoring and the user interface are not part of this model.
