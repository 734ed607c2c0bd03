# Verification models of the engine's stateful components

The engine is a C++ game server framework. These Dafny modules model its components that keep state over many calls,
with the same branches, constants and error results, and prove what their loops, links and indexes are there for.

- **A\* over a grid** (`GridMap.dfy`, `GridPaths.dfy`, `SearchLabels.dfy`, `SearchView.dfy`, `AStar.dfy`). The search
  works in place on a node pool, a slot table and an open vector; it is proved to find cheapest paths, by labels on
  cells that the pool represents.
- **Areas of interest**, three indexes of who is watching whom. All are held to the naive definition: b is on a's list,
  once, exactly if b is another entity that is interested and sees a.
  `GridView.dfy`, `GridAoi.dfy`: cells and clipped rectangles.
  `Sight.dfy`, `SkipOrder.dfy`, `SkipVisual.dfy`, `SkipListAoi.dfy`: one sorted list with index nodes.
  `Sight.dfy`, `OrthAxis.dfy`, `OrthStand.dfy`, `OrthListAoi.dfy`: a doubly linked sorted list on each axis, with
  boundary nodes and marks. `IdList.dfy` has the lists of interest themselves, `Sequences.dfy` what all share.
- **Timers** (`TimerHeap.dfy`, `TimerPlan.dfy`, `Timers.dfy`): an array heap with back-indexes, a pending queue, three
  catch-up policies, and callbacks that are any sequence of starts and stops, each of which is carried out.
- **Chunked buffer and framing** (`Buffer.dfy`, `NetIO.dfy`, `StreamPacket.dfy`): a linked list of chunks that is a byte
  queue, its clients on the I/O thread, and length-prefixed packets on top.
- **Lua value codec** (`Bytes.dfy`, `LuaBinCodec.dfy`): a recursive encoder and decoder on a byte buffer.
- **Hand-offs between threads** (`FastEvents.dfy`, `SqlWorker.dfy`): state machines whose steps are the critical
  sections and system calls, interleaved in any order; the properties are about every run.
- **Segregated free-list allocator** (`OrderedPool.dfy`): cells, links kept inside free cells, blocks and counters, over
  a memory of words.

Objects are classes whose methods change their fields as the source does; what a method does is stated as a function of
the old state, and what that means is proved in lemmas on values. `Valid` is what every operation of a class keeps.
A member that is only a step of a proof has no row below.

## Findings

These properties do not hold of the code. Each has an input on which it fails and the exact condition under which it
holds.

- `AStar::search` clears width * height slots of a table that never has more than DEFAULT_SET
  (`engine/src/scene/a_star.cpp:66`): see `AStars.AStar.Search` and `AStars.LegalMapOverruns`.
- `SkipListAOI::del_visual` may take too small a maximum (`engine/src/scene/skip_list_aoi.cpp:66-69`): see
  `SkipVisuals.RetireKeepsBound` and `SkipVisuals.WidestRetired`, and for what later moves make of it
  `SkipListAois.SkipListAOI.UpdateEntityShort` and `SkipListAois.SkipListAOI.UpdateEntityLong`.
- `LuaBinCodec::encode` takes 256 values and announces none, and its check of strings leaves out their length word: see
  `LuaBinCodecs.MessageRoundTripExactly`, `LuaBinCodecs.TwoHundredFiftySixNils`, `LuaBinCodecs.ListEnd` and
  `LuaBinCodecs.AcceptedStringOverruns`.
- After a failed ping the database worker may sleep on a queued query (`engine/src/lua_cpplib/lsql.cpp:113`): see
  `SqlWorker.StrandedExactly`, `SqlWorker.StrandedWhileAsleep` and `SqlWorker.FailedPingStrands`.
- `GridAOI::set_visual_range` leaves lists as they are (`engine/src/scene/grid_aoi.cpp:39-47`): see
  `GridAois.GridAOI.SetVisualRange`, `GridViews.OtherRange` and `GridViews.RangeMatters`.
- `OrthListAOI::enter_entity` tells a newcomer that is not interested only of those at lower x
  (`engine/src/scene/orth_list_aoi.cpp:184-209`): see `OrthListAois.OrthListAOI.ToldInExactly` and
  `OrthListAois.OrthListAOI.HigherIsNotTold`.
- `OrthListAOI::update_entity` uses one mark for "I see him" and "he sees me" (`engine/src/scene/orth_list_aoi.cpp:354-392`),
  so that being passed one way on an axis hides being passed the other way on the next: see
  `OrthListAois.OrthListAOI.UpdateEntity`, `OrthListAois.OrthListAOI.AlongOneAxis` and
  `OrthListAois.OrthListAOI.DiagonalMoveMisses`.

Where comments and code disagree the model follows the code: the SPIN policy is documented to fire once for each missed
period (`engine/src/ev/ev_watcher.cpp:132-137`), but `feed_event` merges these into one pending entry
(`engine/src/ev/ev.cpp:463-472`); `command_cb` is documented
to stop when a callback stops the socket, but the states for closing and opened have the same number
(`engine/src/net/socket.hpp:33-34`), so that it goes on.

## Model

| member | source | states |
|---|---|---|
| GridMaps.SlotInjective | engine/src/scene/grid_map.cpp:46-62 | inside the grid two different cells never share a slot of the column-major arrays |
| GridMaps.GridMap.Set | engine/src/scene/grid_map.cpp:28-44 | a grid is sized only up to 256 by 256, starts with no walkable cell, and is left alone when refused |
| GridMaps.GridMap.Fill | engine/src/scene/grid_map.cpp:46-54 | makes exactly one cell walkable or not walkable, by the sign of its cost, or nothing when it is refused |
| GridMaps.GridMap.GetPassCost | engine/src/scene/grid_map.cpp:56-62 | a cost is non-negative exactly for walkable cells, and -1 everywhere off the grid |
| GridPaths.OctileConsistent | engine/src/scene/a_star.cpp:263-275 | the octile estimate never drops by more than the cost of a step |
| GridPaths.Admissible | engine/src/scene/a_star.cpp:263-275 | a consistent estimate never exceeds the cost of any way to the goal |
| GridPaths.DiagonalAttained | engine/src/scene/a_star.cpp:263-275 | the octile distance is the cost of a real way when the box between both cells is free of obstacles, so it cannot be raised |
| SearchLabels.DirectionsComplete | engine/src/scene/a_star.cpp:115-165 | the eight directions of the expansion loop reach every neighbour |
| SearchLabels.ClosedIsRelaxed | engine/src/scene/a_star.cpp:121-165 | a closed neighbour may be skipped: it already has a label no worse than by way of the node being expanded |
| SearchLabels.RelaxKeeps | engine/src/scene/a_star.cpp:121-165 | looking at one more walkable neighbour keeps labels the costs of real ways, closed cells no dearer than open ones and the edges done so far relaxed |
| SearchLabels.ExpansionDone | engine/src/scene/a_star.cpp:115-165 | after all eight directions every edge of every closed cell is relaxed |
| SearchLabels.NoCheaperWay | engine/src/scene/a_star.cpp:93-171 | no way to the goal, continued from any closed cell, undercuts the cheapest open label |
| SearchLabels.ClosedUnderSteps | engine/src/scene/a_star.cpp:93-171 | with nothing open, the closed cells are closed under steps: all that is reachable has been seen |
| SearchLabels.LabelledIsReachable | engine/src/scene/a_star.cpp:93-171 | whatever has a label can be reached from the start |
| SearchViews.AppendKeepsRep | engine/src/scene/a_star.cpp:121-165 | a newly found cell leaves node pool, slot table and open vector telling the same story |
| SearchViews.PopKeepsRep | engine/src/scene/a_star.cpp:177-202 | taking the cheapest node out by swapping in the last one leaves every other open cell in the vector once |
| SearchViews.CheapestIsLeast | engine/src/scene/a_star.cpp:177-202 | the least f of the vector is the least f of all open cells |
| AStars.AStar.NewNode | engine/src/scene/a_star.cpp:228-250 | hands out the next node of the pool, and none when all are in use |
| AStars.AStar.PopOpenSet | engine/src/scene/a_star.cpp:177-202 | removes the first of the cheapest open nodes |
| AStars.AStar.VisitWalkable | engine/src/scene/a_star.cpp:121-165 | labels, improves or leaves a neighbour as the algorithm says; refuses only when the pool is used up by other cells |
| AStars.AStar.BacktracePath | engine/src/scene/a_star.cpp:204-226 | the parent links always lead back to the start, and spell out a way that costs what the label says |
| AStars.FlattenAt | engine/src/scene/a_star.cpp:204-226 | the numbers stored, read backwards in pairs, are the cells of the path |
| AStars.CheapestIsShortest | engine/src/scene/a_star.cpp:93-171 | once the goal is the cheapest open cell its label is the least cost of any way to it |
| AStars.PoolExhausted | engine/src/scene/a_star.cpp:228-250 | a refused node means that more cells are reachable than the pool has nodes |
| AStars.AStar.SearchStep | engine/src/scene/a_star.cpp:93-171 | one round stops at the goal with a cheapest path, or closes one more cell, which bounds the rounds |
| AStars.AStar.DoSearch | engine/src/scene/a_star.cpp:93-171 | success gives a cheapest path; failure means that the goal is unreachable or that the pool is too small for what is reachable |
| AStars.AStar.Search | engine/src/scene/a_star.cpp:47-91 | whatever is found is a chain of walkable neighbours of minimal 10/14 cost; with at most DEFAULT_POOL reachable cells it is found exactly when it exists; clearing the slot table overruns exactly when both ends are walkable and the map has more than DEFAULT_SET cells |
| AStars.LegalMapOverruns | engine/src/scene/a_star.cpp:60-75 | a map that GridMap accepts on which the slot table is overrun |
| IdLists.SwapRemoved | engine/src/scene/grid_aoi.cpp:102-118 | moving the last entry over a removed one removes it and nothing else |
| IdLists.RemoveEntityFromVector | engine/src/scene/grid_aoi.cpp:102-118 | removes one entity from a list without repeats, and tells whether it was there |
| GridAois.CellOfPixel | engine/src/scene/grid_aoi.cpp:214-215 | the quotient that C++ takes is the cell whose pixels, by products, the pixel is among; pixels above minus one cell count as the first |
| GridAois.PixelOnGrid | engine/src/scene/grid_aoi.cpp:284-293 | a cell is on the grid exactly if its pixel lies above minus one cell and below the grid's last pixel |
| GridAois.CellsFor | engine/src/scene/grid_aoi.cpp:39-59 | the rounded-up quotient is the least number of cells that holds the pixels |
| GridViews.ExactPlainly | engine/src/scene/grid_aoi.cpp:241-266 | the lists of interest, in plain terms: b is on a's list, once, exactly if b is another, interested, and their cells are within the visual width and height |
| GridViews.OtherRange | engine/src/scene/grid_aoi.cpp:39-47 | lists that are exact for one visual range are exact for another exactly if nobody would see anybody else |
| GridViews.RangeMatters | engine/src/scene/grid_aoi.cpp:39-47 | of two entities three cells apart, lists that are exact for range 0 are not for range 5 |
| GridViews.ViewsCut | engine/src/scene/grid_aoi.cpp:313-396 | the overlap of two clipped views touches the upper or lower side of both, so a column minus the overlap is one run of rows |
| GridViews.AllStrips | engine/src/scene/grid_aoi.cpp:313-396 | the column runs of a view, put together, are the view minus the overlap |
| GridViews.ViewsChanged | engine/src/scene/grid_aoi.cpp:313-396 | leaving old minus overlap and entering new minus overlap turns the old view into the new one |
| GridAois.GridAOI.SetSize | engine/src/scene/grid_aoi.cpp:49-59 | the grid has just as many columns and rows of cells as the pixels need, by products and not by a division, and is empty and valid |
| GridAois.GridAOI.SetVisualRange | engine/src/scene/grid_aoi.cpp:39-47 | the visual width and height are the least numbers of cells that hold the given pixels; a change of range keeps the lists exact if and only if nobody's view changes by it, as when there is nobody |
| GridAois.GridAOI.InsertGridEntity | engine/src/scene/grid_aoi.cpp:136-146 | the entity is afterwards in its own cell, once, and everybody else where they were |
| GridAois.GridAOI.RemoveGridEntity | engine/src/scene/grid_aoi.cpp:120-134 | the entity was in its cell and is afterwards in none |
| GridAois.GridAOI.RawEachRange | engine/src/scene/grid_aoi.cpp:84-100 | meets everybody in a rectangle of cells once, and nobody else |
| GridAois.GridAOI.EachRangeEntity | engine/src/scene/grid_aoi.cpp:61-82 | answers for a rectangle of pixels: everybody in a cell that lies between those of its corners, each once; fails exactly when a corner is off the grid in pixels or the corners are the wrong way round |
| GridAois.GridAOI.GetVisualRange | engine/src/scene/grid_aoi.cpp:268-282 | the rectangle has exactly the cells of the grid that are within the visual width and height of the given one |
| GridAois.GridAOI.ViewIsNear | engine/src/scene/grid_aoi.cpp:268-282 | what is in the clipped view is what is within the visual width and height |
| GridAois.GridAOI.EntityExitRange | engine/src/scene/grid_aoi.cpp:190-208 | everybody in a rectangle goes off the entity's list and loses it from theirs, and is reported once |
| GridAois.GridAOI.EntityEnterRange | engine/src/scene/grid_aoi.cpp:241-266 | everybody in a rectangle gets on the lists, and is reported once |
| GridAois.GridAOI.EnterEntity | engine/src/scene/grid_aoi.cpp:210-239 | the cell is the one whose pixels the position is among; keeps every list exact; reports everybody whose cell is near, once; fails without effect exactly on a position off the grid in pixels or a known entity |
| GridAois.GridAOI.ExitEntity | engine/src/scene/grid_aoi.cpp:157-188 | keeps every list exact without the entity, and returns who was interested in it |
| GridAois.GridAOI.ColumnRows | engine/src/scene/grid_aoi.cpp:345-366 | the rows of one column that are in one view and not in the other |
| GridAois.GridAOI.SweepExit | engine/src/scene/grid_aoi.cpp:343-370 | the sweep meets exactly the old view minus the new one |
| GridAois.GridAOI.SweepEnter | engine/src/scene/grid_aoi.cpp:372-396 | the sweep meets exactly the new view minus the old one |
| GridAois.GridAOI.UpdateEntity | engine/src/scene/grid_aoi.cpp:284-405 | the new cell is the one whose pixels the position is among; keeps every list exact; list_out and list_in are exactly those whose cell was near and is not, and was not and is |
| Sights.ExactIsListsOk | engine/src/scene/skip_list_aoi.cpp:261-277 | the naive definition of the lists of interest agrees with the one that goes pair by pair for a moving entity |
| Sights.ExactPlainly | engine/src/scene/skip_list_aoi.cpp:261-277 | the lists of interest, in plain terms: b is on a's list, once, exactly if b is another, interested, and a is within b's range on every axis in use |
| Sights.AddWatch | engine/src/scene/skip_list_aoi.cpp:146-160 | a new watcher at the end of a list keeps all lists without repeats and right |
| Sights.DropWatch | engine/src/scene/skip_list_aoi.cpp:162-175 | a watcher gone from a list keeps all lists right |
| Sights.CaughtExactly | engine/src/scene/skip_list_aoi.cpp:189-228 | lists built up among those met are exact if and only if everybody who matters has been met |
| Sights.ToldTwice | engine/src/scene/skip_list_aoi.cpp:365-435 | leaving everything and then entering everything reports the same as comparing before and after, when no view is both old and new |
| SkipOrders.Inserted | engine/src/scene/skip_list_aoi.cpp:177-187 | an entity put where it fits leaves the list sorted, with every index node and entity once |
| SkipOrders.Displaced | engine/src/scene/skip_list_aoi.cpp:279-311 | after a change of place the rest is sorted and the node is where its old place was |
| SkipOrders.WalksDone | engine/src/scene/skip_list_aoi.cpp:101-126 | both walks together meet everybody in a range of x, once |
| SkipOrders.FarApart | engine/src/scene/skip_list_aoi.cpp:452-466 | nobody sees both ends of a move of more than twice the greatest range |
| SkipVisuals.RetireKeepsBound | engine/src/scene/skip_list_aoi.cpp:53-75 | giving up a range keeps the maximum a bound exactly if it was not the widest, was the only one, or the entry that comes last is the widest of the rest |
| SkipVisuals.WidestRetired | engine/src/scene/skip_list_aoi.cpp:66-69 | ranges 10, 3 and 5 in this order, and 10 retired: the maximum becomes 3 although 5 is in use |
| SkipListAois.SkipListAOI.SetIndex | engine/src/scene/skip_list_aoi.cpp:77-99 | the index nodes are at the multiples of the step below max_x, just as many as reach every x below it, and the empty scene is valid |
| SkipListAois.SkipListAOI.AddVisual | engine/src/scene/skip_list_aoi.cpp:36-51 | counts one more use; the maximum grows to a new range that is wider, and is a bound afterwards exactly if it is one of the ranges that were there |
| SkipListAois.SkipListAOI.DelVisual | engine/src/scene/skip_list_aoi.cpp:53-75 | counts one use less; the maximum changes only with the last use, to what the fallback says; afterwards a number is a bound exactly if it is one of the ranges still in use |
| SkipListAois.SkipListAOI.InsertEntity | engine/src/scene/skip_list_aoi.cpp:177-187 | from the index node on, the entity lands where the list stays sorted |
| SkipListAois.SkipListAOI.ShiftEntity | engine/src/scene/skip_list_aoi.cpp:279-311 | a node whose x has changed ends up where the list is sorted again |
| SkipListAois.SkipListAOI.EachRange | engine/src/scene/skip_list_aoi.cpp:101-126 | meets everybody in the range once and never the one in the middle |
| SkipListAois.SkipListAOI.OnChangeRange | engine/src/scene/skip_list_aoi.cpp:261-277 | list and report change exactly when being in view changes; one that is listed and comes in again is listed twice |
| SkipListAois.SkipListAOI.EnterEntity | engine/src/scene/skip_list_aoi.cpp:189-228 | a newcomer that is not interested or sees nothing leaves the register and the maximum alone, any other counts one more use of its range and the maximum becomes it exactly if it is new and wider; the two reports are those within sight and within that maximum; the lists are exact afterwards if and only if all who matter were within it, so always while it is a bound |
| SkipListAois.SkipListAOI.CameInBounds | engine/src/scene/skip_list_aoi.cpp:189-228 | with a bound, an entry keeps every list exact and reports all that an interested newcomer sees and all interested who see it |
| SkipListAois.SkipListAOI.UpdateEntityShort | engine/src/scene/skip_list_aoi.cpp:313-363 | for any maximum: the four reports are the changes among those within it of either end of the move, each pair once; the lists are exact afterwards if and only if nobody else's view has changed |
| SkipListAois.SkipListAOI.UpdateEntityLong | engine/src/scene/skip_list_aoi.cpp:365-435 | for any maximum: reported are the views left and entered within it; the lists are exact afterwards if and only if those not left are just those not entered, else somebody is listed twice, wrongly or not at all |
| Sights.EnteredExactly | engine/src/scene/skip_list_aoi.cpp:365-435 | entering all views again without having left some gives exact lists if and only if these are just the ones not entered |
| Sights.TurnedExactly | engine/src/scene/skip_list_aoi.cpp:313-363 | lists of which only some pairs have been brought up to date are exact if and only if no change is among the others |
| SkipListAois.SkipListAOI.LongInBounds | engine/src/scene/skip_list_aoi.cpp:452-466 | with a bound, leaving all and entering all reports just the changes, and the lists are exact |
| SkipListAois.SkipListAOI.UpdateEntity | engine/src/scene/skip_list_aoi.cpp:437-467 | on either path, for any maximum, as the path says; while the maximum is a bound the lists are exact and the four reports are the pairs whose visibility has changed, among those who are interested |
| SkipListAois.SkipListAOI.ExitEntity | engine/src/scene/skip_list_aoi.cpp:230-259 | lists exact without the entity, whatever the maximum is; returns who was interested |
| SkipListAois.SkipListAOI.UpdateVisual | engine/src/scene/skip_list_aoi.cpp:469-504 | lists exact for the new range, whatever the maximum is; reports exactly who comes into and goes out of view; what the maximum becomes, and that it is a bound exactly if it is one of the ranges that stay in use, so that a wide new range can mend it |
| OrthAxes.InsertedLinks | engine/src/scene/orth_list_aoi.cpp:490-513 | linking a node in between two neighbours leaves next and prev spelling out the same sequence with it in between |
| OrthAxes.RemovedLinks | engine/src/scene/orth_list_aoi.cpp:546-552 | unlinking leaves next and prev spelling out the sequence without it |
| OrthAxes.FitsByNeighbours | engine/src/scene/orth_list_aoi.cpp:44-57 | in a list sorted by place and kind a node is in order as soon as it is with its two neighbours |
| OrthAxes.AxisList.PutBetween | engine/src/scene/orth_list_aoi.cpp:508-512 | the list stays doubly linked and sorted with the node at its new place |
| OrthAxes.AxisList.RemoveList | engine/src/scene/orth_list_aoi.cpp:546-552 | the list stays doubly linked and sorted without the node |
| OrthAxes.AxisList.ScanNext | engine/src/scene/orth_list_aoi.cpp:630-639 | passes exactly the run of nodes that are less, up to the first that is not |
| OrthAxes.AxisList.InsertEntity | engine/src/scene/orth_list_aoi.cpp:517-542 | left boundary, entity and right boundary go in sorted; the nodes passed are, each once, all those less than the last of the three |
| OrthAxes.AxisList.ShiftNext | engine/src/scene/orth_list_aoi.cpp:621-652 | a node whose place has grown ends up in order, passing once what lies between |
| OrthAxes.AxisList.ShiftPrev | engine/src/scene/orth_list_aoi.cpp:656-686 | a node whose place has shrunk ends up in order, passing once what lies between |
| OrthAxes.AxisList.InsertVisual | engine/src/scene/orth_list_aoi.cpp:715-755 | both boundaries go in from the entity outwards; passed are, each once, all other nodes between them |
| OrthAxes.AxisList.EachRange | engine/src/scene/orth_list_aoi.cpp:107-129 | meets every other entity within the range once, even while the entity's own boundaries have a new place and an old position in the list |
| OrthStands.NothingInTheWay | engine/src/scene/orth_list_aoi.cpp:585-616 | shifting the foremost node first, no node of the same entity that is still out of place can mislead the scan |
| OrthStands.CrossedRight | engine/src/scene/orth_list_aoi.cpp:621-652 | a shift passes no node of its own entity, and otherwise a boundary passes exactly the entities, and an entity exactly the boundaries, that it is now on the other side of |
| OrthStands.CrossedLeft | engine/src/scene/orth_list_aoi.cpp:656-686 | the same to the left |
| OrthStands.EnterList | engine/src/scene/orth_list_aoi.cpp:517-542 | the list holds exactly the nodes of the scene with the newcomer, sorted |
| OrthStands.LeaveList | engine/src/scene/orth_list_aoi.cpp:556-570 | the list holds exactly the nodes of the scene without the one that leaves |
| OrthStands.ShiftEntity | engine/src/scene/orth_list_aoi.cpp:575-617 | after a move the list holds every node at its new place, sorted; the crossings are exact and never with an own node |
| OrthStands.SweptAll | engine/src/scene/orth_list_aoi.cpp:690-711 | a change of range passes exactly the entities whose distance on the axis is covered by one of the two ranges only |
| OrthStands.ShiftVisual | engine/src/scene/orth_list_aoi.cpp:690-711 | both boundaries end up sorted at the new range, outwards if it grows and inwards if it shrinks |
| OrthStands.InsertVisualList | engine/src/scene/orth_list_aoi.cpp:715-755 | the list gains both boundaries; met are exactly the entities within the range on the axis |
| OrthStands.RemoveVisualList | engine/src/scene/orth_list_aoi.cpp:460-482 | the list loses both boundaries, though they have been given another place before |
| OrthStands.EachRangeEntity | engine/src/scene/orth_list_aoi.cpp:107-129 | meets exactly the other entities within the range on the axis |
| OrthListAois.OrthListAOI.UpdateMark | engine/src/scene/orth_list_aoi.cpp:295-317 | nobody counts as met in a new operation; with three axes in use its marks never run over 32 bits, with two they do exactly from a counter of 0xFFFFFFFB |
| OrthListAois.OrthListAOI.OnShiftVisual | engine/src/scene/orth_list_aoi.cpp:354-371 | an entity passed by a boundary is dealt with once in an operation, on the first axis; outwards it comes into view if it is in view on all axes, inwards it goes out if it was |
| OrthListAois.OrthListAOI.OnShiftEntity | engine/src/scene/orth_list_aoi.cpp:373-392 | another's boundary counts if the other has not been met on an earlier axis; passing it inwards brings the entity into the other's view if all axes do, outwards takes it out if it was in: list of interest, report and mark change by just that |
| OrthStands.RangeCrosses | engine/src/scene/orth_list_aoi.cpp:575-617 | the boundaries of an entity that moves pass exactly those who change sides of its range on the axis |
| OrthStands.PlaceCrosses | engine/src/scene/orth_list_aoi.cpp:575-617 | an entity that moves passes boundaries of exactly those of whose range it changes sides on the axis |
| OrthListAois.OrthListAOI.SweepAxis | engine/src/scene/orth_list_aoi.cpp:354-371 | marks suppress repeats only: whoever is passed on the axis has been dealt with, once, in this operation |
| OrthListAois.OrthListAOI.AllDiffer | engine/src/scene/orth_list_aoi.cpp:394-436 | who is seen with one range only is covered by one range only on some axis, so no axis can be left out and none is needed twice |
| OrthListAois.OrthListAOI.ShiftVisuals | engine/src/scene/orth_list_aoi.cpp:420-436 | three axes together: lists exact, reports exactly the difference of the two views, each entity once |
| OrthListAois.OrthListAOI.RemoveVisual | engine/src/scene/orth_list_aoi.cpp:460-482 | an entity that loses its view is on nobody's list any more and reports all that it saw |
| OrthListAois.OrthListAOI.InsertVisual | engine/src/scene/orth_list_aoi.cpp:438-457 | an entity that gains a view is on the list of everybody it sees, and reports them |
| OrthListAois.OrthListAOI.UpdateVisual | engine/src/scene/orth_list_aoi.cpp:394-436 | in all four cases the axis lists hold exactly the right nodes; lists of interest that were exact stay exact; an interested entity reports exactly the difference of its views |
| OrthListAois.OrthListAOI.ExitEntity | engine/src/scene/orth_list_aoi.cpp:259-293 | axis lists and, if they were exact, lists of interest are right without the entity; returns who was interested |
| OrthListAois.OrthListAOI.MetAll | engine/src/scene/orth_list_aoi.cpp:198-220 | of those who see a newcomer exactly the interested have a boundary before it, and all that an interested newcomer sees is passed |
| OrthListAois.OrthListAOI.EnterAll | engine/src/scene/orth_list_aoi.cpp:184-209 | whoever is passed, by one boundary or two, is asked once whether it sees the newcomer |
| OrthListAois.OrthListAOI.EnterEntity | engine/src/scene/orth_list_aoi.cpp:161-220 | the newcomer stands where it was put, on the ground if the y axis is off; axis lists right; lists of interest stay exact; the reports, for every newcomer and every interested one who sees it; with exact lists, who is on whose list by distances on each axis in use |
| OrthListAois.OrthListAOI.ToldInExactly | engine/src/scene/orth_list_aoi.cpp:184-209 | a newcomer is told of all that it sees if and only if it is interested or all of these are at lower x |
| OrthListAois.OrthListAOI.HigherIsNotTold | engine/src/scene/orth_list_aoi.cpp:184-209 | a newcomer at 0 that is not interested and sees as far as 10 is not told of one at 5 |
| OrthListAois.OrthListAOI.MoveAxis | engine/src/scene/orth_list_aoi.cpp:575-617 | on each axis the changes are seen to and reported for exactly those who are passed on it, one way or the other, and have not been met on an earlier axis; the asserts against passing an own node hold |
| OrthListAois.OrthListAOI.SightPasses | engine/src/scene/orth_list_aoi.cpp:575-617 | whoever comes into view or goes out of it is passed on some axis in use |
| OrthListAois.OrthListAOI.UpdateEntity | engine/src/scene/orth_list_aoi.cpp:319-352 | the entity stands where it was moved to, on the ground if the y axis is off; after any move the axis lists are right; the four reports are exactly the changes of sight, by distances on each axis in use, for those who are passed on an axis before which they have not been met; lists of interest that were exact are so again if and only if no change has been missed by that; nobody else's being watched changes |
| OrthListAois.OrthListAOI.AlongOneAxis | engine/src/scene/orth_list_aoi.cpp:319-352 | a move along one axis misses nobody |
| OrthListAois.OrthListAOI.AllReported | engine/src/scene/orth_list_aoi.cpp:319-352 | when nobody is missed, the four reports are all the changes among those who are interested |
| OrthListAois.OrthListAOI.DiagonalMoveMisses | engine/src/scene/orth_list_aoi.cpp:354-392 | a move along two axes by which somebody who now sees the one that moves is missed |
| FastEvents.PostKeeps | engine/src/ev/ev.cpp:424-443 | posting bits keeps the invariant of queue, indexes, bits and wake-ups |
| FastEvents.RegisterPosts | engine/src/ev/ev.cpp:264-319 | making a watcher known posts the bits it had before again: its slot is queued, the bits stay its own and its owner owes the wake-up |
| FastEvents.DeleteKeeps | engine/src/ev/ev.cpp:244-252 | a deleted watcher's index names its own slot, and emptying that keeps the invariant |
| FastEvents.TakeIsSafe | engine/src/ev/ev_backend.cpp:305-326 | the watcher of a slot that is taken is known and has bits: assert(events) cannot fire |
| FastEvents.TakeKeeps | engine/src/ev/ev_backend.cpp:305-326 | consuming a watcher's bits keeps the invariant |
| FastEvents.SwapKeeps | engine/src/ev/ev_backend.cpp:402-411 | swapping the queue out keeps the invariant |
| FastEvents.NextKeepsInv | engine/src/ev/ev_backend.cpp:59-100 | every step of either thread keeps the invariant |
| FastEvents.RunKeepsInv | engine/src/ev/ev_backend.cpp:59-100 | the invariant holds at every point of every interleaving |
| FastEvents.NoBitLost | engine/src/ev/ev.cpp:424-443 | in every interleaving each consumption takes exactly the bits posted since the last one, at least one, and unconsumed bits of a known watcher are queued in one slot |
| FastEvents.NoWakeLost | engine/src/ev/ev_epoll.inl:107-150 | in every interleaving the I/O thread does not wait on a non-empty queue without a token in the eventfd or a writer about to post one |
| FastEvents.AssertionsHold | engine/src/ev/ev_backend.cpp:305-326 | in every interleaving the asserted conditions hold where they are asserted |
| FastEvents.RoundDelivers | engine/src/ev/ev_backend.cpp:59-100 | one undisturbed round consumes every bit of every known watcher |
| FastEvents.NotStuck | engine/src/ev/ev_backend.cpp:59-100 | unless the I/O thread waits and no wake-up is under way, some step can be taken without anything new |
| FastEvents.UndisturbedEnds | engine/src/ev/ev_backend.cpp:59-100 | without anything new, every order of the steps comes to an end within a bound; none is left exactly when the I/O thread waits and no wake-up is under way, and by then every bit posted to a known watcher has been consumed |
| FastEvents.CallsPossible | engine/src/ev/ev.cpp:244-319 | posting is always possible, and registering or deleting a watcher whenever the main lock is free: the index of a known one lies within the queue |
| SqlWorker.NextKeepsQueries | engine/src/lua_cpplib/lsql.cpp:108-142 | every step keeps queries in submission order, each in one place |
| SqlWorker.NextKeepsResults | engine/src/lua_cpplib/lsql.cpp:82-142 | every step keeps wanted results in execution order, each in one place |
| SqlWorker.NextKeepsWorkerFlagged | engine/src/thread/thread.cpp:165-203 | every step keeps the worker idle only without work, with a flag or notification, or after a failed ping; while it sleeps it is notified exactly if it is flagged |
| SqlWorker.NextKeepsMainFlagged | engine/src/ev/ev.cpp:107-128 | every step keeps the main thread from passing results up with nobody about to flag or wake it |
| SqlWorker.RunKeepsInv | engine/src/thread/thread.cpp:165-203 | all of it at every point of every interleaving |
| SqlWorker.RunsInOrder | engine/src/lua_cpplib/lsql.cpp:82-142 | queries run once each in submission order; results with a positive id are delivered once each in that order |
| SqlWorker.NoLostWakeUp | engine/src/thread/thread.hpp:234-249 | neither thread sleeps on queued work without being notified or somebody on the way to do it, unless the last ping failed |
| SqlWorker.QuietMeansDone | engine/src/lua_cpplib/lsql.cpp:82-142 | when both sleep undisturbed everything has been executed and delivered, unless the last ping failed; what has been submitted is what has been executed and what is queued |
| SqlWorker.NotStuck | engine/src/thread/thread.cpp:165-203 | unless both threads sleep and nothing is queued, one of them can go on by itself, or by the worker's time-out |
| SqlWorker.UndisturbedEnds | engine/src/lua_cpplib/lsql.cpp:82-142 | left to themselves with good pings, the threads come to an end in every order of their steps, within a bound; they can go on no more exactly when both sleep and nothing is queued, and then everything is executed and everything wanted delivered |
| SqlWorker.AllGetsDone | engine/src/lua_cpplib/lsql.cpp:82-142 | from every state of every run such an end can be reached, also for queries stranded by a failed ping |
| SqlWorker.StrandedExactly | engine/src/thread/thread.cpp:165-203 | in every run, the worker falls asleep on queued work if and only if it is not flagged and its last ping has failed |
| SqlWorker.StrandedWhileAsleep | engine/src/thread/thread.cpp:165-203 | in every run, a sleeping worker is left with queued work if and only if nobody has flagged it since, and then its last ping has failed |
| SqlWorker.FailedPingStrands | engine/src/lua_cpplib/lsql.cpp:108-142 | a run in which a failed ping leaves a query queued and everybody asleep |
| TimerHeaps.MoveUp | engine/src/ev/ev.cpp:740-757 | moving a parent into the hole keeps exact back-indexes and leaves only the hole out of order |
| TimerHeaps.MoveDown | engine/src/ev/ev.cpp:715-738 | the same with the smaller child |
| TimerHeaps.FillSlot | engine/src/ev/ev.cpp:612-637 | the last entry put over a stopped timer is out of order there in one direction at most |
| TimerHeaps.TopIsFirst | engine/src/ev/ev.cpp:507-534 | the first heap slot holds a timer that is due no later than any other |
| EventTimers.FirstAfterIsLeast | engine/src/ev/ev_watcher.cpp:116-145 | the aligned time is the least at0 + k * repeat after now |
| EventTimers.AdvancedSettles | engine/src/ev/ev.cpp:507-534 | one turn moves a due timer forward, and the turns end at the policy's time: the grid time for ALIGN and SPIN, at0 + repeat or else now + repeat by default |
| EventTimers.EV.UpHeap | engine/src/ev/ev.cpp:740-757 | restores heap order and back-indexes, whatever the entry was |
| EventTimers.EV.DownHeap | engine/src/ev/ev.cpp:715-738 | restores heap order and back-indexes, whatever the entry was |
| EventTimers.EV.FeedEvent | engine/src/ev/ev.cpp:463-472 | adds events; queues a timer only if it is not queued |
| EventTimers.EV.ClearPending | engine/src/ev/ev.cpp:494-505 | empties exactly the queue slot of the timer |
| EventTimers.EV.TimerStart | engine/src/ev/ev.cpp:567-596 | one more active timer due after the given time, in a heap with exact back-indexes; a known id is refused |
| EventTimers.EV.TimerStop | engine/src/ev/ev.cpp:598-637 | the timer is neither active nor pending nor known any more; nobody else is disturbed |
| EventTimers.EV.Reschedule | engine/src/ev/ev_watcher.cpp:116-145 | the align loop stops at the first grid time not before now; the other policies as they say |
| EventTimers.EV.TimersReify | engine/src/ev/ev.cpp:507-534 | ends; makes pending exactly the timers due at the start; leaves none due; each at the time its policy says |
| EventTimers.EV.RunCallback | engine/src/ev/ev.cpp:474-492 | every call of a callback is carried out: what it stops is listed in order, and afterwards just those timers are known, and with those schedules, that replaying its starts and stops on the old ones leaves; heap and queue are kept |
| EventTimers.EV.InvokePending | engine/src/ev/ev.cpp:474-492 | the log of calls and stops, and who is known afterwards with what schedule, are those of the turns in queue order, each callback carrying out its own script; nothing is pending afterwards |
| TimerPlans.StopsInLog | engine/src/ev/ev.cpp:474-505 | a stop is in the log exactly if the script of an entry that is called makes it |
| TimerPlans.CallsInLog | engine/src/ev/ev.cpp:474-492 | a call is in the log exactly if an entry of the timer is called, with the events that it has by then |
| TimerPlans.ReplayKeepsQueued | engine/src/ev/ev.cpp:567-637 | a callback leaves a queued timer queued, with its events, exactly if it does not stop it, and queues none |
| TimerPlans.CalledExactly | engine/src/ev/ev.cpp:474-492 | a pending timer is called back exactly if no script of an entry called before stops it, and with the events that it had at the start |
| TimerPlans.StoppedBeforeItsTurn | engine/src/ev/ev.cpp:494-505 | of two pending timers the first of which stops the second, only the first is called, and the second is forgotten |
| Buffers.GatherDone | engine/src/ev/buffer.cpp:234-316 | chunks copied up to a length are that prefix of the queue |
| Buffers.Chunk.Append | engine/src/ev/buffer.hpp:78-87 | bytes go behind those in use |
| Buffers.Chunk.RemoveUsed | engine/src/ev/buffer.hpp:58-66 | bytes go off the front |
| Buffers.LargeBuffer.Get | engine/src/ev/buffer.cpp:17-31 | memory of at least the length asked for: the old one if that is enough, else a new one of the old length, or a mebibyte, doubled as often as it takes |
| Buffers.Buffer.Reserve | engine/src/ev/buffer.cpp:53-72 | afterwards the last chunk has free space and the queue is as it was; a chunk is added exactly if there was none with free space |
| Buffers.Buffer.AppendAll | engine/src/ev/buffer.cpp:108-127 | the queue is extended by exactly the bytes, across chunks |
| Buffers.Buffer.Append | engine/src/ev/buffer.cpp:129-135 | the same, and tells whether there are more chunks than allowed |
| Buffers.Buffer.AnyReserve | engine/src/ev/buffer.cpp:189-201 | a transaction on free space of the last chunk, or none on overflow if that is asked for |
| Buffers.Buffer.FlatReserve | engine/src/ev/buffer.cpp:203-232 | a transaction on all that the last chunk, or else a new one, has free if that is enough, else of just the length asked for in scratch memory |
| Buffers.Buffer.Commit | engine/src/ev/buffer.cpp:318-337 | extends the queue by what was written through the transaction; a length that is not positive by nothing |
| Buffers.Buffer.Remove | engine/src/ev/buffer.cpp:137-187 | drops exactly the first bytes; the answer is yes exactly if bytes are left, or an empty chunk that was behind those removed |
| Buffers.Buffer.ToFlatCtx | engine/src/ev/buffer.cpp:234-275 | a view of exactly the first bytes in one piece, none exactly if there are fewer or none; in the first chunk if that holds them all |
| Buffers.Buffer.AllToFlatCtx | engine/src/ev/buffer.cpp:277-316 | a view of the whole queue in one piece |
| Buffers.Buffer.CheckUsedSize | engine/src/ev/buffer.cpp:339-354 | yes exactly if there are that many bytes |
| Buffers.Buffer.GetAllUsedSize | engine/src/ev/buffer.cpp:371-385 | the number of bytes |
| Buffers.Buffer.GetFrontUsed | engine/src/ev/buffer.cpp:356-369 | a prefix of the queue as long as the first chunk holds, empty only if the queue is; tells whether there is more than one chunk |
| Buffers.Buffer.Clear | engine/src/ev/buffer.cpp:89-106 | empties the queue |
| Buffers.Buffer.SetChunkSize | engine/src/ev/buffer.cpp:387-391 | sets the limit and leaves the bytes |
| Buffers.Buffer.StillThere | engine/src/ev/buffer.cpp:356-369 | bytes that were looked at can still be read through the pointer after appends by others |
| NetIO.IO.SendOnce | engine/src/net/io/io.cpp:64-102 | bytes sent and bytes left make up what was there and what has been appended meanwhile; how many are sent, the status and whether the loop goes on are those of the kernel's answer and what there was to send |
| NetIO.IO.RecvOnce | engine/src/net/io/io.cpp:27-62 | bytes removed and bytes left make up what was there and what has been received; how many are received, the status and whether the loop goes on are those of the kernel's answer and the room there was, none exactly if the buffer had overflowed |
| NetIO.IO.Send | engine/src/net/io/io.cpp:64-102 | for every interleaving with appends, bytes sent followed by bytes buffered are the bytes appended, in order; turns are taken as long as each says to go on, and the status is that of the last one; done means that all before the last turn is sent |
| NetIO.IO.Recv | engine/src/net/io/io.cpp:27-62 | for every interleaving with removals, bytes removed followed by bytes buffered are the bytes received, in order; what is received is what the turns' answers give, turns are taken as long as each says to go on, and the status is that of the last one |
| StreamPackets.ParseFrame | engine/src/net/net_header.hpp:44-118 | a packet read back from its frame is the packet framed |
| StreamPackets.FramesInjective | engine/src/net/packet/stream_packet.cpp:15-35 | a stream can be cut into packets in one way only |
| StreamPackets.LengthKnown | engine/src/net/packet/stream_packet.cpp:15-35 | the first two bytes of a stream tell the length of its first frame |
| StreamPackets.ClientFrame | engine/src/net/packet/stream_packet.cpp:687-701 | the fields of a frame for a client, each at its place |
| StreamPackets.ServerFrame | engine/src/net/packet/stream_packet.cpp:703-721 | the fields of a frame for a server, each at its place, with packet type 3 and codec 0 |
| StreamPackets.StreamPacket.RawPackClt | engine/src/net/packet/stream_packet.cpp:687-701 | appends a frame of the length, command and error number given and the body, or nothing exactly if the length exceeds 65535 |
| StreamPackets.StreamPacket.RawPackSs | engine/src/net/packet/stream_packet.cpp:703-721 | appends a frame of the length, command and error number given, packet type 3, codec 0, the session and the body, or nothing exactly if the length exceeds 65535 |
| StreamPackets.CutFrames | engine/src/net/packet/stream_packet.cpp:15-35 | cutting a stream of packets by its length fields gives just their frames |
| StreamPackets.PacketsTaken | engine/src/net/packet/stream_packet.cpp:15-35 | what has been cut off a stream of packets are its first frames, and the others are left |
| StreamPackets.Socket.Arrive | engine/src/net/io/io.cpp:27-62 | the I/O thread appends some of the bytes still to come; what is unread stays the same |
| StreamPackets.Socket.ArriveBehind | engine/src/ev/buffer.cpp:234-275 | a view in use, in the first chunk or in scratch memory, shows what it showed while bytes arrive |
| StreamPackets.Socket.Unpack | engine/src/net/packet/stream_packet.cpp:15-35 | whatever the bytes are, and while others arrive between any two buffer operations: one frame is taken off and dispatched if it is there in full by the last look, else nothing |
| StreamPackets.Socket.CommandCb | engine/src/net/socket.cpp:767-788 | while bytes arrive all along: ends with less than a frame in the buffer at the last look, having dispatched exactly the frames that the length fields cut off, in order |
| StreamPackets.Socket.Receive | engine/src/net/socket.cpp:767-788 | for every pace at which a stream arrives, also while the loop runs, its frames are dispatched in order, and once all has arrived all have been |
| Bytes.LERoundTrip | engine/src/net/codec/luabin_codec.hpp:42-67 | a number that fits is read back from its little-endian bytes |
| Bytes.LowestFirst | engine/src/net/codec/luabin_codec.hpp:42-67 | byte i of a number is its remainder by 256 after i divisions by 256: the lowest comes first |
| Bytes.TwosComplement | engine/src/net/codec/luabin_codec.hpp:42-67 | a signed number is stored as itself or, if negative, with 2 to the 64th added, and is read back |
| LuaBinCodecs.RoundTrip | engine/src/net/codec/luabin_codec.cpp:62-137 | decoding the wire form of any well-formed value gives it back and stops right behind it |
| LuaBinCodecs.RoundTripEntries | engine/src/net/codec/luabin_codec.cpp:35-60 | the entries of a table come back in order, added to what was there |
| LuaBinCodecs.RawSetAppends | engine/src/net/codec/luabin_codec.cpp:35-60 | a table entry with a key that is not there, or that is a table, goes behind the others; one with a nil value adds nothing |
| LuaBinCodecs.RawSetReplaces | engine/src/net/codec/luabin_codec.cpp:35-60 | a table entry with a key that is there takes the place of the old one, or removes it if its value is nil |
| LuaBinCodecs.MessageRoundTrip | engine/src/net/codec/luabin_codec.cpp:139-168 | up to 255 values are decoded as they were encoded, using all bytes |
| LuaBinCodecs.MessageRoundTripExactly | engine/src/net/codec/luabin_codec.cpp:258-283 | of the lists that the encoder takes, exactly those of at most 255 values come back |
| LuaBinCodecs.MessageInjective | engine/src/net/codec/luabin_codec.cpp:258-283 | different lists of values have different messages |
| LuaBinCodecs.WireBytes | engine/src/net/codec/luabin_codec.cpp:203-256 | the type byte of each kind of value and the bytes that follow it |
| LuaBinCodecs.DecodeStable | engine/src/net/codec/luabin_codec.cpp:62-137 | what decoding a value gives depends on no byte behind those it has read |
| LuaBinCodecs.OnlyWholeMessages | engine/src/net/codec/luabin_codec.cpp:139-168 | a message cut off anywhere is never decoded, and one followed by anything decodes as if that were not there |
| LuaBinCodecs.RefusedKinds | engine/src/net/codec/luabin_codec.cpp:62-137 | what does not begin with one of the six type bytes is refused, and so is what ends too early, but for a string without its length, which is read behind the end |
| LuaBinCodecs.AcceptsExactly | engine/src/net/codec/luabin_codec.cpp:203-256 | a value passes the checks exactly if all its pieces do: each is of a known kind and ends, but for a string's length word, inside the buffer |
| LuaBinCodecs.AcceptsListExactly | engine/src/net/codec/luabin_codec.cpp:258-283 | the same for a list of values |
| LuaBinCodecs.FittingIsAccepted | engine/src/net/codec/luabin_codec.cpp:203-256 | every list of well-formed values whose message leaves eight bytes of the buffer passes |
| LuaBinCodecs.OtherIsRefused | engine/src/net/codec/luabin_codec.cpp:203-256 | no list with a value of another kind anywhere in it passes |
| LuaBinCodecs.TwoHundredFiftySixNils | engine/src/net/codec/luabin_codec.cpp:258-283 | 256 nils are taken and come back as no values |
| LuaBinCodecs.ListEnd | engine/src/net/codec/luabin_codec.cpp:203-256 | an accepted list ends inside the buffer exactly if its strings fit with their length words, and never more than those bytes outside |
| LuaBinCodecs.AcceptedStringOverruns | engine/src/net/codec/luabin_codec.cpp:203-256 | a string that is let through and ends behind the buffer |
| LuaBinCodecs.LuaBinCodec.EncodeValue | engine/src/net/codec/luabin_codec.cpp:203-256 | writes the wire form behind what was there, or fails exactly when a check of the encoder does; which values pass is `LuaBinCodecs.AcceptsExactly` |
| LuaBinCodecs.LuaBinCodec.EncodeTable | engine/src/net/codec/luabin_codec.cpp:170-201 | back-patching the count gives the count followed by the entries |
| LuaBinCodecs.LuaBinCodec.Encode | engine/src/net/codec/luabin_codec.cpp:258-283 | succeeds exactly for 1 to 256 values whose pieces are all of a known kind and where the buffer has room, with their message; so 1 to 255 well-formed values whose message leaves eight bytes of the buffer are written and decode to themselves, and a list with a value of another kind anywhere in it is refused |
| LuaBinCodecs.LuaBinCodec.DecodeValue | engine/src/net/codec/luabin_codec.cpp:62-137 | agrees with the decoding function on every input, errors and position included |
| LuaBinCodecs.LuaBinCodec.DecodeTable | engine/src/net/codec/luabin_codec.cpp:35-60 | agrees with the decoding function on every input |
| LuaBinCodecs.LuaBinCodec.Decode | engine/src/net/codec/luabin_codec.cpp:139-168 | agrees with the decoding function on every input |
| OrderedPools.LinkedChain | engine/src/pool/ordered_pool.hpp:148-165 | cells linked one to the next and the last to a list make one list |
| OrderedPools.OrderedPool.Segregate | engine/src/pool/ordered_pool.hpp:148-165 | the cells of a region are in front of the free list, in order; no other word of memory is written |
| OrderedPools.OrderedPool.OrderedMalloc | engine/src/pool/ordered_pool.hpp:55-105 | hands out a cell of the size asked for: the first free one, with nothing else changed, or else the first of chunk_size new ones in a new block, the others of which become free in order; both counters follow; no word outside the new block is written |
| OrderedPools.OrderedPool.OrderedFree | engine/src/pool/ordered_pool.hpp:39-53 | the cell is the first free one of its size and no longer handed out; only its own word of memory is written |
| OrderedPools.OrderedPool.Scribble | engine/src/pool/ordered_pool.hpp:136-139 | whatever a user writes into a cell that it holds does not disturb the pool, though free cells keep links in the same memory |
| OrderedPools.OrderedPool.LiveApart | engine/src/pool/ordered_pool.hpp:55-105 | no two cells handed out have a byte in common |
| OrderedPools.OrderedPool.LiveOrFree | engine/src/pool/ordered_pool.hpp:39-105 | every cell carved is either handed out or in the free list of its size, once |
| OrderedPools.OrderedPool.CountersTell | engine/src/pool/ordered_pool.hpp:39-105 | _max_new - _max_now is the number of units handed out |
| OrderedPools.OrderedPool.Clear | engine/src/pool/ordered_pool.hpp:111-131 | the addresses given back are those of the blocks, and all different, by way of the header words |

## Left out

Weaker than the code, or with a caller's duty made explicit:

- AStars.AStar.Search: an overrun of the slot table is an outcome of its own, since what memory holds afterwards is undefined.
- GridMaps.GridMap.Fill: lower bounds of coordinates are the caller's duty, as in the source, where they are not checked.
- GridAois.GridAOI.EnterEntity: negative pixel coordinates are divided as in C++, so that those above minus one cell count as cell 0.
- GridAois.GridAOI.SetVisualRange: with entities present the lists are not brought up to date; what holds then is the stated condition.
- SkipListAois.SkipListAOI.EnterEntity: the position must be one that the index reaches, as an assert of the source demands; index node 0 keeps id 0 from being an entity.
- SkipListAois.SkipListAOI.UpdateEntity: the new x must not be negative, as nothing may come before the first index node, and must be one that the index reaches where the source asserts it.
- SkipListAois.SkipListAOI.ExitEntity: the source never takes a leaving entity's range off the register, nor does the model; the register counts at least the ranges in use.
- OrthListAois.OrthListAOI.UpdateMark: marks are unbounded here; with the y axis off they run over 32 bits exactly from a counter of 0xFFFFFFFB, and what the source does then is not modelled.
- OrthListAois.OrthListAOI.EnterEntity: callbacks come after the insertion into the list that causes them, in the same order; they neither read nor change what the insertion uses. Turning the y axis on or off while there are entities is not modelled.
- EventTimers.EV.TimerStart: times are unbounded integers; the repeat must not be negative, as an assert of the source demands.
- EventTimers.EV.InvokePending: callbacks are any sequences of timer calls; the queue holds timers only.
- Buffers.Buffer.ToFlatCtx: only after the first use of the buffer, since the source reads its first chunk without looking whether there is one.
- Buffers.Buffer.Remove: at most as many bytes as there are may be removed, and only after the first use of the buffer.
- NetIO.IO.Send: the peer's part of a turn is one of the kernel's answers; whatever the main thread appends between two buffer operations is a script. A script that is over before the loop is counts as an answer to wait, in `NetIO.IO.Recv` too.
- StreamPackets.Socket.CommandCb: cutting the stream must not run into a length of 0, where `Unpack` dispatches an empty frame and leaves the buffer as it is, so that the loop need not end; what a handler reads behind a frame shorter than its header is not part of this model.
- StreamPackets.Socket.Stop: only the change of status; closing the descriptor and `term` are not part of this model.
- LuaBinCodecs.LuaBinCodec.Encode: the buffer has seven bytes to spare, because the encoder can write that far behind the source's buffer.
- LuaBinCodecs.RoundTrip: table keys that are tables are compared by identity in Lua; decoded ones are new, and floating-point keys are taken as they are, without Lua's conversion of whole numbers.
- OrderedPools.OrderedPool.OrderedFree: only cells that are handed out, of their own size, may be given back; the source's assert checks less.
- FastEvents.RegisterKeeps: a watcher is registered, deleted and created as the steps say; `io_delete` of a watcher whose change is still queued is not covered.
- SqlWorker.RunsInOrder: runs without `Thread::stop`, which clears the run flag without the lock.

Not modelled:

- C++ references: entities, timers, watchers and pool nodes are named by ids or indexes, list iterators by the nodes they stand for, list links by the nodes they lead to.
- The scratch memory for flat views is one for each buffer here, and one for each thread in the source.
- 32-bit and 64-bit wrap-around of positions, times and sizes.
- `OrthListAOI::each_entity`, `SkipListAOI::each_entity` and the dump functions, which only walk over a list.
- `AStar::manhattan` and `AStar::euclidean`, which are not used or are about floating-point rounding.
- Periodic (UTC) timers, `reheap`, and I/O watchers in the pending queue.
- `OrderedPool::purge`, `OrderedPoolLock`, `ObjectPool` and `CachePool`.
- Handling of send-buffer overflow by masks in `Socket::append`, and the other packet and codec kinds.
- Sockets, TLS, epoll, the Lua state and database drivers, beyond what they answer.
- Statistics, logging, configuration and scripts.
