# Verified model of the game server's core data structures

Dafny models of seven parts of the server, each proved against a simpler account of the same thing. The source is
imperative C++, and so is most of the model: classes whose fields the methods update in place, arrays, and loops with
invariants. Beside each class stands a specification as functions on values, and what the program is for is proved
about those functions: over all inputs, over whole runs, or both.

* **Crafting** (`NameOrder`, `Permutations`, `Pairings`, `Shapeless`, `CraftItems`, `Shaped`, `ShapedTranslation`,
  `CraftDefs`, `CraftIndex`, `CraftRanking`, `CraftManager`). Trying permutations of a recipe finds a pairing whenever
  there is one; comparing bounding boxes decides translation matching; three layers of hash tables answer what a scan
  over all recipes answers, whatever the hash function.
* **Inventories** (`ItemStacks`, `InventoryLists`, `InventoryMoves`, `InventoryListClass`, `OfferWalk`, `MoveActions`).
  Queries predict mutators; moves conserve every kind of item, within a list too; a player's request from slot to slot
  moves exactly what is asked for, allowed and fits, and one for whatever slots have room does so up to the first
  refusal.
* **Inventory sync** (`ItemWire`, `InventorySync`, `SyncRuns`, `InventoryClass`). Sending only flagged lists keeps a
  receiver's copy right over any run.
* **Emerge queue and chunks** (`EmergeQueue`, `Chunks`). Atomic steps of the server and its workers as state machines:
  accounting and limits of the queue, and mutual exclusion of generation jobs, in every reachable state.
* **Paths** (`Paths`, `PathPrefix`). Backward scans with string surgery equal list operations on path components.
* **Chat** (`ChatFormat`, `ChatRows`, `ChatLoop`, `ChatBuffers`). The wrapping loop loses nothing, and ends but for one
  exactly described case; the formatted rows are a cache of the lines; the scroll position follows its text.
* **Cube shells** (`FacePositions`). Nested loops list a cube's surface exactly once.
* **Map storage** (`NodeBulk`, `NodeIds`, `MapStore`, `MapUnload`, `MapRuns`). Ids are renumbered and restored by name;
  cached lookups equal a plain map over any run; limited unloading takes the oldest blocks and no more.

`Options`, `MachineIntegers`, `Vectors`, `Sequences`, `Multiples` and `Cardinality` hold what several modules share.
Integers are unbounded except where the program's width shows: 16-bit counters, positions and stack counts are written
out with their wrap.

What the program does not compute itself is a parameter: the hash function, item definitions, which blocks the
database saves, what it has for a position and whether it lets go of it, and the answers of the scripts' "allow"
callbacks, which may differ on every call.

Where a property does not hold of the code, the model keeps the code and says when it holds:

* A hashed fuel lookup can differ from the scan, because a fuel recipe's priority is fixed before its name is known
  (`FuelLookup` gives the exact condition, `FuelIndexDiffers` an instance).
* With the hand in a group, the shaped check accepts empty cells for that group (`HandInGroupBreaksTranslation`; it is
  translation matching exactly when the hand matches no group, `HandDecides`).
* Moving part of an oversized stack can lose items (`MoveConservesExactly` and `MoveSomewhereConservesExactly` say
  exactly when, `OversizedLoses` gives an instance).
* The assertion at the end of `IMoveAction::apply` fails for a full stack moved onto itself (`SwapAssertion`, instance
  `FullStackOntoItself`).
* When "move somewhere" is asked for more than the source has, a request that finds the source empty leaves the last
  move count standing, and the count can run short of it or wrap (`CountRunsShort`, instances `CountWraps` and
  `CountWrapsHere`); what is moved is right all the same (`MoveSomewhereMeaning`).
* "Move somewhere" does not move all that is allowed and fits: the first slot that has room but is refused ends the
  whole request (`MoveSomewhereMoves`, instance `RefusalEndsRequest`), and within one list a source stack that is not
  full uses up the count for items that stay in their slot (`MoveSomewhereMovesHere`, instance `StaysInItsSlot`).
* Close to the end of the 16-bit range a block's chunk is computed wrongly (`ChunkStartExact`, instance `StartWraps`).
* The layout of a chat line with a name never ends on a console of two columns if its text is too long
  (`LoopEnds`, instance `HelloNeverEnds`). On one column all but the first character goes past the edge (`NarrowEnds`).
* A content without a name comes back from disk as a bare number (`SameTable`, instance `NamelessBecomesNumber`).
* A chunk over the generation limit stays in the set of chunks in progress for ever (`RefusedForEver`);
  `StartsWhenFree` shows that this never stops a job.
* `ChatBuffer::clear` leaves the scroll position out of range while a console is open (`ChatBuffer.Clear`).

`dafny verify dfyconfig.toml` checks the project.

## Model

| member | source | states |
|---|---|---|
| Permutations.NextPermutation | src/craftdef.cpp:495-544 | The in-place step used by the matching loop gives the lexicographic successor among the arrangements of the same names, or reports that there is none and wraps to the first |
| Permutations.AdvanceIsSuccessor | src/craftdef.cpp:538-541 | No arrangement lies strictly between a list and its successor, so the loop skips none |
| Permutations.AheadShrinks | src/craftdef.cpp:538-541 | Each step leaves strictly fewer arrangements ahead: the loop ends |
| Pairings.BijectionOfArrangement | src/craftdef.cpp:528-541 | Every rearrangement of a recipe is read off it through a bijection of positions |
| Pairings.ArrangementOfBijection | src/craftdef.cpp:528-541 | Reading a recipe through any bijection gives a rearrangement of it |
| Shapeless.TriedNext | src/craftdef.cpp:528-541 | If no arrangement before the current one matches and the current one does not, none before the next one does; at the last one, no pairing exists |
| Shapeless.Check | src/craftdef.cpp:495-544 | True exactly when some bijection pairs every non-empty input item with a recipe entry it matches; names stored by the hash pass give the same answer |
| CraftItems.InAllGroups | src/craftdef.cpp:97-105 | The loop over a comma-separated group list holds exactly when the item is in every group named |
| CraftItems.GroupNamesMeaning | src/craftdef.cpp:94-105 | The group names of a list hold no comma and are, put together with commas, the list itself but for a comma at its end |
| CraftItems.InputItemMatchesRecipe | src/craftdef.cpp:84-109 | Equal names, or a known item that is in every group of a "group:" entry |
| Shaped.GetBounds | src/craftdef.cpp:158-189 | One pass finds the exact bounding box of the filled cells, and fails exactly when there are none |
| Shaped.OnlyShift | src/craftdef.cpp:391-422 | If a recipe applies, the box sizes agree and the shift that lays box on box is one that works |
| Shaped.BoxesDecide | src/craftdef.cpp:391-422 | With equal box sizes, comparing the two boxes cell by cell decides whether any shift works |
| Shaped.Check | src/craftdef.cpp:359-423 | True exactly when some shift makes all cells match and lays the recipe's box over the input's; widths may differ and last rows are padded |
| ShapedTranslation.ShapedIsTranslation | src/craftdef.cpp:359-423 | If the hand matches no group: true exactly when some shift matches every filled recipe cell and leaves every other input cell empty |
| ShapedTranslation.HandDecides | src/craftdef.cpp:84-109 | The shaped check is that for every recipe and input exactly when the hand matches no group |
| ShapedTranslation.HandInGroupBreaksTranslation | src/craftdef.cpp:84-109 | A concrete recipe and input for which that fails when the hand is in the group asked for |
| ShapedTranslation.ShapedCount | src/craftdef.cpp:359-423 | A matching shaped recipe has as many filled cells as the input has items |
| ShapedTranslation.ShapedNames | src/craftdef.cpp:359-423 | Without group entries it has the same multiset of names |
| CraftDefs.CheckToolRepair | src/craftdef.cpp:603-655 | True exactly for two stacks of one repairable tool whose repair gains something |
| CraftDefs.ToolRepairMeaning | src/craftdef.cpp:603-655 | Tool repair applies exactly when two slots hold one tool each of the same repairable kind, all others are empty, and the uses left in both exceed the cost of the repair |
| CraftDefs.CheckSingleItem | src/craftdef.cpp:715-738 | Cooking and fuel: true exactly when one single item matches |
| CraftDefs.SingleItemMeaning | src/craftdef.cpp:715-738 | Cooking and fuel apply exactly when one slot holds the only item, wherever it lies, and the item has the name or is known and in every group asked for |
| CraftDefs.GetHashForGrid | src/craftdef.cpp:55-80 | The hash of a grid: the given hash of the joined names, the number of filled cells, or 0 |
| CraftDefs.Check | src/craftdef.cpp:359-423 | Each kind of definition decides exactly its own matching relation |
| CraftIndex.InBucket | src/craftdef.cpp:441-463 | Every recipe whose check passes lies in the bucket that the input probes, for any hash function |
| CraftIndex.PriorityDecidesLayer | src/craftdef.cpp:562-582 | Outside fuel, two recipes that apply and have equal priority live in one hash layer |
| CraftRanking.WalkStep | src/craftdef.cpp:941-969 | One step back through a bucket keeps the best recipe seen so far the best |
| CraftRanking.WalkIsScan | src/craftdef.cpp:925-973 | If equal priorities share a layer, walking the layers picks what scanning all recipes in order picks |
| CraftRanking.FiledMeaning | src/craftdef.cpp:1067-1106 | A bucket lists exactly the recipes with its key, in registration order |
| CraftManager.CraftDefManager.RegisterCraft | src/craftdef.cpp:1067-1075 | Adds a recipe to the unhashed layer and keeps the index right |
| CraftManager.CraftDefManager.InitHashes | src/craftdef.cpp:1091-1106 | Files every unhashed recipe in its own layer and bucket and changes no recipe |
| CraftManager.CraftDefManager.WalkBucket | src/craftdef.cpp:941-969 | The inner loop leaves the best recipe of all layers walked so far |
| CraftManager.CraftDefManager.LookUp | src/craftdef.cpp:914-976 | The layered lookup returns the best recipe of all layers |
| CraftManager.CraftDefManager.GetCraftResult | src/craftdef.cpp:914-976 | For normal and cooking inputs, before any hashing or after all of it: a recipe exactly when one matches with a known output; shaped before shapeless before tool repair, names before groups, and the latest registered of its class |
| CraftManager.ScanChooses | src/craftdef.h:131-150 | The scan over all recipes picks by kind of recipe, by groups, and by registration, as stated in these terms |
| CraftManager.CandidateMeaning | src/craftdef.cpp:941-962 | A recipe counts exactly when its kind of check holds and the item behind its output name is known; for tool repair that is the tool in the two slots |
| CraftManager.IndexRefinesScan | src/craftdef.cpp:914-976 | The hash index answers what the linear scan answers, for any hash function |
| CraftManager.FuelLookup | src/craftdef.cpp:806-815 | A hashed fuel lookup agrees with the scan exactly when there is no candidate, the scan's choice is an exact name, or all candidates are groups |
| CraftManager.FuelIndexDiffers | src/craftdef.cpp:806-815 | Two fuels for which the hashed lookup and the scan differ |
| ItemStacks.FitsPredictsAdd | src/inventory.cpp:313-350 | `itemFits` reports exactly the leftover `addItem` would return |
| ItemStacks.AddConserves | src/inventory.cpp:276-311 | Slot and leftover together hold what slot and item held, for every name and metadata; no slot in use is filled past its maximum |
| ItemStacks.AddMeaning | src/inventory.cpp:276-311 | As many go over as there is room for; an empty slot becomes a stack like the item, another only grows, and the rest is otherwise as it was |
| ItemStacks.AddLeftover | src/inventory.cpp:276-311 | What is left over is what the slot has no room for, and then a slot of that kind is full; the item comes back as it was exactly when the slot did not change |
| ItemStacks.TakeConserves | src/inventory.cpp:352-370 | Taking splits a stack: exactly the smaller of what is asked for and what there is, both parts otherwise as it was |
| InventoryLists.AddConservesAll | src/inventory.cpp:599-636 | List and leftover together hold what list and item held |
| InventoryLists.AddLeavesBeyondRoom | src/inventory.cpp:599-636 | Adding a non-empty item leaves over exactly what the whole list has no room for |
| InventoryLists.AddItemMeaning | src/inventory.cpp:599-636 | Slot by slot: those in use are filled first, then the empty ones, each in order with what those before it have no room for |
| InventoryLists.RoomForItemMeaning | src/inventory.cpp:662-673 | The query holds exactly when the item is no larger than the total room |
| InventoryLists.RoomPredictsAdd | src/inventory.cpp:599-673 | `roomForItem` holds exactly when `addItem` leaves nothing over, although the two visit slots in different orders |
| InventoryLists.RoomForNothing | src/inventory.cpp:662-673 | For an empty item nothing is left over, but the query needs at least one slot |
| InventoryLists.ContainsMeaning | src/inventory.cpp:675-692 | `containsItem`, with or without metadata, holds exactly when enough matching items are there |
| InventoryLists.ContainsPredictsRemove | src/inventory.cpp:675-712 | `containsItem` without metadata holds exactly when `removeItem` returns the full count |
| InventoryLists.RemoveExactly | src/inventory.cpp:694-712 | `removeItem` takes exactly the smaller of what is asked for and what there is; every name loses that much or nothing |
| InventoryLists.RemoveItemMeaning | src/inventory.cpp:694-712 | Slot by slot from the end: a slot loses what the later ones of the name did not have; what comes back is a stack like the last slot of the name that held any |
| InventoryLists.RemoveSlots | src/inventory.cpp:694-712 | Only slots of that name change, each to a smaller or empty stack of the same kind |
| InventoryLists.FlagExact | src/inventory.cpp:599-723 | Adding, taking and removing set the dirty flag exactly when a slot changes |
| InventoryListClass.InventoryList.AddItem | src/inventory.cpp:599-636 | The two loops in place equal the specification; the dirty flag is set exactly when something was added |
| InventoryListClass.InventoryList.AddItemAt | src/inventory.cpp:638-647 | One slot in place, and the dirty flag |
| InventoryListClass.InventoryList.TakeItem | src/inventory.cpp:714-723 | One slot in place, and the dirty flag |
| InventoryListClass.InventoryList.ChangeItem | src/inventory.cpp:581-590 | Exchanges a slot; a slot that does not exist gives the new item back |
| InventoryListClass.InventoryList.DeleteItem | src/inventory.cpp:592-597 | Empties a slot and sets the flag |
| InventoryListClass.InventoryList.ClearItems | src/inventory.cpp:395-404 | Every slot empty, flag set |
| InventoryListClass.InventoryList.SetSize | src/inventory.cpp:406-414 | Cuts or pads the slots; nothing, not even the flag, at the same size |
| InventoryListClass.InventoryList.RoomForItem | src/inventory.cpp:662-673 | The loop equals the specification |
| InventoryListClass.InventoryList.ContainsItem | src/inventory.cpp:675-692 | The reverse loop equals the specification |
| InventoryListClass.InventoryList.RemoveItem | src/inventory.cpp:694-712 | The reverse loop in place equals the specification |
| InventoryListClass.InventoryList.MoveItem | src/inventory.cpp:746-791 | In place, the destination being another list or this one: equals the specification on both lists; no dirty flag is cleared and a changed list is flagged |
| InventoryListClass.InventoryList.MoveItemSomewhere | src/inventory.cpp:725-744 | The same for moving to whatever slot has room |
| InventoryMoves.MoveIsSlots | src/inventory.cpp:746-791 | A move between two different slots does to them what the two-slot account says, and nothing to any other slot |
| InventoryMoves.SlotsMeaning | src/inventory.cpp:746-791 | With a source within its maximum: as many as asked for (0 asks for all) and as fit go over; if none fit and a swap is wanted the stacks change places, and the count reported is what was asked for less the whole stack, in 32 bits |
| InventoryMoves.SlotsConserve | src/inventory.cpp:746-791 | Both slots and the loss add up to what was there; there is a loss exactly when part of an oversized stack is taken and what comes back no longer fits |
| InventoryMoves.MoveConservesExactly | src/inventory.cpp:746-791 | Between any two places, existing or not, same list or not: a kind is conserved exactly unless it is the moved one and part of an oversized stack is taken whose rest comes back and no longer fits |
| InventoryMoves.OversizedLoses | src/inventory.cpp:725-791 | An instance: 10 of 200 stone, of which 99 stack, are gone after a move onto dirt, to a missing slot, or to a list without room |
| InventoryMoves.MoveConserves | src/inventory.cpp:746-791 | With a source stack within its maximum a move conserves every kind over all lists: same list, swap and missing destination included |
| InventoryMoves.MoveNowhere | src/inventory.cpp:746-791 | A destination slot that does not exist: the same exact condition, and if nothing is lost the lists are as they were |
| InventoryMoves.MoveSomewhereConservesExactly | src/inventory.cpp:725-744 | Moving to whatever slot has room, within one list or between two, conserves every kind exactly unless part of an oversized stack is taken and what finds no room no longer fits its old slot |
| InventoryMoves.MoveSomewhereConserves | src/inventory.cpp:725-744 | So with a source stack within its maximum it conserves every kind |
| InventoryMoves.MoveSomewhereIs | src/inventory.cpp:725-744 | Between two lists: the destination gains as many as asked for and as it has room for, as by adding them, and the source slot loses them |
| InventoryMoves.MoveKeepsCap | src/inventory.cpp:746-791 | If no stack exceeds its maximum, none does after a move |
| InventoryMoves.MoveSomewhereKeepsCap | src/inventory.cpp:725-744 | The same for moving to whatever slot has room |
| MoveActions.PlanMeaning | src/inventorymanager.cpp:342-451 | What a request comes to: skipped, refused, a swap exactly if nothing fits and every callback allows the whole stack of its direction, or a move of the least of what is asked for and allowed |
| MoveActions.SwapMeaning | src/inventorymanager.cpp:364-476 | Stacks are exchanged whole, exactly when nothing fits, the request does not stem from "move somewhere", and both directions are fully allowed; the program swaps exactly when it meant to |
| MoveActions.MoveMeaning | src/inventorymanager.cpp:342-476 | Without a swap exactly the least of what is asked for, allowed by both callbacks and fitting is moved |
| MoveActions.SwapAssertion | src/inventorymanager.cpp:469-473 | The closing assertion of `apply` fails exactly when a plain request moves a full stack onto itself and the callbacks allow the swap |
| MoveActions.FullStackOntoItself | src/inventorymanager.cpp:469-473 | An instance: 99 of 99 stone moved onto itself |
| MoveActions.PlainIsSlots | src/inventorymanager.cpp:323-476 | A request changes its two slots and no others |
| MoveActions.PlainReports | src/inventorymanager.cpp:328-476 | What count and move count say after a plain request, for every way out |
| MoveActions.PlainConserves | src/inventorymanager.cpp:323-476 | A request conserves every kind, whatever the callbacks answer, if the source stack is within its maximum |
| MoveActions.FillStep | src/inventorymanager.cpp:300-318 | Each request of "move somewhere", within one list or between two, moves no more than is left to move and no more than its callbacks allow; from an empty slot it changes nothing, not even the move count |
| MoveActions.FillMeaning | src/inventorymanager.cpp:300-318 | One loop moves the sum of what its requests move; as long as no more is to move than the source has, that stays so |
| MoveActions.MoveSomewhereMeaning | src/inventorymanager.cpp:281-321 | Within one list or between two, whatever is asked for: the source slot loses exactly the sum of the inner moves, at most the count asked for, the destination gains as much, and count and slot of the request are restored |
| MoveActions.SmallRequestWithin | src/inventorymanager.cpp:300-318 | Asked for no more than the source has, no request of the loops moves more than is left of the count |
| MoveActions.FillIsTurns | src/inventorymanager.cpp:300-318 | Within one list or between two, a loop is a walk over what its slots offer: a slot takes what it has room for and is allowed or is refused, and the source slot itself takes off the count what stays where it is |
| MoveActions.CountRunsShort | src/inventorymanager.cpp:300-318 | Within one list or between two, the move count exceeds the count at some turn exactly when a slot drains the source, more is asked for, and what is then left of the count is no multiple of the last number moved and smaller than that number times the turns still to come |
| MoveActions.CountWraps | src/inventorymanager.cpp:300-318 | An instance: of 150 asked of 99 stone 51 are left, a second empty slot takes off 99 more, and the count wraps to 65488 |
| MoveActions.CountWrapsHere | src/inventorymanager.cpp:300-318 | The same request within a list of 99 stone and two empty slots |
| OfferWalk.TurnsWithin | src/inventorymanager.cpp:300-318 | That condition for any walk over offers |
| OfferWalk.TurnsMove | src/inventorymanager.cpp:300-318 | A walk that does not come past its own slot takes the offers before the first refusal as far as source and count allow, and nothing after it |
| OfferWalk.TurnsMovePast | src/inventorymanager.cpp:300-318 | A walk that comes past its own slot: the same before it, and after it with what the slot itself took off the count |
| MoveActions.MoveSomewhereMoves | src/inventorymanager.cpp:281-321 | Between two lists, whatever the callbacks answer: moves exactly the least of what is asked for, is there, and is offered by the slots before the first one that has room but is refused |
| MoveActions.MoveSomewhereMovesHere | src/inventorymanager.cpp:281-321 | Within one list: the same for the slots before the source slot, then for those behind it and the empty ones with what is left of the count after the source slot used it up for items that stay |
| MoveActions.RefusalEndsRequest | src/inventorymanager.cpp:428-459 | An instance: 99 stone and two empty slots of which only the first is refused; nothing is moved |
| MoveActions.StaysInItsSlot | src/inventorymanager.cpp:300-318 | An instance: 50 of at most 99 stone in the first slot of a list; nothing is moved to the empty slot |
| MoveActions.MoveSomewhereMovesAll | src/inventorymanager.cpp:281-321 | So between two lists and with willing callbacks it moves as much as is asked for, is there, and fits the destination |
| MoveActions.IMoveAction.Prepare | src/inventorymanager.cpp:328-462 | The sequence of checks and updates of count and move count leads to the plan |
| MoveActions.IMoveAction.AskCallbacks | src/inventorymanager.cpp:364-423 | The limits of both ends, with the opposite callbacks asked only for a wanted swap |
| MoveActions.IMoveAction.ApplyPlain | src/inventorymanager.cpp:323-476 | Lists and fields after a plain request equal the specification; a list that changed is flagged, and a player's lists also when the callbacks refuse |
| MoveActions.IMoveAction.FillSlots | src/inventorymanager.cpp:300-318 | One loop over the destination equals the specification |
| MoveActions.IMoveAction.ApplySomewhere | src/inventorymanager.cpp:281-321 | Both loops and the restored fields equal the specification |
| MoveActions.IMoveAction.Apply | src/inventorymanager.cpp:244-321 | Nothing changes when a list is missing; otherwise the plain or the "somewhere" request, with the flags of changed lists and of refusals |
| ItemWire.ItemRoundTrip | src/inventory.cpp:59-238 | A written stack reads back with its alias resolved, tools counted once and nothing else changed |
| ItemWire.ItemUnchanged | src/inventory.cpp:59-238 | It reads back the same exactly when its name is resolved and a tool counts one |
| ItemWire.WriteShortest | src/inventory.cpp:59-87 | What is written is the shortest beginning of name, count, wear and metadata that reads back as the stack |
| ItemWire.ListRoundTrip | src/inventory.cpp:428-505 | A written list read into a list of its size replaces everything that was there, and the reader stops behind it |
| ItemWire.ListLines | src/inventory.cpp:428-448 | A written list is its width, one line for every slot in order, and the end |
| InventoryListClass.InventoryList.Serialize | src/inventory.cpp:428-448 | The loop writes the specified lines |
| InventoryListClass.InventoryList.DeSerialize | src/inventory.cpp:450-505 | The reading loop in place equals the specification, including where it fails, for a list with slots |
| InventorySync.ReadAll | src/inventory.cpp:850-936 | Reading the lines of some lists gives the kept lists and the images of those written, by name, and no others |
| InventorySync.WrittenAt | src/inventory.cpp:850-863 | Lists are written in order; incrementally, one whose flag is clear is only named, and one whose flag is set is written in full |
| InventorySync.RoundMakesEqual | src/inventory.cpp:850-936 | If clean lists are already right at the receiver, a round of either kind succeeds and makes the two name-to-list maps equal |
| SyncRuns.OpIsHonest | src/inventory.cpp:395-723 | Every operation that changes a list sets its flag, and none clears it |
| SyncRuns.AddListMeaning | src/inventory.cpp:938-962 | A list of that name and size stays, one of another size is replaced by a blank one, a new name without a space gets a blank one; no other list changes |
| SyncRuns.DeleteListMeaning | src/inventory.cpp:982-992 | The list of the name goes, all others stay in their order |
| SyncRuns.StepKeeps | src/inventory.h:327-335 | Every change, move, added or deleted list and sync round keeps every clean list equal to the receiver's copy |
| SyncRuns.CleanEqualsCopy | src/inventory.cpp:850-962 | After any run every list whose flag is clear equals the receiver's copy |
| SyncRuns.SyncMakesEqual | src/inventory.cpp:850-962 | After any run a sync round makes the two name-to-list maps equal and clears the flags |
| SyncRuns.ImageIsExact | src/inventory.cpp:59-238 | Lists of stacks with resolved names arrive exactly as they are |
| SyncRuns.SyncMakesSame | src/inventory.cpp:850-962 | After any run and one more round of either kind, if every stack is tidy, the receiver's lists equal the sender's own, name by name and slot by slot |
| InventoryClass.Inventory.Serialize | src/inventory.cpp:850-863 | The loop writes the specified lines |
| InventoryClass.Inventory.DeSerialize | src/inventory.cpp:865-936 | The merging loop in place equals the specification, including where it fails |
| InventoryClass.Inventory.AddList | src/inventory.cpp:938-962 | Replaces a list of another size, refuses a new name with a space, appends otherwise |
| InventoryClass.Inventory.DeleteList | src/inventory.cpp:982-992 | Removes the list of that name, if there is one |
| InventoryClass.Inventory.ClearModified | src/inventory.h:327-335 | Clears the flag of every list and changes no content |
| EmergeQueue.OptimalIsShortest | src/emerge.cpp:423-441 | The chosen thread's queue is a shortest one, the first of several |
| EmergeQueue.EnqueueKeeps | src/emerge.cpp:268-295 | A request, admitted or not, keeps counts, queues and entries in agreement |
| EmergeQueue.EnqueueAccepts | src/emerge.cpp:359-376 | With exact counts: a request is accepted exactly when it is forced, or the queue is below its total and the peer has fewer blocks queued than its limit, for generation or for loading, or the server itself less than half the total |
| EmergeQueue.EnqueueEffect | src/emerge.cpp:268-295 | A refused request changes neither entries nor queues; an accepted one joins the entry, or makes one and puts the block at the end of the first shortest queue |
| EmergeQueue.PopFrontKeeps | src/emerge.cpp:507-520 | A worker's pop always finds the entry, returns everything asked for since it was created, and keeps the agreement |
| EmergeQueue.CancelAllKeeps | src/emerge.cpp:474-489 | Cancelling empties one queue, completes each of its blocks once and in order, and leaves other queues alone |
| EmergeQueue.CountIsPositive | src/emerge.cpp:411-417 | The counter a pop decrements is zero exactly when it has wrapped, never with fewer than 65536 entries |
| EmergeQueue.CountsExact | src/emerge.cpp:350-396 | Within the limits no 16-bit counter wraps: each peer's count is the number of blocks it requested first |
| EmergeQueue.EnqueueWithin | src/emerge.cpp:359-376 | A request that is not forced never pushes the queue over a limit |
| EmergeQueue.UnforcedRunWithinLimits | src/emerge.cpp:350-420 | With no forced request every reachable state respects the total, per-peer and half-of-total limits, and every count is exact |
| EmergeQueue.UnforcedRunAccepts | src/emerge.cpp:350-420 | So it is after every run without forced requests |
| EmergeQueue.EntryCarriesRequests | src/emerge.cpp:378-394 | In every reachable state a queued entry carries the first peer, the OR of all flags and all callbacks accepted since the block was last taken out |
| EmergeQueue.EmergeManager.PushBlockEmergeData | src/emerge.cpp:350-396 | Admits exactly within the limits; creates or joins the entry; only a creation counts |
| EmergeQueue.EmergeManager.PopBlockEmergeData | src/emerge.cpp:398-420 | Removes the entry and gives back one count; fails without an entry or counter |
| EmergeQueue.EmergeManager.GetOptimalThread | src/emerge.cpp:423-441 | The loop finds the chosen thread |
| EmergeQueue.EmergeManager.EnqueueBlockEmergeEx | src/emerge.cpp:268-295 | Both steps under the lock, keeping the invariant |
| EmergeQueue.EmergeManager.PopBlockEmerge | src/emerge.cpp:507-520 | Nothing from an empty queue; otherwise the front block with its whole entry |
| EmergeQueue.EmergeManager.CancelPendingItems | src/emerge.cpp:474-489 | The loop completes exactly the blocks of the queue, in order |
| Chunks.ContainerHolds | src/util/numeric.h:40-43 | Division that truncates toward zero is made floor division for every sign |
| Chunks.ChunkStartExact | src/emerge.cpp:310-317 | For every coordinate and positive chunk size: the computed start is aligned and the chunk holds the coordinate exactly when both its ends, and unless the size is a power of two the shifted coordinate, are 16-bit numbers |
| Chunks.WellInside | src/emerge.cpp:310-317 | So it is for every coordinate a chunk length away from the ends of the range |
| Chunks.StartWraps | src/emerge.cpp:310-317 | An instance near the end where the start is wrong |
| Chunks.InsideIsExact | src/emerge.cpp:310-317 | A chunk that passes the limit check was computed exactly, for every limit |
| Chunks.InsideMeaning | src/map.cpp:1348-1388 | A chunk passes the limit check when it and its border lie within the limit, at most 31000 nodes, in blocks |
| Chunks.ContainingChunkExact | src/emerge.cpp:310-317 | The box computed for a block is aligned, holds the block and has exact ends precisely when no axis leaves the 16-bit range |
| Chunks.ChunkHoldsBlock | src/emerge.cpp:310-317 | A box that passes the limit check holds its block |
| Chunks.BoxesDisjoint | src/emerge.cpp:310-317 | Boxes at aligned starts are equal or share no block |
| Chunks.RunKeeps | src/map.cpp:1369-1493 | In every reachable state each job in progress is registered, and whatever else is registered is a chunk over the limit |
| Chunks.LiveJobsDisjoint | src/map.cpp:1369-1493 | In every reachable state no block belongs to two jobs in progress |
| Chunks.StartsWhenFree | src/map.cpp:1369-1388 | In every reachable state a job starts exactly when the chunk is inside the limit and no job in progress owns the block; refused chunks left in the set never stop one |
| Chunks.RefusedForEver | src/map.cpp:1369-1388 | A request for a chunk over the limit is refused in every reachable state and leaves the chunk in the set after every continuation of the run |
| Chunks.ServerMap.InitBlockMake | src/map.cpp:1369-1392 | The steps on the chunk set, keeping the invariant |
| Chunks.ServerMap.FinishBlockMake | src/map.cpp:1493-1493 | Erasing the chunk, keeping the invariant |
| Paths.BackwardIsResolve | src/filesys.cpp:639-690 | Dropping names from the back with a count of pending ".." agrees with a stack machine running forward |
| Paths.ResolvedHasNoRelatives | src/filesys.cpp:639-690 | What the stack machine leaves holds no "." or ".." and only names of the input |
| Paths.ComponentsAppend | src/filesys.cpp:639-690 | Where two strings do not meet inside a name, their component lists concatenate |
| Paths.ComponentsAreNames | src/filesys.cpp:639-690 | Every component is a non-empty string without delimiters |
| Paths.ResolveWithoutRelatives | src/filesys.cpp:639-690 | Components without "." and ".." are all kept |
| Paths.RemoveRelativePathComponents | src/filesys.cpp:639-690 | The result's components are what the forward machine leaves; "" exactly when a pop underflows or nothing remains; normal paths come back unchanged and every result is normal; a result is absolute exactly when the input is, and without double delimiters if the input is |
| Paths.SingleIsAssembled | src/filesys.cpp:639-690 | A path without double or trailing delimiters is its components with one delimiter between them, and whether it is absolute: so the result is settled |
| PathPrefix.PathStartsWith | src/filesys.cpp:557-605 | Holds exactly when both strings agree on starting at a delimiter (or being empty) and the prefix's components are a list prefix of the path's |
| PathPrefix.RemoveLastPathComponent | src/filesys.cpp:607-637 | The rest is the path cut off behind its last component that stays; the removed part is the components removed, the smaller of count and length, with one delimiter between them, and one in front for every round too many |
| ChatFormat.FormatKeepsText | src/chat.cpp:231-352 | For every line and console for which the loop ends: the fragments add up to the name in brackets and the text; every fragment ends within the console (on one column, within the text's length plus one), fragments are contiguous, there is a row, and only the first is marked |
| ChatRows.RowsMeaning | src/chat.cpp:257-346 | Rows that only hold the name start in column 0 and are full; the text begins behind the rest of the name; every further row holds one piece of the text and starts below the text for a short name, in column 2 for a long one, in column 0 without a name; pieces end at spaces where they can |
| ChatRows.RowsOfName | src/chat.cpp:257-346 | Without text there are only the rows of the name, or one empty row |
| ChatFormat.BreaksAtWord | src/chat.cpp:313-333 | A fragment that does not end the text ends right after the last space that fits, or at the edge if there is none |
| ChatLoop.LoopEnds | src/chat.cpp:278-346 | On consoles of every width: the loop ends exactly unless there is a name, two columns, and a text too long for what the name leaves of its row; when it ends it has laid out the rows specified |
| ChatLoop.WideEnds | src/chat.cpp:278-346 | Turn by turn, where text starts inside the console the loop reaches the specified layout |
| ChatLoop.NarrowEnds | src/chat.cpp:278-346 | On one or two columns, with a name: exactly when it ends and with which layout; on one column all but the first character is written past the edge |
| ChatLoop.FormatChatLine | src/chat.cpp:231-352 | The two nested loops, with unsigned columns, end and append exactly the rows specified |
| ChatLoop.HelloNeverEnds | src/chat.cpp:278-346 | An instance on two columns that never ends |
| ChatBuffers.LineRows | src/chat.cpp:90-124 | The rows of a line reach from its marked row to the next marked row |
| ChatBuffers.CountOldest | src/chat.cpp:90-124 | The counting loop finds how many rows the oldest lines take |
| ChatBuffers.ScrolledUpKept | src/chat.cpp:41-61 | A scrolled-up view shows the same full rows after rows are added behind it and removed before it |
| ChatBuffers.EndsShown | src/chat.cpp:354-375 | At the bottom the last console row shows the last formatted row; at the top of a longer buffer the first shows the first |
| ChatBuffers.RestoresNextLine | src/chat.cpp:144-198 | After reflowing, any view restarts at the first line that began at or after its first row, and at the top if there is none |
| ChatBuffers.CountFirsts | src/chat.cpp:155-165 | The loop counts the marked rows above the scroll position |
| ChatBuffers.ReflowAll | src/chat.cpp:167-182 | Every line is formatted for the new width, and the place of the restored line is noted |
| ChatBuffers.ChatBuffer.AddLine | src/chat.cpp:41-61 | Cache and range kept; exactly the lines over the limit go; a view at the bottom stays there; a scrolled-up view keeps its rows unless deletion reaches them |
| ChatBuffers.ChatBuffer.DeleteOldest | src/chat.cpp:90-124 | Drops exactly the oldest lines and their rows and moves the scroll position with them |
| ChatBuffers.ChatBuffer.Reformat | src/chat.cpp:144-198 | The cache is that of the new size; the view stays at the bottom, or restarts at the first line that began at or after it (clamped to the range), or goes to the top if only the height changed |
| ChatBuffers.ChatBuffer.Resize | src/chat.cpp:377-382 | The new limit holds; cache, range and a view at the bottom are kept |
| ChatBuffers.ChatBuffer.ScrollAbsolute | src/chat.cpp:214-224 | The position is clamped between top and bottom |
| ChatBuffers.ChatBuffer.Scroll | src/chat.cpp:209-212 | Moves the position by a number of rows and clamps it |
| ChatBuffers.ChatBuffer.GetFormattedLine | src/chat.cpp:200-207 | The row that the console shows, or none outside the rows |
| ChatBuffers.ChatBuffer.Clear | src/chat.cpp:63-70 | Nothing is left; the position is in range exactly when there is no console |
| FacePositions.ShellIsSurface | src/face_position_cache.cpp:38-110 | The list for radius d holds exactly the points of norm d, each once: 24 d^2 + 2 of them (1 for 0) |
| FacePositions.ShellIsOrdered | src/face_position_cache.cpp:74-107 | From radius 2 on the list is in a given total order, by height, side and running coordinate, which settles it |
| FacePositions.BeforeIsTotal | src/face_position_cache.cpp:74-107 | Of two different points of a surface exactly one comes before the other |
| FacePositions.UnitOrder | src/face_position_cache.cpp:43-72 | For radius 1 there are the 6 faces, then the 12 edges, then the 8 corners |
| FacePositions.ShellsTileCube | src/face_position_cache.cpp:38-110 | The lists for 0 to n together hold the (2n+1)^3 cube, every point once |
| FacePositions.FacePositionCache.GenerateFacePosition | src/face_position_cache.cpp:38-110 | The nested loops build that list |
| FacePositions.FacePositionCache.GetFacePositions | src/face_position_cache.cpp:28-36 | The memo always answers with the generated list |
| NodeIds.FirstFreeIsFirst | src/nodedef.cpp:1293-1308 | The allocated id is the first free one; none is left only when all are named |
| NodeIds.AllocateMeaning | src/nodedef.cpp:1293-1308 | A new name gets the first free id from where the last search ended, the next search starts behind it, and nothing is registered if there is none |
| NodeIds.FirstSeenMeaning | src/mapblock.cpp:264-287 | The contents in order of first occurrence: each once, and no others |
| NodeIds.NumberCountsEarlier | src/mapblock.cpp:264-287 | A content's number is the count of different contents before its first occurrence |
| NodeIds.GetBlockNodeIdMapping | src/mapblock.cpp:256-292 | Renumbers from 0 in order of first occurrence, stores exactly the names of named contents, touches nothing else and never reaches the sentinel |
| NodeIds.CorrectTwice | src/mapblock.cpp:308-345 | Resolving a number again changes nothing: reusing the previous node's id is safe |
| NodeIds.CorrectMeaning | src/mapblock.cpp:295-345 | After loading, every node has the id its name has in the end, or keeps its number if the name cannot have one |
| NodeIds.CorrectBlockNodeIds | src/mapblock.cpp:295-345 | The loop with its one-entry cache equals resolving node after node |
| NodeIds.SaveThenLoad | src/mapblock.cpp:256-345 | Saved under one name table and loaded under any other: named nodes follow their names, nameless ones keep only a number |
| NodeIds.NamesSurvive | src/mapblock.cpp:256-345 | Without aliases every node whose name has an id after loading has the same name |
| NodeIds.SameTable | src/mapblock.cpp:256-345 | Under the table that saved it, if every name it gave out has an id, a block comes back identical exactly when the table leads each name back to its content and each nameless content is its own number |
| NodeIds.NamelessBecomesNumber | src/mapblock.cpp:256-345 | An instance: a block of one nameless content comes back as content 0 |
| NodeIds.UnregisteredBecomesUnknown | src/nodedef.h:529-536 | A content that was never registered is saved under the name of the unknown node and comes back as that node under the table that saved it |
| NodeIds.BlockThroughDisk | src/mapnode.cpp:709-813 | Renumbering, byte layout and loading together: params unchanged, ids by name |
| NodeBulk.SerializeBulk | src/mapnode.cpp:709-753 | Two big-endian bytes per content, then all param1, then all param2; contents go through the substitution table if it is not empty |
| NodeBulk.DeSerializeBulk | src/mapnode.cpp:756-813 | Refuses a buffer of the wrong length; otherwise the nodes whose layout the buffer is |
| NodeBulk.RoundTrip | src/mapnode.cpp:709-813 | What was written reads back exactly, with contents as substituted; a content missing from a table that is not empty reads back as 0 |
| NodeBulk.BulkUnique | src/mapnode.cpp:709-753 | Nodes and substitution table determine every byte |
| MapStore.MapSector.GetBlockBuffered | src/mapsector.cpp:51-68 | The cache never changes the answer |
| MapStore.MapSector.CreateBlankBlock | src/mapsector.cpp:75-93 | A fresh block enters a free place |
| MapStore.MapSector.InsertBlock | src/mapsector.cpp:95-109 | Fails exactly when the place is taken |
| MapStore.MapSector.DeleteBlock | src/mapsector.cpp:111-123 | The block leaves the container and the cache |
| MapStore.Map.GetSectorNoGenerate | src/map.cpp:100-124 | The cached lookup equals the plain one |
| MapStore.Map.GetBlockNoCreateNoEx | src/map.cpp:126-134 | The lookup equals the plain map of blocks and changes only caches |
| MapStore.Map.CreateSector | src/map.cpp:1496-1530 | The sector that is there, or a new empty one inside the limit |
| MapStore.Map.CreateBlock | src/map.cpp:1532-1571 | The block that is there, or a fresh one inside the limit; every other block stays |
| MapStore.LimitMeaning | src/map.cpp:1496-1571 | Sectors and blocks are made up to 1937 blocks from the centre: 31000 nodes |
| MapStore.Map.LoadBlock | src/map.cpp:1797-1881 | A block from disk enters unless there is one, and is unmodified; bad or missing data changes no entry of the map, and the result is then the block that was there or none |
| MapStore.Map.DeleteBlock | src/map.cpp:1896-1911 | Exactly that block leaves memory, or nothing does if the database refuses |
| MapStore.Map.DeleteSectors | src/map.cpp:506-517 | Exactly the listed columns leave memory, and the sector cache with them |
| MapStore.Map.Apply | src/map.cpp:100-134 | Every operation does what it would do on one plain map |
| MapRuns.Run | src/map.cpp:100-134 | Any run of lookups, creations, loads, deletions and unloading gives the results of one plain map, and never a deleted block |
| MapUnload.TimerUpdate | src/map.cpp:428-478 | Deletes only unreferenced blocks that are clean or were saved, no more than needed; lists them oldest first and once each, and frees exactly those; no block left unvisited is older than one visited; what stays is within the limit but for referenced and unsaved blocks; no empty sector stays |
| MapUnload.UnloadOldest | src/map.cpp:442-471 | The loop over the queue keeps that account and ends within the limit |
| MapUnload.Visit | src/map.cpp:448-470 | One block off the queue: deleted unless referenced or not saved |
| MapUnload.LeftWithinLimit | src/map.cpp:428-478 | What is in memory is what was not visited and what could not leave |
| MapUnload.DeleteEmptySectors | src/map.cpp:472-483 | Empty sectors leave, no block does |

## Left out

- Paths.RemoveRelativePathComponents, PathPrefix.PathStartsWith: the case-insensitive comparison and backslash delimiter of Windows builds.
- CraftManager.CraftDefManager.GetCraftResult: `decrementInput` and replacements; the recipe is given by its registration number.
- CraftManager.CraftDefManager: recipe removal (`clearCraftsByOutput`, `clearCraftsByInput`, `clear`) and `getCraftRecipes`.
- ItemWire.ReadItem: formats of old versions, which start with a keyword, are an arbitrary function; strings are tokens, so the escaping of names and metadata and the parsing of numbers are not modelled. A list name that holds a line end would break the line format and is not considered.
- InventoryListClass.InventoryList: `setName`, which only old node metadata uses, and the raw reference of `getItem` and the assignment operator, which change a list without setting its flag.
- InventoryListClass.InventoryList.DeSerialize: for a list without slots the program's bound, the size minus 1, wraps, and a first item is written out of range; the model fails there.
- InventoryClass.Inventory: the inventory's own dirty flag; only the lists' flags decide what is sent.
- MoveActions.IMoveAction: infinite endpoints (answer -1) and other negative answers, rollback records and notifications. Positions of slots are in range, as `getItem` asserts; a destination index equal to the list's size passes the program's own check and fails that assertion.
- EmergeQueue: the worker loop around the queue, callbacks as code; requests carry a callback's identity.
- Chunks: the blocks and voxel data a job creates.
- FacePositions.FacePositionCache.GetFacePositions: radii of 32767 and more, for which the 16-bit loop counters do not end; the lock around the memo.
- ChatLoop.FormatChatLine: a named line on two columns for which the loop does not end, and sizes of 2^32 and more; `AddLine` and `Reformat` exclude the same.
- ChatBuffers.ChatBuffer: ages and `deleteByAge`, `step`, `scrollTop`, `scrollBottom`, colours, and 32-bit widths of row counts.
- NodeIds.Allocate: when the search for an id starts at 0 and every id is named, the program searches for ever; the model finds none. An empty name, which the program asserts against, is excluded.
- NodeBulk: compression, one-byte contents and other old formats.
- MapStore.Map: dummy blocks, node timers and whatever else a block holds; a null result stands for an exception, over the limit or on bad data.
- MapUnload.TimerUpdate: the branch without a limit on loaded blocks, where a failed save does not keep a sector from being deleted; timers are real numbers; the statistics. Which saves succeed is given in advance.
- The network engine, client state, environment, liquids, lighting, collision and camera code, HTTP, logging and settings are not modelled.
