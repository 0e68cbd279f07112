# Verified model of the game server's cores

This project models the self-contained cores of the server in Dafny and proves what they keep, what
undoes what, and when. `dafny verify dfyconfig.toml` checks all of it.

What the server changes step by step is imperative here too: item containers, iterators, streams, the
decay wheel, the walk cache, the conditions of a creature, a purse of coins and area matrices are
classes and arrays whose methods have loops with invariants. Each method is proved against a
specification function or predicate over plain values, and the theorems are about those. Several
threads on one task queue are a state machine whose steps interleave.

| file | what it models |
|---|---|
| Arithmetic, Collections, ItemTypes | products and quotients, optional values, sequences; the ids that creating an item replaces |
| Forests | items as an ordered forest with parent links; cached container weights and how a walk to the root settles them |
| Containers | `Item` and `Container`: adding, updating, replacing and removing on the heap |
| ContainerIteration | `ContainerIterator` and the counts and searches built on it |
| StackAccounts | what a container holds of a type, and how each operation changes that |
| ContainerQueries | how much fits, what may leave, where an item ends up |
| MoveTheory, MoveEngine, MoveVerdicts | `internalMoveItem` and `internalRemoveItem` with split and joined stacks |
| AddItem | `internalAddItem` and its recursion on the rest of a stack |
| Money, MoneyDelivery | `removeMoney` and `addMoney`, and how the coins come to a container and its tile |
| ItemRows | the item forest of a player as `(pid, sid)` rows and back |
| PropStreams, HouseItems | byte streams and the recursive format of house items |
| ConditionRecords | conditions as tagged bytes and back |
| NodeFiles | node files with escaped markers |
| Base32 | the decoder of token secrets |
| DecayWheel | the four-bucket timer wheel |
| WalkCache | the shifted local walk cache |
| ConditionLedger | conditions that change speed, skills and stats |
| DamageList | the list of damage rounds |
| AreaMatrices, AreaCombats | flat area matrices, their turns, and the areas of a spell |
| TaskQueue | callers, worker and flush of the database task queue |

Conventions. Items carry their type's row (`Kind`), and two items can be stacked when type and
attributes are equal. Weights and ammunition counts are 32-bit sums that wrap. A heap of items is seen
as a map from items to values, `View(W)`, for a set W of items that is closed under parents and lists.
Clocks, random numbers, queries and scripts are parameters, or leave the modelled state alone. C++
integer division truncates and `%` follows it; unsigned subtractions are reduced modulo 2^32 where the
result can leave the range.

Places where the code does not do what one would expect of it, with the exact condition:

- Stepping south-east or south-west shifts the walk cache with the wrong rows, because the ends of the
  copied range come from the absolute distance (`WalkCache.RightUnlessSouthDiagonal`).
- A node file whose root has neither properties nor children is seven bytes long and is refused by the
  size check, although it is well formed (`NodeFiles.LoadInvertsEncode`).
- What a player saves comes back only as far as creating the items anew does not alter them, or an equip
  event turns them back (`ItemRows.RestoredIffHasPlace`): a worn ring is saved with the id of the worn
  kind, created as the other, and worn again only if its equip event still applies to the player
  (`ItemRows.WornRingComesBack`). Rows numbered from the number of depot chests, which is one, up to 99
  are lost (`ItemRows.ChestlessIsLost`).
- House items of the worn kinds come back as the other kind, since no equip event follows. Decay is started on the tile,
  also of an item that did not decay when it was saved, but never of a container
  (`HouseItems.StartedIffLossless`).
- `mirror` reads and writes a square area correctly; a wider one leaves the array, a higher one comes
  out with holes (`AreaMatrices.MirrorStaysInside`, `AreaMatrices.MirrorNeedsSquare`). `flip` and
  `mirror` move the centre along the axis that the cells keep, which is right only in the very middle
  (`AreaMatrices.CentreOfFlip`, `AreaMatrices.CentreOfMirror`), and `transpose` exchanges rows and columns
  only of squares (`AreaMatrices.TransposeOfSquare`).
- The diagonal areas of a spell face the target only under narrow conditions. With the centre in the
  south-eastern corner of a square, as in the diagonal wave of data/scripts/lib/register_spells.lua:124-131,
  three of the four lie on the wrong side of the caster (`AreaCombats.AreaCombat.CornerFacesAway`). The
  south-eastern one is the north-western one with rows and columns exchanged, which leaves it on the same
  side; it is the opposite one exactly if the area is symmetric about the other diagonal
  (`AreaCombats.SouthEastFaces`).

## Model

| member | source | states |
|---|---|---|
| Forests.LoopNeverEnds | src/container.cpp:122-129 | a walk over parents that has come back to its start never reaches the end |
| Forests.LinkShapedExactly | src/container.cpp:289-297 | putting a free item into a container keeps parents and lists a forest exactly if the container is not inside the item; otherwise the walk from the item never ends |
| Forests.BumpSettles | src/container.cpp:122-129 | adding the difference on the way to the root makes every cached weight exact again that one container owed |
| Forests.PushFrontKeeps | src/container.cpp:459-479 | adding in front keeps the forest in shape and every container's cached weight and ammunition count exact |
| Forests.PushBackKeeps | src/container.cpp:481-491 | the same for adding at the end |
| Forests.ChangeKeeps | src/container.cpp:493-517 | changing the type or count of a member by the weight difference keeps all cached weights and counts exact |
| Forests.DropKeeps | src/container.cpp:547-585 | taking an item out keeps them exact and leaves the item without a parent |
| Forests.SwapKeeps | src/container.cpp:519-545 | putting one item in the place of another keeps them exact |
| Containers.Item.GetWeight | src/container.cpp:131-134 | the weight of a container is its own plus the cached total, in 32 bits |
| Containers.UpdateItemWeight | src/container.cpp:122-129 | the loop over the parents ends at a root and adds the difference to exactly the container and everything around it |
| Containers.QueryAdd | src/container.cpp:243-304 | which of the reasons to refuse an item applies, in the order of the code; an item never goes into itself |
| Containers.IsInside | src/container.cpp:289-297 | the walk over the parents finds an item exactly if it is around the container |
| Containers.GetThingIndex | src/container.cpp:587-597 | the position of the item in the list, or -1 |
| Containers.AddThing | src/container.cpp:454-479 | the item becomes the first of the list, its parent is set, and all books stay exact |
| Containers.InternalAddThing | src/container.cpp:678-694 | the same as loading uses it |
| Containers.AddItemBack | src/container.cpp:481-491 | the item becomes the last of the list, and all books stay exact |
| Containers.UpdateThing | src/container.cpp:493-517 | type and count change in place; the difference of the weights reaches every container around |
| Containers.ReplaceThing | src/container.cpp:519-545 | the new item takes the place of the old one, which loses its parent |
| Containers.RemoveThing | src/container.cpp:547-585 | part of a stack or the whole item leaves; the rest of the list keeps its order; all books stay exact |
| ContainerIteration.ContainerIterator.Current | src/container.cpp:713-716 | the item at the cursor of the first container of the queue |
| ContainerIteration.ContainerIterator.Advance | src/container.cpp:718-736 | exactly one item more has been visited, the queue holds the visited non-empty containers that have not been passed, and nothing has been visited twice |
| ContainerIteration.GetItems | src/container.cpp:628-641 | every item inside the container exactly once, and the list is the concatenation of the lists of the container and of its own members: breadth-first order |
| ContainerIteration.InsideIsListed | src/container.cpp:703-736 | every item whose parents lead to the container is in that list |
| ContainerIteration.GetItemHoldingCount | src/container.cpp:176-183 | the count is the number of items inside at any depth |
| ContainerIteration.IsHoldingItem | src/container.cpp:185-193 | true exactly for the items inside at any depth |
| StackAccounts.PushFrontHolds | src/container.cpp:459-479 | an addition raises what one container holds of one type, by the item's count, and nothing else |
| StackAccounts.ChangeHolds | src/container.cpp:493-517 | a change of count changes it by the difference |
| StackAccounts.DropHolds | src/container.cpp:547-585 | a removal lowers it by the item's count |
| ContainerQueries.QueryMaxCount | src/container.cpp:306-355 | free slots times 100 plus the room on equal partial stacks that may be joined, and whether that is enough |
| ContainerQueries.QueryRemove | src/container.cpp:357-383 | which reason not to give an item away applies |
| ContainerQueries.QueryDestination | src/container.cpp:385-452 | the container, the index and the stack to join: a member container, the first equal partial stack, or the item at the index |
| MoveVerdicts.DestinationMeans | src/container.cpp:385-452 | 254 is the container around, 255 and any index beyond the capacity are anywhere; a container at the index is gone into; a stack from elsewhere joins the equal partial stack at the index, else the first there is; anything else stays at the index |
| MoveTheory.MovedKeeps | src/game.cpp:1041-1239 | a move keeps the forest in shape, all weights exact, every stack within 1 to 100 and every container within its capacity |
| MoveTheory.MovedConserves | src/game.cpp:1041-1239 | for every container, type and attributes: the destination gains exactly the moved pieces, the source loses them, no other container changes |
| MoveTheory.MovedWeighs | src/game.cpp:1041-1239 | every container around the destination gains the weight of the pieces, every one around the source loses it; what surrounds both keeps its weight |
| MoveTheory.ArrivedHolds | src/game.cpp:1160-1188 | pieces that join a stack and the rest that is split off arrive completely |
| MoveEngine.ResolveDestination | src/game.cpp:1051-1064 | following `queryDestination` ends after at most one hop |
| MoveEngine.PlanIsSound | src/game.cpp:1066-1153 | when no check refuses, the pieces planned to move can leave the source and fit into the destination |
| MoveVerdicts.StackMovesIff | src/game.cpp:1066-1153 | a stack headed for an index moves exactly if the container takes its kind, min(count, 100 times the free slots plus what an equal stack at the index can take) pieces may leave, and no trade forbids it; just these pieces move; without any room the answer is that there is none |
| MoveVerdicts.StackMovesAnywhereIff | src/game.cpp:1066-1153 | a stack headed for no index moves exactly if there is a free slot as well, in as many pieces as asked for; of more than a hundred, a full stack moves only into the last slot with nothing there to join |
| MoveVerdicts.ItemMovesIff | src/game.cpp:1066-1153 | any other item moves exactly if the container takes its kind, there is a free slot, it may leave, and no trade forbids it |
| MoveVerdicts.MovedFills | src/game.cpp:1160-1188 | a move from another container fills up the stack it joins to at most 100; only the rest takes a slot, in front |
| MoveEngine.LiesIn | src/game.cpp:1140-1153 | the walk that looks for a traded item around the destination |
| MoveEngine.Join | src/game.cpp:1161-1170 | how many pieces go onto the stack at the destination |
| MoveEngine.AddClone | src/game.cpp:1172-1188 | the rest becomes a new stack in front |
| MoveEngine.Decide | src/game.cpp:1051-1153 | the checks one after the other: the first that refuses gives the result code, and none changes anything |
| MoveEngine.InternalMoveItem | src/game.cpp:1041-1239 | the result code is the first check that refuses; then nothing changed; otherwise exactly min(count, largest possible) of a stack, or the item, moved |
| MoveEngine.InternalRemoveItem | src/game.cpp:1335-1371 | refused or tested: nothing changes; otherwise exactly the count asked for is taken out |
| MoveEngine.RemovesExactly | src/game.cpp:1335-1371 | for every container and type: only the item's container loses, and only that count; the weight leaves everything around it |
| MoveVerdicts.RemovedIff | src/game.cpp:1335-1371 | an item is removed exactly if it is in a container in so many pieces; that it may not be moved does not matter |
| AddItem.AddedIffRoom | src/game.cpp:1248-1333 | a stack is added exactly if the container takes its kind and its count is at most 100 times the free slots plus the room on equal partial stacks, or, when it is not to join others, there is a free slot |
| AddItem.AddedIffSlot | src/game.cpp:1248-1333 | any other item is added exactly if the container takes its kind and has a free slot |
| ContainerQueries.AcceptsIsQuery | src/container.cpp:243-304 | which items a container takes, apart from room |
| AddItem.InternalAddItem | src/game.cpp:1248-1333 | a refusal or a test changes nothing; a success delivers every piece, takes a slot exactly if the equal partial stacks have no room for all of it, leaves no remainder, and the recursion ends |
| AddItem.AddRest | src/game.cpp:1290-1298 | the rest of a stack is accepted in turn, and first part and rest together are the whole |
| AddItem.RestAccepted | src/game.cpp:1290-1298 | when the whole stack had room, the rest has room after the first part was joined |
| Money.WalkFindsAll | src/game.cpp:1458-1496 | the two collecting loops find everything of worth at any depth, once for each time it is there |
| Money.Emplace | src/game.cpp:1455-1496 | the map of stacks stays sorted by worth; equal worths keep the order in which they came |
| Money.Purse.Collect | src/game.cpp:1453-1496 | the map lists exactly the stacks of coins, and the sum is the nested worth of the cylinder |
| Money.Purse.SplitStack | src/game.cpp:1507-1513 | the coins taken from the last stack are at most what it has and cover the amount; what they are worth beyond it is less than one of them; what is lost is the part of that change that no coin is small enough for |
| Money.Purse.TakeStacks | src/game.cpp:1502-1518 | the loop always ends in a break, having taken exactly the amount and the change, which is less than one coin of the last stack taken from; every stack before that one is gone |
| Money.Purse.RemoveMoney | src/game.cpp:1443-1520 | true exactly if the nested worth is at least the amount; false changes nothing; otherwise worth plus change drops by exactly the amount and what is lost: nothing with a coin of worth 1, else the part of the change for one coin that no coin is small enough for; stacks are taken from the cheapest on, equal ones in the order in which they are found; all but the last are gone, and what is taken beyond the amount is less than one coin of the last |
| Money.Purse.AddMoney | src/game.cpp:1522-1550 | stacks of 1 to 100 coins worth the amount, up to a rest that no coin is small enough for; the largest coins first: the smaller coins and the rest come to less than one of each larger |
| MoneyDelivery.GiveStack | src/game.cpp:1539-1546 | a stack of coins comes to the container or, if that refuses it, to the tile, and nothing else changes what containers hold |
| MoneyDelivery.AddMoney | src/game.cpp:1522-1550 | the worth of the coins in the container and on the tile grows by the amount, up to a rest that no coin is small enough for, the largest coins first; no other container and no other type is touched |
| Money.PaysAllIffUnitCoin | src/game.cpp:1522-1550 | every amount is paid in full if and only if there is a coin of worth 1 |
| Money.Split | src/game.cpp:1508-1511 | the ceiling never exceeds the stack, and gives back less than one coin |
| ItemRows.SaveItems | src/iologindata.cpp:659-726 | ids rise from 101; the rows are the items handed in and then what the containers hold, in the order of the containers: breadth-first; and the rows with a container's id as parent are its children in order |
| ItemRows.WriteTops | src/iologindata.cpp:668-692 | the first rows are the items handed in, numbered from 101, and their containers are queued |
| ItemRows.WriteKids | src/iologindata.cpp:697-722 | the items of a container get the next numbers, with its number as parent, and their containers are queued |
| ItemRows.Loader.LoadItems | src/iologindata.cpp:1047-1071 | an item for each row of a known type, under its id, with the data of `CreateItem`, which replaces some ids of items that are no containers; containers are empty |
| ItemRows.Loader.Rebuild | src/iologindata.cpp:476-531 | after the loop from the largest id down, each existing slot, depot chest and container holds the created rows with its number, in the order of the rows, and slot items are what their equip event makes of them; the others are lost |
| ItemRows.TreeComesBack | src/iologindata.cpp:476-501 | a saved item of a known type comes back as what it becomes: at every depth with its children in order, without those of unknown types, and with replaced ids |
| ItemRows.ForestComesBack | src/iologindata.cpp:476-531 | every slot and depot holds exactly what becomes of the items that were saved for it, in order: created anew and, in slots, turned by their equip event |
| ItemRows.RevivedIffUnaltered | src/item.cpp:41-90 | an item becomes itself exactly if everything in it is of a known type, is a container exactly if its type is one, and has no id that creation replaces |
| ItemRows.RestoredIffHasPlace | src/iologindata.cpp:476-531 | the loaded forest is the saved one exactly if every number handed in is one of a place that exists, no place that takes a single item is handed in twice, creation and the equip event together give back each item at the top, and creation alone each item below |
| ItemRows.WornRingComesBack | src/movement.cpp:739-742 | a worn sword ring in the ring slot is created as the ring that is not worn, and comes back exactly if the equip event turns that into the worn one |
| ItemRows.ChestlessIsLost | src/player.cpp:821-840 | a row with the number of a depot chest that does not exist is lost; saving hands in no such number, so that it comes from a server with more chests |
| ItemRows.SaveAndLoad | src/iologindata.cpp:476-531 | the same for the whole trip of saving, reading in descending order and rebuilding, and what every place holds after it |
| ItemRows.SaveAndLoadInventory | src/iologindata.cpp:476-501 | the inventory is restored exactly if every item has a slot number from 1 to 10, no slot comes twice, and creation and equip event alter no item |
| ItemRows.SaveAndLoadDepots | src/iologindata.cpp:503-531 | the depots are restored exactly if every item has the number of one of the existing chests, below 100, and creation alters no item |
| PropStreams.ValueOfLe | src/fileloader.h:147-150 | a number that fits its width is read as it was written |
| PropStreams.PropWriteStream.Write | src/fileloader.h:147-150 | the bytes of the value are appended, lowest first |
| PropStreams.PropWriteStream.WriteString | src/fileloader.h:152-162 | length and bytes are appended; a string over 65535 bytes becomes the empty one |
| PropStreams.PropStream.Read | src/fileloader.h:85-93 | a value is consumed, or the stream is too short and stays where it is |
| PropStreams.PropStream.ReadBytes | src/fileloader.h:95-112 | bytes are consumed, or the stream stays where it is |
| HouseItems.SaveItem | src/iomapserialize.cpp:217-235 | the bytes of an item: id, attributes, number and bytes of its children, last child first, end marker |
| HouseItems.UnserializeAttr | src/item.cpp:761-773 | attributes are read up to the end marker, the number of children, or the end of the bytes |
| HouseItems.LoadItem | src/iomapserialize.cpp:134-165 | an item is read and put in front of what its parent, a container, holds; unknown types are passed over; what a new item has of itself stays where nothing was read |
| HouseItems.LoadOnTile | src/iomapserialize.cpp:134-165 | an item is read for a tile, and the decay of it, or of everything in it, is started |
| HouseItems.LoadContainer | src/iomapserialize.cpp:116-132 | as many children as announced are read, then the end marker |
| HouseItems.LoadInvertsSave | src/iomapserialize.cpp:116-235 | loading the saved bytes gives the item back, nested to any depth and with its children in order, as reading makes it, and consumes exactly these bytes |
| HouseItems.NormalIffLossless | src/item.cpp:462-482 | before any decay is started, nothing differs exactly if no id in the item is one that creation replaces, no entry of a new item is missing, no decay is in progress, no duration is negative and no text exceeds 65535 bytes |
| HouseItems.NothingStarts | src/item.cpp:2211-2227 | an item of a type without decay, with a unique id, or that would turn into nothing that there is, does not start to decay |
| HouseItems.StartedIffLossless | src/game.cpp:4462-4480 | on a tile, nothing differs exactly if besides ids, entries, durations and texts every item that can decay is decaying and has time left, and nothing else, a container included, is decaying |
| HouseItems.BackOnTile | src/iomapserialize.cpp:134-235 | the same for the whole trip of saving and loading on a tile |
| ConditionRecords.SaveConditions | src/iologindata.cpp:745-752 | the persistent conditions, each with its tagged values and an end marker |
| ConditionRecords.Serialize | src/condition.cpp:143-162 | the head in the order that creation expects, then the values of the class |
| ConditionRecords.CreateCondition | src/condition.cpp:242-300 | the six tagged values in order and the class of the type, or nothing; damage starts without ticks |
| ConditionRecords.Unserialize | src/condition.cpp:73-82 | values are put in one by one up to the end marker; an unknown tag or a missing value breaks the record |
| ConditionRecords.LoadConditions | src/iologindata.cpp:337-345 | every complete record goes to the front of the list, a broken one is dropped |
| ConditionRecords.RecordBack | src/condition.cpp:73-162 | a record is read back as its condition and exactly its bytes are consumed |
| ConditionRecords.AttributesBack | src/condition.cpp:413-448 | skills, stats and special skills come back at their places |
| ConditionRecords.DamageBack | src/condition.cpp:1173-1216 | the rounds come back in order, and the ticks are what they last together |
| ConditionRecords.SpeedBack | src/condition.cpp:1557-1591 | the speed difference and the formula come back |
| ConditionRecords.LightBack | src/condition.cpp:1829-1873 | colour, level and intervals come back |
| ConditionRecords.RegenerationBack | src/condition.cpp:860-889 | the four numbers of a regeneration come back |
| ConditionRecords.SoulBack | src/condition.cpp:1022-1041 | the two numbers of a soul condition come back |
| ConditionRecords.LoadInvertsSave | src/iologindata.cpp:337-345 | loading what was saved gives exactly the persistent conditions, in reversed order, for any list |
| ConditionRecords.ComesBackUnchanged | src/condition.cpp:1173-1216 | a condition comes back as it was exactly if it is no damage or lasts as long as its rounds together |
| NodeFiles.Loader.Load | src/fileloader.cpp:29-50 | a file that is too short or has another identifier is refused, any other is parsed |
| NodeFiles.Loader.ParseTree | src/fileloader.cpp:52-104 | the loop over the bytes with its stack of open nodes |
| NodeFiles.Loader.GetProps | src/fileloader.cpp:106-121 | false for empty properties; otherwise the bytes without the escapes that are not themselves escaped |
| NodeFiles.LoadInvertsEncode | src/fileloader.cpp:29-104 | the encoding of any tree parses to that tree, children in order and properties byte for byte; only the empty root node is refused |
| NodeFiles.UnescapeInvertsEscape | src/fileloader.cpp:106-121 | escaping and reading back is the identity on every byte content |
| NodeFiles.LoadedInOrder | src/fileloader.cpp:52-104 | whatever the bytes, loading fails or gives a tree whose property ranges are in bounds, in order and disjoint |
| Base32.DecodeSecret | src/iologindata.cpp:94-121 | empty for a character outside the alphabet; otherwise the floor(5n/8) whole bytes of the 5n bits, in order, although the 32-bit buffer is never masked |
| Base32.Pushed | src/iologindata.cpp:100-117 | what falls off the top of the buffer is never needed again |
| Base32.DecodeInvertsEncode | src/iologindata.cpp:94-121 | decoding the unpadded encoding of section 6 of RFC 4648 gives back every byte string and nothing else |
| Base32.DecodesOne | src/iologindata.cpp:94-121 | the key is determined by the string, and at most seven bits of it are lost |
| DecayWheel.Game.StartDecay | src/game.cpp:4462-4480 | an item with a duration waits for the wheel, any other decays at once |
| DecayWheel.Game.Cleanup | src/game.cpp:4609-4617 | the waiting items enter the buckets that their durations choose |
| DecayWheel.Game.CheckDecay | src/game.cpp:4496-4538 | visiting the next bucket in place, with erasures and moves to other buckets, does to all four buckets what the verdict on each item says |
| DecayTiming.NextTidy | src/game.cpp:4496-4538 | in every run no item is ever in two buckets, twice in one, or in one and waiting |
| DecayTiming.OneCall | src/game.cpp:4496-4538 | one call brings an undisturbed item one call nearer to its decay, wherever it is, and lets it decay exactly when it was one call away |
| DecayTiming.DecaysOnTime | src/game.cpp:4496-4538 | in every run an undisturbed item decays at exactly the call that its place and duration say, whatever other items do |
| DecayTiming.DecaysAfterExactly | src/game.cpp:4496-4617 | an item of duration D decays at call 1 if D < 1000, else at call 4*(D/1000), one later if D % 1000 >= 875 |
| DecayTiming.OnTheClock | src/game.h:68-69 | counted in calls of 250 ms it decays less than 875 ms early, and late exactly if D is less than 250 |
| WalkCache.Creature.UpdateTileCache | src/creature.cpp:349-364 | one cell is recomputed if its offset lies in the cache |
| WalkCache.Creature.UpdateMapCache | src/creature.cpp:333-347 | every cell is recomputed |
| WalkCache.Creature.OnOwnMove | src/creature.cpp:540-621 | the rows and columns shifted in place are those of the old cache, the new edge is recomputed, and after any step but a southward diagonal the cache agrees with a full recomputation |
| WalkCache.Creature.OnOtherMove | src/creature.cpp:622-634 | a move of another creature keeps the agreement |
| WalkCache.StepKeepsAgreement | src/creature.cpp:545-619 | shifting and patching equals recomputing every cell but the centre, for north, south, east, west, north-east and north-west |
| WalkCache.SouthDiagonalBreaks | src/creature.cpp:545-619 | for both southward diagonals some ground shows a wrong cell |
| WalkCache.RightUnlessSouthDiagonal | src/creature.cpp:545-619 | a step is right on all grounds exactly if it is no southward diagonal |
| ConditionLedger.PercentMeans | src/condition.cpp:468-518 | a percentage adds what is missing to that part of the base value, up to less than one: nothing at 100, and with the sign of the difference |
| ConditionLedger.PercentMonotone | src/condition.cpp:468-518 | a greater percentage of a base value gives no smaller bonus |
| ConditionLedger.Creature.constructor | src/creature.h:205-215 | a creature without conditions has its free speed |
| ConditionLedger.Creature.ChangeSpeed | src/game.cpp:3618-3623 | the speed difference of the creature changes by the given amount |
| ConditionLedger.Creature.AddBonuses | src/condition.cpp:491-541 | every bonus slot changes by its amount, with the sign given |
| ConditionLedger.Creature.StartCondition | src/condition.cpp:450-541 | a started condition is booked with what it then says of itself |
| ConditionLedger.Creature.EndCondition | src/condition.cpp:548-590 | exactly what a condition says of itself is taken back |
| ConditionLedger.Creature.Refresh | src/condition.cpp:387-411 | refreshing books the difference between the merged condition and the old one, and nothing if the old one stands |
| ConditionLedger.Creature.HasCondition | src/creature.cpp:1413-1430 | whether a condition of a type is active and not suppressed |
| ConditionLedger.Creature.AddCondition | src/creature.cpp:1238-1267 | put off exactly for an unforced haste while a paralysed creature is walking; otherwise merged with the one of the same key, or appended, and then what it drives out goes; speed and every bonus equal their free parts plus the sum over the list |
| ConditionLedger.Creature.OnAddCondition | src/creature.cpp:1107-1114 | an added paralysis drives out hastes and an added haste paralyses, if one is active and not suppressed; a paralysis that may not end yet stops that; the books balance |
| ConditionLedger.Creature.RemoveCondition | src/creature.cpp:1282-1334 | exactly the matching conditions are gone, or those before the first paralysis that is found while the walk delay, at the speed of that moment, is not over; the books balance |
| ConditionLedger.HaltIsFirst | src/creature.cpp:1282-1307 | the removal stops at the first matching paralysis at whose turn the creature is still walking, and nowhere otherwise |
| ConditionLedger.Creature.RemoveOne | src/creature.cpp:1350-1370 | one condition is gone unless it is a paralysis that may not end yet; the books balance |
| ConditionLedger.Creature.ExecuteConditions | src/creature.cpp:1392-1411 | exactly the conditions whose time is not over stay, aged, in their order, although the list is edited while it is walked; the books balance |
| ConditionLedger.TickedKeeps | src/creature.cpp:1392-1411 | who stays after a tick, and that no key appears twice |
| ConditionLedger.Run | src/creature.cpp:1107-1411 | in every run of adding, refreshing, driving out, removing as far as a paralysis allows, removing one and expiring there is at most one condition per type, id and sub-id |
| ConditionLedger.DrivesOutMeans | src/creature.cpp:1107-1114 | an addition drives conditions of a type out exactly if the creature reacts, the new condition is of the opposite type and new to the list, and one of that type with sub-id 0 is not over and not suppressed |
| ConditionLedger.ParalysisEndsHaste | src/creature.cpp:1107-1114 | an added paralysis ends a haste exactly if the creature reacts, the paralysis is new and some haste is active and not suppressed; then no haste is left |
| ConditionLedger.HasteEndsParalysis | src/creature.cpp:1107-1114 | a haste that drives paralyses out leaves none exactly if none of them may not end yet at its turn |
| ConditionLedger.LastsUntilItsEnd | src/creature.cpp:1107-1411 | in every run a timed condition that is left alone (not added again, removed or driven out) is there exactly if no tick came after its end time |
| ConditionLedger.AddSetsEnd | src/condition.cpp:302-343 | a condition added for some ticks at a time ends then; added to one of its key, a speed ends when the new one would, any other at the later of both ends; one without end stays without |
| ConditionLedger.AddSetsSpeed | src/condition.cpp:1598-1652 | a speed that is added has its own amount, or the one rolled for it, unless one without end stays |
| ConditionLedger.AddSetsBonus | src/condition.cpp:387-478 | bonuses that are added are those that their percentages amount to for a player, and the fixed ones for any other creature |
| ConditionLedger.LastsFromAdd | src/creature.cpp:1238-1411 | in every run a condition that is added for some ticks, and then left alone, is there exactly if no tick came after the end that this gives it |
| ConditionLedger.PermanentStays | src/creature.cpp:1392-1411 | in every run a condition without end that is left alone is there |
| ConditionLedger.TicksCountDown | src/condition.cpp:167-176 | in every run the ticks of a condition that is left alone are what the intervals have left of them |
| DamageList.CloserMeans | src/condition.cpp:1515-1517 | the comparison of relative errors holds exactly if the middle of the next round is below the target |
| DamageList.RepeatLeavesRoom | src/condition.cpp:1501-1519 | a round that is repeated leaves room under the amount for one round of every smaller value |
| DamageList.GenerateDamageList | src/condition.cpp:1501-1519 | the list ends, never rises, has every value from 1 to start, each as often as brings the sum so far nearest to its target, and sums to exactly the amount, or to the sum of 1 to start if that is more |
| DamageList.TargetsFixList | src/condition.cpp:1507-1518 | no other list falls from start to 1 and meets all targets |
| AreaMatrices.AssignSlice | src/combat.cpp:1324-1368 | one strided slice is assigned to another and everything else stays |
| AreaMatrices.Rotate90 | src/combat.cpp:1346-1353 | for all sizes: the cell in row r and column c is the one in row rows-1-c and column r; the centre moves with its cell |
| AreaMatrices.ReversedIsHalf | src/combat.cpp:1355-1359 | the array read backwards is the area turned by 180 degrees |
| AreaMatrices.Rotate270 | src/combat.cpp:1361-1368 | the cell in row r and column c is the one in row c and column cols-1-r; the centre moves with its cell |
| AreaMatrices.Flip | src/combat.cpp:1324-1331 | the rows are upside down |
| AreaMatrices.Mirror | src/combat.cpp:1333-1340 | what the slices with the rows as their stride read, for areas that are not wider than high |
| AreaMatrices.MirrorStaysInside | src/combat.cpp:1333-1340 | the slices stay inside the array exactly if there are not more columns than rows |
| AreaMatrices.MirrorOfSquare | src/combat.cpp:1333-1340 | on a square area that is the mirror image |
| AreaMatrices.MirrorNeedsSquare | src/combat.cpp:1333-1340 | the mirror image of a full area is right exactly if the area is a square |
| AreaMatrices.TransposeOfSquare | src/combat.cpp:1342-1344 | rows and columns are exchanged exactly if the area is a square |
| AreaMatrices.TransposeTwice | src/combat.cpp:1342-1344 | twice is the identity |
| AreaMatrices.QuarterTwice | src/combat.cpp:1346-1359 | two turns by 90 degrees are one by 180, cells and centre |
| AreaMatrices.QuarterAndBack | src/combat.cpp:1346-1368 | turns by 90 and 270 degrees undo each other |
| AreaMatrices.FlipAfterMirror | src/combat.cpp:1324-1359 | on a square area flipping the mirror image turns the cells by 180 degrees |
| AreaMatrices.QuarterHits | src/combat.cpp:1346-1353 | seen from the centre the cells turn by 90 degrees |
| AreaMatrices.HalfHits | src/combat.cpp:1355-1359 | seen from the centre they turn by 180 degrees |
| AreaMatrices.ThreeQuartersHits | src/combat.cpp:1361-1368 | seen from the centre they turn by 270 degrees |
| AreaMatrices.TransposedHits | src/combat.cpp:1342-1344 | seen from the centre the offsets are exchanged |
| AreaMatrices.CentreOfFlip | src/combat.cpp:1324-1331 | for all areas of a size and centre, `flip` reflects what is hit as seen from the centre exactly if the centre is in the very middle |
| AreaMatrices.FlipMovesCentre | src/combat.cpp:1324-1331 | with the centre anywhere else, the area that hits only its centre misses it after `flip` |
| AreaMatrices.CentreOfMirror | src/combat.cpp:1333-1340 | the same for `mirror` on squares |
| AreaMatrices.MirrorMovesCentre | src/combat.cpp:1333-1340 | with the centre of a square anywhere else, the area that hits only its centre misses it after `mirror` |
| AreaMatrices.FlipHits | src/combat.cpp:1324-1331 | for any centre: seen from it the cells are reflected and shifted by twice as much as it is off the middle |
| AreaMatrices.MirrorHits | src/combat.cpp:1333-1340 | the same for `mirror` on squares |
| AreaMatrices.ReflectedHits | src/combat.cpp:1324-1340 | with the centre in the middle the cells are reflected as seen from it |
| AreaMatrices.TurnsKeepCount | src/combat.cpp:1346-1368 | every turn keeps the number of cells that are set |
| AreaCombats.CreateArea | src/combat.cpp:36-67 | the cells are the numbers 1 and 3 row by row, and the centre is the last 2 or 3 |
| AreaCombats.AreaCombat.SetupArea | src/combat.cpp:1405-1416 | the four areas are the given one and its turns |
| AreaCombats.SameInAllDirections | src/combat.cpp:1405-1416 | whichever way a spell is cast, the same cells are hit as seen by the caster |
| AreaCombats.AreaCombat.FacesTarget | src/combat.cpp:1370-1403 | without diagonal areas, and for targets straight ahead, the area taken faces the target, and hits ahead and to the right of that direction what the northern area hits |
| AreaCombats.AreaCombat.FacesDiagonally | src/combat.cpp:1370-1403 | for squares with any centre: what the areas for the four diagonal directions hit, in terms of the north-western one |
| AreaCombats.AreaCombat.CornerFacesAway | src/combat.cpp:1370-1403 | with the centre in the corner the area for the north-east lies to the south-west, the one for the south-west to the north-east, and the one for the south-east to the north-west |
| AreaCombats.SouthEastFaces | src/combat.cpp:1523-1536 | the south-eastern area is opposite to the north-western one exactly if that is symmetric about the line from south-west to north-east; one that lies wholly to the north-west stays there |
| AreaCombats.WaveList | src/combat.cpp:1418-1448 | the numbers of a wave, row by row |
| AreaCombats.WaveHits | src/combat.cpp:1418-1451 | a wave hits in each row ahead exactly the cells within its reach on both sides |
| AreaCombats.AreaCombat.SetupWave | src/combat.cpp:1418-1451 | the same for the areas that are set up |
| AreaCombats.AreaCombat.SetupExtArea | src/combat.cpp:1523-1536 | the four diagonal areas, cells and centres, with the straight ones kept; an empty list changes nothing |
| TaskQueue.StartKeeps | src/databasetasks.cpp:27-31 | the invariants hold when the worker starts |
| TaskQueue.KeepsBooks | src/databasetasks.cpp:33-95 | every step of every thread keeps the lock exclusive and the tasks in order and accounted for |
| TaskQueue.AddsExactly | src/databasetasks.cpp:57-66 | `addTask` holding the lock puts exactly one task with its query at the end of the queue while the state is running, and none otherwise; it will notify the worker exactly if that queue was empty |
| TaskQueue.KeepsNothingMissed | src/databasetasks.cpp:33-66 | the worker is never parked over a queue with tasks unless a notification is outstanding |
| TaskQueue.KeepsDrained | src/databasetasks.cpp:85-104 | once `shutdown` has set the state nothing more is accepted, and some thread is draining what is left |
| TaskQueue.InvHolds | src/databasetasks.cpp:33-104 | all of this in every state of every interleaving, for any number of callers |
| TaskQueue.NeverTwice | src/databasetasks.cpp:33-95 | no task runs twice or is in two hands, none runs that was not accepted, and tasks leave the queue in the order in which they were accepted |
| TaskQueue.StepDescends | src/databasetasks.cpp:33-104 | every step of a thread uses up a measure |
| TaskQueue.RunsEnd | src/databasetasks.cpp:33-104 | without new calls and spurious wake-ups every interleaving comes to rest after at most so many steps |
| TaskQueue.NothingLeft | src/databasetasks.cpp:33-104 | when it has, the queue is empty and every task ever accepted has run exactly once |
| TaskQueue.CallsAccounted | src/databasetasks.cpp:33-104 | in every run each call of `addTask` has been accepted as one task, was refused because the state was not running, or has not come to its check |
| TaskQueue.EveryCallRuns | src/databasetasks.cpp:33-104 | at rest every query handed in has run as often as it was handed in, less the refused ones; without `stop` and `shutdown` none is refused |

## Left out

- Tile, Player, Inbox and house cylinders: items are moved and added between free-standing containers, so notifications, the autoclosing of containers and house limits do not occur.
- Moves and additions with the unlimited flag, and the query on behalf of a child: `addThing` drops an item whose index is beyond the capacity, so that nothing is conserved there.
- Item subtypes other than the count (charges, fluids), decay and attribute pruning when an item changes its id, and a clone's copy of a container's content.
- The notifications, scripts, messages and spectators of every operation; scripts are taken to allow everything.
- Containers.QueryAdd: top cylinders that refuse items of their own, such as an inbox, are not asked.
- Containers.UpdateThing: the subtype is the count, and attributes are not pruned when the type changes.
- Containers.ReplaceThing: the replaced item loses its parent before the weight is passed up rather than after; neither reads the other.
- ContainerQueries.QueryRemove: the query of a house tile around the container is not asked.
- MoveEngine.InternalRemoveItem: `canRemove` always allows the removal.
- AddItem.InternalAddItem: only the index "anywhere", and not with the unlimited flag; the mark of a decaying item is not set.
- MoveEngine.InternalMoveItem: the branch that exchanges two items, which no container's query asks for; and that items with a duration are marked as decaying when they have moved, been added or been cloned, which makes their attributes differ.
- MoveEngine.Decide: not with the unlimited flag, like the moves themselves.
- Money.Purse.AddMoney: collects the coins in a list of their own; `MoneyDelivery.AddMoney` places them in a container and on its tile, which takes every coin.
- Money.Purse.RemoveMoney: lists the change like `AddMoney`, and the placing of it is proved on its own in `MoneyDelivery.AddMoney`; takes the worth of a stack below 2^32 and the sum as unbounded, where the code adds in 64 bits; every item with coins can be removed.
- ItemRows.SaveItems: the database rows are a list; attributes are one opaque value, and rewards are not saved.
- ItemRows.Loader.Rebuild: what an equip event makes of the data of an item is a parameter, and a container keeps its content in it.
- ItemRows.Loader.LoadItems: a deprecated type counts as unknown; that a saved charge of 0 becomes the charges of the type, and what reading the attributes changes, is not followed.
- ItemRows.SaveAndLoadDepots: the inbox and the supply stash, which take all numbers below 100 into one list, are not followed.
- HouseItems.UnserializeAttr: the entries for reflection, boosts and custom attributes end the block with an error.
- HouseItems.LoadItem: the branch for items that are fixed on a tile, the place of an item among those on its tile, and unique ids that are in use already.
- HouseItems.LoadOnTile: what an item turns into that decays at once is a parameter, and that this changes the list of a container while it is walked is not followed.
- ConditionRecords.CreateCondition: outfits, drunkenness, invisibility and spell cooldowns count as unknown types.
- ConditionRecords.LoadConditions: outfits, drunkenness, invisibility and spell cooldowns are no types of the model, and a record with more skills than there are, which writes past the array, counts as broken.
- ConditionRecords.DamageBack: the ticks are added without a bound, where the code adds in 32 bits.
- DecayWheel.Game.CheckDecay: what a decayed item turns into, and items taken off the wheel early.
- WalkCache.Creature.OnOwnMove: one floor; a change of floor is a full recomputation like a teleport, and tiles that change without a move are not followed.
- ConditionLedger.Creature.AddCondition: conditions of other kinds (damage, regeneration, light, outfit and so on) have their own merging and ticking; disabled defence is not booked; percentages are taken of given numbers without float rounding, and that no call overflows is taken for granted.
- ConditionLedger.Creature.RemoveCondition: the scheduled second attempt is not followed; in runs it is a removal of its own.
- DamageList.GenerateDamageList: the relative errors are compared as exact numbers, not as floats, and n * amount is not bounded to 32 bits.
- AreaMatrices.Mirror: requires an area that is not wider than high, because the code leaves its array otherwise.
- AreaMatrices.TransposeTwice: for squares only; any other area keeps its rows and columns while its cells are renumbered.
- AreaCombats.CreateArea: requires a list that fills its rows, because the code writes past its array otherwise.
- AreaCombats.AreaCombat.SetupExtArea: requires a list that is not wider than high, because `mirror` leaves its array otherwise.
- AreaCombats.AreaCombat.FacesDiagonally: only for squares; the cells of other diagonal areas are renumbered.
- AreaCombats.AreaCombat.SetupWave: lengths and spreads are not negative; the fixed tables for circles and rings are not copied.
- TaskQueue.NothingLeft: says nothing about the worker thread itself at shutdown, which can park after the last notification.
- Combat damage, chat, houses, bans, the map, sockets and the database are not part of this model.
