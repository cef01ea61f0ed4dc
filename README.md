# Sixteen data-structure programs, modelled and verified in Dafny

The repository is a collection of sixteen independent C programs. Each is a
textbook data structure or a small simulation behind a text menu. This
project models the in-memory core of every program, one Dafny module per C
file, and proves the properties those cores promise.

- **Reservation counter** (`reservation_counter.dfy`). A ticket-booking
  engine with four pieces:
  - a waiting line of at most 200 reservations, ordered by priority class;
  - fifteen service counters, some specialised by reservation type;
  - dispatch of a suitable reservation to a counter;
  - confirm and cancel, which keep the running totals.
- **Token system** (`token_system.dfy`). A bank or hospital token queue:
  - Emergency tokens jump the line;
  - up to ten counters call a token, serve it and complete it;
  - a counter can be switched on and off.
- **Undo/redo editor** (`undo_operation.dfy`). Edits are recorded on a
  bounded undo stack, undo moves a record to the redo stack, and redo
  re-applies a record.
- **Function call stack** (`function_call_stack.dfy`). Frames carry a fresh
  id. Parameters and local variables are looked up newest first.
- **Device manager** (`device_nodes.dfy`). A priority-ordered device list
  that counts its ACTIVE devices.
- **Memory stack** (`memory_management.dfy`). Blocks are allocated and freed
  from the top within 1000 bytes, and the peak usage is tracked.
- **Bracket checker** (`balanced_parentheses.dfy`). Bracket balance,
  nesting depth and the first error, plus a round-bracket-only check and a
  validator for arithmetic expressions.
- **Directory history** (`directory_history.dfy`). A most-recently-used list
  with back/forward navigation and a ranking by visit count.
- **Car database** (`car_tree.dfy`). A binary search tree of cars keyed by
  name.
- **Maze solver** (`maze_solver.dfy`). A depth-first search with an explicit
  stack.
- **Treasure hunt** (`scavenger_hunt.dfy`). Players follow a route of
  locations, each gated by an item.
- **Hash table** (`hash_table.dfy`). Ten buckets with separate chaining.
- **String reversals** (`string_reversal.dfy`). Several reversals over a
  bounded character stack, and a palindrome test.
- **Josephus game** (`elimination_game.dfy`). Players are eliminated round by
  round from a circle until one is left.
- **Congo line** (`congo_line.dfy`). A singly linked line of dancers.
- **Audio playlist** (`audio_playlist.dfy`). A doubly linked playlist whose
  navigation wraps round at the ends.

Each module follows the C program's own shape:

- A C structure that the program updates in place is a Dafny `class`.
- Its linked lists become `seq` fields. Its fixed arrays (the counter tables,
  the hash buckets, the maze grid) stay `array`s.
- Each class method states its new state as a pure step function of the old
  one. The invariant the program relies on is proved of those step functions
  as lemmas. The lemmas also cover the relations between operations: round
  trips, "nothing else changes", refusals that change nothing, and ordering.
- Pure code (the bracket matchers, the tree searches, the string
  specifications) is written as functions.
- Loops stay loops, proved against those functions.

Other modelling choices:

- Strings are `seq<char>` without the terminating NUL, and are assumed to be
  ASCII.
- Money is kept in integer cents.
- Null references are `Option` values (module `Common`).

The reservation wait estimate is modelled in exact integer arithmetic. The
C code scales by `0.2f`, `0.5f` and `0.7f` and then truncates. The base
value is at most 800 (four minutes for each of at most 200 entries). In that
range, single-precision rounding moves each product by less than half a unit
in the last place, so the truncated result is the same.

## Model

| member | source | states |
|---|---|---|
| AudioPlaylist.IndexOfTitle | audio_playlist.c:71-75 | the removal walk stops at the first song with the title, or past the tail when there is none |
| AudioPlaylist.FindTitle | audio_playlist.c:71-101 | the walk from the head finds exactly the first song with the title |
| AudioPlaylist.AddedKeepsPlaying | audio_playlist.c:50-66 | adding keeps the count equal to the list length; the first song added to an empty playlist starts playing, otherwise the playing song keeps playing |
| AudioPlaylist.RemovedKeepsInv | audio_playlist.c:70-102 | removing by title takes out exactly that one song (multiset), keeps the count and the playing position valid, and changes nothing for an unknown title |
| AudioPlaylist.RemovedPlaying | audio_playlist.c:88-91 | removing a song that is not playing leaves the same song playing; removing the playing song hands over to its successor, or to the head when it was the tail |
| AudioPlaylist.AddThenRemove | audio_playlist.c:50-102 | adding a song with a new title and removing it by title gives back the playlist as it was |
| AudioPlaylist.NextThenPrevious | audio_playlist.c:132-165 | play previous undoes play next and play next undoes play previous, including the wrap-around at both ends |
| AudioPlaylist.NextedTimesWalks | audio_playlist.c:141-142 | play next moves one song towards the tail at a time until the tail |
| AudioPlaylist.FullCircle | audio_playlist.c:141-146 | pressing play next once per song comes back to the song that was playing |
| AudioPlaylist.NoneStays | audio_playlist.c:133-136 | with nothing playing, play next changes nothing however often it is pressed |
| AudioPlaylist.AudioPlaylist.constructor | audio_playlist.c:29-36 | a new playlist is empty with nothing playing |
| AudioPlaylist.AudioPlaylist.AddSong | audio_playlist.c:50-67 | the song is linked at the tail, the count grows by one, and it plays if the playlist was empty |
| AudioPlaylist.AudioPlaylist.RemoveSong | audio_playlist.c:70-102 | the first song with the title is unlinked, the count drops by one and the playing song is handed over as the source does |
| AudioPlaylist.AudioPlaylist.PlayNext | audio_playlist.c:132-147 | the next song plays, or the head after the tail; nothing happens on an empty playlist |
| AudioPlaylist.AudioPlaylist.PlayPrevious | audio_playlist.c:150-165 | the previous song plays, or the tail before the head; nothing happens on an empty playlist |
| CongoLine.LastOf | congo_line.c:47-55 | the tail is absent exactly when the line is empty, and is otherwise a member of the line |
| CongoLine.IndexOfId | congo_line.c:72-75 | the search stops at the first person with the id, or past the tail |
| CongoLine.FindId | congo_line.c:69-75 | the walk from the head stops at the first person with the id |
| CongoLine.FindPosition | congo_line.c:220-233 | the 1-based position of the first person with the id, or -1 exactly when nobody has it |
| CongoLine.PairFrom | congo_line.c:158-188 | the first place, from a given one on, where the two ids stand next to each other in either order |
| CongoLine.FindPair | congo_line.c:154-188 | the walk finds exactly the first adjacent pair of the two ids |
| CongoLine.SwapAt | congo_line.c:162-174 | the two people at k and k + 1 trade places and everyone else stays |
| CongoLine.IndexOfIdAppend | congo_line.c:44-59 | joining at the tail does not change where an id already in the line is found |
| CongoLine.JoinedPosition | congo_line.c:44-59 | joining keeps the count right, makes the newcomer the tail, and puts them at the last position unless their id was already in the line |
| CongoLine.JoinThenLeave | congo_line.c:44-106 | a person with a new id who joins and then leaves leaves the line as it was |
| CongoLine.LeftRemovesOne | congo_line.c:63-106 | leaving takes out exactly the first person with the id (multiset) and keeps the count right; an unknown id changes nothing |
| CongoLine.MovedToFrontLeads | congo_line.c:109-145 | the person moved to the front is the leader at position 1, and the line holds the same people |
| CongoLine.MoveThenLeave | congo_line.c:109-145 | moving someone to the front and then letting them leave is the same as letting them leave |
| CongoLine.SwappedPermutes | congo_line.c:148-191 | a swap keeps the same people and the count, and changes the line only when the two ids stand next to each other |
| CongoLine.SwapUndone | congo_line.c:148-191 | swapping the same two people again undoes the swap, when no earlier adjacent pair appeared |
| CongoLine.CongoLine.constructor | congo_line.c:26-32 | a new line is empty, with no tail |
| CongoLine.CongoLine.JoinLine | congo_line.c:44-60 | the newcomer joins at the tail, which is updated, and the count grows |
| CongoLine.CongoLine.LeaveLine | congo_line.c:63-106 | the first person with the id is unlinked, the tail follows when they were the tail, and the count drops |
| CongoLine.CongoLine.MoveToFront | congo_line.c:109-145 | the person becomes the leader, the others keep their order and the tail follows when they were the tail |
| CongoLine.CongoLine.SwapAdjacent | congo_line.c:148-191 | the first adjacent pair of the two ids trades places, and the tail follows when the pair was at the end |
| CongoLine.CongoLine.PositionOf | congo_line.c:220-233 | the position query on the line: 1-based position of the id, or -1 |
| EliminationGame.Flags | elimination_game.c:117-121 | the active flags of the circle, one per player in circle order from the head |
| EliminationGame.ActAt | elimination_game.c:117-121 | the j-th active position holds an active player with exactly j active players before it |
| EliminationGame.RankAct | elimination_game.c:117-121 | every active player appears among the active positions at its rank |
| EliminationGame.ActClear | elimination_game.c:127-128 | clearing one active flag removes exactly that player from the active positions and lowers the count by one |
| EliminationGame.AllActiveAt | elimination_game.c:215-225 | with every flag set, everyone is active and the j-th active player is the j-th player |
| EliminationGame.Next | elimination_game.c:117-123 | the next active player after a position, going round the circle, is an active player |
| EliminationGame.NextIsAhead | elimination_game.c:117-123 | the next active player is the first active one after c before the end of the circle, when there is one |
| EliminationGame.NextIsWrapped | elimination_game.c:117-123 | with no active player after c, the walk wraps round to the first active player from the head |
| EliminationGame.NextIs | elimination_game.c:117-123 | the first active player met d steps round from c is the next active player |
| EliminationGame.NoneActive | elimination_game.c:119-121 | a full turn of the circle that meets no active player means nobody is active, so the walk needs an active player to stop |
| EliminationGame.NextActive | elimination_game.c:117-123 | the walk from the player after c returns the next active player |
| EliminationGame.CountOff | elimination_game.c:153-158 | counting k players from the current one (counted as the first) lands on the player k - 1 active steps on |
| EliminationGame.NextOnActive | elimination_game.c:117-123 | seen on the active players, the next active player after the j-th is the (j + 1)-th, cyclically |
| EliminationGame.AdvanceOnActive | elimination_game.c:153-158 | s steps from the q-th active player reach the (q + s)-th, cyclically |
| EliminationGame.AddKeepsInv | elimination_game.c:52-75 | adding a player keeps both counters equal to the circle and the current player active |
| EliminationGame.Victim | elimination_game.c:153-160 | the player eliminated in a round is an active member of the circle |
| EliminationGame.ClearedFlags | elimination_game.c:127 | eliminating a player clears exactly that player's flag |
| EliminationGame.EliminateKeepsInv | elimination_game.c:141-162 | a round keeps the counters right and the turn on an active player, removes one active player and advances the round when at least two are active |
| EliminationGame.RestartKeepsInv | elimination_game.c:215-228 | a reset makes every player active again, with the counters matching and the head current |
| EliminationGame.SurvivorAt | elimination_game.c:164-177 | the last one left in the abstract game on a row of players is a member of the row |
| EliminationGame.Josephus | elimination_game.c:164-177 | the Josephus position for n players is one of them |
| EliminationGame.CyclicAfterRemoval | elimination_game.c:127-136 | counting on from the removed player in the shortened circle lands on the same player as counting one further in the full circle |
| EliminationGame.RoundArithmetic | elimination_game.c:141-162 | the position arithmetic of one round: the elimination index followed by the next count lands where the Josephus recurrence says |
| EliminationGame.SurvivorIsJosephus | elimination_game.c:164-177 | the survivor of the abstract game sits Josephus(m, k) places after the starting player |
| EliminationGame.VictimAt | elimination_game.c:153-160 | the victim is the active player k - 1 places after the current one, cyclically |
| EliminationGame.NextAfterCleared | elimination_game.c:133-136 | after eliminating x, the next active player is the one that followed x among the active players |
| EliminationGame.EliminatedView | elimination_game.c:141-162 | one elimination on the circle is one step of the abstract game on the active players |
| EliminationGame.EliminatedStanding | elimination_game.c:141-162 | a round removes one active player and keeps the eventual survivor |
| EliminationGame.LastOneStanding | elimination_game.c:168-182 | with one active player left, the survivor is that player and it holds the turn |
| EliminationGame.FreshStanding | elimination_game.c:164-188 | in a fresh circle started from the head the survivor is the Josephus position |
| EliminationGame.OnlyActive | elimination_game.c:179-182 | a circle whose only active position is w has w active and everyone else eliminated |
| EliminationGame.FirstActive | elimination_game.c:179-182 | the walk from the head stops at the first active player |
| EliminationGame.EliminationGame.constructor | elimination_game.c:40-49 | a new game has no players, the given elimination count and round one |
| EliminationGame.EliminationGame.AddPlayer | elimination_game.c:52-75 | the player joins active at the end of the circle; the first player becomes current; both counters grow |
| EliminationGame.EliminationGame.EliminatePlayer | elimination_game.c:126-138 | the player's flag is cleared, the active count drops and the turn passes to the next active player after it |
| EliminationGame.EliminationGame.PerformElimination | elimination_game.c:141-162 | a round is a no-op with at most one active player; otherwise it eliminates the k-th player counted from the current one and advances the round |
| EliminationGame.EliminationGame.PlayEntireGame | elimination_game.c:164-188 | plays until one player is left; the winner is the survivor of the abstract game, the only active player and current, after activePlayers - 1 rounds, and the Josephus position in a fresh circle |
| EliminationGame.EliminationGame.ResetGame | elimination_game.c:215-228 | every player is active again, the head is current and the round is one |
| EliminationGame.EliminationGame.ChangeEliminationCount | elimination_game.c:231-234 | only the elimination count changes |
| StringReversal.CharStack.constructor | string_reversal.c:28-34 | a new stack is empty with the given capacity |
| StringReversal.CharStack.Push | string_reversal.c:47-59 | returns 1 and pushes the character when there is room; returns 0 and changes nothing when full |
| StringReversal.CharStack.Pop | string_reversal.c:62-74 | returns and removes the top, or returns NUL and changes nothing when empty |
| StringReversal.Reverse | string_reversal.c:101-129 | the reversal keeps the length |
| StringReversal.ReverseInvolutive | string_reversal.c:101-129 | reversing twice gives the string back |
| StringReversal.ReverseString | string_reversal.c:101-129 | pushing every character and popping them all gives the string reversed |
| StringReversal.PickedPrefix | string_reversal.c:174-179 | the characters picked before position i are the first ones picked before any later position |
| StringReversal.PickedAt | string_reversal.c:183-188 | a selected character is the picked character numbered by its rank |
| StringReversal.PickedSelected | string_reversal.c:174-179 | every picked character belongs to the class |
| StringReversal.ReverseSelected | string_reversal.c:168-195 | the selective reversal keeps the length |
| StringReversal.MirrorStep | string_reversal.c:183-188 | at a selected position the result takes the pick numbered from the back by its rank, at any other the original character, and selected positions stay selected |
| StringReversal.ReverseSelectedShape | string_reversal.c:168-195 | the selective reversal keeps the length and the selected positions, leaves the other characters in place and lists the selected characters in reverse order |
| StringReversal.ReverseSelectedInvolutive | string_reversal.c:168-195 | reversing the same class twice gives the string back |
| StringReversal.PushMatching | string_reversal.c:174-179 | the first pass leaves a stack holding the selected characters with the last on top |
| StringReversal.ReverseMatching | string_reversal.c:168-195 | push the selected characters, then rebuild popping one at each selected position: the selective reversal |
| StringReversal.ReverseAlphabeticOnly | string_reversal.c:168-195 | the letters are reversed among the letter positions; everything else stays |
| StringReversal.ReverseVowelsOnly | string_reversal.c:265-294 | the vowels, in either case, are reversed among the vowel positions; everything else stays |
| StringReversal.CaseReversed | string_reversal.c:232-262 | the case-preserving reversal keeps the length |
| StringReversal.CaseReversedAt | string_reversal.c:250-258 | at an uppercase or lowercase position the result agrees with reversing that case alone; a non-letter stays |
| StringReversal.CaseReversedPicks | string_reversal.c:232-262 | the letters of each case in the result are those of the original in reverse order |
| StringReversal.CaseReversedShape | string_reversal.c:232-262 | every position keeps its case class, non-letters stay, and each case's letters are reversed among themselves |
| StringReversal.PushByCase | string_reversal.c:238-246 | one pass leaves the uppercase letters on one stack and the lowercase ones on the other, each with the last on top |
| StringReversal.CaseStep | string_reversal.c:250-258 | position i of the result is the next pick from the back of its case, or the original non-letter |
| StringReversal.RefillAt | string_reversal.c:250-258 | the character written at position i is the case-preserving reversal's, and the stacks stay ready for the next position |
| StringReversal.ReverseCasePreserving | string_reversal.c:232-262 | the two-stack rebuild produces the case-preserving reversal, and the stack of a case is never empty when a letter of that case needs it |
| StringReversal.LastSpace | string_reversal.c:141-158 | the last space of the sentence, or -1 when there is none |
| StringReversal.ReverseWords | string_reversal.c:132-165 | word reversal keeps the length |
| StringReversal.ReverseWordsKeepsSpaces | string_reversal.c:155-158 | word reversal keeps every space where it was and introduces none |
| StringReversal.OneWord | string_reversal.c:140-144 | a sentence without a space is one word, reversed whole |
| StringReversal.ReverseWordsJoin | string_reversal.c:145-158 | a space followed by a last word: the words before are reversed on their own and the last word is reversed |
| StringReversal.ReverseWordsInvolutive | string_reversal.c:132-165 | reversing the words twice gives the sentence back |
| StringReversal.TrailingSpace | string_reversal.c:155-158 | a space at the end is copied after the reversed words |
| StringReversal.PopAll | string_reversal.c:146-152 | emptying the stack yields its characters in reverse order of their pushes |
| StringReversal.WordEnds | string_reversal.c:145-158 | at a space or the end, the pending word, reversed, completes the sentence so far, and the space is copied |
| StringReversal.ReverseWordsInSentence | string_reversal.c:132-165 | pushing each word and popping it at a space or the end yields each word reversed in place |
| StringReversal.IsPalindrome | string_reversal.c:198-229 | returns 1 exactly when the lower-cased letters and digits read the same both ways, and 0 otherwise |
| CarTree.LessIrreflexive | car_tree.c:55 | no name is ordered before itself under the strcmp order |
| CarTree.LessTransitive | car_tree.c:55 | the strcmp order is transitive |
| CarTree.LessTotal | car_tree.c:55 | any two distinct names are ordered one way, and never both ways |
| CarTree.Insert | car_tree.c:50-72 | insertion leaves the tree holding its old names plus the new one |
| CarTree.Search | car_tree.c:85-99 | a car the search returns carries the name searched for |
| CarTree.SearchFindsKeys | car_tree.c:85-99 | in a search tree the search returns a car exactly when the name is in the tree |
| CarTree.InsertKeepsOrder | car_tree.c:50-72 | insertion keeps the search-tree order on names |
| CarTree.InsertThenSearch | car_tree.c:50-72 | after an insertion the name finds the new details and every other name finds what it found before; an existing name adds no node |
| CarTree.MinCarIsSmallest | car_tree.c:174-179 | the leftmost car is in the tree, is found by its name, and no name in the tree is smaller |
| CarTree.MinCar | car_tree.c:174-179 | the leftmost car of a non-empty tree is one of its cars and the first one the in-order walk lists |
| CarTree.FindMin | car_tree.c:174-179 | the descent returns the leftmost car, or nothing for an empty tree |
| CarTree.DeleteKeepsOrder | car_tree.c:182-220 | deletion keeps the search-tree order and removes exactly the name |
| CarTree.Delete | car_tree.c:182-220 | deletion never adds a name, and deleting a name the tree does not hold gives the same tree back |
| CarTree.DeleteThenSearch | car_tree.c:182-220 | after a deletion the name is not found and every other name finds what it found before |
| CarTree.DeleteFindsOthers | car_tree.c:193-216 | deleting one name, including via the in-order successor copy, leaves every other name's search result unchanged |
| CarTree.InOrderListsKeys | car_tree.c:146-156 | the in-order walk of a search tree lists only its names, as many as it holds |
| CarTree.InOrder | car_tree.c:146-156 | the in-order walk lists exactly as many cars as the tree has nodes |
| CarTree.InOrderNamesIn | car_tree.c:146-156 | every name the in-order walk lists is in the tree |
| CarTree.KeysApart | car_tree.c:50-72 | in a search tree the root name and the two subtrees are pairwise disjoint |
| CarTree.InOrderCount | car_tree.c:146-156 | the in-order walk lists each name once |
| CarTree.SortedJoin | car_tree.c:151-155 | left walk, root and right walk form one ascending run |
| CarTree.InOrderSorted | car_tree.c:146-156 | the in-order walk lists the names in strictly ascending order |
| CarTree.HeightBounds | car_tree.c:223-232 | the height is at most the node count, and the node count is below two to the height |
| CarTree.Height | car_tree.c:223-232 | the height is zero exactly for an empty tree and never exceeds the node count |
| CarTree.CountMatchesListing | car_tree.c:159-171 | the manufacturer count equals the number of listed cars whose manufacturer matches |
| CarTree.CountByManufacturer | car_tree.c:159-171 | the manufacturer count never exceeds the number of cars in the tree |
| CarTree.CarDatabase.constructor | car_tree.c:42-47 | a new database is an empty tree counting zero cars |
| CarTree.CarDatabase.AddCar | car_tree.c:75-82 | the car is inserted and counted only when its name is new, so the count stays the number of names |
| CarTree.CarDatabase.RemoveCar | car_tree.c:401-408 | a present name is deleted and uncounted, an absent one changes nothing, and the count stays the number of names |
| DeviceNodes.ActiveBefore | device_nodes.c:179-181 | the active count of a prefix never exceeds its length |
| DeviceNodes.ActiveCount | device_nodes.c:100 | the active count never exceeds the number of devices |
| DeviceNodes.InsertIndex | device_nodes.c:113-123 | the insertion point follows every device of equal or higher priority and precedes the first lower one |
| DeviceNodes.IndexOfId | device_nodes.c:131-140 | the first device with the id, or the list length when none has it |
| DeviceNodes.IndexOfName | device_nodes.c:143-152 | the first device with the name, or the list length when none has it |
| DeviceNodes.ActiveCountUpdate | device_nodes.c:211-212 | changing one device's status changes the active count by the difference between old and new |
| DeviceNodes.ActiveCountRemove | device_nodes.c:179-185 | unlinking a device lowers the active count by one exactly when it was ACTIVE |
| DeviceNodes.ActiveCountInsert | device_nodes.c:109-125 | linking a device in raises the active count by one exactly when it is ACTIVE |
| DeviceNodes.InsertPlacement | device_nodes.c:113-123 | in a priority-ordered list the new device lands after every device of equal or higher priority and before every lower one |
| DeviceNodes.InsertKeepsOrder | device_nodes.c:106-128 | insertion keeps the list in non-increasing priority order |
| DeviceNodes.InsertKeepsIds | device_nodes.c:109-110 | the new device takes the next id, distinct from every listed id |
| DeviceNodes.AddedKeepsInv | device_nodes.c:106-128 | adding keeps the totals, the distinct ids below the next id and the priority order |
| DeviceNodes.RemoveKeepsIdsAndOrder | device_nodes.c:172-177 | unlinking one device keeps the remaining ids distinct and in range and the priority order |
| DeviceNodes.DeletedKeepsInv | device_nodes.c:155-187 | deleting an absent id changes nothing; a present one removes exactly that device and no device with the id remains; the invariant holds |
| DeviceNodes.DeleteByNameRemovesFirst | device_nodes.c:190-196 | deleting by name removes the first device with that name and only it, or nothing when none has it |
| DeviceNodes.ActivatedKeepsInv | device_nodes.c:199-214 | activation keeps the active count equal to the number of ACTIVE devices |
| DeviceNodes.DeactivatedKeepsInv | device_nodes.c:217-232 | deactivation keeps the active count equal to the number of ACTIVE devices |
| DeviceNodes.ErroredKeepsInv | device_nodes.c:235-248 | setting ERROR keeps the active count equal to the number of ACTIVE devices |
| DeviceNodes.ActivateThenDeactivate | device_nodes.c:199-232 | activating a non-active device and deactivating it leaves it INACTIVE, the active count unchanged and every other device untouched |
| DeviceNodes.FindDeviceById | device_nodes.c:131-140 | the walk returns the first device with the id, or none exactly when no device has it |
| DeviceNodes.FindDeviceByName | device_nodes.c:143-152 | the walk returns the first device with the name, or none exactly when no device has it |
| DeviceNodes.FindInsertIndex | device_nodes.c:113-123 | the insertion walk stops at the priority insertion point |
| DeviceNodes.DeviceManager.constructor | device_nodes.c:96-103 | a new manager is empty, counts nothing and hands out 1001 next |
| DeviceNodes.DeviceManager.AddDevice | device_nodes.c:106-128 | the device, PENDING with the next id, is linked in at its priority place and counted |
| DeviceNodes.DeviceManager.DeleteDeviceById | device_nodes.c:155-187 | returns whether a device with the id existed; the new state is the deletion and the invariant holds |
| DeviceNodes.DeviceManager.DeleteDeviceByName | device_nodes.c:190-196 | returns whether a device with the name existed; the first such device is deleted |
| DeviceNodes.DeviceManager.ActivateDevice | device_nodes.c:199-214 | a present non-active device becomes ACTIVE and is counted; otherwise nothing changes |
| DeviceNodes.DeviceManager.DeactivateDevice | device_nodes.c:217-232 | a present ACTIVE device becomes INACTIVE and is uncounted; otherwise nothing changes |
| DeviceNodes.DeviceManager.SetDeviceError | device_nodes.c:235-248 | a present device becomes ERROR and leaves the active count if it was ACTIVE |
| DirectoryHistory.IndexOfPath | directory_history.c:55-64 | the first entry with the path, or the list length when none has it |
| DirectoryHistory.FindDirectory | directory_history.c:55-64 | the walk returns the entry with the path, or none exactly when no entry has it |
| DirectoryHistory.MoveToTailKeepsPaths | directory_history.c:93-115 | relinking an entry at the tail keeps the entries as a permutation, paths unique and visit counts positive |
| DirectoryHistory.BumpKeepsPaths | directory_history.c:123-124 | one more visit changes only that entry's count and keeps paths unique and counts positive |
| DirectoryHistory.RemoveOldestKeepsInv | directory_history.c:67-90 | dropping the head keeps the invariant; the current entry stays current unless it was the head, in which case the new head is |
| DirectoryHistory.RevisitMovesToTail | directory_history.c:121-127 | a known path gets one more visit and moves to the tail with the others in order, becomes current, and the count is unchanged |
| DirectoryHistory.NewVisitAppends | directory_history.c:128-150 | a new path is appended with one visit and made current after the head is evicted from a full history; the count never exceeds the maximum |
| DirectoryHistory.AppendedKeepsInv | directory_history.c:137-148 | appending a path not yet present to a history with room keeps the invariant |
| DirectoryHistory.VisitThenFind | directory_history.c:118-151 | after any visit the path is found at the tail, and it is current |
| DirectoryHistory.BackThenForward | directory_history.c:154-185 | back and forward move one step or change nothing at the ends; a back that moved is undone by forward, and the reverse |
| DirectoryHistory.JumpAndClear | directory_history.c:257-271 | a 1-based index in range makes that entry current, any other changes nothing; clearing leaves an empty valid history |
| DirectoryHistory.OrderPair | directory_history.c:351-355 | the bubble step leaves the pair with the more visited first, swapping or keeping it, and touches nothing else |
| DirectoryHistory.BubblePass | directory_history.c:350-356 | one pass sinks the least visited of the unsorted prefix to its end, permuting the array |
| DirectoryHistory.SortByVisits | directory_history.c:349-357 | the bubble sort orders the entries by non-increasing visit count and permutes them |
| DirectoryHistory.DirectoryHistory.constructor | directory_history.c:44-52 | a new history is empty, has no current entry and the given maximum |
| DirectoryHistory.DirectoryHistory.RemoveOldestEntry | directory_history.c:67-90 | the state becomes the history without its oldest entry, and the invariant holds |
| DirectoryHistory.DirectoryHistory.MoveToTail | directory_history.c:93-115 | the entry is unlinked and relinked at the tail; the rest of the state is untouched |
| DirectoryHistory.DirectoryHistory.VisitDirectory | directory_history.c:118-151 | the state becomes the visit of the path, and the invariant holds |
| DirectoryHistory.DirectoryHistory.Revisit | directory_history.c:121-127 | a known path's visit, keeping the invariant |
| DirectoryHistory.DirectoryHistory.VisitNew | directory_history.c:128-150 | a new path's visit with eviction when full, keeping the invariant |
| DirectoryHistory.DirectoryHistory.GoBack | directory_history.c:154-168 | the previous entry becomes current, or nothing changes at the head or in an empty history |
| DirectoryHistory.DirectoryHistory.GoForward | directory_history.c:171-185 | the next entry becomes current, or nothing changes at the tail or in an empty history |
| DirectoryHistory.DirectoryHistory.JumpToDirectory | directory_history.c:257-271 | the walk from the head makes the index-th entry current; an index out of range changes nothing |
| DirectoryHistory.DirectoryHistory.ClearHistory | directory_history.c:315-329 | the history becomes empty with no current entry, keeping its maximum |
| DirectoryHistory.DirectoryHistory.MostVisited | directory_history.c:332-368 | the ranking is a permutation of the entries by non-increasing visit count, and the number listed is the smaller of the request and the size, never negative |
| BalancedParentheses.IsOpening | balanced_parentheses.c:81-83 | an opening bracket is never a closing one and never NUL |
| BalancedParentheses.IsClosing | balanced_parentheses.c:86-88 | a closing bracket is never NUL, the matchers' "no match" answer |
| BalancedParentheses.MatchingClosing | balanced_parentheses.c:91-99 | an opener gets a closer whose matching opener is the opener again; anything else gets NUL |
| BalancedParentheses.MatchingOpening | balanced_parentheses.c:101-109 | a closer gets an opener; anything else gets NUL |
| BalancedParentheses.IsMatchingPair | balanced_parentheses.c:121-125 | a pair matches exactly when the closer is the opener's matching closer, and exactly when the opener is the closer's matching opener |
| BalancedParentheses.MatchersAgree | balanced_parentheses.c:91-109 | the two matchers invert each other on the three kinds of bracket |
| BalancedParentheses.StepsConcat | balanced_parentheses.c:145-202 | scanning two strings in turn is scanning their concatenation |
| BalancedParentheses.StoppedStays | balanced_parentheses.c:164-192 | once a problem stops the scan, no further character changes it |
| BalancedParentheses.Frame | balanced_parentheses.c:145-202 | openers already pending below do not affect how a string scans |
| BalancedParentheses.ConcatBalanced | balanced_parentheses.c:128-224 | two balanced expressions one after the other are balanced |
| BalancedParentheses.WrapBalanced | balanced_parentheses.c:128-224 | a balanced expression wrapped in a matching pair is balanced |
| BalancedParentheses.CloserFirstUnbalanced | balanced_parentheses.c:164-172 | an expression starting with a closer is unbalanced, reported as an unmatched closer at position 0 |
| BalancedParentheses.OtherCharactersIgnored | balanced_parentheses.c:196-201 | removing a non-bracket character does not change the verdict |
| BalancedParentheses.ScanShape | balanced_parentheses.c:153-182 | the depth is never negative and never above its maximum; while no problem is found, the depth is the number of pending openers and equals opens minus closes |
| BalancedParentheses.ScanPrefixCounts | balanced_parentheses.c:164-192 | the bracket counts cover exactly the scanned prefix; a scan that stopped did so at a closer whose position the problem records |
| BalancedParentheses.RunningLast | balanced_parentheses.c:145-192 | after a prefix without a problem, one more character extends the counts, and a problem it raises is at its own position |
| BalancedParentheses.StoppedPrefix | balanced_parentheses.c:164-192 | characters after the stopping point are not counted |
| BalancedParentheses.MaxDepthReached | balanced_parentheses.c:153-158 | the maximum depth bounds the depth at every prefix and is reached at some prefix |
| BalancedParentheses.BalancedCounts | balanced_parentheses.c:204-214 | a balanced expression has as many closers as openers, all counted, and ends at depth 0 with no problem |
| BalancedParentheses.AnalyzeExpression | balanced_parentheses.c:128-224 | the stack loop yields the scan's verdict, counts, depths and problem, with leftover openers reported at the end |
| BalancedParentheses.Analyze | balanced_parentheses.c:128-224 | an expression is reported balanced exactly when no problem is reported, leftover openers counting as one |
| BalancedParentheses.CheckSimpleParentheses | balanced_parentheses.c:261-296 | returns true exactly when the running count of ( minus ) never drops below zero and ends at zero |
| BalancedParentheses.ValidateMathExpression | balanced_parentheses.c:299-336 | accepts exactly the balanced expressions with no ( immediately followed by ) |
| MazeSolver.Neighbour | maze_solver.c:259-260 | each of the four directions gives a cell one row or one column away |
| MazeSolver.Maze.CanMoveTo | maze_solver.c:136-140 | a cell can be entered exactly when it lies inside the used grid and is open or the end, so never a wall or a cell already marked as start, visited or solution |
| MazeSolver.Maze.FirstMove | maze_solver.c:258-283 | the chosen direction is enterable and every earlier one in the order up, right, down, left is not; none means no direction is enterable |
| MazeSolver.Maze.FindMove | maze_solver.c:258-283 | the direction loop stops at the first enterable neighbour |
| MazeSolver.Maze.MarkSolution | maze_solver.c:244-251 | every stacked cell except start and end cells becomes a solution cell; no other cell changes and walls stay walls |
| MazeSolver.Maze.Advance | maze_solver.c:264-271 | the neighbour is pushed, the stack stays a walk through non-wall cells, and the cell becomes visited unless it is the end |
| MazeSolver.Maze.Retreat | maze_solver.c:285-294 | the top is popped and its cell reopened unless it shows the start mark; nothing else changes |
| MazeSolver.Maze.Step | maze_solver.c:232-300 | one iteration counts a step and either marks the solution at the end cell, pushes the first enterable neighbour, or pops a dead end; the stack stays a walk from the start through non-wall cells |
| MazeSolver.Maze.SolveMaze | maze_solver.c:218-311 | a reported solution is a walk of neighbouring in-grid cells from the start to the end through no wall; an exhausted search returns an empty stack |
| MazeSolver.Maze.Reset | maze_solver.c:339-354 | no visited or solution mark remains in the used grid, the start and end marks are restored, other cells are unchanged and the counters are zero |
| TokenSystem.Held | token_system.c:209-231 | the number of counters holding a token never exceeds the number of counters |
| TokenSystem.ToggleTwiceRestores | token_system.c:407-424 | an occupied active counter cannot be switched; any other is given back by switching twice |
| TokenSystem.WaitForBounds | token_system.c:151-158 | a general token waits exactly five minutes per waiting token, and no other kind waits longer |
| TokenSystem.WaitFor | token_system.c:151-158 | an emergency waits zero minutes, and no token waits more than five minutes per waiting token |
| TokenSystem.EnqueueKeepsOrder | token_system.c:160-176 | an emergency goes ahead of the line and any other token behind it, so emergencies stay at the front, latest first, and other tokens in issue order |
| TokenSystem.Enqueue | token_system.c:160-176 | the line gains exactly the new token, and a token that is not an emergency joins at the rear |
| TokenSystem.HeldUpdate | token_system.c:209-231 | replacing one counter changes the held count and the served sum by that counter's difference |
| TokenSystem.HeldAppend | token_system.c:120-128 | a new counter adds its own held token and served total |
| TokenSystem.IssueKeepsInv | token_system.c:134-189 | issuing keeps the line bounded, in service order and waiting, numbers consecutive, and every issued token waiting, at a counter, served or skipped |
| TokenSystem.CallKeepsInv | token_system.c:192-238 | calling the front token to an active counter not serving keeps the invariant, a replaced called token being counted as skipped |
| TokenSystem.StartKeepsInv | token_system.c:241-264 | starting service keeps the invariant |
| TokenSystem.CompleteKeepsInv | token_system.c:267-304 | completing a service frees the counter, and the per-counter served totals still add up to the global one |
| TokenSystem.ToggleKeepsInv | token_system.c:407-424 | switching a counter that may be switched keeps the invariant, so an inactive counter holds no token |
| TokenSystem.OpenCounterKeepsInv | token_system.c:114-131 | one more active idle counter with the next id keeps the invariant |
| TokenSystem.TokenQueue.constructor | token_system.c:91-101 | a new system has an empty line, no counters, next token number 1 and zero totals |
| TokenSystem.TokenQueue.AddServiceCounter | token_system.c:114-131 | succeeds exactly below ten counters, appending an active idle counter with the next id; a refusal changes nothing |
| TokenSystem.TokenQueue.IssueToken | token_system.c:134-189 | refused exactly when 100 tokens wait, changing nothing; otherwise a waiting token with the next number and its wait estimate joins the line at its place |
| TokenSystem.TokenQueue.CallNextToken | token_system.c:192-238 | refusals for an empty line, a bad id, an inactive counter and a serving counter, in that order, change nothing; otherwise the front token leaves the line and the counter holds it as called |
| TokenSystem.TokenQueue.StartService | token_system.c:241-264 | refusals for a bad id, no token and a token not called change nothing; otherwise the held token becomes serving |
| TokenSystem.TokenQueue.CompleteService | token_system.c:267-304 | refusals for a bad id and no token change nothing; otherwise the counter is freed and one more is served there and overall |
| TokenSystem.TokenQueue.ToggleCounter | token_system.c:407-424 | a bad id or an active counter holding a token changes nothing; otherwise only that counter's active flag flips |
| HashTable.Hash | hash_table.c:51-60 | the bucket index always lies in 0..9 |
| HashTable.HashFunction | hash_table.c:51-60 | the summing loop computes the sum of the character codes modulo ten |
| HashTable.IndexOfKey | hash_table.c:88-98 | the first entry of the chain with the key, or the chain length when none has it |
| HashTable.IndexOfKeyIs | hash_table.c:88-98 | the chain walk's stopping point is the first-occurrence index |
| HashTable.ChainInsertedLookup | hash_table.c:85-101 | inserting into a chain makes the key give the new value, leaves every other key's result, and keeps keys unique |
| HashTable.ChainDeletedLookup | hash_table.c:130-147 | deleting from a chain makes the key absent, leaves every other key's result, and keeps keys unique |
| HashTable.LookupChainAppend | hash_table.c:100-101 | a chain with one more entry at the end finds it only for a key not found before |
| HashTable.TotalUpdate | hash_table.c:100-106 | replacing one bucket changes the element total and the overflow count by that bucket's difference |
| HashTable.InsertKeepsInv | hash_table.c:75-107 | insertion keeps every key in its hash bucket, once, and the element count equal to the chain lengths; an existing key changes no counter; a new key adds one element and one collision exactly when its bucket was occupied |
| HashTable.InsertThenLookup | hash_table.c:75-122 | after an insertion the key finds the new value and every other key finds what it found before |
| HashTable.DeleteKeepsInv | hash_table.c:125-150 | deleting an absent key changes nothing; a present one lowers the element count by one; collisions are never uncounted; the invariant holds |
| HashTable.DeleteThenLookup | hash_table.c:110-150 | after a deletion the key is not found and every other key finds what it found before |
| HashTable.LookupNoneIffAbsent | hash_table.c:110-122 | searching the key's bucket finds nothing exactly when the key is nowhere in the table |
| HashTable.FindInChain | hash_table.c:114-119 | the chain walk returns the key's first position, or none exactly when it is absent |
| HashTable.HashTable.constructor | hash_table.c:37-48 | a new table has ten empty buckets and zero counters, so no key is found |
| HashTable.HashTable.Insert | hash_table.c:75-107 | the table becomes the insertion of the pair, keeping the invariant |
| HashTable.HashTable.Search | hash_table.c:110-122 | returns the value stored under the key in its bucket, or none |
| HashTable.HashTable.DeleteKey | hash_table.c:125-150 | returns 1 exactly when the key was present; the table becomes the deletion of the key |
| HashTable.HashTable.Rehash | hash_table.c:221-241 | the new table finds for every key exactly what the old one found |
| HashTable.HashTable.CopyBucket | hash_table.c:229-233 | after copying bucket i the new table agrees with the old one on every key hashing to i or below and knows no other |
| HashTable.RehashStep | hash_table.c:231 | inserting the next entry of a bucket's chain extends the new table by that entry |
| ReservationCounter.CountAtLeast | reservation_counter.c:183-188 | the number of queued entries of at least the given priority never exceeds the line's length |
| ReservationCounter.WaitEstimate | reservation_counter.c:179-199 | the estimate is never negative and never more than four minutes per entry of at least the same priority |
| ReservationCounter.WaitEstimateBounds | reservation_counter.c:190-198 | Normal gets exactly four minutes per counted entry, and no estimate exceeds four minutes per queued entry |
| ReservationCounter.StableIndex | reservation_counter.c:243-246 | the walk stops at the first entry of lower priority, every entry before it having at least the new one's priority |
| ReservationCounter.FirstOfKind | reservation_counter.c:309-318 | the first entry of the counter's type, none before it having that type, or the line's length when none has |
| ReservationCounter.Busy | reservation_counter.c:297-344 | the number of counters holding a reservation never exceeds the number of counters |
| ReservationCounter.CountAtLeastAppend | reservation_counter.c:183-188 | the count over two consecutive parts of the line is the sum of their counts |
| ReservationCounter.CountAtLeastUniform | reservation_counter.c:184 | a stretch whose entries are all counted, or none, counts its length, or zero |
| ReservationCounter.WaitCountsEntriesAhead | reservation_counter.c:179-260 | in a priority-ordered line the entries the estimate counts for a non-Emergency reservation are exactly those placed ahead of it |
| ReservationCounter.RunCounted | reservation_counter.c:179-246 | every entry of the leading run of at least the given priority is counted |
| ReservationCounter.RestNotCounted | reservation_counter.c:179-246 | in a priority-ordered line no entry behind that run is counted |
| ReservationCounter.AdmitKeepsOrder | reservation_counter.c:230-261 | splicing a reservation in where the source does keeps the line priority-ordered |
| ReservationCounter.AdmitIsStable | reservation_counter.c:230-261 | an Emergency goes to the front; any other reservation goes behind every entry of at least its priority, earlier equals included, and ahead of every lower one |
| ReservationCounter.RemoveKeepsOrder | reservation_counter.c:326-337 | taking any entry out of an ordered line leaves it ordered |
| ReservationCounter.PickIndexChoice | reservation_counter.c:303-324 | a specialised counter gets the first entry of its type when one is queued; otherwise, or unspecialised, it gets the front |
| ReservationCounter.BusyUpdate | reservation_counter.c:344-435 | changing one counter changes the busy count by that counter's change |
| ReservationCounter.BusyAppend | reservation_counter.c:157-167 | a new counter adds to the busy count only if it holds a reservation |
| ReservationCounter.EmergencyOvertakesNormals | reservation_counter.c:230-261 | three Normal reservations and then an Emergency one give the line Emergency, Normal, Normal, Normal with the Normals in arrival order |
| ReservationCounter.QueuedPendingInsert | reservation_counter.c:212-223 | admitting a pending reservation with the next id keeps every queued entry pending with an issued id |
| ReservationCounter.QueuedPendingRemove | reservation_counter.c:326-337 | removing an entry keeps every queued entry pending with an issued id |
| ReservationCounter.CountersNumberedGrow | reservation_counter.c:212 | issuing a further id keeps every held reservation's id an issued one |
| ReservationCounter.CountersNumberedSet | reservation_counter.c:344-435 | replacing a counter by one with the same number keeps counter numbering and issued ids |
| ReservationCounter.IdsDistinctInsert | reservation_counter.c:202-277 | a freshly issued id, above every id in use, can be spliced into the line without sharing an id with any queued or held reservation |
| ReservationCounter.IdsDistinctHand | reservation_counter.c:280-352 | handing an entry to an idle counter keeps every id in one place only |
| ReservationCounter.IdsDistinctFree | reservation_counter.c:355-438 | freeing a counter keeps every id in one place only |
| ReservationCounter.IdsDistinctOpen | reservation_counter.c:151-176 | opening an idle counter keeps every id in one place only |
| ReservationCounter.AdmitKeepsInv | reservation_counter.c:202-277 | admission keeps the line bounded, ordered and pending, no id assigned twice across the line and the counters, and every reservation ever admitted accounted for as queued, at a counter, confirmed or cancelled |
| ReservationCounter.DispatchKeepsInv | reservation_counter.c:280-352 | handing an entry to an idle counter keeps the invariant and the accounting; afterwards its id is no longer in the line and held by no other counter |
| ReservationCounter.CloseKeepsInv | reservation_counter.c:355-438 | confirming or cancelling the reservation held at a counter keeps the invariant and the accounting |
| ReservationCounter.OpenCounterKeepsInv | reservation_counter.c:151-176 | opening an idle counter numbered one past the last keeps the invariant |
| ReservationCounter.ReservationQueue.constructor | reservation_counter.c:126-138 | an empty line, no counters, next id 1001 and all totals zero |
| ReservationCounter.ReservationQueue.AddCounter | reservation_counter.c:151-176 | refused at fifteen counters; otherwise the table gains an active idle counter with the next number and nothing processed |
| ReservationCounter.ReservationQueue.CalculateWaitTime | reservation_counter.c:179-199 | the loop computes the wait estimate of the given priority |
| ReservationCounter.ReservationQueue.AddReservation | reservation_counter.c:202-277 | refused exactly when the line holds 200; otherwise the reservation gets the next id, status pending and the wait estimate, and is spliced in at its admission index |
| ReservationCounter.ReservationQueue.FindAdmitIndex | reservation_counter.c:230-260 | the three insertion branches, including the VIP shortcut, all land at the admission index |
| ReservationCounter.ReservationQueue.ProcessNextReservation | reservation_counter.c:280-352 | refuses, in the source's order, an empty line, an unknown counter, an inactive one and a busy one; otherwise removes the picked entry and gives it to the counter |
| ReservationCounter.ReservationQueue.HandTo | reservation_counter.c:326-344 | the entry leaves the line and becomes the counter's reservation |
| ReservationCounter.ReservationQueue.PickFor | reservation_counter.c:303-324 | the scan returns the pick index |
| ReservationCounter.ReservationQueue.ConfirmReservation | reservation_counter.c:355-407 | refuses an unknown or idle counter; otherwise adds one confirmation and the amount to the revenue, counts one more processed and frees the counter |
| ReservationCounter.ReservationQueue.CancelReservation | reservation_counter.c:410-438 | refuses an unknown or idle counter; otherwise adds one cancellation, counts one more processed and frees the counter, revenue unchanged |
| ReservationCounter.ReservationQueue.SearchReservation | reservation_counter.c:519-563 | the first reservation in the line with the id, or else the one held by the lowest-numbered counter while the line has none; the match is the only one anywhere, and not found exactly when neither has it |
| ReservationCounter.ReservationQueue.OnlyInQueue | reservation_counter.c:521-542 | a reservation in the line is held by no counter |
| ReservationCounter.ReservationQueue.OnlyAtCounter | reservation_counter.c:545-560 | a reservation held at one counter is held by no other |
| ReservationCounter.StableIsFirstLower | reservation_counter.c:243-246 | a walk that stops at the first lower entry stops at the stable index |
| ReservationCounter.FirstOfKindUnique | reservation_counter.c:310-317 | a scan that stops at the first entry of the type stops at that index |
| ScavengerHunt.AddToInventoryKeeps | scavenger_hunt.c:136-145 | an item is carried, for 10 points, exactly while fewer than ten are carried; nothing carried is lost, the score never drops and the player's invariant holds |
| ScavengerHunt.AddPlayerKeepsInv | scavenger_hunt.c:117-133 | a new player joins at the end of the list with the given id, no points and, on a non-empty route, at its first location; earlier players are unchanged |
| ScavengerHunt.ExploreKeepsInv | scavenger_hunt.c:162-203 | exploring changes nothing for a finished player or one lacking the required item; it keeps the invariant, never lowers the score, never unmarks a location and touches no other player |
| ScavengerHunt.ExploreRewards | scavenger_hunt.c:173-199 | the state changes exactly when the location is unexplored and the player may enter; then it is marked explored and pays 25 points, 10 more when the treasure fits, 100 more at the final location, where the player's hunt ends, and only there |
| ScavengerHunt.MoveKeepsInv | scavenger_hunt.c:206-225 | the player advances exactly one location precisely when they carry the current location's item and a next location exists; otherwise nothing changes; no score changes |
| ScavengerHunt.HasRequiredItem | scavenger_hunt.c:148-159 | true exactly when the item is "none" or carried |
| ScavengerHunt.IndexOfPlayer | scavenger_hunt.c:240-249 | the position of the first player with the id, or the list length when there is none |
| ScavengerHunt.FindPlayer | scavenger_hunt.c:240-249 | none exactly when no player has the id; otherwise the first player with it |
| ScavengerHunt.TreasureHunt.constructor | scavenger_hunt.c:70-110 | a game over the given route with every location unexplored and no players |
| ScavengerHunt.TreasureHunt.AddPlayer | scavenger_hunt.c:117-133 | the game becomes the one with the player appended, keeping the invariant |
| ScavengerHunt.TreasureHunt.ExploreLocation | scavenger_hunt.c:162-203 | the game becomes the explored one, keeping the invariant |
| ScavengerHunt.TreasureHunt.MoveToNextLocation | scavenger_hunt.c:206-225 | the game becomes the moved-on one, keeping the invariant |
| UndoOperation.Clamp | undo_operation.c:352-368 | the position forced into the text, unchanged when it already lies in it |
| UndoOperation.Splice | undo_operation.c:168-206 | within bounds, the text with the cut characters at the position replaced by the inserted ones |
| UndoOperation.Push | undo_operation.c:90-126 | the new record is on top and a stack within 100 records stays within 100 |
| UndoOperation.PushKeepsOrder | undo_operation.c:93-125 | below 100 records the new one goes on top of all the old ones; at 100 the bottom record is evicted and the rest keep their order |
| UndoOperation.PushKeepsChain | undo_operation.c:163-165 | recording the text an edit started from keeps every undo record able to rebuild the text recorded above it |
| UndoOperation.InsertedKeepsInv | undo_operation.c:149-179 | an insertion keeps both stacks within 100 records and the undo chain consistent with the text |
| UndoOperation.DeletedKeepsInv | undo_operation.c:182-212 | a deletion keeps both stacks within 100 records and the undo chain consistent |
| UndoOperation.ReplacedKeepsInv | undo_operation.c:215-253 | a replacement keeps both stacks within 100 records and the undo chain consistent |
| UndoOperation.ClearedKeepsInv | undo_operation.c:261-279 | a clear keeps both stacks within 100 records and the undo chain consistent |
| UndoOperation.UndoneKeepsInv | undo_operation.c:282-329 | an undo keeps both stacks within 100 records and the remaining undo chain consistent with the restored text |
| UndoOperation.RedoneKeepsInv | undo_operation.c:332-386 | a redo keeps both stacks within 100 records and the undo chain consistent |
| UndoOperation.InsertThenUndo | undo_operation.c:149-329 | an accepted insertion puts exactly the text at the position with the rest around it, and an undo right after it restores the old text and cursor and leaves one redo record |
| UndoOperation.DeleteThenUndo | undo_operation.c:182-329 | an accepted deletion removes exactly the characters from the position to the shortened end, and an undo right after it restores the old text and cursor |
| UndoOperation.ReplaceThenUndo | undo_operation.c:215-329 | an accepted replacement swaps exactly the shortened range for the new text, and an undo right after it restores the old text and cursor |
| UndoOperation.ClearThenUndo | undo_operation.c:261-329 | clearing non-empty text empties it and an undo right after it brings it back |
| UndoOperation.RejectedEditsChangeNothing | undo_operation.c:149-386 | every refused edit, and undo or redo on an empty stack, leaves the whole editor unchanged |
| UndoOperation.UndoThenRedo | undo_operation.c:282-386 | undoing an insertion, deletion or clear and redoing it gives the same text back with a record of the same kind on top |
| UndoOperation.UndoThenRedoLosesReplace | undo_operation.c:307-382 | redoing an undone replacement has no effect: the text stays as before the replacement and the record is gone |
| UndoOperation.TextEditor.constructor | undo_operation.c:65-82 | empty text, both stacks empty, next operation id 1, cursor 0 |
| UndoOperation.TextEditor.ClearRedoStack | undo_operation.c:141-146 | the popping loop empties the redo stack and changes nothing else |
| UndoOperation.TextEditor.InsertText | undo_operation.c:149-179 | the editor becomes the inserted one, keeping the invariant |
| UndoOperation.TextEditor.DeleteText | undo_operation.c:182-212 | the editor becomes the deleted one, keeping the invariant |
| UndoOperation.TextEditor.ReplaceText | undo_operation.c:215-253 | the editor becomes the replaced one, keeping the invariant |
| UndoOperation.TextEditor.AppendText | undo_operation.c:256-258 | the editor becomes the one with the text inserted at the end |
| UndoOperation.TextEditor.ClearText | undo_operation.c:261-279 | the editor becomes the cleared one, keeping the invariant |
| UndoOperation.TextEditor.UndoOperation | undo_operation.c:282-329 | the editor becomes the undone one, keeping the invariant |
| UndoOperation.TextEditor.RedoOperation | undo_operation.c:332-386 | the editor becomes the redone one, keeping the invariant |
| FunctionCallStack.DefaultValue | function_call_stack.c:84-98 | a fresh variable's initial value has the variable's type |
| FunctionCallStack.FirstNamed | function_call_stack.c:129-138 | the position of the first variable with the name, none before it having it, or the list length when none has |
| FunctionCallStack.PushKeepsInv | function_call_stack.c:183-206 | a push keeps the count and level equal to the number of frames, at most 100, and the new top frame carries the largest id |
| FunctionCallStack.PopKeepsInv | function_call_stack.c:209-224 | a pop keeps the count, the level and the frame ids consistent |
| FunctionCallStack.TopChangeKeepsInv | function_call_stack.c:227-274 | changing the top frame's variables keeps the invariant |
| FunctionCallStack.PushFrame | function_call_stack.c:183-206 | refused, changing nothing, exactly at 100 frames; otherwise the new top frame has the next id, empty lists and the return address, above the old frames |
| FunctionCallStack.PushThenPop | function_call_stack.c:183-224 | a call followed by a return gives the previous stack back, except that the frame id stays spent |
| FunctionCallStack.PopFrame | function_call_stack.c:209-224 | popping an empty stack changes nothing; otherwise the top frame goes, the rest stays and the count drops by one |
| FunctionCallStack.FindFindsNewest | function_call_stack.c:104-138 | after adding a variable, a lookup of its name finds the new one first, even when the name was already in use |
| FunctionCallStack.AddParameterSetsValue | function_call_stack.c:227-242 | a new parameter with the given value goes in front of the top frame's parameters; locals and lower frames are unchanged |
| FunctionCallStack.NoFrameOrUnknownName | function_call_stack.c:227-274 | with no frame, adding or setting a variable changes nothing, and setting an unknown local changes nothing |
| FunctionCallStack.FindVariable | function_call_stack.c:129-138 | none exactly when no variable has the name; otherwise the first one with it |
| FunctionCallStack.FunctionCallStack.constructor | function_call_stack.c:68-75 | no frames, count and level zero, next frame id 1 |
| FunctionCallStack.FunctionCallStack.PushFunctionCall | function_call_stack.c:183-206 | the stack becomes the pushed one; the new frame is returned, or none exactly when 100 frames were there |
| FunctionCallStack.FunctionCallStack.PopFunctionCall | function_call_stack.c:209-224 | the stack becomes the popped one; the old top frame is returned, or none exactly when the stack was empty |
| FunctionCallStack.FunctionCallStack.AddParameter | function_call_stack.c:227-242 | the stack becomes the one with the parameter added and set, keeping the invariant |
| FunctionCallStack.FunctionCallStack.AddLocalVariable | function_call_stack.c:245-255 | the stack becomes the one with the local added to the top frame, keeping the invariant |
| FunctionCallStack.FunctionCallStack.SetLocalVariableValue | function_call_stack.c:258-274 | the stack becomes the one with the top frame's first local of that name set, keeping the invariant |
| MemoryManagement.InitialValue | memory_management.c:95-112 | a fresh block's contents fit its type and, for an array, its size |
| MemoryManagement.AllocateKeepsInv | memory_management.c:73-126 | refused, changing nothing, exactly when the usage would pass 1000 bytes; otherwise a block with the next id and the type's initial contents goes on top, its size is added to the usage, the peak never drops and the invariant holds |
| MemoryManagement.DeallocateKeepsInv | memory_management.c:129-149 | an empty stack is left unchanged, and only then; otherwise the top block goes and its size is given back; the peak stays and the invariant holds |
| MemoryManagement.SetTopKeepsInv | memory_management.c:152-191 | setting a value changes only the top block's contents, never the usage, peak or ids, and keeps the invariant |
| MemoryManagement.AllocateThenDeallocate | memory_management.c:73-149 | an allocation followed by a free gives back the same blocks and usage, with a peak at least the usage reached and one id spent |
| MemoryManagement.MemoryStack.constructor | memory_management.c:57-65 | no blocks, zero usage and peak, next block id 1001 |
| MemoryManagement.MemoryStack.AllocateMemory | memory_management.c:73-126 | the stack becomes the allocated one; the new block's id is returned, or 0 exactly when the budget would be passed |
| MemoryManagement.MemoryStack.DeallocateMemory | memory_management.c:129-149 | the stack becomes the one with the top block freed; true exactly when there was a block |
| MemoryManagement.MemoryStack.SetTopBlockValue | memory_management.c:152-191 | the stack becomes the one with the top block's contents overwritten, an array taking the block's size in bytes |

## Left out

- Menus, `scanf`/`fgets` input, `printf` output and every display routine (`display*`, `show*`, `visualizeBracketDepth`, the type-name tables) are left out. They are input and output only. The one exception is the visit-count sort inside `showMostVisited`, which is modelled (`DirectoryHistory.SortByVisits`).
- The sample-data loaders are left out because they only seed fixed demonstration data: `setupSampleReservationData`, `setupSampleData`, `loadSampleDevices`, `populateSampleData`, `setupHunt`, `setupPlayers` (with its `sprintf` names), and the demonstration drivers `demonstrateUndoRedo`, `simulateFactorial`, `simulateNestedFunctions`, `simulateStackOverflow`, `simulateFunctionCall`, `simulateNestedCalls` and `demonstrateMemoryLeak`. The treasure-hunt route is a parameter of `ScavengerHunt.TreasureHunt.constructor` instead.
- Clock values (`time`, `difftime`, `strftime`) are not modelled, and so neither are any of the request, process, call or service timestamps.
- Floating point is not modelled, which covers:
  - the running averages `avgProcessingTime` (reservation_counter.c:378-379) and `avgServiceTime` (token_system.c:285-289);
  - float payloads of call-stack variables and memory blocks, which are carried as a value without contents.
  Amounts are integer cents.
- Randomness is not modelled: `generateRandomMaze` (maze_solver.c:180-215) and `shufflePlaylist` (audio_playlist.c:168-206) are left out.
- `malloc` and `free` are not modelled, and neither is the branch taken when `malloc` fails (memory_management.c:88-93). Memory blocks are modelled by size and type, not by raw bytes.
- Fixed-size C buffers are not modelled: strings are unbounded sequences. The `strcpy` overflows of names, titles and paths longer than their arrays are therefore not modelled, nor is a string written into a memory block larger than the block.
- C integer widths are not modelled: `int` counters and `size_t` memory sizes are unbounded integers, so no wrap-around occurs in the model.
- `hashFunctionDJB2` (hash_table.c:63-72) is not modelled because nothing calls it.
- HashTable.Hash: sums character codes as unsigned values. In C, `char` is signed on common platforms, so a non-ASCII key could give a negative sum and a negative bucket index. Keys are assumed to be ASCII, for which the two agree.
- String functions assume ASCII and the C locale's `isalpha`/`isupper`/`tolower`.
- MazeSolver.Maze.SolveMaze: bounded by a fuel parameter. Dead ends are reopened (maze_solver.c:291), so the C loop is not proved to terminate, and the model proves nothing about whether a solution is found within the fuel.
- Link structure is not modelled: prev/next links, head/tail consistency and the freeing of nodes. Lists are sequences, so the congo line's and the playlist's ends and links are consistent by construction. The operations that only release memory (`freeCongoLine`, `freePlaylist`, `freeGame`, `freeHashTable`, `freeTextEditor`, `freeFunctionCallStack`, `freeMemoryStack`, `freeReservationQueue`, `freeTokenQueue`, `freeCarTree` and the rest) are left out.
- `startDance` (congo_line.c) only prints the line, so it is left out.
- The elimination game's `stepThroughGame` and `showStatistics` are left out, as are the `getchar` pauses. `addPlayer`'s walk to the tail is modelled as an append.
- EliminationGame.EliminationGame.PlayEntireGame: requires at least one player. With an empty circle the C winner search dereferences a null head (elimination_game.c:179-182).
- EliminationGame.EliminationGame.EliminatePlayer: requires at least two active players, which is the only way `performElimination` calls it.
- DirectoryHistory.DirectoryHistory.constructor: requires a history size of at least 1. With a size of 0 the C history would still keep one entry (`removeOldestEntry` returns at once on an empty list), so its bound could not hold; the program uses 20.
- `searchHistory` (directory_history.c), `getAllKeys`/`searchByValue` (hash_table.c) and the `findCarsBy*` listings (car_tree.c) are left out because they only print matches.
- UndoOperation.TextEditor.ReplaceText: requires the replaced text to fit in 1000 characters. The C function never checks this and would overflow its buffer (undo_operation.c:215-253).
- UndoOperation.Splice: clamps positions to the current text. In C, a redo at a position past the end reads past the string. That can only follow a redo of a replacement, which the C code discards (undo_operation.c:381).
- `redoOperation` discards REPLACE and APPEND records as written. `UndoOperation.UndoThenRedoLosesReplace` states the consequence.
- FunctionCallStack.FunctionCallStack.AddParameter and SetLocalVariableValue: require a value of the variable's type. The C caller passes an untyped `void*` that is read at that type.
- MemoryManagement.MemoryStack.SetTopBlockValue: requires a value of the top block's type and, for an array, at least the block's size in bytes. `memcpy` reads that many bytes from the caller.
- Token system: calling a new token to a counter whose token is CALLED but not SERVING overwrites that token without freeing it (token_system.c:209-231). The model keeps such tokens in the `skipped` count so that the token accounting stays exact.
- Car database: `deleteCar` leaves `totalCars` unchanged; the caller decrements it (car_tree.c:401-408). `CarTree.CarDatabase.RemoveCar` models the pair.
- Balanced parentheses: the text of the error messages is left out. A mismatch is reported by its position and the brackets involved.
- String reversal: `reverseCasePreserving` falls back to the original character when a case stack is empty (string_reversal.c:250-252). The stack is never empty at that point, so the model proves that instead of modelling the fallback.
