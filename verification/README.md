# CopperHead server core in Dafny

A functional model of the game and session logic of the CopperHead server
(`main.py`), a two-player Snake server. It has three layers, each an
immutable datatype with pure step functions:

- **Board, Snakes, Games**: the per-tick engine on the 30 x 20 grid. It
  covers the bounded turn queue with its reversal guards, peek-then-move
  with growth on food, and food respawn on a free cell. It also covers wall,
  self and other-snake collisions, and win or draw detection. Snake 1 moves
  before snake 2, and food is respawned as soon as it is eaten, so snake 2
  sees the new food. `random.choice(available)` becomes a `pick: nat`
  argument, and the food goes to `available[pick % |available|]`.
  `SpawnFoodReachesEveryFreeCell` shows that every free cell can be chosen.
- **Rooms**: one `GameRoom` with its I/O removed. Connections are opaque
  ids, and the bot process is reduced to the difficulty it was launched
  with. The layer covers slot allocation, the ready cycle (mode latching,
  clamping, start at two ready players), and the full reset on a
  disconnect. It also covers the game-over bookkeeping and `broadcast`'s
  rule "collect the failures, then disconnect them".
- **Matchmaking**: the `RoomManager` registry. Its rooms form a sequence in
  the dict's insertion order, and ids are unique and lie in 1..10. The
  locked section of `find_or_create_room` is one atomic function. This
  layer also models how the endpoints attach a player or an observer,
  and the legacy endpoint's close codes 4000 and 4002.

When no cell is free, `spawn_food` leaves `food` at its old value
(main.py:147-148); the model does the same and never clears the food.

## Model

| member | source | states |
|---|---|---|
| Board.OppositeIsInvolution | main.py:70 | the `opposites` table has no fixed point and is its own inverse, and a step followed by a step in the opposite direction returns to the start |
| Board.StepInjective | main.py:98-100 | from one cell, two directions reach the same cell only if they are the same direction |
| Board.ParseDir | main.py:292 | only the four wire names are accepted, and an accepted name is the name of the direction returned |
| Board.ParseDirName | main.py:292 | parsing a direction's wire name gives back that direction |
| Board.SlotSetSize | main.py:313 | a set of player slots has at most two members, and has two exactly when it holds both slots |
| Board.CellAt | main.py:141-146 | the i-th cell the comprehension visits is on the grid, at row-major position i |
| Board.CellAtIndex | main.py:141-146 | every grid cell is visited, at position x * 20 + y |
| Board.AllCells | main.py:141-146 | the comprehension visits exactly 600 cells, in row-major order |
| Board.AllCellsMembers | main.py:141-146 | a cell is visited exactly when it is on the grid |
| Board.FreeCells | main.py:141-146 | `available` holds exactly the grid cells not covered by a snake |
| Board.GridPrefixSize | main.py:141-146 | the first n cells visited are n distinct cells |
| Board.FreeCellExists | main.py:147 | while fewer than 600 cells are covered, `available` is not empty |
| Seqs.Filter | main.py:454 | a list comprehension keeps exactly the elements that pass its test, each of which passes it |
| Seqs.FirstIndex | main.py:440-443 | a first-match loop returns the position of the first element that passes, or nothing exactly when none passes |
| Seqs.FilterHead | main.py:486 | the head of the filtered list exists exactly when a first-match loop finds something, and it is the element found |
| Seqs.FilterInOrder | main.py:580-591 | a comprehension keeps the relative order of the elements it keeps |
| Seqs.FilterTwice | main.py:572-574 | filtering out the failing elements a second time removes nothing more |
| Seqs.Without | main.py:141-146 | keeps exactly the elements outside the dropped set |
| Seqs.Within | main.py:397-401 | collects exactly the elements inside the given set |
| Seqs.RemoveFirst | main.py:284-285 | `remove` after an `in` test cuts out the first occurrence of the element, keeping the elements before and after it in order; an absent element leaves the list as it was |
| Seqs.RemoveEachKeepsHead | main.py:405-406 | removing elements other than the head leaves the head at the front |
| Seqs.RemoveCollectedIsWithout | main.py:397-406 | collecting the failed entries and then removing each one gives the same list as filtering them out |
| Snakes.NewSnake | main.py:57-63 | a new snake is one cell long, faces its starting direction in both direction fields, has an empty turn queue, is alive and is well formed |
| Snakes.QueueDirection | main.py:68-77 | a turn that repeats or reverses the last queued direction (or `next_direction` when nothing is queued) is ignored; an accepted turn is appended, dropping the oldest entry beyond three; nothing else changes, and well-formedness is kept |
| Snakes.QueueAllStaysValid | main.py:68-77 | after any run of turn messages the queue still holds at most three turns, and neither the body nor the direction has changed |
| Snakes.ProcessInput | main.py:79-85 | the oldest queued turn is consumed; it becomes the next direction exactly when it does not reverse the committed one, and otherwise the next direction is kept |
| Snakes.NextHead | main.py:87-100 | for a well-formed snake, the peeked head never lies behind the current head |
| Snakes.Move | main.py:102-111 | the new head is exactly the cell `get_next_head` peeked; the old body follows it, whole when growing and without its tail otherwise; one queued turn is consumed; the new direction never reverses the old one |
| Snakes.OverflowReversalIsRefused | main.py:72-85 | queue overflow can leave a reversal at the front (right, then up, left, down, right queues [left, down, right]); `move` refuses it and keeps going right |
| Games.SpawnFood | main.py:137-148 | only the food changes; it lands on a grid cell no snake covers when there is one, and stays where it was otherwise |
| Games.SpawnFoodReachesEveryFreeCell | main.py:147-148 | every free grid cell is the food for some choice |
| Games.NewGame | main.py:127-135 | the snakes start at (5, 10) facing right and at (24, 10) facing left; the game is not running and has no winner; food lies on a free cell |
| Games.StartedGame | main.py:350-351 | a started game runs with both snakes alive, no winner and free food |
| Games.MoveStep | main.py:154-163 | a dead snake leaves the game unchanged; a live snake's head goes where it peeked, and it grows exactly when that cell is the food; uneaten food stays; the other snake is untouched |
| Games.MoveStepMoves | main.py:154-161 | a living snake makes exactly one `move`, with or without growth |
| Games.MovePhaseMoves | main.py:154-163 | across the movement loop, every living snake makes exactly one `move` and every dead snake stays as it was |
| Games.MovePhase | main.py:154-163 | the movement loop kills nobody: every snake keeps its alive flag, a dead one stays as it was, a living one's head lands on its peeked cell, and `running` and `winner` are untouched |
| Games.Judge | main.py:166-180 | a snake is alive afterwards exactly when it was alive and did not crash; only the alive flag changes |
| Games.CollidePhase | main.py:166-180 | a snake is alive after the collision checks exactly when it was alive and its moved head is on the grid, off its own body behind the head and off the other snake's whole body; only the alive flags change |
| Games.Settle | main.py:182-189 | with at most one snake alive the game stops, and the winner is the survivor (none on a draw); otherwise nothing changes |
| Games.Update | main.py:150-189 | a game that is not running is unchanged; no dead snake comes back to life or moves; a living snake survives the tick exactly when its moved head crashed into nothing; the game stops exactly when at most one snake is left, and the winner is then the survivor; every live head goes where it peeked, and bodies grow by at most one |
| Games.UpdateKeepsConsistent | main.py:150-189 | fresh, started and updated games keep well-formed snakes, and a running game has two living snakes and no winner |
| Games.MoveStepKeepsValid | main.py:154-163 | a movement step keeps both snakes well formed |
| Games.MovePhaseKeepsBodyPrefix | main.py:154-163 | after the movement loop a snake's body still covers every cell of its old body except the tail; for a living snake those cells sit behind the new head |
| Games.MovedBodyKeepsPrefix | main.py:102-111 | after a `move`, every old body cell except the tail is still part of the body, behind the head |
| Games.MovePhaseHeads | main.py:154-161 | a living snake is still alive after the movement loop, with its head on the cell it peeked |
| Games.HeadOnCollisionIsDraw | main.py:177-189 | two living snakes whose peeked heads meet both die, and the game ends in a draw |
| Games.WallKills | main.py:170-172 | a living snake whose peeked head is off the grid dies in that tick |
| Games.BodyKills | main.py:173-180 | a living snake whose peeked head lands on a cell of a body other than its tail dies, its own body or the opponent's; a dead body blocks with every cell, tail included |
| Games.GrownTailKills | main.py:157-180 | a snake heading onto the tail of an opponent that eats in the same tick dies, because the eater keeps its tail |
| Games.EaterGrows | main.py:157-163 | a living snake whose peeked head holds the food keeps its whole old body behind the new head, unless the other snake is heading for the same cell |
| Games.ClearPathSurvives | main.py:166-180 | a living snake whose peeked head is on the grid, off both bodies and not where a living opponent's head is going survives the tick |
| Games.FirstTickFromStart | main.py:128-131 | with no input, the first tick from the start puts the heads on (6, 10) and (23, 10); both snakes live and the game goes on, wherever the food is |
| Games.FirstTickFromStartingSnakes | main.py:150-189 | from the two starting snakes, one tick puts the heads on (6, 10) and (23, 10) and the game goes on |
| Games.FirstMoveSurvives | main.py:166-180 | the starting snakes' first moves crash into nothing |
| Games.OccupiedSize | main.py:138-140 | the covered set has no more cells than the two bodies together |
| Games.MoveStepKeepsFoodFree | main.py:154-163 | while the board has room, a movement step never leaves food under a snake |
| Games.UpdateKeepsFoodFree | main.py:150-189 | while the board has room for growth, food never lies on a snake after a tick |
| Rooms.ParseMode | main.py:296-298 | exactly `two_player` and `vs_ai` are known modes |
| Rooms.NewRoom | main.py:205-216 | a new room has its id, no players, no observers, no ready marks, an idle game, two-player mode, no bot, 0-0 wins and default names |
| Rooms.AvailableSlot | main.py:232-237 | the slot returned is free, slot 2 only when slot 1 is taken, and nothing exactly when both are taken |
| Rooms.SlotsBound | main.py:226-237 | a room holds at most two players; it is full exactly when no slot is free; a waiting room has a free slot |
| Rooms.ConnectPlayer | main.py:239-243 | the slot now holds the connection; the other slot and the rest of the room are untouched |
| Rooms.ConnectObserver | main.py:245-247 | the observer is appended; nothing else changes |
| Rooms.DisconnectPlayer | main.py:258-270 | the slot and its ready mark are gone, the other slot keeps its connection and ready mark, and the session is reset: idle game, two-player mode, no bot, 0-0 wins, default names |
| Rooms.Vacate | main.py:258-269 | a disconnect drops exactly that slot and its ready mark and installs the new game; with an idle game the session is reset |
| Rooms.DisconnectIsFreshRoom | main.py:258-270 | a disconnect leaves a room equal to a newly built room with the same id, holding the remaining connections, observers and ready mark |
| Rooms.DisconnectObserver | main.py:283-286 | a present observer's first occurrence is cut out and the others keep their order; an absent one changes nothing; nothing else changes |
| Rooms.Clamp | main.py:305-306 | the difficulty ends up in 1..10; an in-range value is kept, a low one becomes 1 and a high one 10 |
| Rooms.StartGame | main.py:349-351 | the room gets a running game with both snakes alive and no winner; nothing else changes |
| Rooms.Ready | main.py:295-314 | the sender becomes ready and takes the given or default name; the mode changes only on the first ready of a cycle and only to a known mode; the bot is exactly `LaunchBot`'s, so a failed launch leaves it unset and a new one runs at Clamp(difficulty or 5); the game is left alone unless both slots are ready with no game running, in which case a new game starts; connections, observers and wins stay |
| Rooms.ReadyCycleStartsGame | main.py:295-314 | in an idle room with nobody ready, one ready leaves the game alone and a second from the other slot starts it, in the mode the first latched |
| Rooms.LatchMode | main.py:296-299 | the mode is taken only when nobody is ready yet and the requested mode (default `two_player`) is known |
| Rooms.LaunchBot | main.py:304-307 | a supervised bot is kept; a new one exists only after a successful `vs_ai` launch, at the clamped difficulty (default 5) |
| Rooms.HandleMessage | main.py:288-321 | a move queues a turn on the sender's snake only while the game runs and only for one of the four names, touching nothing else; a ready runs `Ready`; unknown actions are ignored; connections, observers and wins never change |
| Rooms.Tick | main.py:362-378 | a game that is not running is left alone; otherwise the game is updated; on the tick it ends, only the winner's count goes up by one (none on a draw) and the ready set is cleared |
| Rooms.FailedSlots | main.py:389-394 | lists, without repeats, exactly the slots whose send failed |
| Rooms.DisconnectEmpties | main.py:258-259 | a departure empties the room exactly when the other slot was already free, and otherwise leaves it waiting |
| Rooms.RemainingSlots | main.py:259 | after one slot is removed, one slot is left if the other was held and none otherwise |
| Rooms.DisconnectObserversRemovesEach | main.py:405-406 | disconnecting observers one by one removes the first occurrence of each |
| Rooms.SlotsOf | main.py:403-404 | the set of slots a list names |
| Rooms.DisconnectPlayersEffect | main.py:403-404 | disconnecting failed players one after the other removes exactly their slots and ready marks and leaves the session reset; the result depends only on which slots failed |
| Rooms.Broadcast | main.py:385-406 | observers whose send failed are dropped and the others keep their order; players whose send failed lose their slots; when any player failed the session is reset, otherwise only the observer list changes |
| Rooms.BroadcastFacts | main.py:403-406 | the two removal passes together give the effect stated for `Broadcast` |
| Matchmaking.Find | main.py:456-458 | finds the position of the first room with this id, and nothing exactly when no room has it |
| Matchmaking.FindDistinct | main.py:456-458 | with distinct ids, each room is found at its own position |
| Matchmaking.Lookup | main.py:456-458 | `rooms.get(id)` returns a room with that id, and nothing exactly when there is none |
| Matchmaking.FindFirstMatch | main.py:456-458 | the first position holding the id is the one found |
| Matchmaking.FindSameMatches | main.py:456-458 | lists that hold the id at the same positions give the same lookup result |
| Matchmaking.Put | main.py:432 | `rooms[id] = room` makes the id map to the room and leaves every other id's entry alone; it replaces in place when the id is present and appends otherwise; ids stay distinct |
| Matchmaking.PutFacts | main.py:432 | the in-place and appending cases of the store both give the lookup results stated for `Put` |
| Matchmaking.LowestReusable | main.py:429-430 | returns the lowest id from k to 10 that is unused or whose room is empty, and nothing exactly when there is none |
| Matchmaking.CreateRoom | main.py:528-536 | a new room at the lowest reusable id in 1..10 replaces or adds that entry, touching no other id; nothing happens exactly when every id is held by an occupied room; ids stay distinct and in range |
| Matchmaking.FindOrCreateRoom | main.py:419-436 | the first waiting room is returned with its free slot and the registry is unchanged; failing that, `create_room`'s room with slot 1; failing that, nothing |
| Matchmaking.FindWaitingRoom | main.py:438-443 | returns the first waiting room in insertion order, and nothing exactly when no room waits |
| Matchmaking.FindActiveRoom | main.py:445-450 | returns the first room in insertion order whose game runs, and nothing exactly when no game runs |
| Matchmaking.ActiveRooms | main.py:452-454 | lists exactly the rooms whose game runs; its first entry is the room `find_active_room` returns |
| Matchmaking.FilterKeepsIdsDistinct | main.py:570-575 | dropping rooms keeps ids distinct |
| Matchmaking.LookupMember | main.py:456-458 | with distinct ids, every listed room is what the lookup of its id returns |
| Matchmaking.CleanupEmptyRooms | main.py:570-575 | exactly the rooms without players are removed; every other id maps to the same room as before |
| Matchmaking.CleanupFacts | main.py:570-575 | after the removal, an id maps to its room if that room had players and to nothing otherwise |
| Matchmaking.CleanupLookup | main.py:570-575 | the same statement, for one id |
| Matchmaking.GetStatus | main.py:577-592 | the total counts every room; each listed entry reports an occupied room of the registry, every occupied room is listed, entries follow registry order, and an entry is marked waiting exactly when it has one player and no running game |
| Matchmaking.StatusOf | main.py:583-588 | an entry carries the room's id, observer count and running flag; it lists players exactly when the room is occupied, exactly the held slots, and is marked waiting exactly when one player holds it and no game runs |
| Matchmaking.CleanupKeepsStatus | main.py:570-592 | after `cleanup_empty_rooms` the status lists the same rooms as before, and the total equals the number listed |
| Matchmaking.DrainLobby | main.py:484-515 | when a game runs, the lobby is appended to the first active room's observers and emptied, touching no other room; it is left non-empty only when no game runs; every former lobby member is then in the lobby or watching a running game |
| Matchmaking.DrainLobbyFacts | main.py:484-515 | the lobby ends up empty exactly when it was empty or some game runs, and idle rooms are untouched |
| Matchmaking.Observe | main.py:629-661 | a new observer joins the first active room, touching no other room, or waits in the lobby when no game runs |
| Matchmaking.LeaveLobby | main.py:714-716 | a departing lobby observer's first occurrence is cut out, the others keep their order, an absent one changes nothing, and the rooms are untouched |
| Matchmaking.PlayerLeft | main.py:621-623 | the leaver's room is reset, and removed when it is left without players; every other id maps to the same room as before unless that room was empty; ids stay valid |
| Matchmaking.PlayerLeftRoom | main.py:621-623 | the leaver's room survives, reset, exactly when the other slot was held |
| Matchmaking.PlayerLeftOthers | main.py:621-623 | rooms other than the leaver's survive exactly when they have players |
| Matchmaking.ResetSeat | main.py:258-270 | `disconnect_player` on the room under this id, touching no other id |
| Matchmaking.Deliver | main.py:617-620 | a message changes only its own room as `handle_message` does; when it starts that room's game, the room is stored as `handle_message` left it, the lobby joins the first running room (possibly this one), every other room is untouched, and every lobby observer ends up watching |
| Matchmaking.Commit | main.py:359-360 | storing the changed room and, on request, draining the lobby into the first running room keeps ids valid, leaves every other room untouched and every lobby observer in the lobby or watching |
| Matchmaking.TickRoom | main.py:362-378 | the room ticks and every other room is untouched while the game runs; when the game ends the lobby goes to the first game still running, if any, and no other room changes |
| Matchmaking.LegacyJoin | main.py:723-749 | an id other than 1 or 2 is refused with 4000; a 2 fills the first waiting room's free slot; otherwise a new room is created and the caller gets slot 1, or is refused with 4002 when every id is taken |
| Matchmaking.SecondSeat | main.py:732-742 | joining a waiting room takes its free slot and changes only that room |
| Matchmaking.FirstSeat | main.py:735-740 | the legacy endpoint's new room is entered at slot 1, or the caller is refused with 4002 |
| Matchmaking.Attach | main.py:608 | the player is connected to the room under this id, and no other room changes |
| Matchmaking.SecondLookupBeforeAttach | main.py:419-436 | when no room waits, a second lookup before the first player is attached returns the same seat again |
| Matchmaking.CreateKeepsNoneWaiting | main.py:528-536 | creating a room makes no room waiting |
| Matchmaking.EmptyRoomStaysLowest | main.py:429-430 | a just-created, still empty room is the lowest reusable id again |
| Matchmaking.TwoJoinsOnEmptyServer | main.py:598-608 | on an empty server, two joins whose lookups both run before either attach are both told room 1, slot 1 |
| Matchmaking.JoinRoom | main.py:598-608 | the seat handed out is the one `find_or_create_room` chooses, the joiner holds it, and nobody already seated loses a seat; a refused join changes nothing |
| Matchmaking.FreeSeatFound | main.py:419-436 | the seat chosen is free, and the lookup itself unseats nobody |
| Matchmaking.AttachKeepsSeats | main.py:608 | connecting to a free slot seats the player and unseats nobody |
| Matchmaking.JoinsGetDistinctSeats | main.py:598-608 | with the atomic join, two different players never get the same seat |
| Matchmaking.SeatCountUpdate | main.py:432 | replacing a room changes the seat count by the difference in players |
| Matchmaking.SeatCountAppend | main.py:432 | appending a room adds its players to the seat count |
| Matchmaking.SeatCountOfFullRooms | main.py:227 | rooms that are all full seat two players each |
| Matchmaking.JoinKeepsPacked | main.py:419-436 | after a join, no game runs, every room has one or two players, at most one room is short of a player, and at most one more player is seated |
| Matchmaking.JoinWaitingKeepsPacked | main.py:422-426 | a join into the waiting room fills it and seats exactly one more player |
| Matchmaking.JoinFullKeepsPacked | main.py:428-434 | when every room is full, a join adds at most one room with a single player |
| Matchmaking.NoneWaitingMeansFull | main.py:221-227 | among idle rooms with players, the ones that are not waiting are full |
| Matchmaking.PackedAppend | main.py:432 | appending a one-player room to full rooms keeps them packed |
| Matchmaking.JoinFillsRoom | main.py:422-426 | a join into the first waiting room fills that room in place with two players |
| Matchmaking.JoinAppendsRoom | main.py:428-434 | when every room is full, a join appends one room holding just the newcomer |
| Matchmaking.CreatedAtEnd | main.py:429-433 | when every room is full, the id chosen is unused and the new room goes to the end |
| Matchmaking.JoinAttachesCreated | main.py:602-608 | with no waiting room, the join attaches the player to the created room at slot 1 |
| Matchmaking.AttachLast | main.py:608 | attaching to the last-added room replaces it at the end |
| Matchmaking.JoinAll | main.py:598-608 | joins in sequence keep ids valid |
| Matchmaking.JoinAllKeepsPacked | main.py:419-436 | any run of joins keeps rooms packed and seats at most one player per join |
| Matchmaking.JoinsPairUp | main.py:419-436 | N players joining an empty server occupy at most ceil(N/2) rooms |
| Matchmaking.LeaverForfeitsSession | main.py:258-270 | when player 1 leaves a running game at 2-1, the room stays with player 2 alone, at 0-0 and idle |
| Matchmaking.NextJoinTakesVacatedSeat | main.py:419-426 | after such a departure, when no other room waits, the next join is seated in the vacated slot 1 |
| Matchmaking.PartnerWaits | main.py:258-270 | when one player leaves a full room, the room stays with the other one, waiting and reset |
| Matchmaking.OthersStillNotWaiting | main.py:570-575 | a departure and its cleanup make no other room waiting |
| Matchmaking.OnlyWaitingRoomIsFound | main.py:422-426 | when only one room waits, the lookup seats the newcomer in its free slot |
| Matchmaking.LobbyWatchesFirstGame | main.py:631-651 | an observer who arrives while no game runs waits in the lobby, and watches the room whose game a later message starts |
| Matchmaking.StartedRoomIsFirstActive | main.py:445-450 | when no game ran before, a room whose game has just started is the first active room |

## Left out

- I/O: WebSocket accept, send, receive and close; JSON decoding and `to_dict` serialisation; logging; the startup event; `start.py`. A decoded message is a `Msg` value, and a close is the `Refused` code.
- Rooms.Ready: `ai_difficulty` is taken as an integer. In the source a non-numeric value raises a `TypeError` at main.py:306, after the name (main.py:302) and possibly the mode (main.py:299) were already set; the error is not a `WebSocketDisconnect`, so it ends the endpoint without the disconnect cleanup. That path is not modelled.
- asyncio: tasks, `sleep(TICK_RATE)` and cancellation. One loop iteration is `Rooms.Tick`, and the matchmaking lock is one atomic `FindOrCreateRoom`.
- Process control: `_spawn_bot`, `_stop_bot` and `spawn_bot_vs_bot`, with their environment lookups. The bot is `Option<int>`, its launch difficulty. Whether `Popen` succeeded is the `spawned` parameter. The bot-versus-bot launch for a lone observer is not modelled.
- Randomness: every `random.choice` is a `pick` argument, and `random.randint` for bot difficulties is not modelled. A disconnect or broadcast installs its new game from the caller's `pick`.
- Messages: the `state`, `start`, `gameover`, `waiting`, `joined` and `room_list` messages, and every per-room `room_list` fan-out. The endpoint and game-loop models assume these sends succeed. Failed sends are modelled only by `Rooms.Broadcast`, which is not wired into the endpoint functions.
- The observer endpoint's `switch_room` and `get_rooms` commands (main.py:663-712), and the per-connection `current_room` and `in_lobby` flags. Only the first attach (`Observe`) and the lobby departure (`LeaveLobby`) are modelled.
- `Snake.player_id` and `Game.mode`. Snakes sit in a `Pair` indexed by slot, and the source's mode is always `two_player`.
- Matchmaking.GetStatus: `players` is reported as the set of held slots, while main.py:584 returns `list(room.connections.keys())` in the dict's insertion order; the order in which the two slots were taken is not modelled.
- Rooms.FailedSlots: lists the failed slots in slot order, not in the dict's insertion order. `Rooms.DisconnectPlayersEffect` shows the result does not depend on the order.
- Matchmaking.Valid: this invariant (distinct ids in 1..10) is what a Python dict keyed by id gives for free. Functions that look rooms up by id require it, and every operation preserves it.
- Matchmaking.PlayerLeft: finds the leaver's room by id. The endpoint holds the room object itself, which differs only when a room was replaced under the same id (see Findings).
- Matchmaking.Deliver: finds the sender's room by id, while main.py:620 calls `handle_message` on the room object the endpoint holds; the two differ only in the same replaced-room case.
- Matchmaking.TickRoom: finds the ticking room by id, while the game loop (main.py:364-365) updates `self`; the two differ only in the same replaced-room case.
- Matchmaking.JoinAll: every join in the run uses the same `pick`, which affects only where the food of a new room lies.
- Games.UpdateKeepsFoodFree: assumes at least two free cells remain. On a full board `spawn_food` leaves the eaten food under the snake's head.

## Findings

| source | as written | input that shows it | evidently intended | confidence | as-written member | corrected member |
|---|---|---|---|---|---|---|
| main.py:419-436 | `join_game` attaches the player (main.py:608) only after `find_or_create_room` has released the lock, and a just-created room is still empty, so a second lookup in that window sees the id as reusable and replaces the room | two connections on an empty server, both looking up before either attaches: both are told room 1, slot 1, and the first player's room object is dropped from the registry | lookup and attach happen in one step, so every joiner gets a seat nobody else holds | not executed | Matchmaking.SecondLookupBeforeAttach | Matchmaking.JoinRoom |
