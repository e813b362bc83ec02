# Reaper's Whispers, modelled in Dafny

Reaper's Whispers is a multiplayer hide-and-seek game. One player is the reaper and the others are survivors. The server side holds three separate game engines, and a React client mirrors the game state it is sent. This project models the game logic of all three engines, the puzzle checks and the client's state updaters, and proves properties of them. The modules are:

- `GameRules` (server/models/game.js) covers the 4×4 grid (cells 0..15, row-major) and the game-over and winner queries of the game document. Every helper is a pure function of the roster and status, so none of them can change the players, the status or the board.
- `SessionEngine` (server/socket/gameHandler.js) is the database-backed socket handler.
  - A `GameRecord` is one loaded game document. It is a fresh object per `findOne` and is changed step by step.
  - `GameHandler` holds the database as a map from game id to the stored document. It also holds the started-games cache and the known sockets.
  - Join, start, move and power-up use are each proved against a specification function on documents.
- `MemoryServer` (server/server.js) is the in-memory rule set:
  - a registry (`GameStore`) of live game objects (`LiveGame`), each with a board, pickup cells and a plain round-robin turn;
  - the rejection sampling of pickup cells;
  - `checkWinConditions`.
- `LobbyServer` (server/index.js) is the maze lobby.
  - It holds the active games and the ban lists.
  - It covers join with its ban check, chat, movement attempts on the 8×8 maze and disconnect with host promotion.
- `PuzzleGenerator` and `PuzzleValidator` (server/utils/puzzleGenerator.js and server/utils/puzzleValidator.js) cover:
  - the answer checks a generated puzzle carries;
  - the anagram shuffle;
  - the maze flood of `generateMaze`;
  - `validateAnswer`;
  - `getWordDifficulty`, computed exactly in doubled integers.
- `ClientState` (src/contexts/SocketContext.js) holds the state-update functions the client applies per server event.
- `JsText`, `SeqUtil` and `Wrappers` hold the JavaScript string and array built-ins the code relies on, and an optional value.

Random choices are parameters, with range preconditions or "the choices fit" predicates:

- the reaper index;
- the start-cell picks;
- the pickup draws and the power-up draw;
- the comparator of the shuffle (as a list of swaps);
- the direction order and 70% coins of the maze flood.

The clock is a parameter `now`.

## Model

| member | source | states |
|---|---|---|
| GameRules.JsRem | server/models/game.js:119 | the remainder has the dividend's sign and is smaller than the divisor in magnitude, as JavaScript's `%` |
| GameRules.JsRemCongruent | server/models/game.js:119 | the remainder differs from the dividend by a multiple of the divisor, so with the sign and magnitude bounds it is JavaScript's `%` |
| GameRules.Row | server/models/game.js:118 | `Math.floor(position / 4)`: for the positive divisor, Dafny's Euclidean division rounds down as `Math.floor` does |
| GameRules.Col | server/models/game.js:119 | `position % 4` through `JsRem`, so a negative position has a non-positive column |
| GameRules.GetValidMoves | server/models/game.js:116-128 | a cell has at most four moves |
| GameRules.ValidMovesStayOnGrid | server/models/game.js:116-128 | from a cell in 0..15 every move is a cell in 0..15 other than the start |
| GameRules.ValidMovesAreAdjacentCells | server/models/game.js:116-128 | on the grid, q is a move from p iff q is p±4 or p±1 in the same row |
| GameRules.ValidMovesSymmetric | server/models/game.js:116-128 | q is a move from p iff p is a move from q |
| GameRules.ValidMoveCounts | server/models/game.js:121-127 | corners have 2 moves, other border cells 3, interior cells 4 |
| GameRules.ValidMovesOrder | server/models/game.js:121-125 | the moves are listed up, down, left, right |
| GameRules.FindById | server/models/game.js:108 | the index found holds the id and no earlier entry does; none is found iff nobody has the id |
| GameRules.LivingSurvivors | server/models/game.js:97 | the filter keeps exactly the non-reaper living players |
| GameRules.NoLivingSurvivorIffEmpty | server/models/game.js:97-98 | the filtered list is empty iff no player is a living survivor |
| GameRules.IsGameOver | server/models/game.js:96-99 | the game is over iff it is finished or no living survivor remains |
| GameRules.GetWinner | server/models/game.js:101-105 | no winner unless finished; when finished the reaper wins iff no living survivor remains, otherwise the survivors win |
| GameRules.CanMove | server/models/game.js:107-114 | false for an unknown id; otherwise true iff the player is alive and the target is a move from its position (a null position counts as 0) |
| GameRules.NumericPosition | server/models/game.js:111-112 | the position `getValidMoves` computes with: the stored cell, or 0 for `null`, as JavaScript arithmetic reads it |
| SessionEngine.JoinSpec | server/socket/gameHandler.js:41-68 | rejections in order: started, full (6 players), username taken; each leaves the document unchanged; the join goes through iff the game is waiting, has fewer than 6 players and nobody has the name, and then it appends exactly one player (no reaper, no position, alive, no power-ups) and changes nothing else |
| SessionEngine.NewGameDoc | server/socket/gameHandler.js:27-39 | the document a join creates for an unknown id: hosted by the joiner, waiting, no players, no turn and no winner |
| SessionEngine.NewPlayer | server/socket/gameHandler.js:59-66 | the player a join appends: not a reaper, no position, alive, no power-ups |
| SessionEngine.CountReapers | server/socket/gameHandler.js:101-103 | the number of players flagged as reaper, which StartFromJoinedRosterHasOneReaper brings from 0 to 1 |
| SessionEngine.JoinKeepsNoReaper | server/socket/gameHandler.js:59-68 | joins never add a reaper |
| SessionEngine.AllCells | server/socket/gameHandler.js:247 | the available list is the 16 cells 0..15 in order |
| SessionEngine.AllCellsAreTheGrid | server/socket/gameHandler.js:247 | the available cells are distinct and are exactly the grid cells |
| SessionEngine.Draw | server/socket/gameHandler.js:249-252 | one cell per pick, each from the available list, and distinct when the list is |
| SessionEngine.GetRandomStartPositions | server/socket/gameHandler.js:245-255 | the loop returns the drawn cells: `playerCount` pairwise-distinct cells of the grid |
| SessionEngine.StartSpec | server/socket/gameHandler.js:91-117 | 'Only the host' iff the caller is not the host; 'Need at least 2 players' iff the host has fewer than 2; the start goes through iff the caller is the host of two or more players; a rejection leaves the document unchanged |
| SessionEngine.StartedPlayer | server/socket/gameHandler.js:101-109 | one player after a start: flagged a reaper if it is the picked index (its old flag kept otherwise), placed on its drawn cell |
| SessionEngine.StartedRoster | server/socket/gameHandler.js:101-109 | the roster after a start keeps its length, and player i is StartedPlayer with cell i |
| SessionEngine.StartAcceptedEffects | server/socket/gameHandler.js:101-117 | a start marks the picked player as reaper and leaves the other flags alone; it puts every player on a distinct grid cell, sets the status to playing and gives the turn to player 0 |
| SessionEngine.StartFromJoinedRosterHasOneReaper | server/socket/gameHandler.js:101-103 | starting a roster with no reaper yields exactly one |
| SessionEngine.RestartCanLeaveTwoReapers | server/socket/gameHandler.js:91-103 | start checks neither the status nor old reaper flags, so a restart can leave two reapers |
| SessionEngine.StepMod | server/socket/gameHandler.js:259 | `(i + 1) % n` wraps to 0 after the last index |
| SessionEngine.NextTurnIndex | server/socket/gameHandler.js:257-272 | the turn goes to a valid roster index |
| SessionEngine.Offset | server/socket/gameHandler.js:259-263 | the index k places after the current one, `(cur + k) % n`, which is a valid index and equals the current one iff k is 0 or n |
| SessionEngine.NextTurnFrom | server/socket/gameHandler.js:262-265 | the scan of the `while` loop from offset k: the first living player at offsets k..n-1 after the current one, or the current one when there is none; always a valid index; NextTurnFromFirstLiving states this against the roster |
| SessionEngine.NextTurnFromFirstLiving | server/socket/gameHandler.js:262-265 | the scan from offset k lands on the first living player it meets, and comes back to the start exactly when it meets none |
| SessionEngine.NextTurnIsFirstLivingAfter | server/socket/gameHandler.js:257-272 | the turn stays with the holder iff nobody else is alive, and lands on a living player whenever anybody is alive |
| SessionEngine.EliminateAt | server/socket/gameHandler.js:153-159 | the loop kills exactly the living survivors on the target and leaves every other player unchanged |
| SessionEngine.KillAt | server/socket/gameHandler.js:154-158 | a living survivor standing on the target is marked dead; anyone else is returned unchanged |
| SessionEngine.KillAll | server/socket/gameHandler.js:153-159 | the `forEach` over the roster: the length is kept and every player is replaced by KillAt |
| SessionEngine.MoveSpec | server/socket/gameHandler.js:131-147 | ignored iff not playing or the mover is unknown or dead; 'Not your turn' and 'Invalid move' exactly as the guards say; the move is applied iff the living mover holds the turn and `canMove` allows the target; anything but an applied move leaves the document unchanged |
| SessionEngine.MoveCheck | server/socket/gameHandler.js:134-147 | the first failing check of a move, in the source's order: ignored when the game is not playing or the mover is missing or dead, then 'Not your turn', then 'Invalid move'; Applied when all pass |
| SessionEngine.MovedRoster | server/socket/gameHandler.js:150-159 | the mover's position becomes the target and, when the mover is a reaper, KillAll follows; the length is kept; MoveAcceptedEffects states the effect per player |
| SessionEngine.AppliedDoc | server/socket/gameHandler.js:150-171 | after MovedRoster, the game is finished with GetWinner's verdict when IsGameOver holds, and otherwise the turn goes to NextTurnIndex's player; MoveEndsOrRotates states the outcome |
| SessionEngine.MoveAcceptedEffects | server/socket/gameHandler.js:144-159 | an accepted move takes the turn holder to an adjacent cell; another player dies iff the mover is the reaper and it is a living survivor on the target; nothing else about other players changes |
| SessionEngine.MoveEndsOrRotates | server/socket/gameHandler.js:161-171 | with no living survivor left the game finishes, the reaper wins and the turn stays; otherwise the turn passes to a living player |
| SessionEngine.FindReaper | server/socket/gameHandler.js:202 | the index found is a reaper and no earlier player is; none is found iff nobody is a reaper |
| SessionEngine.UsePowerUpSpec | server/socket/gameHandler.js:183-212 | ignored iff not playing or the user is unknown or dead; 'not available' iff the power-up is not held; 'Failed' iff a non-reaper reveals with no reaper in the roster; used in every other case, removing exactly the first occurrence; 'reveal' by a non-reaper discloses the first reaper's position to the user alone |
| SessionEngine.GameRecord.Load | server/socket/gameHandler.js:25 | a loaded record holds the stored document |
| SessionEngine.GameRecord.Join | server/socket/gameHandler.js:41-68 | the record's verdict and new document are those of `JoinSpec` |
| SessionEngine.GameRecord.Start | server/socket/gameHandler.js:91-117 | the record's verdict and new document are those of `StartSpec` |
| SessionEngine.GameRecord.MoveToNextTurn | server/socket/gameHandler.js:257-272 | the while loop hands the turn to the player `NextTurnIndex` picks |
| SessionEngine.GameRecord.Move | server/socket/gameHandler.js:131-171 | the record's verdict and new document are those of `MoveSpec` |
| SessionEngine.GameRecord.ApplyMove | server/socket/gameHandler.js:149-171 | an accepted move: relocation, kills, then game over or next turn |
| SessionEngine.GameRecord.UsePowerUp | server/socket/gameHandler.js:183-212 | the record's outcome and new document are those of `UsePowerUpSpec` |
| SessionEngine.GameHandler.constructor | server/socket/gameHandler.js:4-8 | no stored games, no cached games, no sockets |
| SessionEngine.GameHandler.HandleJoinGame | server/socket/gameHandler.js:23-81 | an unknown id gets a new waiting game hosted by the joiner; only a successful join is saved and records the socket; no stored game ever exceeds 6 players |
| SessionEngine.GameHandler.HandleStartGame | server/socket/gameHandler.js:83-129 | 'Game not found' for an unknown id; otherwise `StartSpec`; a successful start is saved and cached |
| SessionEngine.GameHandler.HandlePlayerMove | server/socket/gameHandler.js:131-178 | an unknown id is ignored; otherwise `MoveSpec`, saved only when applied |
| SessionEngine.GameHandler.HandleUsePowerUp | server/socket/gameHandler.js:180-221 | an unknown id is ignored; otherwise `UsePowerUpSpec`, saved only when used |
| SessionEngine.GameHandler.HandleRequestValidMoves | server/socket/gameHandler.js:223-237 | moves are offered iff the game is playing and the caller is a living player; they are exactly the targets `canMove` allows; nothing changes |
| SessionEngine.GameHandler.HandleDisconnect | server/socket/gameHandler.js:239-242 | only the socket is forgotten |
| MemoryServer.FindByName | server/server.js:131 | the index found holds the username |
| MemoryServer.FindByNameFirst | server/server.js:131 | the index found is the first with the name; none is found iff nobody has it |
| MemoryServer.FindReaper | server/server.js:225 | the index found is a reaper |
| MemoryServer.FindReaperFirst | server/server.js:225 | the reaper found is the first; none is found iff nobody is a reaper |
| MemoryServer.WellFormedLookups | server/server.js:131-132 | in a stored game the reaper is player 0 and the turn holder is always found, so 'Player not found' cannot occur |
| MemoryServer.JoinSpec | server/server.js:55-66 | a known username changes nothing; otherwise exactly one player is appended: the reaper at cell 0 iff the game was empty, else a survivor at 15, with no power-ups; the board shows the newcomer on that cell |
| MemoryServer.NewGame | server/server.js:41-53 | the game a join creates for an unknown id: no players, an empty board, no turn, not started, no winner, not over, no pickups |
| MemoryServer.Newcomer | server/server.js:57-63 | the player a join creates: the first comer is the reaper at cell 0, a later one a survivor at cell 15, with no power-ups |
| MemoryServer.JoinEstablishesWellFormed | server/server.js:55-66 | after a join the first player is the only reaper, usernames are distinct and the game is not empty |
| MemoryServer.BoardOf | server/server.js:81-86 | every occupied cell of the rebuilt board is some player's position |
| MemoryServer.Homed | server/server.js:82-85 | the `forEach` body of start and reset: the reaper goes to 0 and a survivor to 15, power-ups cleared, name and role kept |
| MemoryServer.HomedAll | server/server.js:82-86 | the whole roster homed: the length is kept and player i becomes Homed of player i |
| MemoryServer.BoardOfLastWriter | server/server.js:82-86 | a player's cell holds that player when no later player stands there |
| MemoryServer.HomedBoard | server/server.js:81-86 | after the players go home the board holds the reaper on 0, the last survivor on 15 when there is one, and nothing else |
| MemoryServer.HarvestExtends | server/server.js:197-200 | the rejection loop only appends to the cells already taken |
| MemoryServer.Acceptable | server/server.js:199 | the `while` test negated: a draw is kept iff it is not taken yet and is neither 0 nor 15 |
| MemoryServer.HarvestAppendsAcceptable | server/server.js:197-200 | every cell the loop appends is a draw, new, and neither 0 nor 15 |
| MemoryServer.Harvest | server/server.js:197-200 | the rejection loop never drops a cell already taken |
| MemoryServer.Pickups | server/server.js:193-203 | three pairwise-distinct cells in 1..14 |
| MemoryServer.GeneratePowerUp | server/server.js:205-208 | the kind is 'shield', 'reveal' or 'speed' |
| MemoryServer.StartSpec | server/server.js:77-91 | every player goes home and loses its power-ups, with names and roles kept; the board is rebuilt from the positions; player 0 has the turn; the game is started with no winner and three fresh pickup cells |
| MemoryServer.ResetSpec | server/server.js:101-115 | as start, but with no turn, not started and no pickup cells |
| MemoryServer.StartKeepsWellFormed | server/server.js:75-97 | starting keeps a stored game well formed |
| MemoryServer.ResetKeepsWellFormed | server/server.js:99-121 | resetting keeps a stored game well formed |
| MemoryServer.Survivors | server/server.js:226 | the filter keeps exactly the non-reapers |
| MemoryServer.CheckWinVerdicts | server/server.js:224-248 | the reaper wins iff a survivor shares its cell; the survivors win iff there is no survivor at all, because the per-survivor condition is constantly false |
| MemoryServer.CheckWin | server/server.js:224-248 | the verdict of `checkWinConditions` on a roster with a reaper: the reaper wins when a survivor shares its cell, otherwise the survivors win when there is no survivor, otherwise nobody has won; CheckWinVerdicts states this against the roster |
| MemoryServer.AnyAt | server/server.js:229-235 | the survivor loop's test: some player of the list stands on the cell |
| MemoryServer.AnyAtMeans | server/server.js:229-235 | the recursive test holds iff some index of the list holds a player on the cell |
| MemoryServer.RelocateEffects | server/server.js:134-145 | the mover stands on the target in the roster and on the board; its old cell is emptied and every other player and cell is unchanged; landing on a pickup adds exactly one power-up and retires that cell |
| MemoryServer.TurnGuard | server/server.js:127-132 | the first failing check on a found game, in the source's order: not started, over, not this user's turn, unknown user; Ok when all pass |
| MemoryServer.Relocate | server/server.js:134-145 | the mover's old cell is cleared and the mover is written on the target; a pickup there adds the drawn power-up and is removed from the pickup list; RelocateEffects states this field by field |
| MemoryServer.PassTurn | server/server.js:147-154 | CheckWin's verdict ends the game with that winner; when nobody has won, the turn goes to the player after the mover, wrapping round; MoveEndsOrPasses states the outcome |
| MemoryServer.MoveSpec | server/server.js:125-132 | the reply is the first failing guard (not started, over, not your turn, player not found) and a failure changes nothing; there is no adjacency or bounds check |
| MemoryServer.MoveRelocates | server/server.js:131-145 | an accepted move leaves the roster, board and pickups of the mover's relocation |
| MemoryServer.MoveSpecApplied | server/server.js:134-154 | an accepted move is Relocate of the turn holder followed by PassTurn, and the relocated roster still has a reaper |
| MemoryServer.PassTurnOutcome | server/server.js:147-154 | on a running game, PassTurn keeps the roster; the game ends iff CheckWin finds a winner and then keeps the turn, else the turn passes to the next index |
| MemoryServer.MoveEndsOrPasses | server/server.js:147-154 | the game ends exactly when the win check finds a winner, keeping the turn; otherwise the turn passes to `(i + 1) mod n`, with no skipping |
| MemoryServer.LoneReaperLosesOnMove | server/server.js:238-247 | a reaper alone in the game hands the survivors the win with any move |
| MemoryServer.MoveKeepsWellFormed | server/server.js:123-160 | moves keep a stored game well formed |
| MemoryServer.UsePowerUpSpec | server/server.js:164-177 | the same guards, then 'Power-up not found' iff it is not held; otherwise exactly the first occurrence is removed and nothing else changes |
| MemoryServer.UsePowerUpKeepsWellFormed | server/server.js:162-186 | using a power-up keeps a stored game well formed |
| MemoryServer.GeneratePowerUps | server/server.js:193-203 | the three rejection loops return the first three acceptable draws: three distinct cells in 0..15, neither 0 nor 15 |
| MemoryServer.DrawPickup | server/server.js:196-200 | one `do … while` loop stops on the first acceptable draw, and the draws left continue the same harvest |
| MemoryServer.HarvestAtEnd | server/server.js:197-199 | with no draws left nothing is appended |
| MemoryServer.HarvestSkips | server/server.js:197-199 | a rejected draw is passed over |
| MemoryServer.HarvestKeeps | server/server.js:197-200 | an acceptable draw is appended |
| MemoryServer.LiveGame.constructor | server/server.js:42-51 | a new game: no players, empty board, no turn, not started, no pickups |
| MemoryServer.LiveGame.Join | server/server.js:55-66 | the object's new state is `JoinSpec` of its old state |
| MemoryServer.LiveGame.Rehome | server/server.js:81-86 | the `forEach` sends every player home and rebuilds the board from them |
| MemoryServer.LiveGame.StartNewGame | server/server.js:81-91 | the object's new state is `StartSpec` of its old state |
| MemoryServer.LiveGame.Reset | server/server.js:105-115 | the object's new state is `ResetSpec` of its old state |
| MemoryServer.LiveGame.MoveTo | server/server.js:134-145 | the board and roster writes of a move, as `Relocate` |
| MemoryServer.LiveGame.CheckWinConditions | server/server.js:224-248 | the loop and the `every` test set the winner and game-over flag to the verdict of `CheckWin`, and leave them alone when nobody has won |
| MemoryServer.LiveGame.MovePlayer | server/server.js:125-154 | the reply and new state are those of `MoveSpec` |
| MemoryServer.LiveGame.FinishMove | server/server.js:147-154 | the win check, then the next turn when the game goes on |
| MemoryServer.LiveGame.UsePowerUp | server/server.js:164-177 | the reply and new state are those of `UsePowerUpSpec` |
| MemoryServer.FoundGame | server/server.js:41-53 | a new object under the id, holding a well-formed game with the joiner in it |
| MemoryServer.GameStore.constructor | server/server.js:34 | no games |
| MemoryServer.GameStore.JoinGame | server/server.js:37-73 | the id is stored afterwards; its game is `JoinSpec` of the old game or of a new one; other games are untouched; every stored game stays well formed and is held under one id only |
| MemoryServer.GameStore.JoinCreated | server/server.js:41-53 | an unknown id gets a new game with the joiner in it; other games are untouched |
| MemoryServer.GameStore.JoinExisting | server/server.js:55-66 | a join changes the game it names and no other |
| MemoryServer.GameStore.StartNewGame | server/server.js:75-97 | 'Game not found' for an unknown id; otherwise that game alone becomes `StartSpec` of itself |
| MemoryServer.GameStore.ResetGame | server/server.js:99-121 | 'Game not found' for an unknown id; otherwise that game alone becomes `ResetSpec` of itself |
| MemoryServer.GameStore.MovePlayer | server/server.js:123-160 | 'Game not found' for an unknown id; otherwise `MoveSpec` on that game alone |
| MemoryServer.GameStore.UsePowerUp | server/server.js:162-186 | 'Game not found' for an unknown id; otherwise `UsePowerUpSpec` on that game alone |
| LobbyServer.BlankMaze | server/index.js:40 | an 8×8 maze of zeros |
| LobbyServer.CarveOpens | server/index.js:46-48 | the listed cells become 1 and every other cell is unchanged |
| LobbyServer.Carve | server/index.js:46-48 | the `forEach` that writes 1 at each listed cell in order; the result is still an 8×8 grid; CarveOpens states which cells it opens |
| LobbyServer.CarveAt | server/index.js:46-48 | one cell of the carved maze: 1 when listed, its old value otherwise |
| LobbyServer.InitialMaze | server/index.js:40-48 | a new game's maze is an 8×8 grid |
| LobbyServer.InitialMazePaths | server/index.js:40-48 | a new maze is 1 exactly on the eight listed cells and 0 elsewhere |
| LobbyServer.InitialMazeNearStart | server/index.js:46-48 | (0,0) and (0,1) are open and (1,0) is a wall |
| LobbyServer.FindPlayer | server/index.js:74 | the entry found is under the id; none is found iff no entry has it |
| LobbyServer.FindPlayerFirst | server/index.js:74 | the entry found is the first under the id |
| LobbyServer.SetPlayer | server/index.js:52-58 | `Map.set`: the map grows by one iff the key is new; every entry under another key keeps its value and place; the new value sits at the old key's place, or last for a new key |
| LobbyServer.SetPlayerKeepsMap | server/index.js:52-58 | the keys stay distinct and gain exactly the new id; the entry under it is the new player, found where the old one was; every other entry keeps its value and place |
| LobbyServer.WithoutId | server/index.js:107 | no entry under the id is left |
| LobbyServer.WithoutIdRemovesEntry | server/index.js:107 | `delete` removes exactly the entry's position and keeps the order of the rest |
| LobbyServer.WithoutIdAbsent | server/index.js:107 | deleting an absent id changes nothing |
| LobbyServer.WithoutIdKeepsDistinct | server/index.js:107 | deleting keeps the keys distinct |
| LobbyServer.JoinSpec | server/index.js:27-68 | refused iff the socket is banned from the game, which then changes nothing; otherwise the game is stored and no other game changes; the ban lists never change |
| LobbyServer.IsBanned | server/index.js:29 | `bannedPlayers.get(gameId)?.has(socket.id)`: the game has a ban entry and it holds the socket id |
| LobbyServer.NewLobbyGame | server/index.js:36-49 | the game a join creates for an unknown id: no players, hosted by the joiner, the initial maze, no messages and no mutes |
| LobbyServer.Arrival | server/index.js:52-58 | the entry a join stores: the socket id and username at (0,0) with 3 lives and no powerups |
| LobbyServer.JoinStoresArrival | server/index.js:34-58 | the joiner's entry is at (0,0) with 3 lives and no power-ups; a rejoin overwrites the entry in place and keeps every other entry where it was; a newcomer goes last; a new game has the joiner as host, the initial maze, no messages and nobody muted |
| LobbyServer.JoinKeepsValid | server/index.js:27-68 | joining keeps every game well formed (own id, distinct players, host among them, 8×8 maze) |
| LobbyServer.SendMessageSpec | server/index.js:70-83 | ignored iff the game is unknown or the sender muted; an unknown sender fails with nothing written; accepted iff the game exists and the sender is a player who is not muted, and then exactly one message from the sender's username is appended and nothing else changes |
| LobbyServer.SendMessageKeepsValid | server/index.js:70-83 | chat keeps every game well formed |
| LobbyServer.Target | server/index.js:90-93 | right/left change x by ±1, down/up change y by ±1, anything else stays put |
| LobbyServer.TargetFromStart | server/index.js:90-93 | the four directions lead from (0,0) to (0,1), (1,0), (-1,0) and (0,-1) |
| LobbyServer.MovementAttemptSpec | server/index.js:85-102 | a challenge is issued iff the player is in the game and the target is inside the maze on a path cell; it names that target |
| LobbyServer.ChallengesFromStart | server/index.js:85-102 | from (0,0) in the initial maze only "down" is challenged; right, left and up are not; any other string is challenged at (0,0) |
| LobbyServer.DisconnectSpec | server/index.js:104-121 | the socket leaves every game; exactly the games it empties are deleted with their ban entries; the rest keep their messages, mutes and bans |
| LobbyServer.Leave | server/index.js:106-113 | the entry under the socket id is deleted, and a leaving host is replaced by the first remaining entry when there is one; LeavePromotesFirst states this |
| LobbyServer.VisitGame | server/index.js:105-119 | one turn of the disconnect loop: a game without the socket is left alone, a game it empties is deleted with its ban entry, any other game becomes Leave of it |
| LobbyServer.DisconnectPromotesFirst | server/index.js:110-113 | a departing host is replaced by the first remaining player in insertion order; any other host stays; the game stays well formed |
| LobbyServer.LeavePromotesFirst | server/index.js:106-113 | leaving a game that keeps players keeps it well formed and hands a vacated host role to the first player left |
| LobbyServer.DisconnectKeepsValid | server/index.js:104-121 | disconnecting keeps every game well formed |
| LobbyServer.Lobby.constructor | server/index.js:21-22 | no games and no bans |
| LobbyServer.Lobby.JoinGame | server/index.js:27-68 | the reply and new maps are those of `JoinSpec` |
| LobbyServer.Lobby.SendMessage | server/index.js:70-83 | the reply and new maps are those of `SendMessageSpec` |
| LobbyServer.Lobby.MovementAttempt | server/index.js:85-102 | the challenge is that of `MovementAttemptSpec` and nothing changes |
| LobbyServer.Lobby.Disconnect | server/index.js:104-121 | the loop over all games, in any order, leaves `DisconnectSpec` |
| LobbyServer.Lobby.LeaveGame | server/index.js:106-119 | one turn of the loop on one game |
| PuzzleGenerator.WordChainContinues | server/utils/puzzleGenerator.js:46-49 | any continuation of the base word's last two letters is accepted; nothing under three letters is; an accepted input begins with those two letters up to case |
| PuzzleGenerator.Words | server/utils/puzzleGenerator.js:12-17 | the word list of each of the four categories, as listed |
| PuzzleGenerator.WordChainAccepts | server/utils/puzzleGenerator.js:46-49 | the WORD_CHAIN closure: the lower-cased input starts with the base word's last two characters lower-cased, and the input is at least three long; WordChainContinues states its meaning |
| PuzzleGenerator.AnagramAccepts | server/utils/puzzleGenerator.js:56 | the ANAGRAM closure: the input equals the word up to case; AnagramAcceptsWord states its meaning |
| PuzzleGenerator.RhymeAccepts | server/utils/puzzleGenerator.js:63-69 | the RHYME closure: Metaphone's `compare` holds between the raw last two characters of the base word and of the input, and the input is not the base word up to case |
| PuzzleGenerator.CategoryAccepts | server/utils/puzzleGenerator.js:77-79 | the CATEGORY closure: the lower-cased input is on the chosen category's list; CategoryAcceptsListed states its meaning |
| PuzzleGenerator.Apply | server/utils/puzzleGenerator.js:46-79 | `puzzle.validate(input)`: the closure the puzzle was built with, applied to the input |
| PuzzleGenerator.ChecksIgnoreCase | server/utils/puzzleGenerator.js:46-79 | the word chain, anagram and category checks give the same verdict on an input and its lower case; the rhyme check does whenever Metaphone's `compare` ignores the case of its second word |
| PuzzleGenerator.AnagramAcceptsWord | server/utils/puzzleGenerator.js:56 | the word is accepted in any case, and the check is symmetric |
| PuzzleGenerator.CategoryAcceptsListed | server/utils/puzzleGenerator.js:77-79 | every listed word is accepted; a lower-case input is accepted iff it is listed |
| PuzzleGenerator.ShuffleWord | server/utils/puzzleGenerator.js:29-31 | the shuffle is a permutation: same length, same letters |
| PuzzleGenerator.MazeBuilder.constructor | server/utils/puzzleGenerator.js:88-89 | a size×size maze of zeros and no puzzles |
| PuzzleGenerator.MazeBuilder.GeneratePath | server/utils/puzzleGenerator.js:92-106 | it stays in bounds, only adds marks, marks the start cell with a puzzle when it is on the grid, and does nothing off the grid or on a marked cell; every cell it marks is reached from the start by steps the coins chose, passing only through cells it marks, and every step a marked cell's coins choose leads off the grid or to a marked cell; each cell holds 0 or 1 and has a puzzle iff it is 1 |
| PuzzleGenerator.MazeBuilder.TryStep | server/utils/puzzleGenerator.js:101-105 | one turn of the `for` loop: when the coin says so, the step's cell ends up marked or lies off the grid; the cells marked are reached from the current cell through cells marked by this turn, and only marks are added |
| PuzzleGenerator.StepFrom | server/utils/puzzleGenerator.js:98-103 | the cell `(x + dx, y + dy)` that direction d of `directions` leads to |
| PuzzleGenerator.GenerateMaze | server/utils/puzzleGenerator.js:87-112 | the size defaults to 8; fails iff size is 0; otherwise a size×size grid of 0/1 with both corners open, where (0,0) and every open cell but the end cell has a puzzle, every puzzle cell is reached from (0,0) by steps the coins chose through puzzle cells, and every such step from a puzzle cell leads off the grid or to a puzzle cell |
| PuzzleValidator.CategoryOf | server/utils/puzzleGenerator.js:12-17 | `categories[name]` is the category with that key, and absent for any other name |
| PuzzleValidator.CategoryKey | server/utils/puzzleGenerator.js:12-17 | the key each category has in the `categories` object |
| PuzzleValidator.CategoryKeyLookup | server/utils/puzzleGenerator.js:12-17 | every category is found under its own key |
| PuzzleValidator.Generated | server/utils/puzzleGenerator.js:36-80 | a generated puzzle carries its `validate` function |
| PuzzleValidator.Screen | server/utils/puzzleValidator.js:5-14 | an answer passes iff the puzzle and a non-empty answer are given and the cleaned answer has two or more letters, all a-z; it goes on cleaned |
| PuzzleValidator.Clean | server/utils/puzzleValidator.js:8 | cleaning never lengthens the answer |
| PuzzleValidator.ValidateAnswer | server/utils/puzzleValidator.js:4-43 | false on failed guards; the puzzle's own `validate` when it has one; true only for a screened answer; it throws iff a screened answer meets a typed puzzle without `validate` that lacks `answer` (word chain, anagram, rhyme) or `category` (category) |
| PuzzleValidator.DefaultChecks | server/utils/puzzleValidator.js:22-42 | without `validate`, the verdict is exactly: a word chain needs three letters continuing the answer's last two; an anagram equals the answer; a rhyme ends in the same two Metaphone symbols as the answer (`process` of the whole words) and differs from it; a list category contains the answer; an unknown type fails |
| PuzzleValidator.Stripped | server/utils/puzzleValidator.js:17-19 | the puzzle after JSON serialisation, on which the `typeof puzzle.validate === 'function'` test fails: no `validate`, with type, answer and category kept |
| PuzzleValidator.CategoryIncludes | server/utils/puzzleValidator.js:38 | `puzzle.category.includes(cleanAnswer)`: list membership for a word list, a substring test for a name |
| PuzzleValidator.CodesRhyme | server/utils/puzzleValidator.js:31-33 | the last two symbols of Metaphone's `process` codes of the two whole words are equal |
| PuzzleValidator.ByType | server/utils/puzzleValidator.js:22-42 | the `switch` on the puzzle type: the word-chain, anagram, rhyme and category verdicts, `None` where a missing field is read, and false for any other type; DefaultChecks states each case as an equality |
| PuzzleValidator.CleanOfLowerWord | server/utils/puzzleValidator.js:8 | a word of a-z only is its own cleaned form |
| PuzzleValidator.ScreenPassesLowerWord | server/utils/puzzleValidator.js:5-14 | a word of two or more letters a-z passes the guards unchanged |
| PuzzleValidator.GeneratedCategoryVerdict | server/utils/puzzleValidator.js:17-19 | a generated category puzzle checks its word list |
| PuzzleValidator.StrippedCategoryVerdict | server/utils/puzzleValidator.js:36-38 | the same puzzle without `validate` searches the category's name as a string |
| PuzzleValidator.NamedCategoryByType | server/utils/puzzleValidator.js:36-38 | a category given by name is a substring test on the name |
| PuzzleValidator.AnimalsNameSearch | server/utils/puzzleValidator.js:38 | "animals" contains "an" but not "lion" |
| PuzzleValidator.AnimalsList | server/utils/puzzleGenerator.js:13 | "lion" is on the animals list and "an" is not |
| PuzzleValidator.NamedCategoryIsSubstringTest | server/utils/puzzleValidator.js:36-38 | as written, the animals puzzle without `validate` rejects "lion", which its own function accepts, and accepts "an" |
| PuzzleValidator.IntendedByType | server/utils/puzzleValidator.js:36-38 | corrected: a named category is looked up in `categories`, an unknown name fails, and every other type is checked as written |
| PuzzleValidator.ValidateAnswerIntended | server/utils/puzzleValidator.js:4-43 | corrected `validateAnswer`: the same guards, and the same verdict whenever `validate` is present |
| PuzzleValidator.IntendedCategoryVerdict | server/utils/puzzleValidator.js:36-38 | corrected: the puzzle without `validate` checks the word list again |
| PuzzleValidator.NamedCategoryLookedUp | server/utils/puzzleValidator.js:36-38 | corrected: the animals puzzle without `validate` accepts "lion" and rejects "an" |
| PuzzleValidator.StrippedAgreesWithValidate | server/utils/puzzleValidator.js:16-42 | corrected: a generated word chain, anagram or category puzzle that lost `validate` is judged as its function judges it, for every answer |
| PuzzleValidator.StrippedRhymeAgreement | server/utils/puzzleValidator.js:31-33 | a generated rhyme puzzle that lost `validate` is judged as its function judges an answer iff the guards reject it, the closure's `compare` of the last two letters agrees with the `switch`'s comparison of the last two symbols of the whole words' `process` codes, or the answer is the base word |
| PuzzleValidator.ClusterCountBound | server/utils/puzzleValidator.js:63-64 | each cluster takes at least three letters |
| PuzzleValidator.IsUncommon | server/utils/puzzleValidator.js:59-60 | the letters of `'jkqxz'` |
| PuzzleValidator.IsConsonant | server/utils/puzzleValidator.js:63 | the class `[bcdfghjklmnpqrstvwxyz]`: a lower-case letter other than a, e, i, o, u |
| PuzzleValidator.UncommonCount | server/utils/puzzleValidator.js:60 | the number of letters of the word among j, k, q, x, z, never more than its length |
| PuzzleValidator.RunLength | server/utils/puzzleValidator.js:63 | the length of the run of consonants a greedy match takes at the start: every letter in it is a consonant and the next one is not |
| PuzzleValidator.ClusterCount | server/utils/puzzleValidator.js:63 | the match count of the global cluster regex, computed by stepping over whole runs of consonants; ClusterCountIsStarts equates it with the number of maximal runs of three or more |
| PuzzleValidator.ClusterCountCountsStarts | server/utils/puzzleValidator.js:63-64 | from a point outside a consonant run, the greedy matches are the starts of maximal runs of three or more |
| PuzzleValidator.ClusterCountIsStarts | server/utils/puzzleValidator.js:63-64 | the matches of `/[bcdfghjklmnpqrstvwxyz]{3,}/g` are exactly the maximal runs of three or more consonants |
| PuzzleValidator.WordDifficulty | server/utils/puzzleValidator.js:54-67 | at most 10; exactly 10 iff the doubled score is 19 or more; otherwise the score rounded half up, as `Math.round` |
| PuzzleValidator.DoubledScore | server/utils/puzzleValidator.js:56-64 | twice the unrounded score, `length + 4 * uncommon + 3 * clusters`, so each half-point term becomes an integer |
| PuzzleValidator.DifficultyBounds | server/utils/puzzleValidator.js:54-67 | the score is at least half the length rounded up (capped at 10) and at most three times the length; 19 or more letters score 10 |
| ClientState.DropPlayer | src/contexts/SocketContext.js:44 | the filter keeps exactly the players without the id, and nothing new |
| ClientState.MovePlayer | src/contexts/SocketContext.js:65-67 | the list keeps its length and order; each player with the id is the same record with only the position replaced, and every other player is unchanged |
| ClientState.DropPlayerAppend | src/contexts/SocketContext.js:44 | the filter keeps the remaining players in order |
| ClientState.DropPlayerAbsent | src/contexts/SocketContext.js:44 | dropping an id nobody has changes nothing |
| ClientState.PlayerJoined | src/contexts/SocketContext.js:33-39 | players and messages are replaced; bans, mutes and the puzzle stay |
| ClientState.PlayerRemoved | src/contexts/SocketContext.js:41-46 | no player with the id remains, every other player stays, nobody is added, and the other fields stay |
| ClientState.NewMessage | src/contexts/SocketContext.js:48-53 | exactly one message is appended at the end; nothing else changes |
| ClientState.PuzzleChallenge | src/contexts/SocketContext.js:55-60 | the puzzle becomes current; nothing else changes |
| ClientState.PlayerMoved | src/contexts/SocketContext.js:62-69 | only the positions of the players with the id change; length, order and the other fields are kept |
| ClientState.PlayerBanned | src/contexts/SocketContext.js:78-84 | the players go as in `playerLeft` and the id is appended to the banned list |
| ClientState.PlayerUnbanned | src/contexts/SocketContext.js:86-91 | the banned list loses every occurrence of the id and nothing else; players stay |
| ClientState.PlayerMuted | src/contexts/SocketContext.js:93-98 | the id is appended, even when it is already there |
| ClientState.PlayerUnmuted | src/contexts/SocketContext.js:100-105 | the muted list loses every occurrence of the id and nothing else |
| ClientState.RemovalKeepsOrder | src/contexts/SocketContext.js:71-76 | removal keeps the other players in order, and a second removal does nothing |
| ClientState.RemovingStrangerChangesNothing | src/contexts/SocketContext.js:62-76 | removing or moving an id no player has leaves the state as it was |
| ClientState.LastMoveWins | src/contexts/SocketContext.js:62-69 | a later move of the same player overrides an earlier one |
| ClientState.BanThenUnban | src/contexts/SocketContext.js:78-91 | unbanning clears the id from the banned list but does not bring the player back |
| ClientState.UnmuteUndoesMutes | src/contexts/SocketContext.js:93-105 | after any number of mutes of an id, one unmute leaves the state that unmuting alone would |
| JsText.TrimCuts | server/utils/puzzleValidator.js:8 | `trim` leaves a slice, with only white space cut off on either side |
| JsText.IsJsSpace | server/utils/puzzleValidator.js:8 | the characters `trim` removes: the white space and line terminators of ECMAScript |
| JsText.SkipForward | server/utils/puzzleValidator.js:8 | the first index at or after i whose character is not white space, or the length; never before i |
| JsText.SkipForwardStops | server/utils/puzzleValidator.js:8 | everything SkipForward passes over is white space, and it stops on a character that is not |
| JsText.SkipBackward | server/utils/puzzleValidator.js:8 | the end of the prefix up to j once its trailing white space is dropped; never after j |
| JsText.SkipBackwardStops | server/utils/puzzleValidator.js:8 | everything SkipBackward drops is white space, and it stops after a character that is not |
| JsText.TrimStart | server/utils/puzzleValidator.js:8 | the leading white space cut off: the result is a suffix of the input |
| JsText.TrimEnd | server/utils/puzzleValidator.js:8 | the trailing white space cut off: the result is a prefix of the input |
| JsText.TrimEdges | server/utils/puzzleValidator.js:8 | what `trim` leaves neither starts nor ends with white space |
| JsText.TrimIdempotent | server/utils/puzzleValidator.js:8 | trimming twice is trimming once |
| JsText.TrimKeeps | server/utils/puzzleValidator.js:8 | a string with no white space at either end is its own trim |
| JsText.Trim | server/utils/puzzleValidator.js:8 | `trim` never lengthens a string |
| JsText.LowerChar | server/utils/puzzleValidator.js:8 | the lower case is a letter a-z iff the character is A-Z, a-z or the Kelvin sign |
| JsText.Lower | server/utils/puzzleValidator.js:8 | `toLowerCase` keeps the length and maps each character on its own |
| JsText.LowerIdempotent | server/utils/puzzleValidator.js:8 | lower-casing twice is lower-casing once |
| JsText.LowerOfLowerWord | server/utils/puzzleValidator.js:14 | a word of a-z only is its own lower case |
| JsText.LastTwo | server/utils/puzzleValidator.js:24 | `slice(-2)` is the last two characters, or all of a shorter string |
| JsText.IsLowerWord | server/utils/puzzleValidator.js:14 | `/^[a-z]+$/.test(s)`: at least one character, and every character is in a-z |
| JsText.StartsWith | server/utils/puzzleValidator.js:24 | `startsWith`: the prefix is no longer than the string and equals its first characters |
| JsText.Includes | server/utils/puzzleValidator.js:38 | string `includes`: the part occurs in the text at some index |
| SeqUtil.IndexOf | server/server.js:173 | the first index holding the value, and -1 iff it is absent |
| SeqUtil.RemoveAt | server/server.js:177 | `splice(k, 1)` drops the element at k and shifts the rest down |
| SeqUtil.RemoveAtMultiset | server/server.js:177 | the splice removes exactly one copy of that element |
| SeqUtil.RemoveAtDistinct | server/socket/gameHandler.js:251 | splicing a distinct list keeps it distinct, without the removed element |
| SeqUtil.WithoutAppend | src/contexts/SocketContext.js:89 | the filter keeps the survivors in order |
| SeqUtil.WithoutAbsent | server/server.js:144 | filtering out an absent value changes nothing |
| SeqUtil.WithoutMembers | server/server.js:144 | the filter keeps exactly the elements other than the value |
| SeqUtil.Without | server/server.js:144 | the filter never lengthens the list |
| SeqUtil.WithoutMultiset | src/contexts/SocketContext.js:103 | the filter removes every occurrence and keeps every other count |

## Left out

- Transport and persistence are not modelled: Socket.IO `emit`/`join`/`to`, Express, the MongoDB connection and the `broadcastGameState` payloads. A handler's reply is its verdict or error value.
  - `findOne` and `save` are a fresh record loaded from a map, and the record written back to that map.
  - The async interleavings of concurrent handlers are left out. So is the second registration of the session handler on the same `io` (server/server.js:251-252). Both engines then handle the four events they both register: `joinGame`, `movePlayer`, `usePowerUp` and `disconnect`. `startGame` and `requestValidMoves` reach only the session engine, and `startNewGame` and `resetGame` only the in-memory engine. Each engine is modelled alone.
- The turn timers (`startTurnTimer` and `handleTurnTimeout`, server/socket/gameHandler.js:274-288) are left out: they are `setTimeout` callbacks on a stale document. A timeout would be one call of `SessionEngine.GameRecord.MoveToNextTurn`.
- Randomness becomes parameters:
  - the reaper index;
  - the start-cell picks (indexes into the shrinking list);
  - the pickup draws, modelled as a finite draw sequence that holds three acceptable cells;
  - the power-up kind;
  - the shuffle's comparator, as a list of swaps, so only "some permutation" is claimed;
  - the order of the maze flood's directions and its 70% coins.
- The clock is a parameter `now`. It serves for both `Date.now()` and `new Date()`, and `startTime` and `timeLimit` of the turn are not modelled.
- WordNet and Metaphone are left out. `getRandomWord`, `isRealWord` (which refers to an undefined `wordnet`) and the prompt strings are not modelled.
  - The two Metaphone calls of the rhyme checks are parameters (`PuzzleGenerator.Metaphone`). The closure calls `compare` on the raw last two letters of the base word and the input. The `switch` compares the last two symbols of `process` on the whole words. Nothing is assumed about either function, so the two rhyme checks can disagree.
  - `generatePuzzle` is modelled only as the puzzle it builds around a check (`PuzzleValidator.Generated`). Its random type, its float `difficulty` and the unresolved promise `movementAttempt` sends are not modelled. `LobbyServer.Lobby.MovementAttempt` returns the challenged cell instead.
- `puzzle.type` is a datatype (the four names, or `OtherType` for any string that is none of them), and `puzzle.category` is a word list or a name. Values of other JavaScript types are not modelled, and neither are an `answer` that is not a string or a `validate` that is not a function.
- `JsText.Lower` maps A-Z and the Kelvin sign (U+212A) to a-z and keeps every other character. Full Unicode lower-casing is not modelled. The cleaned answer is then tested against `[a-z]+`, and no other character lower-cases into a string of a-z letters only. Strings are sequences of characters, not of UTF-16 code units.
- `applyPowerUpEffect` (server/server.js:210-222) and the 'shield' and 'speed' cases of the session engine have empty bodies, so they are not modelled.
- In server/server.js the board holds the username of the player object written there, and an absent key is `null`. Writes at positions outside 0..15 are map entries.
- `MemoryServer.MoveSpec` requires a reaper in the roster when the guards pass. `checkWinConditions` would throw on a missing reaper after the board was already changed. Every stored game has its reaper at index 0 (`MemoryServer.WellFormedLookups`).
- `MemoryServer.LiveGame.StartNewGame` requires a non-empty roster. The source would throw at `players[0]` after rehoming. Every stored game has a player, because it is created by a join.
- `SessionEngine.GameRecord.MoveToNextTurn` requires the turn holder to be in the roster, so the source's `findIndex` result of -1 is not modelled. Its modelled caller, `SessionEngine.GameRecord.ApplyMove`, has just found the holder there. The other caller, `handleTurnTimeout` (server/socket/gameHandler.js:281-288), is left out; there too the holder is in the roster, because no handler of the session engine removes players.
- `SessionEngine.GameHandler.HandleStartGame` requires the random choices to fit the roster. It also does not model the `new Date()` of the turn.
- `GameRules.GetValidMoves` states only that there are at most four moves. Which moves there are, and in what order, is stated by `GameRules.ValidMovesStayOnGrid`, `GameRules.ValidMovesAreAdjacentCells`, `GameRules.ValidMoveCounts` and `GameRules.ValidMovesOrder`.
- `JsText.Trim` states only that the result is no longer than its input. What it cuts is stated by `JsText.TrimCuts`, `JsText.TrimEdges`, `JsText.TrimIdempotent` and `JsText.TrimKeeps`.
- `PuzzleValidator.Clean` states only that the result is no longer than its input. Its meaning on words follows from `PuzzleValidator.CleanOfLowerWord` and the `JsText` lemmas.
- `SeqUtil.Without` states only that the result is no longer than its input. Which elements it keeps is stated by `SeqUtil.WithoutMembers`, `SeqUtil.WithoutMultiset`, `SeqUtil.WithoutAppend` and `SeqUtil.WithoutAbsent`.
- `MemoryServer.Harvest` states only that it keeps the cells already taken. What it appends is stated by `MemoryServer.HarvestExtends` and `MemoryServer.HarvestAppendsAcceptable`.
- `SessionEngine.NextTurnIndex` states only that the result is a valid index. Which player it picks is stated by `SessionEngine.NextTurnIsFirstLivingAfter`.
- `LobbyServer.InitialMaze` states only that the result is an 8×8 grid. Its contents are stated by `LobbyServer.InitialMazePaths`.
- `MemoryServer.FindByName` states only that the index holds the name. That it is the first, and that none is found iff nobody has the name, is `MemoryServer.FindByNameFirst`.
- `MemoryServer.FindReaper` states only that the index is a reaper. That it is the first, and that none is found iff nobody is one, is `MemoryServer.FindReaperFirst`.
- `MemoryServer.GameStore.JoinGame` creates the object and joins it before storing it. The source stores it first, but nothing can observe the difference.
- In server/index.js the game objects are values. A handler replaces the entry it changes, so aliasing of game objects is not modelled.
  - The unused `puzzles` map of a lobby game is left out.
  - `disconnect` visits the games in any order. The result does not depend on the order.
- `LobbyServer.SendMessageSpec` models an unknown sender as `SenderUnknown` with nothing written. In the source, `player.username` throws outside any `try`.
- `generateMaze` with a negative size is not modelled, because the size is a `nat`. Its default of 8 is kept as a default parameter, placed after the random choices. With size 0 the write to the end cell throws, and the result is `None`.
- In src/contexts/SocketContext.js the `connect` and `error` listeners only log, so they are not modelled. The `socket?.emit` wrappers are I/O and are not modelled either.
- The React components, the player schema and the front-end launcher are not modelled.

## Findings

| source | as written | input that shows it | evidently intended | confidence | as-written member | corrected member |
|---|---|---|---|---|---|---|
| server/utils/puzzleValidator.js:36-38 | a puzzle without `validate` checks `puzzle.category.includes(cleanAnswer)`; a generated puzzle stores the category's name, so this is a substring test on the name | a generated animals puzzle after JSON serialisation has lost `validate`: "lion" gives false and "an" gives true | look the answer up in `categories[puzzle.category]`, as the puzzle's own `validate` does | not executed | PuzzleValidator.NamedCategoryIsSubstringTest | PuzzleValidator.NamedCategoryLookedUp |
