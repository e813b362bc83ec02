/**
 * The maze lobby server of server/index.js: active games keyed by id, each
 * with a player map keyed by socket id (in insertion order), a host, an 8×8
 * maze, a chat log and a mute set; plus a map of banned socket ids per game.
 *
 * A game object is a value here; the handlers of the `Lobby` class replace
 * the entry of the `activeGames` map they change. Each handler is proved
 * against a function on `LobbyState`, and the lemmas state what the server
 * promises about those functions.
 */
module LobbyServer {
  import opened Wrappers
  import opened SeqUtil

  /** The maze is `MazeSide` × `MazeSide`, indexed `maze[x][y]`. */
  const MazeSide := 8
  /** A joining player starts with this many lives. */
  const StartLives := 3

  datatype Cell = Cell(x: int, y: int)

  /** The cells a new game opens as paths, in the order they are carved. */
  const MazePaths: seq<Cell> :=
    [Cell(0, 0), Cell(0, 1), Cell(1, 1), Cell(1, 2), Cell(2, 2), Cell(2, 3), Cell(3, 3), Cell(3, 4)]

  datatype LobbyPlayer = LobbyPlayer(id: string, username: string, position: Cell, lives: int, powerups: seq<string>)

  /** A chat message; `Date.now()` and `new Date()` are both the clock reading `now`. */
  datatype Message = Message(id: int, sender: string, text: string, timestamp: int)

  /** A game object; `players` lists the player map's entries in insertion order. */
  datatype LobbyGame = LobbyGame(
    id: string,
    players: seq<LobbyPlayer>,
    host: string,
    maze: seq<seq<int>>,
    messages: seq<Message>,
    mutedPlayers: set<string>)

  /** The two module-level maps of server/index.js. */
  datatype LobbyState = LobbyState(activeGames: map<string, LobbyGame>, bannedPlayers: map<string, set<string>>)

  /** What a handler did: applied, dropped silently, refused as banned, or failed on an unknown sender. */
  datatype Reply = Accepted | Ignored | Banned | SenderUnknown

  datatype Step = Step(reply: Reply, state: LobbyState)

  // ---------------------------------------------------------------- the maze

  predicate InMaze(c: Cell) {
    0 <= c.x < MazeSide && 0 <= c.y < MazeSide
  }

  predicate IsGrid(maze: seq<seq<int>>) {
    |maze| == MazeSide && forall x :: 0 <= x < MazeSide ==> |maze[x]| == MazeSide
  }

  /** `Array(8).fill().map(() => Array(8).fill(0))`. */
  function BlankMaze(): (maze: seq<seq<int>>)
    ensures IsGrid(maze)
    ensures forall x, y :: 0 <= x < MazeSide && 0 <= y < MazeSide ==> maze[x][y] == 0
  {
    seq(MazeSide, x => seq(MazeSide, y => 0))
  }

  /** The `forEach` that writes 1 at every listed cell, in order. */
  function Carve(maze: seq<seq<int>>, paths: seq<Cell>): (r: seq<seq<int>>)
    requires IsGrid(maze) && forall i :: 0 <= i < |paths| ==> InMaze(paths[i])
    ensures IsGrid(r)
    decreases |paths|
  {
    if |paths| == 0 then maze
    else
      var c := paths[0];
      assert InMaze(c) && |maze[c.x]| == MazeSide;
      Carve(maze[c.x := maze[c.x][c.y := 1]], paths[1..])
  }

  /** Carving opens exactly the listed cells and leaves every other cell as it was. */
  lemma CarveOpens(maze: seq<seq<int>>, paths: seq<Cell>)
    requires IsGrid(maze) && forall i :: 0 <= i < |paths| ==> InMaze(paths[i])
    ensures forall x, y :: 0 <= x < MazeSide && 0 <= y < MazeSide ==>
              Carve(maze, paths)[x][y] == (if Cell(x, y) in paths then 1 else maze[x][y])
  {
    forall x, y | 0 <= x < MazeSide && 0 <= y < MazeSide
      ensures Carve(maze, paths)[x][y] == (if Cell(x, y) in paths then 1 else maze[x][y])
    {
      CarveAt(maze, paths, x, y);
    }
  }

  /** The cell (x, y) after carving: 1 when listed, as before otherwise. */
  lemma {:induction false} CarveAt(maze: seq<seq<int>>, paths: seq<Cell>, x: int, y: int)
    requires IsGrid(maze) && forall i :: 0 <= i < |paths| ==> InMaze(paths[i])
    requires 0 <= x < MazeSide && 0 <= y < MazeSide
    ensures Carve(maze, paths)[x][y] == (if Cell(x, y) in paths then 1 else maze[x][y])
    decreases |paths|
  {
    if |paths| > 0 {
      var c := paths[0];
      assert InMaze(c) && |maze[c.x]| == MazeSide;
      var next := maze[c.x := maze[c.x][c.y := 1]];
      CarveAt(next, paths[1..], x, y);
      assert Cell(x, y) in paths <==> Cell(x, y) == c || Cell(x, y) in paths[1..];
    }
  }

  /** The maze of every new game. */
  function InitialMaze(): (maze: seq<seq<int>>)
    ensures IsGrid(maze)
  {
    Carve(BlankMaze(), MazePaths)
  }

  /** A new game's maze is 1 exactly on the eight listed path cells and 0 elsewhere. */
  lemma InitialMazePaths()
    ensures forall x, y :: 0 <= x < MazeSide && 0 <= y < MazeSide ==>
              InitialMaze()[x][y] == (if Cell(x, y) in MazePaths then 1 else 0)
  {
    CarveOpens(BlankMaze(), MazePaths);
  }

  // ---------------------------------------------------------------- the player map

  predicate HasPlayer(players: seq<LobbyPlayer>, id: string) {
    exists i :: 0 <= i < |players| && players[i].id == id
  }

  predicate DistinctIds(players: seq<LobbyPlayer>) {
    forall i, j :: 0 <= i < j < |players| ==> players[i].id != players[j].id
  }

  /** `players.get(id)`, as the index of its entry. */
  function FindPlayer(players: seq<LobbyPlayer>, id: string): (r: Option<nat>)
    ensures r.Some? ==> r.value < |players| && players[r.value].id == id
    ensures r.None? <==> !HasPlayer(players, id)
  {
    if |players| == 0 then None
    else if players[0].id == id then Some(0)
    else
      var rest := FindPlayer(players[1..], id);
      assert HasPlayer(players, id) ==> HasPlayer(players[1..], id) by {
        if HasPlayer(players, id) {
          var j :| 0 <= j < |players| && players[j].id == id;
          assert players[1..][j - 1].id == id;
        }
      }
      if rest.Some? then Some(rest.value + 1) else None
  }

  /** The entry found is the first under the id. */
  lemma {:induction false} FindPlayerFirst(players: seq<LobbyPlayer>, id: string)
    ensures var r := FindPlayer(players, id);
            r.Some? ==> forall j :: 0 <= j < r.value ==> players[j].id != id
  {
    if |players| > 0 && players[0].id != id {
      FindPlayerFirst(players[1..], id);
      assert forall j :: 1 <= j < |players| ==> players[j] == players[1..][j - 1];
    }
  }

  /** `players.set(p.id, p)`: a known key keeps its place and takes the new value; a new key goes last. */
  function SetPlayer(players: seq<LobbyPlayer>, p: LobbyPlayer): (r: seq<LobbyPlayer>)
    ensures |r| == if HasPlayer(players, p.id) then |players| else |players| + 1
    ensures forall i :: 0 <= i < |players| && players[i].id != p.id ==> r[i] == players[i]
    ensures HasPlayer(players, p.id) ==> r[FindPlayer(players, p.id).value] == p
    ensures !HasPlayer(players, p.id) ==> r[|players|] == p
  {
    var k := FindPlayer(players, p.id);
    if k.Some? then players[k.value := p] else players + [p]
  }

  /** Setting a player keeps the ids distinct and makes `p` the entry under its id. */
  lemma SetPlayerKeepsMap(players: seq<LobbyPlayer>, p: LobbyPlayer)
    requires DistinctIds(players)
    ensures var r := SetPlayer(players, p);
            && DistinctIds(r) && HasPlayer(r, p.id)
            && r[FindPlayer(r, p.id).value] == p
            && (forall id :: HasPlayer(r, id) <==> HasPlayer(players, id) || id == p.id)
            && (HasPlayer(players, p.id) ==> |r| == |players|)
            && (!HasPlayer(players, p.id) ==> |r| == |players| + 1)
            && (forall i :: 0 <= i < |players| && players[i].id != p.id ==> r[i] == players[i])
            && (HasPlayer(players, p.id) ==> FindPlayer(r, p.id) == FindPlayer(players, p.id))
  {
    var r := SetPlayer(players, p);
    var k := FindPlayer(players, p.id);
    if k.None? {
      assert r[|players|] == p;
    } else {
      assert r[k.value] == p;
    }
    forall id ensures HasPlayer(r, id) <==> HasPlayer(players, id) || id == p.id {
      if HasPlayer(players, id) {
        var i :| 0 <= i < |players| && players[i].id == id;
        assert r[i].id == id;
      }
    }
  }

  /** `players.delete(id)`: every entry under `id` goes, the rest keep their order. */
  function WithoutId(players: seq<LobbyPlayer>, id: string): (r: seq<LobbyPlayer>)
    ensures |r| <= |players|
    ensures forall i :: 0 <= i < |r| ==> r[i].id != id
  {
    if |players| == 0 then []
    else if players[0].id == id then WithoutId(players[1..], id)
    else [players[0]] + WithoutId(players[1..], id)
  }

  /** With distinct ids, deleting the entry at `k` is removing position `k`. */
  lemma {:induction false} WithoutIdRemovesEntry(players: seq<LobbyPlayer>, k: nat)
    requires DistinctIds(players) && k < |players|
    ensures WithoutId(players, players[k].id) == RemoveAt(players, k)
  {
    var id := players[k].id;
    var tail := players[1..];
    assert forall j :: 0 <= j < |tail| ==> tail[j] == players[j + 1];
    if k == 0 {
      assert !HasPlayer(tail, id);
      WithoutIdAbsent(tail, id);
      assert RemoveAt(players, 0) == tail;
    } else {
      assert players[0].id != id;
      assert tail[k - 1] == players[k];
      WithoutIdRemovesEntry(tail, k - 1);
      assert RemoveAt(players, k) == [players[0]] + RemoveAt(tail, k - 1);
    }
  }

  /** Deleting an absent id changes nothing. */
  lemma {:induction false} WithoutIdAbsent(players: seq<LobbyPlayer>, id: string)
    requires !HasPlayer(players, id)
    ensures WithoutId(players, id) == players
  {
    if |players| > 0 {
      WithoutIdAbsent(players[1..], id);
    }
  }

  /** Deleting keeps the remaining ids distinct. */
  lemma WithoutIdKeepsDistinct(players: seq<LobbyPlayer>, id: string)
    requires DistinctIds(players)
    ensures DistinctIds(WithoutId(players, id))
  {
    if HasPlayer(players, id) {
      var k := FindPlayer(players, id).value;
      WithoutIdRemovesEntry(players, k);
      RemoveAtKeepsIds(players, k);
    } else {
      WithoutIdAbsent(players, id);
    }
  }

  lemma RemoveAtKeepsIds(players: seq<LobbyPlayer>, k: nat)
    requires DistinctIds(players) && k < |players|
    ensures DistinctIds(RemoveAt(players, k))
  {
    var r := RemoveAt(players, k);
    forall i, j | 0 <= i < j < |r| ensures r[i].id != r[j].id {
      var i' := if i < k then i else i + 1;
      var j' := if j < k then j else j + 1;
      assert r[i] == players[i'] && r[j] == players[j'];
    }
  }

  // ---------------------------------------------------------------- invariant

  /**
   * Every active game sits under its own id, has distinct player ids, at
   * least one player, a host among its players and an 8×8 maze.
   */
  ghost predicate GameValid(k: string, g: LobbyGame) {
    && g.id == k && DistinctIds(g.players) && |g.players| >= 1
    && HasPlayer(g.players, g.host) && IsGrid(g.maze)
  }

  ghost predicate LobbyValid(s: LobbyState) {
    forall k :: k in s.activeGames ==> GameValid(k, s.activeGames[k])
  }

  // ---------------------------------------------------------------- join

  predicate IsBanned(s: LobbyState, gameId: string, socketId: string) {
    gameId in s.bannedPlayers && socketId in s.bannedPlayers[gameId]
  }

  /** The game `joinGame` creates for an unknown id, hosted by the joiner. */
  function NewLobbyGame(gameId: string, socketId: string): LobbyGame {
    LobbyGame(gameId, [], socketId, InitialMaze(), [], {})
  }

  /** The entry `joinGame` stores under the socket id. */
  function Arrival(socketId: string, username: string): LobbyPlayer {
    LobbyPlayer(socketId, username, Cell(0, 0), StartLives, [])
  }

  function JoinSpec(s: LobbyState, socketId: string, gameId: string, username: string): (r: Step)
    ensures r.reply == Banned <==> IsBanned(s, gameId, socketId)
    ensures r.reply != Banned ==> r.reply == Accepted
    ensures r.reply == Banned ==> r.state == s
    ensures r.state.bannedPlayers == s.bannedPlayers
    ensures r.reply == Accepted ==>
              && r.state.activeGames.Keys == s.activeGames.Keys + {gameId}
              && (forall k :: k in s.activeGames && k != gameId ==> r.state.activeGames[k] == s.activeGames[k])
  {
    if IsBanned(s, gameId, socketId) then Step(Banned, s)
    else
      var g := if gameId in s.activeGames then s.activeGames[gameId] else NewLobbyGame(gameId, socketId);
      var joined := g.(players := SetPlayer(g.players, Arrival(socketId, username)));
      Step(Accepted, s.(activeGames := s.activeGames[gameId := joined]))
  }

  /**
   * A join that is let in leaves the joiner's entry at (0,0) with three lives
   * and no power-ups; a rejoin with the same socket id overwrites the entry in
   * place; a game created by the join has the joiner as host, the initial
   * maze, no messages and nobody muted.
   */
  lemma JoinStoresArrival(s: LobbyState, socketId: string, gameId: string, username: string)
    requires LobbyValid(s)
    requires !IsBanned(s, gameId, socketId)
    ensures var g := JoinSpec(s, socketId, gameId, username).state.activeGames[gameId];
            && HasPlayer(g.players, socketId)
            && g.players[FindPlayer(g.players, socketId).value] == Arrival(socketId, username)
            && (gameId !in s.activeGames ==>
                  g == LobbyGame(gameId, [Arrival(socketId, username)], socketId, InitialMaze(), [], {}))
            && (gameId in s.activeGames ==>
                  var before := s.activeGames[gameId];
                  && g.host == before.host && g.maze == before.maze
                  && g.messages == before.messages && g.mutedPlayers == before.mutedPlayers
                  && (HasPlayer(before.players, socketId) ==> |g.players| == |before.players|)
                  && (HasPlayer(before.players, socketId) ==>
                        FindPlayer(g.players, socketId) == FindPlayer(before.players, socketId))
                  && (forall i :: 0 <= i < |before.players| && before.players[i].id != socketId ==>
                        g.players[i] == before.players[i])
                  && (!HasPlayer(before.players, socketId) ==> g.players == before.players + [Arrival(socketId, username)]))
  {
    var before := if gameId in s.activeGames then s.activeGames[gameId] else NewLobbyGame(gameId, socketId);
    SetPlayerKeepsMap(before.players, Arrival(socketId, username));
  }

  /** Joining keeps the lobby valid. */
  lemma JoinKeepsValid(s: LobbyState, socketId: string, gameId: string, username: string)
    requires LobbyValid(s)
    ensures LobbyValid(JoinSpec(s, socketId, gameId, username).state)
  {
    if !IsBanned(s, gameId, socketId) {
      var before := if gameId in s.activeGames then s.activeGames[gameId] else NewLobbyGame(gameId, socketId);
      SetPlayerKeepsMap(before.players, Arrival(socketId, username));
    }
  }

  // ---------------------------------------------------------------- chat

  /**
   * `sendMessage`: dropped for an unknown game or a muted sender; a sender
   * with no player entry makes the handler fail before anything is written.
   */
  function SendMessageSpec(s: LobbyState, socketId: string, gameId: string, text: string, now: int): (r: Step)
    ensures r.reply == Ignored <==> gameId !in s.activeGames || socketId in s.activeGames[gameId].mutedPlayers
    ensures r.reply == SenderUnknown <==>
              r.reply != Ignored && !HasPlayer(s.activeGames[gameId].players, socketId)
    ensures r.reply == Accepted <==>
              && gameId in s.activeGames && socketId !in s.activeGames[gameId].mutedPlayers
              && HasPlayer(s.activeGames[gameId].players, socketId)
    ensures r.reply != Accepted ==> r.state == s
    ensures r.reply == Accepted ==>
              var g := s.activeGames[gameId];
              var sender := g.players[FindPlayer(g.players, socketId).value];
              && r.state.bannedPlayers == s.bannedPlayers
              && gameId in r.state.activeGames
              && r.state.activeGames == s.activeGames[gameId := r.state.activeGames[gameId]]
              && r.state.activeGames[gameId] == g.(messages := r.state.activeGames[gameId].messages)
              && r.state.activeGames[gameId].messages == g.messages + [Message(now, sender.username, text, now)]
  {
    if gameId !in s.activeGames || socketId in s.activeGames[gameId].mutedPlayers then Step(Ignored, s)
    else
      var g := s.activeGames[gameId];
      var found := FindPlayer(g.players, socketId);
      if found.None? then Step(SenderUnknown, s)
      else
        var message := Message(now, g.players[found.value].username, text, now);
        Step(Accepted, s.(activeGames := s.activeGames[gameId := g.(messages := g.messages + [message])]))
  }

  /** Sending a message keeps the lobby valid. */
  lemma SendMessageKeepsValid(s: LobbyState, socketId: string, gameId: string, text: string, now: int)
    requires LobbyValid(s)
    ensures LobbyValid(SendMessageSpec(s, socketId, gameId, text, now).state)
  {
  }

  // ---------------------------------------------------------------- movement

  /** The cell one step from `c`: x for right/left, y for down/up, and no step for anything else. */
  function Target(c: Cell, direction: string): (t: Cell)
    ensures t.x - c.x == (if direction == "right" then 1 else if direction == "left" then -1 else 0)
    ensures t.y - c.y == (if direction == "down" then 1 else if direction == "up" then -1 else 0)
  {
    Cell(c.x + (if direction == "right" then 1 else if direction == "left" then -1 else 0),
         c.y + (if direction == "down" then 1 else if direction == "up" then -1 else 0))
  }

  /**
   * `movementAttempt`: the cell a puzzle challenge is issued for, if any. A
   * challenge needs the target inside the maze and on a path cell; the
   * player's stored position is never changed.
   */
  function MovementAttemptSpec(s: LobbyState, socketId: string, gameId: string, direction: string): (challenge: Option<Cell>)
    requires gameId in s.activeGames ==> IsGrid(s.activeGames[gameId].maze)
    ensures challenge.Some? <==>
              && gameId in s.activeGames && HasPlayer(s.activeGames[gameId].players, socketId)
              && var g := s.activeGames[gameId];
                 var t := Target(g.players[FindPlayer(g.players, socketId).value].position, direction);
                 InMaze(t) && g.maze[t.x][t.y] == 1
    ensures challenge.Some? ==>
              var g := s.activeGames[gameId];
              challenge.value == Target(g.players[FindPlayer(g.players, socketId).value].position, direction)
  {
    if gameId !in s.activeGames then None
    else
      var g := s.activeGames[gameId];
      var found := FindPlayer(g.players, socketId);
      if found.None? then None
      else
        var t := Target(g.players[found.value].position, direction);
        if 0 <= t.x < MazeSide && 0 <= t.y < MazeSide && g.maze[t.x][t.y] == 1 then Some(t) else None
  }

  /**
   * Since no handler moves a player off (0,0), in a game with the initial
   * maze only "down" reaches a path cell, (0,1); "right" hits a wall and
   * "left" and "up" leave the maze, while any other direction string stays
   * on (0,0), itself a path cell, and so is challenged there.
   */
  lemma ChallengesFromStart(s: LobbyState, socketId: string, gameId: string, direction: string)
    requires gameId in s.activeGames && s.activeGames[gameId].maze == InitialMaze()
    requires HasPlayer(s.activeGames[gameId].players, socketId)
    requires var g := s.activeGames[gameId]; g.players[FindPlayer(g.players, socketId).value].position == Cell(0, 0)
    ensures var challenge := MovementAttemptSpec(s, socketId, gameId, direction);
            && (direction == "down" ==> challenge == Some(Cell(0, 1)))
            && (direction == "right" || direction == "left" || direction == "up" ==> challenge == None)
            && (direction != "down" && direction != "right" && direction != "left" && direction != "up" ==>
                  challenge == Some(Cell(0, 0)))
  {
    InitialMazeNearStart();
    TargetFromStart(direction);
  }

  /** Around (0,0) the initial maze is open at (0,0) and (0,1) and walled at (1,0). */
  lemma InitialMazeNearStart()
    ensures InitialMaze()[0][0] == 1 && InitialMaze()[0][1] == 1 && InitialMaze()[1][0] == 0
  {
    CarveAt(BlankMaze(), MazePaths, 0, 0);
    CarveAt(BlankMaze(), MazePaths, 0, 1);
    CarveAt(BlankMaze(), MazePaths, 1, 0);
    assert MazePaths[0] == Cell(0, 0) && MazePaths[1] == Cell(0, 1);
    assert forall i :: 0 <= i < |MazePaths| ==> MazePaths[i] != Cell(1, 0);
  }

  /** The four named directions step from (0,0) to its neighbours; any other string stays put. */
  lemma TargetFromStart(direction: string)
    ensures Target(Cell(0, 0), direction)
            == if direction == "down" then Cell(0, 1)
               else if direction == "right" then Cell(1, 0)
               else if direction == "left" then Cell(-1, 0)
               else if direction == "up" then Cell(0, -1)
               else Cell(0, 0)
  {
    assert "down" != "right" && "down" != "left" && "down" != "up";
    assert "right" != "left" && "right" != "up" && "left" != "up";
  }

  // ---------------------------------------------------------------- disconnect

  /** The game after `socketId` leaves it; a leaving host hands over to the first remaining player. */
  function Leave(g: LobbyGame, socketId: string): LobbyGame {
    var rest := WithoutId(g.players, socketId);
    g.(players := rest, host := if socketId == g.host && |rest| > 0 then rest[0].id else g.host)
  }

  /** `socketId` was the last player of `g`. */
  predicate Emptied(g: LobbyGame, socketId: string) {
    HasPlayer(g.players, socketId) && |WithoutId(g.players, socketId)| == 0
  }

  /** The lobby once the games in `done` have been visited by the disconnect loop. */
  function AfterLeaving(s: LobbyState, done: set<string>, socketId: string): LobbyState {
    LobbyState(
      map k | k in s.activeGames && !(k in done && Emptied(s.activeGames[k], socketId)) ::
        if k in done && HasPlayer(s.activeGames[k].players, socketId) then Leave(s.activeGames[k], socketId)
        else s.activeGames[k],
      map k | k in s.bannedPlayers && !(k in done && k in s.activeGames && Emptied(s.activeGames[k], socketId)) ::
        s.bannedPlayers[k])
  }

  /**
   * `disconnect`: the socket leaves every game holding it; an emptied game
   * and its ban entry are deleted; a game the socket was not in is kept as is.
   */
  function DisconnectSpec(s: LobbyState, socketId: string): (r: LobbyState)
    ensures forall k :: k in r.activeGames <==> k in s.activeGames && !Emptied(s.activeGames[k], socketId)
    ensures forall k :: k in r.bannedPlayers <==>
              k in s.bannedPlayers && !(k in s.activeGames && Emptied(s.activeGames[k], socketId))
    ensures forall k :: k in r.activeGames ==>
              && !HasPlayer(r.activeGames[k].players, socketId)
              && r.activeGames[k].players == WithoutId(s.activeGames[k].players, socketId)
              && r.activeGames[k].messages == s.activeGames[k].messages
              && r.activeGames[k].mutedPlayers == s.activeGames[k].mutedPlayers
    ensures forall k :: k in r.bannedPlayers ==> r.bannedPlayers[k] == s.bannedPlayers[k]
  {
    var r := AfterLeaving(s, s.activeGames.Keys, socketId);
    assert forall k :: k in r.activeGames && !HasPlayer(s.activeGames[k].players, socketId) ==>
             r.activeGames[k] == s.activeGames[k] && WithoutId(s.activeGames[k].players, socketId) == s.activeGames[k].players
      by {
        forall k | k in r.activeGames && !HasPlayer(s.activeGames[k].players, socketId) {
          WithoutIdAbsent(s.activeGames[k].players, socketId);
        }
      }
    r
  }

  /**
   * A host who disconnects from a game that still has players is replaced by
   * the first remaining player in insertion order; any other host stays, and
   * the game stays valid.
   */
  lemma DisconnectPromotesFirst(s: LobbyState, socketId: string, k: string)
    requires LobbyValid(s)
    requires k in DisconnectSpec(s, socketId).activeGames
    ensures var before := s.activeGames[k];
            var after := DisconnectSpec(s, socketId).activeGames[k];
            && GameValid(k, after)
            && (before.host == socketId ==>
                  && after.host == after.players[0].id
                  && exists j :: 0 <= j < |before.players| && after.players[0] == before.players[j]
                                 && forall m :: 0 <= m < j ==> before.players[m].id == socketId)
            && (before.host != socketId ==> after.host == before.host)
  {
    var before := s.activeGames[k];
    DisconnectedGame(s, socketId, k);
    if HasPlayer(before.players, socketId) {
      LeavePromotesFirst(k, before, socketId);
    }
  }

  /** The game the disconnect keeps under `k`: the one left by the socket, or the untouched one. */
  lemma DisconnectedGame(s: LobbyState, socketId: string, k: string)
    requires k in DisconnectSpec(s, socketId).activeGames
    ensures k in s.activeGames
    ensures var before := s.activeGames[k];
            && (HasPlayer(before.players, socketId) ==>
                  |WithoutId(before.players, socketId)| > 0
                  && DisconnectSpec(s, socketId).activeGames[k] == Leave(before, socketId))
            && (!HasPlayer(before.players, socketId) ==> DisconnectSpec(s, socketId).activeGames[k] == before)
  {
    var before := s.activeGames[k];
    if !HasPlayer(before.players, socketId) {
      WithoutIdAbsent(before.players, socketId);
    }
  }

  /** A socket leaving a valid game that keeps players leaves it valid, handing a vacated host role to the first remaining player. */
  lemma LeavePromotesFirst(k: string, before: LobbyGame, socketId: string)
    requires GameValid(k, before) && HasPlayer(before.players, socketId)
    requires |WithoutId(before.players, socketId)| > 0
    ensures var after := Leave(before, socketId);
            && GameValid(k, after)
            && (before.host == socketId ==>
                  && after.host == after.players[0].id
                  && exists j :: 0 <= j < |before.players| && after.players[0] == before.players[j]
                                 && forall m :: 0 <= m < j ==> before.players[m].id == socketId)
            && (before.host != socketId ==> after.host == before.host)
  {
    var i := FindPlayer(before.players, socketId).value;
    WithoutIdRemovesEntry(before.players, i);
    if before.host == socketId {
      LeaveVacatedHost(before, socketId, i);
    } else {
      LeaveKeptHost(before, socketId, i);
    }
    RemoveAtKeepsIds(before.players, i);
  }

  /** A leaving host is replaced by the first entry that stays. */
  lemma LeaveVacatedHost(before: LobbyGame, socketId: string, i: nat)
    requires i < |before.players| && before.players[i].id == socketId && before.host == socketId
    requires DistinctIds(before.players) && |before.players| >= 2
    requires WithoutId(before.players, socketId) == RemoveAt(before.players, i)
    ensures var after := Leave(before, socketId);
            && HasPlayer(after.players, after.host) && after.host == after.players[0].id
            && exists j :: 0 <= j < |before.players| && after.players[0] == before.players[j]
                           && forall m :: 0 <= m < j ==> before.players[m].id == socketId
  {
    var after := Leave(before, socketId);
    var j := if i == 0 then 1 else 0;
    assert after.players[0] == before.players[j];
    assert j == 1 ==> before.players[0].id == socketId;
  }

  /** Any other host stays, and is still among the players. */
  lemma LeaveKeptHost(before: LobbyGame, socketId: string, i: nat)
    requires i < |before.players| && before.players[i].id == socketId && before.host != socketId
    requires HasPlayer(before.players, before.host)
    requires WithoutId(before.players, socketId) == RemoveAt(before.players, i)
    ensures var after := Leave(before, socketId);
            after.host == before.host && HasPlayer(after.players, after.host)
  {
    var after := Leave(before, socketId);
    var h :| 0 <= h < |before.players| && before.players[h].id == before.host;
    var h' := if h < i then h else h - 1;
    assert after.players[h'] == before.players[h];
  }

  /** Disconnecting keeps the lobby valid. */
  lemma DisconnectKeepsValid(s: LobbyState, socketId: string)
    requires LobbyValid(s)
    ensures LobbyValid(DisconnectSpec(s, socketId))
  {
    forall k | k in DisconnectSpec(s, socketId).activeGames
      ensures GameValid(k, DisconnectSpec(s, socketId).activeGames[k])
    {
      DisconnectPromotesFirst(s, socketId, k);
    }
  }

  /** One turn of the disconnect loop, on the game under `k`. */
  function VisitGame(st: LobbyState, k: string, socketId: string): LobbyState
    requires k in st.activeGames
  {
    var g := st.activeGames[k];
    if !HasPlayer(g.players, socketId) then st
    else if |WithoutId(g.players, socketId)| == 0 then
      LobbyState(st.activeGames - {k}, st.bannedPlayers - {k})
    else st.(activeGames := st.activeGames[k := Leave(g, socketId)])
  }

  /** Visiting one more game extends the visited set by that game. */
  lemma VisitExtends(s: LobbyState, done: set<string>, k: string, socketId: string)
    requires k in s.activeGames && k !in done
    ensures k in AfterLeaving(s, done, socketId).activeGames
    ensures AfterLeaving(s, done, socketId).activeGames[k] == s.activeGames[k]
    ensures VisitGame(AfterLeaving(s, done, socketId), k, socketId) == AfterLeaving(s, done + {k}, socketId)
  {
    var st := AfterLeaving(s, done, socketId);
    var next := AfterLeaving(s, done + {k}, socketId);
    var visited := VisitGame(st, k, socketId);
    VisitExtendsGames(s, done, k, socketId);
    VisitExtendsBans(s, done, k, socketId);
    assert visited == LobbyState(visited.activeGames, visited.bannedPlayers);
  }

  /** `VisitExtends` on the game map, key by key. */
  lemma VisitExtendsGames(s: LobbyState, done: set<string>, k: string, socketId: string)
    requires k in s.activeGames && k !in done
    ensures k in AfterLeaving(s, done, socketId).activeGames
    ensures VisitGame(AfterLeaving(s, done, socketId), k, socketId).activeGames
            == AfterLeaving(s, done + {k}, socketId).activeGames
  {
    var st := AfterLeaving(s, done, socketId);
    var next := AfterLeaving(s, done + {k}, socketId);
    var visited := VisitGame(st, k, socketId);
    assert k in st.activeGames && st.activeGames[k] == s.activeGames[k];
    forall key
      ensures key in visited.activeGames <==> key in next.activeGames
      ensures key in visited.activeGames ==> visited.activeGames[key] == next.activeGames[key]
    {
      if key != k && key in s.activeGames {
        assert key in done + {k} <==> key in done;
      }
    }
  }

  /** `VisitExtends` on the ban map, key by key. */
  lemma VisitExtendsBans(s: LobbyState, done: set<string>, k: string, socketId: string)
    requires k in s.activeGames && k !in done
    ensures k in AfterLeaving(s, done, socketId).activeGames
    ensures VisitGame(AfterLeaving(s, done, socketId), k, socketId).bannedPlayers
            == AfterLeaving(s, done + {k}, socketId).bannedPlayers
  {
    var st := AfterLeaving(s, done, socketId);
    var next := AfterLeaving(s, done + {k}, socketId);
    var visited := VisitGame(st, k, socketId);
    assert k in st.activeGames && st.activeGames[k] == s.activeGames[k];
    forall key
      ensures key in visited.bannedPlayers <==> key in next.bannedPlayers
      ensures key in visited.bannedPlayers ==> visited.bannedPlayers[key] == next.bannedPlayers[key]
    {
      if key != k {
        assert key in done + {k} <==> key in done;
      }
    }
  }

  /** Before the loop has visited anything the lobby is as it was. */
  lemma AfterLeavingNothing(s: LobbyState, socketId: string)
    ensures AfterLeaving(s, {}, socketId) == s
  {
    assert AfterLeaving(s, {}, socketId).activeGames == s.activeGames;
    assert AfterLeaving(s, {}, socketId).bannedPlayers == s.bannedPlayers;
  }

  /** Moving one key from the pending set to the visited one keeps them a partition. */
  lemma MoveToDone(done: set<string>, pending: set<string>, all: set<string>, k: string)
    requires done !! pending && done + pending == all && k in pending
    ensures k !in done
    ensures (done + {k}) !! (pending - {k}) && (done + {k}) + (pending - {k}) == all
    ensures pending - {k} == {} ==> done + {k} == all
  {
  }

  // ---------------------------------------------------------------- the lobby

  /** The `activeGames` and `bannedPlayers` maps, changed in place by the socket handlers. */
  class Lobby {
    var activeGames: map<string, LobbyGame>
    var bannedPlayers: map<string, set<string>>

    function State(): LobbyState
      reads this
    {
      LobbyState(activeGames, bannedPlayers)
    }

    ghost predicate Valid()
      reads this
    {
      LobbyValid(State())
    }

    constructor ()
      ensures Valid() && activeGames == map[] && bannedPlayers == map[]
    {
      activeGames := map[];
      bannedPlayers := map[];
    }

    method JoinGame(socketId: string, gameId: string, username: string) returns (reply: Reply)
      requires Valid()
      modifies this
      ensures Valid()
      ensures reply == JoinSpec(old(State()), socketId, gameId, username).reply
      ensures State() == JoinSpec(old(State()), socketId, gameId, username).state
    {
      JoinKeepsValid(State(), socketId, gameId, username);
      if gameId in bannedPlayers && socketId in bannedPlayers[gameId] {
        return Banned;
      }
      var game: LobbyGame;
      if gameId in activeGames {
        game := activeGames[gameId];
      } else {
        game := NewLobbyGame(gameId, socketId);
      }
      game := game.(players := SetPlayer(game.players, Arrival(socketId, username)));
      activeGames := activeGames[gameId := game];
      return Accepted;
    }

    method SendMessage(socketId: string, gameId: string, text: string, now: int) returns (reply: Reply)
      requires Valid()
      modifies this
      ensures Valid()
      ensures reply == SendMessageSpec(old(State()), socketId, gameId, text, now).reply
      ensures State() == SendMessageSpec(old(State()), socketId, gameId, text, now).state
    {
      SendMessageKeepsValid(State(), socketId, gameId, text, now);
      if gameId !in activeGames || socketId in activeGames[gameId].mutedPlayers {
        return Ignored;
      }
      var game := activeGames[gameId];
      var player := FindPlayer(game.players, socketId);
      if player.None? {
        return SenderUnknown;
      }
      var newMessage := Message(now, game.players[player.value].username, text, now);
      activeGames := activeGames[gameId := game.(messages := game.messages + [newMessage])];
      return Accepted;
    }

    method MovementAttempt(socketId: string, gameId: string, direction: string) returns (challenge: Option<Cell>)
      requires Valid()
      ensures challenge == MovementAttemptSpec(State(), socketId, gameId, direction)
    {
      if gameId !in activeGames || FindPlayer(activeGames[gameId].players, socketId).None? {
        return None;
      }
      var game := activeGames[gameId];
      var player := game.players[FindPlayer(game.players, socketId).value];
      var newPosition := Target(player.position, direction);
      if newPosition.x >= 0 && newPosition.x < MazeSide && newPosition.y >= 0 && newPosition.y < MazeSide
         && game.maze[newPosition.x][newPosition.y] == 1 {
        return Some(newPosition);
      }
      return None;
    }

    /** The loop over all active games; each game is visited once, in any order. */
    method Disconnect(socketId: string)
      requires Valid()
      modifies this
      ensures Valid()
      ensures State() == DisconnectSpec(old(State()), socketId)
    {
      ghost var s0 := State();
      DisconnectKeepsValid(s0, socketId);
      var pending := activeGames.Keys;
      ghost var done: set<string> := {};
      AfterLeavingNothing(s0, socketId);
      while pending != {}
        invariant done !! pending && done + pending == s0.activeGames.Keys
        invariant State() == AfterLeaving(s0, done, socketId)
        decreases pending
      {
        var gameId :| gameId in pending;
        VisitExtends(s0, done, gameId, socketId);
        MoveToDone(done, pending, s0.activeGames.Keys, gameId);
        done := done + {gameId};
        pending := pending - {gameId};
        LeaveGame(gameId, socketId);
      }
    }

    /** The body of the disconnect loop for the game under `gameId`. */
    method LeaveGame(gameId: string, socketId: string)
      requires gameId in activeGames
      modifies this
      ensures State() == VisitGame(old(State()), gameId, socketId)
    {
      var game := activeGames[gameId];
      if HasPlayer(game.players, socketId) {
        var rest := WithoutId(game.players, socketId);
        game := game.(players := rest);
        if socketId == game.host && |rest| > 0 {
          game := game.(host := rest[0].id);
        }
        activeGames := activeGames[gameId := game];
        if |rest| == 0 {
          activeGames := activeGames - {gameId};
          bannedPlayers := bannedPlayers - {gameId};
        }
      }
    }
  }
}
