/**
 * src/contexts/SocketContext.js: the client's copy of the game, and how each
 * server event rewrites it. Every handler passes `setGameState` a function of
 * the previous state; those functions are modelled here, one per event.
 */
module ClientState {
  import opened Wrappers
  import opened SeqUtil
  import PuzzleValidator

  datatype Position = Position(x: int, y: int)

  /** A player as the lobby server sends it: the entry of its player map. */
  datatype Player = Player(id: string, username: string, position: Position, lives: int, powerups: seq<string>)

  /** A chat message as the lobby server sends it; `id` is the clock reading `Date.now()`. */
  datatype Message = Message(id: int, sender: string, text: string, timestamp: int)

  /** `gameState`. */
  datatype GameState = GameState(
    players: seq<Player>,
    messages: seq<Message>,
    bannedPlayers: seq<string>,
    mutedPlayers: seq<string>,
    currentPuzzle: Option<PuzzleValidator.Puzzle>)

  /** The state the provider starts from: everything empty, no puzzle. */
  const Initial := GameState([], [], [], [], None)

  // ---------------------------------------------------------------- player lists

  /** `players.filter(p => p.id !== playerId)`. */
  function DropPlayer(players: seq<Player>, playerId: string): (r: seq<Player>)
    ensures forall i :: 0 <= i < |r| ==> r[i] in players && r[i].id != playerId
    ensures forall i :: 0 <= i < |players| && players[i].id != playerId ==> players[i] in r
    ensures |r| <= |players|
  {
    if |players| == 0 then []
    else (if players[0].id == playerId then [] else [players[0]]) + DropPlayer(players[1..], playerId)
  }

  /** The filter distributes over concatenation, so the players kept stay in order. */
  lemma {:induction false} DropPlayerAppend(a: seq<Player>, b: seq<Player>, playerId: string)
    ensures DropPlayer(a + b, playerId) == DropPlayer(a, playerId) + DropPlayer(b, playerId)
  {
    if |a| == 0 {
      assert a + b == b;
    } else {
      assert (a + b)[1..] == a[1..] + b;
      DropPlayerAppend(a[1..], b, playerId);
    }
  }

  /** Dropping an id nobody has changes nothing. */
  lemma {:induction false} DropPlayerAbsent(players: seq<Player>, playerId: string)
    requires forall i :: 0 <= i < |players| ==> players[i].id != playerId
    ensures DropPlayer(players, playerId) == players
  {
    if |players| > 0 {
      DropPlayerAbsent(players[1..], playerId);
    }
  }

  /** `players.map(p => p.id === playerId ? { ...p, position: newPosition } : p)`. */
  function MovePlayer(players: seq<Player>, playerId: string, newPosition: Position): (r: seq<Player>)
    ensures |r| == |players|
    ensures forall i :: 0 <= i < |players| ==>
              r[i] == if players[i].id == playerId then players[i].(position := newPosition) else players[i]
  {
    seq(|players|, i requires 0 <= i < |players| =>
      if players[i].id == playerId then players[i].(position := newPosition) else players[i])
  }

  // ---------------------------------------------------------------- the updaters

  /** `playerJoined`: the server's player and message lists replace the local ones. */
  function PlayerJoined(s: GameState, players: seq<Player>, messages: seq<Message>): (r: GameState)
    ensures r.players == players && r.messages == messages
    ensures r.bannedPlayers == s.bannedPlayers && r.mutedPlayers == s.mutedPlayers
    ensures r.currentPuzzle == s.currentPuzzle
  {
    s.(players := players, messages := messages)
  }

  /** `playerLeft` and `playerKicked`, which do the same: drop every player with the id. */
  function PlayerRemoved(s: GameState, playerId: string): (r: GameState)
    ensures forall i :: 0 <= i < |r.players| ==> r.players[i].id != playerId
    ensures forall i :: 0 <= i < |s.players| && s.players[i].id != playerId ==> s.players[i] in r.players
    ensures forall p :: p in r.players ==> p in s.players
    ensures r.messages == s.messages && r.bannedPlayers == s.bannedPlayers
    ensures r.mutedPlayers == s.mutedPlayers && r.currentPuzzle == s.currentPuzzle
  {
    s.(players := DropPlayer(s.players, playerId))
  }

  /** `newMessage`: the message goes at the end. */
  function NewMessage(s: GameState, message: Message): (r: GameState)
    ensures |r.messages| == |s.messages| + 1 && r.messages[..|s.messages|] == s.messages
    ensures r.messages[|s.messages|] == message
    ensures r.players == s.players && r.bannedPlayers == s.bannedPlayers
    ensures r.mutedPlayers == s.mutedPlayers && r.currentPuzzle == s.currentPuzzle
  {
    s.(messages := s.messages + [message])
  }

  /** `puzzleChallenge`: the puzzle becomes the current one. */
  function PuzzleChallenge(s: GameState, puzzle: PuzzleValidator.Puzzle): (r: GameState)
    ensures r.currentPuzzle == Some(puzzle)
    ensures r.players == s.players && r.messages == s.messages
    ensures r.bannedPlayers == s.bannedPlayers && r.mutedPlayers == s.mutedPlayers
  {
    s.(currentPuzzle := Some(puzzle))
  }

  /** `playerMoved`: the players with the id get the new position; nothing else moves. */
  function PlayerMoved(s: GameState, playerId: string, newPosition: Position): (r: GameState)
    ensures |r.players| == |s.players|
    ensures forall i :: 0 <= i < |s.players| ==>
              r.players[i] == if s.players[i].id == playerId then s.players[i].(position := newPosition) else s.players[i]
    ensures r.messages == s.messages && r.bannedPlayers == s.bannedPlayers
    ensures r.mutedPlayers == s.mutedPlayers && r.currentPuzzle == s.currentPuzzle
  {
    s.(players := MovePlayer(s.players, playerId, newPosition))
  }

  /** `playerBanned`: the player goes, and the id is added to the banned list. */
  function PlayerBanned(s: GameState, playerId: string): (r: GameState)
    ensures r.players == PlayerRemoved(s, playerId).players
    ensures r.bannedPlayers == s.bannedPlayers + [playerId]
    ensures r.messages == s.messages && r.mutedPlayers == s.mutedPlayers && r.currentPuzzle == s.currentPuzzle
  {
    s.(players := DropPlayer(s.players, playerId), bannedPlayers := s.bannedPlayers + [playerId])
  }

  /** `playerUnbanned`: every occurrence of the id leaves the banned list. */
  function PlayerUnbanned(s: GameState, playerId: string): (r: GameState)
    ensures playerId !in r.bannedPlayers
    ensures forall id :: id in r.bannedPlayers <==> id in s.bannedPlayers && id != playerId
    ensures r.players == s.players && r.messages == s.messages
    ensures r.mutedPlayers == s.mutedPlayers && r.currentPuzzle == s.currentPuzzle
  {
    WithoutMembers(s.bannedPlayers, playerId);
    s.(bannedPlayers := Without(s.bannedPlayers, playerId))
  }

  /** `playerMuted`: the id is appended, even when it is already there. */
  function PlayerMuted(s: GameState, playerId: string): (r: GameState)
    ensures r.mutedPlayers == s.mutedPlayers + [playerId]
    ensures r.players == s.players && r.messages == s.messages
    ensures r.bannedPlayers == s.bannedPlayers && r.currentPuzzle == s.currentPuzzle
  {
    s.(mutedPlayers := s.mutedPlayers + [playerId])
  }

  /** `playerUnmuted`: every occurrence of the id leaves the muted list. */
  function PlayerUnmuted(s: GameState, playerId: string): (r: GameState)
    ensures playerId !in r.mutedPlayers
    ensures forall id :: id in r.mutedPlayers <==> id in s.mutedPlayers && id != playerId
    ensures r.players == s.players && r.messages == s.messages
    ensures r.bannedPlayers == s.bannedPlayers && r.currentPuzzle == s.currentPuzzle
  {
    WithoutMembers(s.mutedPlayers, playerId);
    s.(mutedPlayers := Without(s.mutedPlayers, playerId))
  }

  // ---------------------------------------------------------------- properties

  /**
   * Removing a player keeps the others in their order: whatever came before
   * the removed entries still comes before them, and a second removal does
   * nothing.
   */
  lemma RemovalKeepsOrder(s: GameState, before: seq<Player>, after: seq<Player>, playerId: string)
    requires s.players == before + after
    ensures PlayerRemoved(s, playerId).players == DropPlayer(before, playerId) + DropPlayer(after, playerId)
    ensures PlayerRemoved(PlayerRemoved(s, playerId), playerId) == PlayerRemoved(s, playerId)
  {
    DropPlayerAppend(before, after, playerId);
    DropPlayerAbsent(PlayerRemoved(s, playerId).players, playerId);
  }

  /** Removing an id no player has leaves the state as it was. */
  lemma RemovingStrangerChangesNothing(s: GameState, playerId: string)
    requires forall i :: 0 <= i < |s.players| ==> s.players[i].id != playerId
    ensures PlayerRemoved(s, playerId) == s
    ensures PlayerMoved(s, playerId, Position(0, 0)) == s
  {
    DropPlayerAbsent(s.players, playerId);
    assert PlayerMoved(s, playerId, Position(0, 0)).players == s.players;
  }

  /** A later move of the same player overrides an earlier one. */
  lemma LastMoveWins(s: GameState, playerId: string, first: Position, second: Position)
    ensures PlayerMoved(PlayerMoved(s, playerId, first), playerId, second) == PlayerMoved(s, playerId, second)
  {
    assert PlayerMoved(PlayerMoved(s, playerId, first), playerId, second).players
        == PlayerMoved(s, playerId, second).players;
  }

  /** A banned player is gone, and unbanning leaves the banned list without the id but does not bring the player back. */
  lemma {:induction false} BanThenUnban(s: GameState, playerId: string)
    ensures forall i :: 0 <= i < |PlayerBanned(s, playerId).players| ==> PlayerBanned(s, playerId).players[i].id != playerId
    ensures PlayerUnbanned(PlayerBanned(s, playerId), playerId).bannedPlayers == Without(s.bannedPlayers, playerId)
    ensures PlayerUnbanned(PlayerBanned(s, playerId), playerId).players == PlayerRemoved(s, playerId).players
  {
    WithoutAppend(s.bannedPlayers, [playerId], playerId);
    assert Without([playerId], playerId) == [];
  }

  /** `playerMuted` for the same id, `n` times over. */
  function MutedTimes(s: GameState, playerId: string, n: nat): GameState {
    if n == 0 then s else PlayerMuted(MutedTimes(s, playerId, n - 1), playerId)
  }

  /**
   * `playerUnmuted` undoes any number of `playerMuted` for the same id: after
   * `n` mutes, one unmute leaves the state that unmuting alone would.
   */
  lemma {:induction false} UnmuteUndoesMutes(s: GameState, playerId: string, n: nat)
    ensures PlayerUnmuted(MutedTimes(s, playerId, n), playerId) == PlayerUnmuted(s, playerId)
  {
    if n > 0 {
      var earlier := MutedTimes(s, playerId, n - 1);
      UnmuteUndoesMutes(s, playerId, n - 1);
      WithoutAppend(earlier.mutedPlayers, [playerId], playerId);
      assert Without([playerId], playerId) == [];
    }
  }
}
