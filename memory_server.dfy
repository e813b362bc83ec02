/**
 * The in-memory game server of server/server.js: a map from game id to a
 * live game object holding a roster, a sixteen-slot board, the pickup cells
 * and the turn. This is a rule set of its own, separate from the
 * database-backed handler: fixed start cells, no adjacency check, no
 * alive flag and a plain round-robin turn.
 *
 * Each operation is a method of `LiveGame` (or of the `GameStore` registry)
 * proved against a function on the `GameState` value; the properties the
 * server promises are lemmas about those functions.
 */
module MemoryServer {
  import opened Wrappers
  import opened SeqUtil
  import GameRules

  /** The reaper starts at the top-left cell, survivors at the bottom-right. */
  const ReaperHome := 0
  const SurvivorHome := 15
  /** `generatePowerUps` places this many pickup cells. */
  const PickupCount := 3
  /** `Math.floor(Math.random() * 16)`: a pickup draw is a cell below this. */
  const CellChoices := 16
  /** The power-ups a pickup can hand out. */
  const PowerUpKinds: seq<string> := ["shield", "reveal", "speed"]

  /** A player object; the server keys players by username. */
  datatype Player = Player(username: string, isReaper: bool, position: int, powerUps: seq<string>)

  /**
   * A game object. The board maps a cell to the username of the player object
   * written there; a cell absent from the map holds null.
   */
  datatype GameState = GameState(
    id: string,
    players: seq<Player>,
    board: map<int, string>,
    currentTurn: Option<string>,
    isGameStarted: bool,
    winner: Option<GameRules.Winner>,
    gameOver: bool,
    powerUps: seq<int>)

  /** The messages a handler throws and emits back to the caller as 'error'. */
  datatype ServerError =
    | GameNotFound     // 'Game not found'
    | NotStarted       // 'Game has not started'
    | GameIsOver       // 'Game is over'
    | NotYourTurn      // 'Not your turn'
    | PlayerNotFound   // 'Player not found'
    | PowerUpNotFound  // 'Power-up not found'

  datatype Reply = Ok | Failed(error: ServerError)

  datatype Step = Step(reply: Reply, state: GameState)

  /** The game `joinGame` creates for an unknown id. */
  function NewGame(id: string): GameState {
    GameState(id, [], map[], None, false, None, false, [])
  }

  predicate HasName(players: seq<Player>, username: string) {
    exists i :: 0 <= i < |players| && players[i].username == username
  }

  /** `players.find(p => p.username === username)`, as an index. */
  function FindByName(players: seq<Player>, username: string): (r: Option<nat>)
    ensures r.Some? ==> r.value < |players| && players[r.value].username == username
  {
    if |players| == 0 then None
    else if players[0].username == username then Some(0)
    else
      var rest := FindByName(players[1..], username);
      if rest.Some? then Some(rest.value + 1) else None
  }

  /** The index found is the first with the name, and nothing is found exactly when nobody has it. */
  lemma {:induction false} FindByNameFirst(players: seq<Player>, username: string)
    ensures var r := FindByName(players, username);
            && (r.Some? ==> forall j :: 0 <= j < r.value ==> players[j].username != username)
            && (r.None? <==> !HasName(players, username))
  {
    if |players| > 0 && players[0].username != username {
      FindByNameFirst(players[1..], username);
      assert forall j :: 1 <= j < |players| ==> players[j] == players[1..][j - 1];
    }
  }

  /** `players.find(p => p.isReaper)`, as an index. */
  function FindReaper(players: seq<Player>): (r: Option<nat>)
    ensures r.Some? ==> r.value < |players| && players[r.value].isReaper
  {
    if |players| == 0 then None
    else if players[0].isReaper then Some(0)
    else
      var rest := FindReaper(players[1..]);
      if rest.Some? then Some(rest.value + 1) else None
  }

  /** The reaper found is the first, and none is found exactly when nobody is one. */
  lemma {:induction false} FindReaperFirst(players: seq<Player>)
    ensures var r := FindReaper(players);
            && (r.Some? ==> forall j :: 0 <= j < r.value ==> !players[j].isReaper)
            && (r.None? <==> forall j :: 0 <= j < |players| ==> !players[j].isReaper)
  {
    if |players| > 0 && !players[0].isReaper {
      FindReaperFirst(players[1..]);
      assert forall j :: 1 <= j < |players| ==> players[j] == players[1..][j - 1];
    }
  }

  /** Two rosters with the same roles in the same order have the same first reaper. */
  lemma {:induction false} FindReaperSameRoles(a: seq<Player>, b: seq<Player>)
    requires |a| == |b| && forall j :: 0 <= j < |a| ==> a[j].isReaper == b[j].isReaper
    ensures FindReaper(a) == FindReaper(b)
  {
    if |a| > 0 {
      FindReaperSameRoles(a[1..], b[1..]);
    }
  }

  /** Two rosters with the same usernames in the same order find the same index. */
  lemma {:induction false} FindByNameSameNames(a: seq<Player>, b: seq<Player>, username: string)
    requires |a| == |b| && forall j :: 0 <= j < |a| ==> a[j].username == b[j].username
    ensures FindByName(a, username) == FindByName(b, username)
  {
    if |a| > 0 {
      FindByNameSameNames(a[1..], b[1..], username);
    }
  }

  // ---------------------------------------------------------------- invariant

  /**
   * What every stored game keeps: the first player is the one reaper,
   * usernames are distinct, and the turn, when set, names a player.
   */
  ghost predicate Sound(s: GameState) {
    && (forall i :: 0 <= i < |s.players| ==> (s.players[i].isReaper <==> i == 0))
    && (forall i, j :: 0 <= i < j < |s.players| ==> s.players[i].username != s.players[j].username)
    && (s.currentTurn.Some? ==> HasName(s.players, s.currentTurn.value))
  }

  /** A stored game: sound, and never empty, since it is created by a join. */
  ghost predicate WellFormed(s: GameState) {
    Sound(s) && |s.players| >= 1
  }

  /**
   * In a well-formed game the reaper `checkWinConditions` looks up is the
   * first player, and the turn holder is always found, so neither the
   * 'Player not found' error nor a missing reaper can occur.
   */
  lemma WellFormedLookups(s: GameState)
    requires WellFormed(s)
    ensures FindReaper(s.players) == Some(0)
    ensures s.currentTurn.Some? ==> FindByName(s.players, s.currentTurn.value).Some?
  {
    FindReaperFirst(s.players);
    if s.currentTurn.Some? {
      FindByNameFirst(s.players, s.currentTurn.value);
    }
  }

  // ---------------------------------------------------------------- join

  /** The player `joinGame` creates: the first comer is the reaper at cell 0, later ones survivors at 15. */
  function Newcomer(username: string, first: bool): Player {
    Player(username, first, if first then ReaperHome else SurvivorHome, [])
  }

  function JoinSpec(s: GameState, username: string): (r: GameState)
    ensures HasName(s.players, username) ==> r == s
    ensures !HasName(s.players, username) ==>
              && r == s.(players := r.players, board := r.board)
              && |r.players| == |s.players| + 1
              && (forall i :: 0 <= i < |s.players| ==> r.players[i] == s.players[i])
              && var p := r.players[|s.players|];
                 && p.username == username && p.powerUps == []
                 && (p.isReaper <==> s.players == [])
                 && p.position == (if p.isReaper then ReaperHome else SurvivorHome)
                 && r.board == s.board[p.position := username]
  {
    FindByNameFirst(s.players, username);
    if FindByName(s.players, username).Some? then s
    else
      var p := Newcomer(username, |s.players| == 0);
      s.(players := s.players + [p], board := s.board[p.position := username])
  }

  /** Joining a sound game (a fresh one included) leaves a well-formed game. */
  lemma JoinEstablishesWellFormed(s: GameState, username: string)
    requires Sound(s)
    ensures WellFormed(JoinSpec(s, username))
  {
    var r := JoinSpec(s, username);
    if !HasName(s.players, username) {
      forall i, j | 0 <= i < j < |r.players| ensures r.players[i].username != r.players[j].username {
        if j == |s.players| {
          assert r.players[i] == s.players[i];
        }
      }
      if s.currentTurn.Some? {
        var k :| 0 <= k < |s.players| && s.players[k].username == s.currentTurn.value;
        assert r.players[k] == s.players[k];
      }
    }
  }

  // ---------------------------------------------------------------- start and reset

  /** The `forEach` shared by start and reset: back to the home cell, power-ups cleared. */
  function Homed(p: Player): Player {
    p.(position := if p.isReaper then ReaperHome else SurvivorHome, powerUps := [])
  }

  function HomedAll(players: seq<Player>): (r: seq<Player>)
    ensures |r| == |players|
    ensures forall i :: 0 <= i < |players| ==> r[i] == Homed(players[i])
  {
    seq(|players|, i requires 0 <= i < |players| => Homed(players[i]))
  }

  /**
   * The board rebuilt from a fresh `Array(16).fill(null)` by writing each
   * player at its position in roster order.
   */
  function BoardOf(players: seq<Player>): (board: map<int, string>)
    ensures forall c :: c in board ==> exists i :: 0 <= i < |players| && players[i].position == c
  {
    if |players| == 0 then map[]
    else
      var front := players[..|players| - 1];
      var last := players[|players| - 1];
      assert forall i :: 0 <= i < |front| ==> front[i] == players[i];
      BoardOf(front)[last.position := last.username]
  }

  /**
   * Every player's cell is occupied on the rebuilt board, by the last player
   * of the roster standing there.
   */
  lemma {:induction false} BoardOfLastWriter(players: seq<Player>, i: nat)
    requires i < |players|
    requires forall j :: i < j < |players| ==> players[j].position != players[i].position
    ensures players[i].position in BoardOf(players)
    ensures BoardOf(players)[players[i].position] == players[i].username
  {
    var front := players[..|players| - 1];
    if i < |players| - 1 {
      BoardOfLastWriter(front, i);
    }
  }

  /**
   * After the players go home, the board holds the reaper on cell 0 and, when
   * there is a survivor, the last survivor on cell 15, and nothing else.
   */
  lemma HomedBoard(players: seq<Player>)
    requires |players| >= 1
    requires forall i :: 0 <= i < |players| ==> (players[i].isReaper <==> i == 0)
    ensures var board := BoardOf(HomedAll(players));
            && board.Keys == (if |players| == 1 then {ReaperHome} else {ReaperHome, SurvivorHome})
            && board[ReaperHome] == players[0].username
            && (|players| >= 2 ==> board[SurvivorHome] == players[|players| - 1].username)
  {
    var homed := HomedAll(players);
    var board := BoardOf(homed);
    BoardOfLastWriter(homed, 0);
    if |players| >= 2 {
      BoardOfLastWriter(homed, |players| - 1);
    }
    forall c | c in board ensures c == ReaperHome || (|players| >= 2 && c == SurvivorHome) {
      var i :| 0 <= i < |homed| && homed[i].position == c;
    }
  }

  /** A draw `generatePowerUps` keeps: not taken yet and neither home cell. */
  predicate Acceptable(cell: int, taken: seq<int>) {
    cell !in taken && cell != ReaperHome && cell != SurvivorHome
  }

  /**
   * The rejection loop of `generatePowerUps` run over a whole sequence of
   * draws: every acceptable draw is appended to `taken`.
   */
  function Harvest(draws: seq<int>, taken: seq<int>): (r: seq<int>)
    ensures |taken| <= |r|
    decreases |draws|
  {
    if |draws| == 0 then taken
    else
      var next := if Acceptable(draws[0], taken) then taken + [draws[0]] else taken;
      Harvest(draws[1..], next)
  }

  /** The loop only appends: what was taken before stays in front. */
  lemma {:induction false} HarvestExtends(draws: seq<int>, taken: seq<int>)
    ensures Harvest(draws, taken)[..|taken|] == taken
    decreases |draws|
  {
    if |draws| > 0 {
      var next := if Acceptable(draws[0], taken) then taken + [draws[0]] else taken;
      HarvestExtends(draws[1..], next);
      var r := Harvest(draws[1..], next);
      assert r[..|next|][..|taken|] == r[..|taken|];
    }
  }

  /** Whatever the loop appends is a draw, new, and neither home cell. */
  lemma {:induction false} HarvestAppendsAcceptable(draws: seq<int>, taken: seq<int>)
    ensures forall i :: |taken| <= i < |Harvest(draws, taken)| ==>
              Harvest(draws, taken)[i] in draws && Acceptable(Harvest(draws, taken)[i], Harvest(draws, taken)[..i])
    decreases |draws|
  {
    if |draws| > 0 {
      var next := if Acceptable(draws[0], taken) then taken + [draws[0]] else taken;
      HarvestAppendsAcceptable(draws[1..], next);
      HarvestExtends(draws[1..], next);
      var r := Harvest(draws, taken);
      assert r == Harvest(draws[1..], next);
      if Acceptable(draws[0], taken) {
        assert r[..|taken|] == taken && r[|taken|] == draws[0];
      }
    }
  }

  /** Every draw is a value of `Math.floor(Math.random() * 16)`. */
  predicate DrawsFit(draws: seq<int>) {
    forall i :: 0 <= i < |draws| ==> 0 <= draws[i] < CellChoices
  }

  /** Draws with enough acceptable values for the three pickups. */
  predicate PickupDraws(draws: seq<int>) {
    DrawsFit(draws) && |Harvest(draws, [])| >= PickupCount
  }

  /** The pickup cells: the first three acceptable draws. */
  function Pickups(draws: seq<int>): (cells: seq<int>)
    requires PickupDraws(draws)
    ensures |cells| == PickupCount
    ensures forall i :: 0 <= i < |cells| ==> 0 < cells[i] < CellChoices && cells[i] != SurvivorHome
    ensures forall i, j :: 0 <= i < j < |cells| ==> cells[i] != cells[j]
  {
    var h := Harvest(draws, []);
    HarvestAppendsAcceptable(draws, []);
    forall i, j | 0 <= i < j < PickupCount ensures h[i] != h[j] {
      assert Acceptable(h[j], h[..j]);
      assert h[i] in h[..j];
    }
    forall i | 0 <= i < PickupCount ensures 0 < h[i] < CellChoices && h[i] != SurvivorHome {
      assert h[i] in draws && Acceptable(h[i], h[..i]);
      var k :| 0 <= k < |draws| && draws[k] == h[i];
    }
    h[..PickupCount]
  }

  /** `generatePowerUp`: the kind a pickup hands out, chosen by `draw`. */
  function GeneratePowerUp(draw: nat): (kind: string)
    requires draw < |PowerUpKinds|
    ensures kind == "shield" || kind == "reveal" || kind == "speed"
  {
    PowerUpKinds[draw]
  }

  function StartSpec(s: GameState, draws: seq<int>): (r: GameState)
    requires |s.players| >= 1 && PickupDraws(draws)
    ensures r.id == s.id && |r.players| == |s.players|
    ensures forall i :: 0 <= i < |s.players| ==>
              && r.players[i].username == s.players[i].username
              && r.players[i].isReaper == s.players[i].isReaper
              && r.players[i].position == (if s.players[i].isReaper then ReaperHome else SurvivorHome)
              && r.players[i].powerUps == []
    ensures r.board == BoardOf(r.players)
    ensures r.currentTurn == Some(s.players[0].username) && r.isGameStarted
    ensures r.winner == None && !r.gameOver && r.powerUps == Pickups(draws)
  {
    var players := HomedAll(s.players);
    s.(players := players, board := BoardOf(players), currentTurn := Some(players[0].username),
       isGameStarted := true, winner := None, gameOver := false, powerUps := Pickups(draws))
  }

  function ResetSpec(s: GameState): (r: GameState)
    ensures r.id == s.id && |r.players| == |s.players|
    ensures forall i :: 0 <= i < |s.players| ==>
              && r.players[i].username == s.players[i].username
              && r.players[i].isReaper == s.players[i].isReaper
              && r.players[i].position == (if s.players[i].isReaper then ReaperHome else SurvivorHome)
              && r.players[i].powerUps == []
    ensures r.board == BoardOf(r.players)
    ensures r.currentTurn == None && !r.isGameStarted
    ensures r.winner == None && !r.gameOver && r.powerUps == []
  {
    var players := HomedAll(s.players);
    s.(players := players, board := BoardOf(players), currentTurn := None,
       isGameStarted := false, winner := None, gameOver := false, powerUps := [])
  }

  /** Starting keeps a game well formed. */
  lemma StartKeepsWellFormed(s: GameState, draws: seq<int>)
    requires WellFormed(s) && PickupDraws(draws)
    ensures WellFormed(StartSpec(s, draws))
  {
    var r := StartSpec(s, draws);
    assert r.players[0].username == s.players[0].username;
  }

  /** Resetting keeps a game well formed. */
  lemma ResetKeepsWellFormed(s: GameState)
    requires WellFormed(s)
    ensures WellFormed(ResetSpec(s))
  {
  }

  // ---------------------------------------------------------------- win check

  /** `game.players.filter(p => !p.isReaper)`. */
  function Survivors(players: seq<Player>): (r: seq<Player>)
    ensures forall p :: p in r <==> p in players && !p.isReaper
  {
    if |players| == 0 then []
    else if players[0].isReaper then Survivors(players[1..])
    else [players[0]] + Survivors(players[1..])
  }

  /**
   * The verdict of `checkWinConditions`: the reaper wins when a survivor
   * shares its cell; the survivors win exactly when there is no survivor at
   * all, since their per-survivor condition is constantly false and `every`
   * holds only on an empty list; otherwise nobody has won yet.
   */
  function CheckWin(players: seq<Player>): (w: Option<GameRules.Winner>)
    requires FindReaper(players).Some?
  {
    var reaper := players[FindReaper(players).value];
    var survivors := Survivors(players);
    if AnyAt(survivors, reaper.position) then Some(GameRules.ReaperWins)
    else if |survivors| == 0 then Some(GameRules.SurvivorsWin)
    else None
  }

  /** Some player of `players` stands on `cell`. */
  function AnyAt(players: seq<Player>, cell: int): bool {
    |players| > 0 && (players[0].position == cell || AnyAt(players[1..], cell))
  }

  lemma {:induction false} AnyAtMeans(players: seq<Player>, cell: int)
    ensures AnyAt(players, cell) <==> exists m :: 0 <= m < |players| && players[m].position == cell
  {
    if |players| > 0 {
      AnyAtMeans(players[1..], cell);
      if exists m :: 0 <= m < |players| && players[m].position == cell {
        var m :| 0 <= m < |players| && players[m].position == cell;
        if m > 0 {
          assert players[1..][m - 1].position == cell;
        }
      }
      if exists m :: 0 <= m < |players[1..]| && players[1..][m].position == cell {
        var m :| 0 <= m < |players[1..]| && players[1..][m].position == cell;
        assert players[m + 1].position == cell;
      }
    }
  }

  /** The verdict in terms of the roster itself. */
  lemma CheckWinVerdicts(players: seq<Player>)
    requires FindReaper(players).Some?
    ensures var w := CheckWin(players);
            var cell := players[FindReaper(players).value].position;
            && (w == Some(GameRules.ReaperWins) <==>
                  exists j :: 0 <= j < |players| && !players[j].isReaper && players[j].position == cell)
            && (w == Some(GameRules.SurvivorsWin) <==> forall j :: 0 <= j < |players| ==> players[j].isReaper)
  {
    var survivors := Survivors(players);
    var cell := players[FindReaper(players).value].position;
    AnyAtMeans(survivors, cell);
    if exists j :: 0 <= j < |players| && !players[j].isReaper && players[j].position == cell {
      var j :| 0 <= j < |players| && !players[j].isReaper && players[j].position == cell;
      assert players[j] in survivors;
    }
    if AnyAt(survivors, cell) {
      var m :| 0 <= m < |survivors| && survivors[m].position == cell;
      assert survivors[m] in players;
    }
    if |survivors| > 0 {
      assert survivors[0] in players;
    }
    if exists j :: 0 <= j < |players| && !players[j].isReaper {
      var j :| 0 <= j < |players| && !players[j].isReaper;
      assert players[j] in survivors;
    }
  }

  // ---------------------------------------------------------------- moves and power-ups

  /** The checks `movePlayer` and `usePowerUp` make on a found game, in order. */
  function TurnGuard(s: GameState, username: string): Reply {
    if !s.isGameStarted then Failed(NotStarted)
    else if s.gameOver then Failed(GameIsOver)
    else if s.currentTurn != Some(username) then Failed(NotYourTurn)
    else if FindByName(s.players, username).None? then Failed(PlayerNotFound)
    else Ok
  }

  /**
   * The part of `movePlayer` before the win check: the mover's old cell is
   * cleared, the mover is written on the target, and a pickup on the target
   * hands out the power-up chosen by `draw` and is retired.
   */
  function Relocate(s: GameState, i: nat, position: int, draw: nat): (r: GameState)
    requires i < |s.players| && draw < |PowerUpKinds|
  {
    var p := s.players[i];
    var picked := position in s.powerUps;
    var mover := p.(position := position,
                    powerUps := if picked then p.powerUps + [GeneratePowerUp(draw)] else p.powerUps);
    s.(players := s.players[i := mover],
       board := (s.board - {p.position})[position := p.username],
       powerUps := if picked then Without(s.powerUps, position) else s.powerUps)
  }

  /**
   * `movePlayer` on a found game. The reply depends on the guard alone: the
   * target cell is taken as sent, with no distance or bounds check.
   */
  function MoveSpec(s: GameState, username: string, position: int, draw: nat): (r: Step)
    requires draw < |PowerUpKinds|
    requires TurnGuard(s, username) == Ok ==> FindReaper(s.players).Some?
    ensures r.reply == TurnGuard(s, username)
    ensures r.reply != Ok ==> r.state == s
  {
    if TurnGuard(s, username) != Ok then Step(TurnGuard(s, username), s)
    else
      var i := FindByName(s.players, username).value;
      var moved := Relocate(s, i, position, draw);
      FindReaperSameRoles(moved.players, s.players);
      Step(Ok, PassTurn(moved, i))
  }

  /**
   * The end of `movePlayer`: the win check, and when nobody has won, the turn
   * passes to the player after the mover `i`, wrapping round.
   */
  function PassTurn(moved: GameState, i: nat): (r: GameState)
    requires i < |moved.players| && FindReaper(moved.players).Some?
  {
    var w := CheckWin(moved.players);
    if w.Some? then moved.(winner := w, gameOver := true)
    else moved.(currentTurn := Some(moved.players[(i + 1) % |moved.players|].username))
  }

  /** The two outcomes of `PassTurn`, one VC each for the callers. */
  lemma PassTurnCases(moved: GameState, i: nat)
    requires i < |moved.players| && FindReaper(moved.players).Some?
    ensures CheckWin(moved.players).None? ==>
              PassTurn(moved, i) == moved.(currentTurn := Some(moved.players[(i + 1) % |moved.players|].username))
    ensures CheckWin(moved.players).Some? ==>
              PassTurn(moved, i) == moved.(winner := CheckWin(moved.players), gameOver := true)
  {
  }

  /**
   * Relocating player `i` puts it on the target, on the player list and on
   * the board, and empties its old cell; every other player and every other
   * cell is unchanged; landing on a pickup adds exactly one power-up and
   * retires that cell.
   */
  lemma RelocateEffects(s: GameState, i: nat, position: int, draw: nat)
    requires i < |s.players| && draw < |PowerUpKinds|
    ensures var r := Relocate(s, i, position, draw);
            var p := s.players[i];
            && r.id == s.id && |r.players| == |s.players|
            && r.players[i].username == p.username && r.players[i].isReaper == p.isReaper
            && r.players[i].position == position
            && (forall j :: 0 <= j < |s.players| && j != i ==> r.players[j] == s.players[j])
            && position in r.board && r.board[position] == p.username
            && (p.position != position ==> p.position !in r.board)
            && (forall c :: c != p.position && c != position ==>
                  (c in r.board <==> c in s.board) && (c in s.board ==> r.board[c] == s.board[c]))
            && (position in s.powerUps ==>
                  && |r.players[i].powerUps| == |p.powerUps| + 1
                  && r.players[i].powerUps[..|p.powerUps|] == p.powerUps
                  && r.players[i].powerUps[|p.powerUps|] in PowerUpKinds
                  && r.powerUps == Without(s.powerUps, position)
                  && position !in r.powerUps)
            && (position !in s.powerUps ==> r.players[i].powerUps == p.powerUps && r.powerUps == s.powerUps)
  {
    var moved := Relocate(s, i, position, draw);
    if position in s.powerUps {
      WithoutMembers(s.powerUps, position);
      assert moved.players[i].powerUps[..|s.players[i].powerUps|] == s.players[i].powerUps;
    }
  }

  /**
   * An accepted move is the turn holder's relocation, followed by the win
   * check or the passing of the turn; the roster and board after it are the
   * relocation's.
   */
  lemma MoveRelocates(s: GameState, username: string, position: int, draw: nat)
    requires draw < |PowerUpKinds|
    requires TurnGuard(s, username) == Ok && FindReaper(s.players).Some?
    ensures var r := MoveSpec(s, username, position, draw).state;
            var i := FindByName(s.players, username).value;
            && s.players[i].username == username
            && r.players == Relocate(s, i, position, draw).players
            && r.board == Relocate(s, i, position, draw).board
            && r.powerUps == Relocate(s, i, position, draw).powerUps
            && r.id == s.id && r.isGameStarted
  {
  }

  /**
   * After an accepted move the game ends exactly when `checkWinConditions`
   * finds a winner, keeping the turn; otherwise the turn passes to the next
   * player in roster order, with no skipping.
   */
  lemma MoveEndsOrPasses(s: GameState, username: string, position: int, draw: nat)
    requires draw < |PowerUpKinds|
    requires TurnGuard(s, username) == Ok && FindReaper(s.players).Some?
    ensures var r := MoveSpec(s, username, position, draw).state;
            var i := FindByName(s.players, username).value;
            && |r.players| == |s.players| && FindReaper(r.players).Some?
            && (r.gameOver <==> CheckWin(r.players).Some?)
            && (r.gameOver ==> r.winner == CheckWin(r.players) && r.currentTurn == s.currentTurn)
            && (!r.gameOver ==> r.winner == s.winner
                                && r.currentTurn == Some(r.players[(i + 1) % |r.players|].username))
  {
    var i := FindByName(s.players, username).value;
    var moved := Relocate(s, i, position, draw);
    FindReaperSameRoles(moved.players, s.players);
    RelocateKeepsRoster(s, i, position, draw);
    MoveSpecApplied(s, username, position, draw);
    PassTurnOutcome(moved, i);
  }

  /** An accepted move is the relocation of the turn holder followed by `PassTurn`. */
  lemma MoveSpecApplied(s: GameState, username: string, position: int, draw: nat)
    requires draw < |PowerUpKinds|
    requires TurnGuard(s, username) == Ok && FindReaper(s.players).Some?
    ensures var i := FindByName(s.players, username).value;
            && FindReaper(Relocate(s, i, position, draw).players).Some?
            && MoveSpec(s, username, position, draw)
               == Step(Ok, PassTurn(Relocate(s, i, position, draw), i))
  {
    var i := FindByName(s.players, username).value;
    FindReaperSameRoles(Relocate(s, i, position, draw).players, s.players);
  }

  /** The two outcomes of `PassTurn` on a game still running. */
  lemma PassTurnOutcome(m: GameState, i: nat)
    requires i < |m.players| && FindReaper(m.players).Some? && !m.gameOver
    ensures var r := PassTurn(m, i);
            && r.players == m.players
            && (r.gameOver <==> CheckWin(m.players).Some?)
            && (r.gameOver ==> r.winner == CheckWin(m.players) && r.currentTurn == m.currentTurn)
            && (!r.gameOver ==> r.winner == m.winner
                                && r.currentTurn == Some(m.players[(i + 1) % |m.players|].username))
  {
    PassTurnCases(m, i);
  }

  /**
   * With the reaper alone in the game, any accepted move of the reaper hands
   * the win to the survivors: `every` over no survivors is true.
   */
  lemma LoneReaperLosesOnMove(s: GameState, position: int, draw: nat)
    requires draw < |PowerUpKinds|
    requires |s.players| == 1 && s.players[0].isReaper
    requires TurnGuard(s, s.players[0].username) == Ok
    ensures var r := MoveSpec(s, s.players[0].username, position, draw).state;
            r.gameOver && r.winner == Some(GameRules.SurvivorsWin)
  {
    var r := MoveSpec(s, s.players[0].username, position, draw).state;
    FindReaperSameRoles(r.players, s.players);
    CheckWinVerdicts(r.players);
  }

  /** Moves keep a game well formed. */
  lemma MoveKeepsWellFormed(s: GameState, username: string, position: int, draw: nat)
    requires draw < |PowerUpKinds| && WellFormed(s)
    ensures WellFormed(MoveSpec(s, username, position, draw).state)
  {
    if TurnGuard(s, username) == Ok {
      WellFormedLookups(s);
      var i := FindByName(s.players, username).value;
      var moved := Relocate(s, i, position, draw);
      RelocateKeepsRoster(s, i, position, draw);
      SameRosterKeepsWellFormed(s, moved);
      MoveSpecApplied(s, username, position, draw);
      PassTurnKeepsWellFormed(moved, i);
    }
  }

  /** Two rosters with the same names and roles, in the same order. */
  ghost predicate SameRoster(a: seq<Player>, b: seq<Player>) {
    |a| == |b| && forall j :: 0 <= j < |a| ==> a[j].username == b[j].username && a[j].isReaper == b[j].isReaper
  }

  /** A relocation changes who stands where, not who plays. */
  lemma RelocateKeepsRoster(s: GameState, i: nat, position: int, draw: nat)
    requires i < |s.players| && draw < |PowerUpKinds|
    ensures SameRoster(Relocate(s, i, position, draw).players, s.players)
    ensures Relocate(s, i, position, draw).currentTurn == s.currentTurn
    ensures Relocate(s, i, position, draw).winner == s.winner
    ensures Relocate(s, i, position, draw).gameOver == s.gameOver
  {
    RelocateEffects(s, i, position, draw);
  }

  /** Well-formedness depends on the roster's names and roles and on the turn only. */
  lemma SameRosterKeepsWellFormed(s: GameState, t: GameState)
    requires WellFormed(s) && SameRoster(t.players, s.players) && t.currentTurn == s.currentTurn
    ensures WellFormed(t)
  {
    if t.currentTurn.Some? {
      var k :| 0 <= k < |s.players| && s.players[k].username == s.currentTurn.value;
      assert t.players[k].username == t.currentTurn.value;
    }
  }

  /** The win check and the passing of the turn keep a game well formed. */
  lemma PassTurnKeepsWellFormed(m: GameState, i: nat)
    requires WellFormed(m) && i < |m.players|
    ensures FindReaper(m.players).Some? && WellFormed(PassTurn(m, i))
  {
    WellFormedLookups(m);
    PassTurnCases(m, i);
    var r := PassTurn(m, i);
    if CheckWin(m.players).None? {
      assert r.players[(i + 1) % |r.players|].username == r.currentTurn.value;
    }
  }

  function UsePowerUpSpec(s: GameState, username: string, powerUp: string): (r: Step)
    ensures TurnGuard(s, username) != Ok ==> r.reply == TurnGuard(s, username)
    ensures TurnGuard(s, username) == Ok ==>
              var held := s.players[FindByName(s.players, username).value].powerUps;
              && (r.reply == Ok <==> powerUp in held)
              && (r.reply == Failed(PowerUpNotFound) <==> powerUp !in held)
    ensures r.reply != Ok ==> r.state == s
    ensures r.reply == Ok ==>
              var i := FindByName(s.players, username).value;
              var held := s.players[i].powerUps;
              var left := RemoveAt(held, IndexOf(held, powerUp));
              && r.state == s.(players := s.players[i := s.players[i].(powerUps := left)])
              && multiset(left) == multiset(held) - multiset{powerUp}
  {
    if TurnGuard(s, username) != Ok then Step(TurnGuard(s, username), s)
    else
      var i := FindByName(s.players, username).value;
      var held := s.players[i].powerUps;
      var k := IndexOf(held, powerUp);
      if k == -1 then Step(Failed(PowerUpNotFound), s)
      else
        RemoveAtMultiset(held, k);
        Step(Ok, s.(players := s.players[i := s.players[i].(powerUps := RemoveAt(held, k))]))
  }

  /** Using a power-up keeps a game well formed. */
  lemma UsePowerUpKeepsWellFormed(s: GameState, username: string, powerUp: string)
    requires WellFormed(s)
    ensures WellFormed(UsePowerUpSpec(s, username, powerUp).state)
  {
    var r := UsePowerUpSpec(s, username, powerUp).state;
    if UsePowerUpSpec(s, username, powerUp).reply == Ok {
      var i := FindByName(s.players, username).value;
      assert forall j :: 0 <= j < |s.players| ==> r.players[j].username == s.players[j].username;
      assert r.players[i].username == s.currentTurn.value;
    }
  }

  // ---------------------------------------------------------------- pickups

  /**
   * `generatePowerUps`: three `do … while` rejection loops over the draws,
   * each repeating until the draw is new and neither home cell.
   */
  method GeneratePowerUps(draws: seq<int>) returns (positions: seq<int>)
    requires PickupDraws(draws)
    ensures positions == Pickups(draws)
    ensures |positions| == PickupCount
    ensures forall i, j :: 0 <= i < j < |positions| ==> positions[i] != positions[j]
    ensures forall i :: 0 <= i < |positions| ==>
              && 0 <= positions[i] < CellChoices
              && positions[i] != ReaperHome && positions[i] != SurvivorHome
  {
    ghost var all := Harvest(draws, []);
    positions := [];
    var next := 0;
    assert draws[next..] == draws;
    for k := 0 to PickupCount
      invariant |positions| == k && next <= |draws|
      invariant Harvest(draws[next..], positions) == all
    {
      var position;
      position, next := DrawPickup(draws, next, positions);
      positions := positions + [position];
    }
    HarvestExtends(draws[next..], positions);
    assert positions == all[..PickupCount];
  }

  /**
   * One `do … while` loop of `generatePowerUps`: draws from `start` on until
   * a draw is acceptable, and answers it with the index after it.
   */
  method DrawPickup(draws: seq<int>, start: nat, taken: seq<int>) returns (position: int, next: nat)
    requires start <= |draws| && |Harvest(draws[start..], taken)| > |taken|
    ensures start < next <= |draws| && position == draws[next - 1] && Acceptable(position, taken)
    ensures Harvest(draws[start..], taken) == Harvest(draws[next..], taken + [position])
  {
    HarvestAtEnd(draws, taken);
    next := start;
    if next == |draws| {
      assert false;
    }
    while draws[next] in taken || draws[next] == ReaperHome || draws[next] == SurvivorHome
      invariant start <= next < |draws|
      invariant Harvest(draws[next..], taken) == Harvest(draws[start..], taken)
      decreases |draws| - next
    {
      HarvestSkips(draws, next, taken);
      next := next + 1;
      if next == |draws| {
        assert false;
      }
    }
    position := draws[next];
    HarvestKeeps(draws, next, taken);
    next := next + 1;
  }

  /** Past the last draw the loop appends nothing. */
  lemma HarvestAtEnd(draws: seq<int>, taken: seq<int>)
    ensures Harvest(draws[|draws|..], taken) == taken
  {
    assert draws[|draws|..] == [];
  }

  /** One turn of the rejection loop that drops the draw at `k`. */
  lemma HarvestSkips(draws: seq<int>, k: nat, taken: seq<int>)
    requires k < |draws| && !Acceptable(draws[k], taken)
    ensures Harvest(draws[k..], taken) == Harvest(draws[k + 1..], taken)
  {
    assert draws[k..][1..] == draws[k + 1..];
  }

  /** One turn of the rejection loop that keeps the draw at `k`. */
  lemma HarvestKeeps(draws: seq<int>, k: nat, taken: seq<int>)
    requires k < |draws| && Acceptable(draws[k], taken)
    ensures Harvest(draws[k..], taken) == Harvest(draws[k + 1..], taken + [draws[k]])
  {
    assert draws[k..][1..] == draws[k + 1..];
  }

  // ---------------------------------------------------------------- live games

  /** One game object of the `games` map, changed in place by the handlers. */
  class LiveGame {
    var id: string
    var players: seq<Player>
    var board: map<int, string>
    var currentTurn: Option<string>
    var isGameStarted: bool
    var winner: Option<GameRules.Winner>
    var gameOver: bool
    var powerUps: seq<int>

    function State(): GameState
      reads this
    {
      GameState(id, players, board, currentTurn, isGameStarted, winner, gameOver, powerUps)
    }

    ghost predicate Valid()
      reads this
    {
      WellFormed(State())
    }

    constructor (gameId: string)
      ensures State() == NewGame(gameId) && id == gameId
    {
      id := gameId;
      players := [];
      board := map[];
      currentTurn := None;
      isGameStarted := false;
      winner := None;
      gameOver := false;
      powerUps := [];
    }

    method Join(username: string)
      modifies this
      ensures State() == JoinSpec(old(State()), username)
    {
      var existing := FindByName(players, username);
      if existing.None? {
        var player := Newcomer(username, |players| == 0);
        players := players + [player];
        board := board[player.position := username];
      }
    }

    /** The `forEach` of start and reset, onto a fresh board. */
    method Rehome()
      modifies this`players, this`board
      ensures players == HomedAll(old(players)) && board == BoardOf(players)
    {
      var roster := players;
      var cells := map[];
      ghost var homed := HomedAll(players);
      for i := 0 to |roster|
        invariant |roster| == |players|
        invariant forall j :: 0 <= j < i ==> roster[j] == homed[j]
        invariant forall j :: i <= j < |roster| ==> roster[j] == players[j]
        invariant cells == BoardOf(homed[..i])
      {
        roster := roster[i := Homed(roster[i])];
        cells := cells[roster[i].position := roster[i].username];
        assert homed[..i + 1][..i] == homed[..i];
      }
      assert roster == homed;
      assert homed[..|roster|] == homed;
      players := roster;
      board := cells;
    }

    method StartNewGame(draws: seq<int>)
      requires |players| >= 1 && PickupDraws(draws)
      modifies this
      ensures State() == StartSpec(old(State()), draws)
    {
      Rehome();
      currentTurn := Some(players[0].username);
      isGameStarted := true;
      winner := None;
      gameOver := false;
      powerUps := GeneratePowerUps(draws);
    }

    method Reset()
      modifies this
      ensures State() == ResetSpec(old(State()))
    {
      Rehome();
      currentTurn := None;
      isGameStarted := false;
      winner := None;
      gameOver := false;
      powerUps := [];
    }

    /** Clears the mover's old cell, writes it on the target and collects a pickup there. */
    method MoveTo(i: nat, position: int, draw: nat)
      requires i < |players| && draw < |PowerUpKinds|
      modifies this
      ensures State() == Relocate(old(State()), i, position, draw)
    {
      board := board - {players[i].position};
      players := players[i := players[i].(position := position)];
      board := board[position := players[i].username];
      if position in powerUps {
        players := players[i := players[i].(powerUps := players[i].powerUps + [GeneratePowerUp(draw)])];
        powerUps := Without(powerUps, position);
      }
    }

    /** `checkWinConditions`: a loop over the survivors, then the `every` test. */
    method CheckWinConditions()
      requires FindReaper(players).Some?
      modifies this`winner, this`gameOver
      ensures var w := CheckWin(players);
              && winner == (if w.Some? then w else old(winner))
              && gameOver == (w.Some? || old(gameOver))
    {
      var reaper := players[FindReaper(players).value];
      var survivors := Survivors(players);
      for k := 0 to |survivors|
        invariant AnyAt(survivors, reaper.position) == AnyAt(survivors[k..], reaper.position)
        invariant winner == old(winner) && gameOver == old(gameOver)
      {
        assert survivors[k..][1..] == survivors[k + 1..];
        if survivors[k].position == reaper.position {
          winner := Some(GameRules.ReaperWins);
          gameOver := true;
          return;
        }
      }
      if |survivors| == 0 {
        winner := Some(GameRules.SurvivorsWin);
        gameOver := true;
      }
    }

    method MovePlayer(username: string, position: int, draw: nat) returns (reply: Reply)
      requires draw < |PowerUpKinds| && Valid()
      modifies this
      ensures reply == MoveSpec(old(State()), username, position, draw).reply
      ensures State() == MoveSpec(old(State()), username, position, draw).state
    {
      ghost var s := State();
      if !isGameStarted {
        return Failed(NotStarted);
      }
      if gameOver {
        return Failed(GameIsOver);
      }
      if currentTurn != Some(username) {
        return Failed(NotYourTurn);
      }
      var found := FindByName(players, username);
      if found.None? {
        return Failed(PlayerNotFound);
      }
      var i := found.value;
      MoveTo(i, position, draw);
      FindReaperSameRoles(players, s.players);
      FindByNameSameNames(players, s.players, username);
      FinishMove(i, username);
      return Ok;
    }

    /** The win check after a move, then the turn passed on from `username`, the mover at `i`. */
    method FinishMove(i: nat, username: string)
      requires i < |players| && FindReaper(players).Some? && !gameOver
      requires FindByName(players, username) == Some(i)
      modifies this
      ensures State() == PassTurn(old(State()), i)
    {
      PassTurnCases(State(), i);
      CheckWinConditions();
      if !gameOver {
        var currentPlayerIndex := FindByName(players, username).value;
        currentTurn := Some(players[(currentPlayerIndex + 1) % |players|].username);
      }
    }

    method UsePowerUp(username: string, powerUp: string) returns (reply: Reply)
      modifies this
      ensures reply == UsePowerUpSpec(old(State()), username, powerUp).reply
      ensures State() == UsePowerUpSpec(old(State()), username, powerUp).state
    {
      if !isGameStarted {
        return Failed(NotStarted);
      }
      if gameOver {
        return Failed(GameIsOver);
      }
      if currentTurn != Some(username) {
        return Failed(NotYourTurn);
      }
      var found := FindByName(players, username);
      if found.None? {
        return Failed(PlayerNotFound);
      }
      var i := found.value;
      var powerUpIndex := IndexOf(players[i].powerUps, powerUp);
      if powerUpIndex == -1 {
        return Failed(PowerUpNotFound);
      }
      players := players[i := players[i].(powerUps := RemoveAt(players[i].powerUps, powerUpIndex))];
      return Ok;
    }
  }

  // ---------------------------------------------------------------- the store

  /** The object `joinGame` creates for an unknown id, with the joining player in it. */
  method FoundGame(gameId: string, username: string) returns (game: LiveGame)
    ensures fresh(game) && game.id == gameId && game.Valid()
    ensures game.State() == JoinSpec(NewGame(gameId), username)
  {
    game := new LiveGame(gameId);
    JoinEstablishesWellFormed(game.State(), username);
    game.Join(username);
  }


  /** The module-level `games` map of server/server.js. */
  class GameStore {
    var games: map<string, LiveGame>

    /** Each game sits under its own id, is well formed, and no object is shared by two ids. */
    ghost predicate Valid()
      reads this, games.Values
    {
      && (forall k :: k in games ==> games[k].id == k && games[k].Valid())
      && (forall k1, k2 :: k1 in games && k2 in games && k1 != k2 ==> games[k1] != games[k2])
    }

    constructor ()
      ensures Valid() && games == map[]
    {
      games := map[];
    }

    method JoinGame(gameId: string, username: string)
      requires Valid()
      modifies this, games.Values
      ensures Valid()
      ensures games.Keys == old(games.Keys) + {gameId}
      ensures games[gameId].State() ==
                JoinSpec(if gameId in old(games) then old(games[gameId].State()) else NewGame(gameId), username)
      ensures forall k :: k in old(games) && k != gameId ==>
                games[k] == old(games[k]) && games[k].State() == old(games[k].State())
    {
      if gameId in games {
        JoinExisting(gameId, username);
      } else {
        JoinCreated(gameId, username);
      }
    }

    /** `joinGame` on an id the map does not hold: a new game is stored with the player in it. */
    method JoinCreated(gameId: string, username: string)
      requires Valid() && gameId !in games
      modifies this
      ensures Valid()
      ensures games.Keys == old(games.Keys) + {gameId}
      ensures games[gameId].State() == JoinSpec(NewGame(gameId), username)
      ensures forall k :: k in old(games) ==> games[k] == old(games[k]) && games[k].State() == old(games[k].State())
    {
      var game := FoundGame(gameId, username);
      games := games[gameId := game];
    }

    /** `joinGame` on a game the map already holds: the join changes that game alone. */
    method JoinExisting(gameId: string, username: string)
      requires Valid() && gameId in games
      modifies games[gameId]
      ensures Valid()
      ensures games[gameId].State() == JoinSpec(old(games[gameId].State()), username)
      ensures forall k :: k in games && k != gameId ==> games[k].State() == old(games[k].State())
    {
      var game := games[gameId];
      JoinEstablishesWellFormed(game.State(), username);
      game.Join(username);
      forall k | k in games && k != gameId
        ensures games[k].State() == old(games[k].State()) && games[k].id == k && games[k].Valid()
      {
        assert games[k] != game;
      }
    }

    method StartNewGame(gameId: string, draws: seq<int>) returns (reply: Reply)
      requires Valid() && PickupDraws(draws)
      modifies games.Values
      ensures Valid()
      ensures gameId !in games ==> reply == Failed(GameNotFound)
      ensures gameId in games ==> reply == Ok && games[gameId].State() == StartSpec(old(games[gameId].State()), draws)
      ensures forall k :: k in games && k != gameId ==> games[k].State() == old(games[k].State())
    {
      if gameId !in games {
        return Failed(GameNotFound);
      }
      var game := games[gameId];
      StartKeepsWellFormed(game.State(), draws);
      game.StartNewGame(draws);
      return Ok;
    }

    method ResetGame(gameId: string) returns (reply: Reply)
      requires Valid()
      modifies games.Values
      ensures Valid()
      ensures gameId !in games ==> reply == Failed(GameNotFound)
      ensures gameId in games ==> reply == Ok && games[gameId].State() == ResetSpec(old(games[gameId].State()))
      ensures forall k :: k in games && k != gameId ==> games[k].State() == old(games[k].State())
    {
      if gameId !in games {
        return Failed(GameNotFound);
      }
      var game := games[gameId];
      ResetKeepsWellFormed(game.State());
      game.Reset();
      return Ok;
    }

    method MovePlayer(gameId: string, username: string, position: int, draw: nat) returns (reply: Reply)
      requires Valid() && draw < |PowerUpKinds|
      modifies games.Values
      ensures Valid()
      ensures gameId !in games ==> reply == Failed(GameNotFound)
      ensures gameId in games ==>
                var step := MoveSpec(old(games[gameId].State()), username, position, draw);
                reply == step.reply && games[gameId].State() == step.state
      ensures forall k :: k in games && k != gameId ==> games[k].State() == old(games[k].State())
    {
      if gameId !in games {
        return Failed(GameNotFound);
      }
      var game := games[gameId];
      MoveKeepsWellFormed(game.State(), username, position, draw);
      reply := game.MovePlayer(username, position, draw);
    }

    method UsePowerUp(gameId: string, username: string, powerUp: string) returns (reply: Reply)
      requires Valid()
      modifies games.Values
      ensures Valid()
      ensures gameId !in games ==> reply == Failed(GameNotFound)
      ensures gameId in games ==>
                var step := UsePowerUpSpec(old(games[gameId].State()), username, powerUp);
                reply == step.reply && games[gameId].State() == step.state
      ensures forall k :: k in games && k != gameId ==> games[k].State() == old(games[k].State())
    {
      if gameId !in games {
        return Failed(GameNotFound);
      }
      var game := games[gameId];
      UsePowerUpKeepsWellFormed(game.State(), username, powerUp);
      reply := game.UsePowerUp(username, powerUp);
    }
  }
}
