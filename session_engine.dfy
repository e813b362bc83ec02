/**
 * The database-backed session engine. Every handler loads the stored game
 * document into a fresh record (`findOne`), validates, changes the record
 * step by step and writes it back (`save`). The database is a map from game
 * id to the stored document; a `GameRecord` is one loaded document.
 *
 * Each operation has a specification function on documents (`JoinSpec`,
 * `StartSpec`, `MoveSpec`, `UsePowerUpSpec`), whose own contract states what
 * the source promises, and a record method proved to compute it.
 */
module SessionEngine {
  import opened Wrappers
  import opened SeqUtil
  import opened GameRules

  /** `gameSettings.maxPlayers` (its schema default; nothing changes it). */
  const MaxPlayers := 6

  const RevealPowerUp := "reveal"

  /** The `gameError` messages a handler sends back to the caller alone. */
  datatype GameError =
    | GameAlreadyStarted   // 'Game has already started'
    | GameFull             // 'Game is full'
    | UsernameTaken        // 'Username already taken'
    | GameNotFound         // 'Game not found'
    | NotHost              // 'Only the host can start the game'
    | NotEnoughPlayers     // 'Need at least 2 players to start'
    | NotYourTurn          // 'Not your turn'
    | InvalidMove          // 'Invalid move'
    | PowerUpNotAvailable  // 'Power-up not available'
    | PowerUpFailed        // 'Failed to use power-up'

  /** Applied; ignored without a reply (a bare `return`); or rejected with an error. */
  datatype Verdict = Applied | Ignored | Rejected(error: GameError)

  /** The private `reaperRevealed` message of a 'reveal' power-up, if any. */
  datatype RevealMessage = NoReveal | RevealTo(recipient: string, reaperPosition: Option<int>)

  datatype PowerUpOutcome = PowerUpUsed(disclosure: RevealMessage) | PowerUpIgnored | PowerUpRejected(error: GameError)

  /** The stored fields of one game the engine reads or writes. */
  datatype GameDoc = GameDoc(
    gameId: string,
    hostId: string,
    status: Status,
    players: seq<Player>,
    currentTurn: Option<string>,   // currentTurn.playerId
    winner: Option<Winner>)

  /** A handler's verdict together with the document it leaves behind. */
  datatype Step<O> = Step(outcome: O, doc: GameDoc)

  /** The document a join creates for an unknown game id. */
  function NewGameDoc(gameId: string, hostId: string): GameDoc {
    GameDoc(gameId, hostId, Waiting, [], None, None)
  }

  /** The player a successful join appends. */
  function NewPlayer(id: string, username: string): Player {
    Player(id, username, false, None, true, [])
  }

  predicate HasUsername(players: seq<Player>, username: string) {
    exists i :: 0 <= i < |players| && players[i].username == username
  }

  function CountReapers(players: seq<Player>): nat {
    if |players| == 0 then 0
    else (if players[0].isReaper then 1 else 0) + CountReapers(players[1..])
  }

  // ---------------------------------------------------------------- join

  function JoinSpec(d: GameDoc, socketId: string, username: string): (r: Step<Verdict>)
    ensures r.outcome == Rejected(GameAlreadyStarted) <==> d.status != Waiting
    ensures r.outcome == Rejected(GameFull) <==> d.status == Waiting && |d.players| >= MaxPlayers
    ensures r.outcome == Rejected(UsernameTaken) <==>
              d.status == Waiting && |d.players| < MaxPlayers && HasUsername(d.players, username)
    ensures r.outcome == Applied <==>
              d.status == Waiting && |d.players| < MaxPlayers && !HasUsername(d.players, username)
    ensures r.outcome != Ignored
    ensures r.outcome != Applied ==> r.doc == d
    ensures r.outcome == Applied ==>
              && r.doc.players == d.players + [NewPlayer(socketId, username)]
              && r.doc == d.(players := r.doc.players)
  {
    if d.status != Waiting then Step(Rejected(GameAlreadyStarted), d)
    else if |d.players| >= MaxPlayers then Step(Rejected(GameFull), d)
    else if HasUsername(d.players, username) then Step(Rejected(UsernameTaken), d)
    else Step(Applied, d.(players := d.players + [NewPlayer(socketId, username)]))
  }

  /** A roster built by joins alone holds no reaper. */
  lemma {:induction false} JoinKeepsNoReaper(d: GameDoc, socketId: string, username: string)
    requires CountReapers(d.players) == 0
    ensures CountReapers(JoinSpec(d, socketId, username).doc.players) == 0
  {
    var r := JoinSpec(d, socketId, username);
    if r.outcome == Applied {
      CountReapersAppend(d.players, [NewPlayer(socketId, username)]);
    }
  }

  lemma {:induction false} CountReapersAppend(a: seq<Player>, b: seq<Player>)
    ensures CountReapers(a + b) == CountReapers(a) + CountReapers(b)
  {
    if |a| == 0 {
      assert a + b == b;
    } else {
      assert (a + b)[1..] == a[1..] + b;
      CountReapersAppend(a[1..], b);
    }
  }

  // ---------------------------------------------------------------- start

  /** The 16 cells, the `available` list start positions are drawn from. */
  function AllCells(): (cells: seq<int>)
    ensures |cells| == CellCount
    ensures forall i :: 0 <= i < CellCount ==> cells[i] == i
  {
    seq(CellCount, i => i)
  }

  lemma AllCellsAreTheGrid()
    ensures Distinct(AllCells())
    ensures forall c :: c in AllCells() <==> InGrid(c)
  {
    forall c | InGrid(c) ensures c in AllCells() {
      assert AllCells()[c] == c;
    }
  }

  /** Random indexes into a shrinking list: the i-th is below `size - i`. */
  predicate PicksFit(picks: seq<nat>, size: nat) {
    forall i :: 0 <= i < |picks| ==> picks[i] < size - i
  }

  /**
   * The cells `getRandomStartPositions` draws: each pick removes one entry of
   * `available` and yields it.
   */
  function Draw(available: seq<int>, picks: seq<nat>): (cells: seq<int>)
    requires PicksFit(picks, |available|)
    ensures |cells| == |picks|
    ensures forall c :: c in cells ==> c in available
    ensures Distinct(available) ==> Distinct(cells)
    decreases |picks|
  {
    if |picks| == 0 then []
    else
      var rest := RemoveAt(available, picks[0]);
      RemoveAtDistinctWhen(available, picks[0]);
      [available[picks[0]]] + Draw(rest, picks[1..])
  }

  lemma RemoveAtDistinctWhen(s: seq<int>, k: nat)
    requires k < |s|
    ensures forall x :: x in RemoveAt(s, k) ==> x in s
    ensures Distinct(s) ==> Distinct(RemoveAt(s, k)) && s[k] !in RemoveAt(s, k)
  {
    forall x | x in RemoveAt(s, k) ensures x in s {
      var i :| 0 <= i < |RemoveAt(s, k)| && RemoveAt(s, k)[i] == x;
      if i < k { assert s[i] == x; } else { assert s[i + 1] == x; }
    }
    if Distinct(s) {
      RemoveAtDistinct(s, k);
    }
  }

  /** The random choices one start consumes fit a roster of `n` players. */
  predicate StartChoicesFit(n: nat, reaperIndex: nat, picks: seq<nat>) {
    n >= 2 ==> reaperIndex < n && n <= CellCount && |picks| == n && PicksFit(picks, CellCount)
  }

  method GetRandomStartPositions(playerCount: nat, picks: seq<nat>) returns (positions: seq<int>)
    requires playerCount <= CellCount && |picks| == playerCount && PicksFit(picks, CellCount)
    ensures positions == Draw(AllCells(), picks)
    ensures |positions| == playerCount && Distinct(positions)
    ensures forall c :: c in positions ==> InGrid(c)
  {
    AllCellsAreTheGrid();
    positions := [];
    var available := AllCells();
    for i := 0 to playerCount
      invariant |available| == CellCount - i
      invariant PicksFit(picks[i..], |available|)
      invariant positions + Draw(available, picks[i..]) == Draw(AllCells(), picks)
    {
      var randomIndex := picks[i];
      assert picks[i..][1..] == picks[i + 1..];
      positions := positions + [available[randomIndex]];
      available := RemoveAt(available, randomIndex);
    }
  }

  /** Player `i` after a start that picked `reaperIndex` and drew `cells`. */
  function StartedPlayer(p: Player, i: nat, reaperIndex: nat, cell: int): Player {
    p.(isReaper := if i == reaperIndex then true else p.isReaper, position := Some(cell))
  }

  /** The roster after a start: `reaperIndex` becomes a reaper, player i goes to `cells[i]`. */
  function StartedRoster(players: seq<Player>, reaperIndex: nat, cells: seq<int>): (r: seq<Player>)
    requires |cells| == |players|
    ensures |r| == |players|
    ensures forall i :: 0 <= i < |players| ==> r[i] == StartedPlayer(players[i], i, reaperIndex, cells[i])
  {
    seq(|players|, i requires 0 <= i < |players| => StartedPlayer(players[i], i, reaperIndex, cells[i]))
  }

  function StartSpec(d: GameDoc, socketId: string, reaperIndex: nat, picks: seq<nat>): (r: Step<Verdict>)
    requires StartChoicesFit(|d.players|, reaperIndex, picks)
    ensures r.outcome == Rejected(NotHost) <==> d.hostId != socketId
    ensures r.outcome == Rejected(NotEnoughPlayers) <==> d.hostId == socketId && |d.players| < 2
    ensures r.outcome == Applied <==> d.hostId == socketId && |d.players| >= 2
    ensures r.outcome != Ignored
    ensures r.outcome != Applied ==> r.doc == d
  {
    if d.hostId != socketId then Step(Rejected(NotHost), d)
    else if |d.players| < 2 then Step(Rejected(NotEnoughPlayers), d)
    else
      var players := StartedRoster(d.players, reaperIndex, Draw(AllCells(), picks));
      Step(Applied, d.(status := Playing, players := players, currentTurn := Some(d.players[0].id)))
  }

  /**
   * A successful start marks the picked player as reaper without touching
   * the other reaper flags, puts every player on a distinct grid cell,
   * opens play and gives the turn to the first player of the roster.
   */
  lemma StartAcceptedEffects(d: GameDoc, socketId: string, reaperIndex: nat, picks: seq<nat>)
    requires StartChoicesFit(|d.players|, reaperIndex, picks)
    requires StartSpec(d, socketId, reaperIndex, picks).outcome == Applied
    ensures var r := StartSpec(d, socketId, reaperIndex, picks).doc;
            && r.status == Playing
            && r.currentTurn == Some(d.players[0].id)
            && r.gameId == d.gameId && r.hostId == d.hostId && r.winner == d.winner
            && |r.players| == |d.players|
            && r.players[reaperIndex].isReaper
            && (forall i :: 0 <= i < |d.players| && i != reaperIndex ==> r.players[i].isReaper == d.players[i].isReaper)
            && (forall i :: 0 <= i < |d.players| ==>
                  && r.players[i].id == d.players[i].id
                  && r.players[i].username == d.players[i].username
                  && r.players[i].isAlive == d.players[i].isAlive
                  && r.players[i].powerUps == d.players[i].powerUps
                  && r.players[i].position.Some?
                  && InGrid(r.players[i].position.value))
            && (forall i, j :: 0 <= i < j < |d.players| ==> r.players[i].position != r.players[j].position)
  {
    var cells := Draw(AllCells(), picks);
    AllCellsAreTheGrid();
    assert forall i :: 0 <= i < |d.players| ==> cells[i] in cells;
  }

  /** Starting a roster that has no reaper yields exactly one. */
  lemma StartFromJoinedRosterHasOneReaper(d: GameDoc, socketId: string, reaperIndex: nat, picks: seq<nat>)
    requires StartChoicesFit(|d.players|, reaperIndex, picks)
    requires CountReapers(d.players) == 0
    requires StartSpec(d, socketId, reaperIndex, picks).outcome == Applied
    ensures CountReapers(StartSpec(d, socketId, reaperIndex, picks).doc.players) == 1
  {
    var after := StartSpec(d, socketId, reaperIndex, picks).doc.players;
    NoReaperCounted(d.players);
    OneReaperCounted(after, reaperIndex);
  }

  lemma {:induction false} NoReaperCounted(players: seq<Player>)
    ensures CountReapers(players) == 0 <==> forall i :: 0 <= i < |players| ==> !players[i].isReaper
  {
    if |players| > 0 {
      NoReaperCounted(players[1..]);
      assert forall i :: 1 <= i < |players| ==> players[i] == players[1..][i - 1];
    }
  }

  lemma {:induction false} OneReaperCounted(players: seq<Player>, k: nat)
    requires k < |players| && players[k].isReaper
    requires forall i :: 0 <= i < |players| && i != k ==> !players[i].isReaper
    ensures CountReapers(players) == 1
  {
    if k == 0 {
      NoReaperCounted(players[1..]);
    } else {
      OneReaperCounted(players[1..], k - 1);
    }
  }

  /**
   * Start checks neither the status nor old reaper flags: restarting a game
   * whose reaper is player 0 with a new pick of player 1 leaves two reapers.
   */
  lemma RestartCanLeaveTwoReapers(d: GameDoc, picks: seq<nat>)
    requires |d.players| == 2 && d.players[0].isReaper && !d.players[1].isReaper
    requires StartChoicesFit(2, 1, picks)
    ensures StartSpec(d, d.hostId, 1, picks).outcome == Applied
    ensures CountReapers(StartSpec(d, d.hostId, 1, picks).doc.players) == 2
  {
    var after := StartSpec(d, d.hostId, 1, picks).doc.players;
    assert after[0].isReaper && after[1].isReaper;
    assert after[1..][1..] == [];
    assert CountReapers(after[1..]) == 1 + CountReapers(after[1..][1..]) == 1;
  }

  // ---------------------------------------------------------------- turns

  /** The index `k` places after `cur` in cyclic roster order, `(cur + k) % n`. */
  function Offset(cur: nat, k: nat, n: nat): (i: nat)
    requires cur < n && k <= n
    ensures i < n
    ensures i == cur <==> k == 0 || k == n
  {
    if cur + k < n then cur + k else cur + k - n
  }

  /** One step of the source's `(i + 1) % n`. */
  lemma StepMod(x: nat, n: nat)
    requires x < n
    ensures (x + 1) % n == if x + 1 < n then x + 1 else 0
  {
    if x + 1 == n {
      assert (x + 1) % n == n % n == 0;
    }
  }

  /**
   * The first living player at offset `k`, `k + 1`, ..., `n - 1` after
   * `cur`, or `cur` itself when all of them are dead.
   */
  function NextTurnFrom(players: seq<Player>, cur: nat, k: nat): (next: nat)
    requires cur < |players| && 1 <= k <= |players|
    ensures next < |players|
    decreases |players| - k
  {
    var n := |players|;
    if k == n then cur
    else if players[Offset(cur, k, n)].isAlive then Offset(cur, k, n)
    else NextTurnFrom(players, cur, k + 1)
  }

  /**
   * The search from offset `k` lands on the first living player it meets,
   * skipping only dead ones, and comes back to `cur` exactly when it meets
   * none.
   */
  lemma {:induction false} NextTurnFromFirstLiving(players: seq<Player>, cur: nat, k: nat)
    requires cur < |players| && 1 <= k <= |players|
    ensures var next := NextTurnFrom(players, cur, k);
            && (next == cur || players[next].isAlive)
            && (next == cur <==> forall j :: k <= j < |players| ==> !players[Offset(cur, j, |players|)].isAlive)
            && (next != cur ==>
                  exists m :: && k <= m < |players| && next == Offset(cur, m, |players|)
                              && forall j :: k <= j < m ==> !players[Offset(cur, j, |players|)].isAlive)
    decreases |players| - k
  {
    var n := |players|;
    if k < n && !players[Offset(cur, k, n)].isAlive {
      NextTurnFromFirstLiving(players, cur, k + 1);
    }
  }

  /** The player index `moveToNextTurn` hands the turn to. */
  function NextTurnIndex(players: seq<Player>, cur: nat): (next: nat)
    requires cur < |players|
    ensures next < |players|
  {
    NextTurnFrom(players, cur, 1)
  }

  /**
   * The turn passes over dead players only, and lands on a living player
   * whenever anybody is alive; it stays with the current holder exactly when
   * nobody else is alive.
   */
  lemma NextTurnIsFirstLivingAfter(players: seq<Player>, cur: nat)
    requires cur < |players|
    ensures var next := NextTurnIndex(players, cur);
            && (next == cur <==> forall i :: 0 <= i < |players| && i != cur ==> !players[i].isAlive)
            && ((exists i :: 0 <= i < |players| && players[i].isAlive) ==> players[next].isAlive)
  {
    var n := |players|;
    var next := NextTurnIndex(players, cur);
    NextTurnFromFirstLiving(players, cur, 1);
    forall i | 0 <= i < n && i != cur && players[i].isAlive ensures next != cur {
      var m := if i > cur then i - cur else i + n - cur;
      assert Offset(cur, m, n) == i;
    }
    if next == cur {
      forall i | 0 <= i < n && i != cur ensures !players[i].isAlive {
        var m := if i > cur then i - cur else i + n - cur;
        assert Offset(cur, m, n) == i;
      }
    }
  }

  // ---------------------------------------------------------------- moves

  /** Whether a reaper landing on `target` eliminates `p`. */
  function KillAt(p: Player, target: int): Player {
    if !p.isReaper && p.isAlive && p.position == Some(target) then p.(isAlive := false) else p
  }

  /** The roster after a reaper lands on `target`. */
  function KillAll(players: seq<Player>, target: int): (r: seq<Player>)
    ensures |r| == |players|
    ensures forall i :: 0 <= i < |players| ==> r[i] == KillAt(players[i], target)
  {
    seq(|players|, i requires 0 <= i < |players| => KillAt(players[i], target))
  }

  /** A reaper's landing on `target`: every living survivor there is eliminated. */
  method EliminateAt(players: seq<Player>, target: int) returns (after: seq<Player>)
    ensures after == KillAll(players, target)
  {
    after := players;
    for j := 0 to |after|
      invariant |after| == |players|
      invariant forall m :: 0 <= m < j ==> after[m] == KillAt(players[m], target)
      invariant forall m :: j <= m < |after| ==> after[m] == players[m]
    {
      if !after[j].isReaper && after[j].isAlive && after[j].position == Some(target) {
        after := after[j := after[j].(isAlive := false)];
      }
    }
  }

  /** The turn holder `socketId` may move: the first check that fails, if any. */
  function MoveCheck(d: GameDoc, socketId: string, target: int): Verdict {
    var found := FindById(d.players, socketId);
    if d.status != Playing || found.None? || !d.players[found.value].isAlive then Ignored
    else if d.currentTurn != Some(socketId) then Rejected(NotYourTurn)
    else if !CanMove(d.players, socketId, target) then Rejected(InvalidMove)
    else Applied
  }

  function MoveSpec(d: GameDoc, socketId: string, target: int): (r: Step<Verdict>)
    ensures r.outcome == Ignored <==>
              || d.status != Playing || FindById(d.players, socketId).None?
              || !d.players[FindById(d.players, socketId).value].isAlive
    ensures r.outcome == Rejected(NotYourTurn) <==> r.outcome != Ignored && d.currentTurn != Some(socketId)
    ensures r.outcome == Rejected(InvalidMove) <==>
              r.outcome != Ignored && d.currentTurn == Some(socketId) && !CanMove(d.players, socketId, target)
    ensures r.outcome == Applied <==>
              r.outcome != Ignored && d.currentTurn == Some(socketId) && CanMove(d.players, socketId, target)
    ensures r.outcome != Applied ==> r.doc == d
  {
    var verdict := MoveCheck(d, socketId, target);
    if verdict != Applied then Step(verdict, d)
    else Step(Applied, AppliedDoc(d, FindById(d.players, socketId).value, target))
  }

  /** The document after player `i`'s move to `target` is accepted: the game ends, or the turn passes. */
  function AppliedDoc(d: GameDoc, i: nat, target: int): GameDoc
    requires i < |d.players|
  {
    var after := MovedRoster(d.players, i, target);
    if IsGameOver(after, Playing) then
      d.(players := after, status := Finished, winner := GetWinner(after, Finished))
    else
      d.(players := after, currentTurn := Some(after[NextTurnIndex(after, i)].id))
  }

  /** The roster after player `i` moves to `target`, with a reaper's kills. */
  function MovedRoster(players: seq<Player>, i: nat, target: int): (after: seq<Player>)
    requires i < |players|
    ensures |after| == |players|
  {
    var moved := players[i := players[i].(position := Some(target))];
    if moved[i].isReaper then KillAll(moved, target) else moved
  }

  /**
   * An accepted move takes the turn holder to an adjacent cell; the other
   * players keep everything except that a reaper's move eliminates exactly
   * the living survivors on its target, and a survivor's move nobody.
   */
  lemma MoveAcceptedEffects(d: GameDoc, socketId: string, target: int)
    requires MoveSpec(d, socketId, target).outcome == Applied
    ensures var i := FindById(d.players, socketId).value;
            var mover := d.players[i];
            var after := MoveSpec(d, socketId, target).doc.players;
            && d.currentTurn == Some(socketId)
            && target in GetValidMoves(NumericPosition(mover.position))
            && |after| == |d.players|
            && after[i] == mover.(position := Some(target))
            && (forall j :: 0 <= j < |d.players| && j != i ==>
                  && after[j].id == d.players[j].id && after[j].position == d.players[j].position
                  && after[j].isReaper == d.players[j].isReaper && after[j].powerUps == d.players[j].powerUps
                  && (d.players[j].isAlive && !after[j].isAlive <==>
                        mover.isReaper && IsLivingSurvivor(d.players[j]) && d.players[j].position == Some(target))
                  && (after[j].isAlive ==> d.players[j].isAlive))
  {
    var i := FindById(d.players, socketId).value;
    assert MoveSpec(d, socketId, target).doc.players == MovedRoster(d.players, i, target);
  }

  /**
   * After an accepted move the game ends with the reaper as winner exactly
   * when no living survivor is left, and the turn stays put; otherwise the
   * game goes on and the turn passes to a living player.
   */
  lemma MoveEndsOrRotates(d: GameDoc, socketId: string, target: int)
    requires MoveSpec(d, socketId, target).outcome == Applied
    ensures var r := MoveSpec(d, socketId, target).doc;
            var i := FindById(d.players, socketId).value;
            && r.gameId == d.gameId && r.hostId == d.hostId
            && (NoLivingSurvivor(r.players) ==>
                  r.status == Finished && r.winner == Some(ReaperWins) && r.currentTurn == d.currentTurn)
            && (!NoLivingSurvivor(r.players) ==>
                  && r.status == Playing && r.winner == d.winner
                  && r.currentTurn == Some(r.players[NextTurnIndex(r.players, i)].id)
                  && r.players[NextTurnIndex(r.players, i)].isAlive)
  {
    var r := MoveSpec(d, socketId, target).doc;
    var i := FindById(d.players, socketId).value;
    assert r.players[i].isAlive;
    NextTurnIsFirstLivingAfter(r.players, i);
  }

  /** An accepted move leaves every player id in place. */
  lemma {:induction false} FindByIdSameIds(a: seq<Player>, b: seq<Player>, id: string)
    requires |a| == |b| && forall j :: 0 <= j < |a| ==> a[j].id == b[j].id
    ensures FindById(a, id) == FindById(b, id)
  {
    if |a| > 0 {
      FindByIdSameIds(a[1..], b[1..], id);
    }
  }

  // ---------------------------------------------------------------- power-ups

  /** The first reaper of the roster, as `players.find(p => p.isReaper)`. */
  function FindReaper(players: seq<Player>): (r: Option<nat>)
    ensures r.Some? ==> r.value < |players| && players[r.value].isReaper
    ensures r.Some? ==> forall j :: 0 <= j < r.value ==> !players[j].isReaper
    ensures r.None? ==> forall j :: 0 <= j < |players| ==> !players[j].isReaper
  {
    if |players| == 0 then None
    else if players[0].isReaper then Some(0)
    else
      var rest := FindReaper(players[1..]);
      if rest.Some? then Some(rest.value + 1) else None
  }

  function UsePowerUpSpec(d: GameDoc, socketId: string, powerUp: string): (r: Step<PowerUpOutcome>)
    ensures r.outcome == PowerUpIgnored <==>
              d.status != Playing || FindById(d.players, socketId).None?
              || !d.players[FindById(d.players, socketId).value].isAlive
    ensures r.outcome == PowerUpRejected(PowerUpNotAvailable) <==>
              r.outcome != PowerUpIgnored && powerUp !in d.players[FindById(d.players, socketId).value].powerUps
    ensures r.outcome == PowerUpRejected(PowerUpFailed) <==>
              r.outcome != PowerUpIgnored &&
              var i := FindById(d.players, socketId).value;
              && powerUp in d.players[i].powerUps
              && powerUp == RevealPowerUp && !d.players[i].isReaper
              && !exists k :: 0 <= k < |d.players| && d.players[k].isReaper
    ensures r.outcome.PowerUpUsed? <==>
              r.outcome != PowerUpIgnored &&
              var i := FindById(d.players, socketId).value;
              && powerUp in d.players[i].powerUps
              && !(powerUp == RevealPowerUp && !d.players[i].isReaper
                   && !exists k :: 0 <= k < |d.players| && d.players[k].isReaper)
    ensures !r.outcome.PowerUpUsed? ==> r.doc == d
    ensures r.outcome.PowerUpUsed? ==>
              var i := FindById(d.players, socketId).value;
              var held := d.players[i].powerUps;
              && powerUp in held
              && r.doc == d.(players := d.players[i := d.players[i].(powerUps := RemoveAt(held, IndexOf(held, powerUp)))])
              && multiset(r.doc.players[i].powerUps) == multiset(held) - multiset{powerUp}
              && (r.outcome.disclosure.RevealTo? <==> powerUp == RevealPowerUp && !d.players[i].isReaper)
              && (r.outcome.disclosure.RevealTo? ==>
                    && r.outcome.disclosure.recipient == socketId
                    && exists k :: && 0 <= k < |d.players| && d.players[k].isReaper
                                   && (forall j :: 0 <= j < k ==> !d.players[j].isReaper)
                                   && r.outcome.disclosure.reaperPosition == d.players[k].position)
  {
    var found := FindById(d.players, socketId);
    if d.status != Playing || found.None? || !d.players[found.value].isAlive then Step(PowerUpIgnored, d)
    else
      var i := found.value;
      var player := d.players[i];
      var k := IndexOf(player.powerUps, powerUp);
      if k == -1 then Step(PowerUpRejected(PowerUpNotAvailable), d)
      else
        var wantsReveal := powerUp == RevealPowerUp && !player.isReaper;
        var reaper := FindReaper(d.players);
        if wantsReveal && reaper.None? then Step(PowerUpRejected(PowerUpFailed), d)
        else
          var disclosure := if wantsReveal then RevealTo(socketId, d.players[reaper.value].position) else NoReveal;
          RemoveAtMultiset(player.powerUps, k);
          Step(PowerUpUsed(disclosure), d.(players := d.players[i := player.(powerUps := RemoveAt(player.powerUps, k))]))
  }

  // ---------------------------------------------------------------- records

  /** One game document loaded from the database, changed in place by a handler. */
  class GameRecord {
    var gameId: string
    var hostId: string
    var status: Status
    var players: seq<Player>
    var currentTurn: Option<string>
    var winner: Option<Winner>

    /** The document `save` writes back. */
    function Doc(): GameDoc
      reads this
    {
      GameDoc(gameId, hostId, status, players, currentTurn, winner)
    }

    /** `findOne`: a fresh record holding the stored document. */
    constructor Load(d: GameDoc)
      ensures Doc() == d
    {
      gameId := d.gameId;
      hostId := d.hostId;
      status := d.status;
      players := d.players;
      currentTurn := d.currentTurn;
      winner := d.winner;
    }

    method Join(socketId: string, username: string) returns (v: Verdict)
      modifies this
      ensures v == JoinSpec(old(Doc()), socketId, username).outcome
      ensures Doc() == JoinSpec(old(Doc()), socketId, username).doc
    {
      if status != Waiting {
        return Rejected(GameAlreadyStarted);
      }
      if |players| >= MaxPlayers {
        return Rejected(GameFull);
      }
      if HasUsername(players, username) {
        return Rejected(UsernameTaken);
      }
      players := players + [NewPlayer(socketId, username)];
      return Applied;
    }

    method Start(socketId: string, reaperIndex: nat, picks: seq<nat>) returns (v: Verdict)
      requires StartChoicesFit(|players|, reaperIndex, picks)
      modifies this
      ensures v == StartSpec(old(Doc()), socketId, reaperIndex, picks).outcome
      ensures Doc() == StartSpec(old(Doc()), socketId, reaperIndex, picks).doc
    {
      if hostId != socketId {
        return Rejected(NotHost);
      }
      if |players| < 2 {
        return Rejected(NotEnoughPlayers);
      }
      var roster := players[reaperIndex := players[reaperIndex].(isReaper := true)];
      var positions := GetRandomStartPositions(|roster|, picks);
      for i := 0 to |roster|
        invariant |roster| == |players|
        invariant forall j :: 0 <= j < i ==> roster[j] == StartedPlayer(players[j], j, reaperIndex, positions[j])
        invariant forall j :: i <= j < |roster| ==>
                    roster[j] == players[j].(isReaper := if j == reaperIndex then true else players[j].isReaper)
      {
        roster := roster[i := roster[i].(position := Some(positions[i]))];
      }
      assert roster == StartedRoster(players, reaperIndex, positions);
      players := roster;
      status := Playing;
      currentTurn := Some(players[0].id);
      return Applied;
    }

    /** Hands the turn to the next living player after the current holder. */
    method MoveToNextTurn()
      requires currentTurn.Some? && FindById(players, currentTurn.value).Some?
      modifies this`currentTurn
      ensures currentTurn ==
                Some(players[NextTurnIndex(players, FindById(players, old(currentTurn).value).value)].id)
    {
      var n := |players|;
      var currentPlayerIndex := FindById(players, currentTurn.value).value;
      StepMod(currentPlayerIndex, n);
      var nextPlayerIndex := (currentPlayerIndex + 1) % n;
      ghost var k := 1;
      while !players[nextPlayerIndex].isAlive
        invariant 1 <= k <= n
        invariant k == n ==> n == 1
        invariant nextPlayerIndex == Offset(currentPlayerIndex, k, n)
        invariant NextTurnFrom(players, currentPlayerIndex, k) == NextTurnIndex(players, currentPlayerIndex)
        decreases n - k
      {
        StepMod(nextPlayerIndex, n);
        nextPlayerIndex := (nextPlayerIndex + 1) % n;
        k := k + 1;
        if nextPlayerIndex == currentPlayerIndex {
          break;
        }
      }
      currentTurn := Some(players[nextPlayerIndex].id);
    }

    method Move(socketId: string, target: int) returns (v: Verdict)
      modifies this
      ensures v == MoveSpec(old(Doc()), socketId, target).outcome
      ensures Doc() == MoveSpec(old(Doc()), socketId, target).doc
    {
      ghost var d0 := Doc();
      if status != Playing {
        return Ignored;
      }
      var found := FindById(players, socketId);
      if found.None? || !players[found.value].isAlive {
        return Ignored;
      }
      if currentTurn != Some(socketId) {
        return Rejected(NotYourTurn);
      }
      if !CanMove(players, socketId, target) {
        return Rejected(InvalidMove);
      }
      assert MoveCheck(d0, socketId, target) == Applied;
      ApplyMove(found.value, target);
      return Applied;
    }

    /** The accepted part of `handlePlayerMove`: move, eliminate, then end the game or pass the turn. */
    method ApplyMove(i: nat, target: int)
      requires i < |players| && currentTurn == Some(players[i].id) && FindById(players, players[i].id) == Some(i)
      requires status == Playing
      modifies this
      ensures Doc() == AppliedDoc(old(Doc()), i, target)
    {
      var roster := players[i := players[i].(position := Some(target))];
      if roster[i].isReaper {
        roster := EliminateAt(roster, target);
      }
      assert roster == MovedRoster(players, i, target);
      FindByIdSameIds(roster, players, players[i].id);
      players := roster;
      if IsGameOver(players, status) {
        status := Finished;
        winner := GetWinner(players, status);
        return;
      }
      MoveToNextTurn();
    }

    method UsePowerUp(socketId: string, powerUp: string) returns (out: PowerUpOutcome)
      modifies this
      ensures out == UsePowerUpSpec(old(Doc()), socketId, powerUp).outcome
      ensures Doc() == UsePowerUpSpec(old(Doc()), socketId, powerUp).doc
    {
      if status != Playing {
        return PowerUpIgnored;
      }
      var found := FindById(players, socketId);
      if found.None? || !players[found.value].isAlive {
        return PowerUpIgnored;
      }
      var i := found.value;
      var player := players[i];
      var powerUpIndex := IndexOf(player.powerUps, powerUp);
      if powerUpIndex == -1 {
        return PowerUpRejected(PowerUpNotAvailable);
      }
      var disclosure := NoReveal;
      if powerUp == RevealPowerUp && !player.isReaper {
        var reaper := FindReaper(players);
        if reaper.None? {
          return PowerUpRejected(PowerUpFailed);
        }
        disclosure := RevealTo(socketId, players[reaper.value].position);
      }
      players := players[i := player.(powerUps := RemoveAt(player.powerUps, powerUpIndex))];
      return PowerUpUsed(disclosure);
    }
  }

  // ---------------------------------------------------------------- handler

  /** The socket handler: the database, its started-games cache and the known sockets. */
  class GameHandler {
    var db: map<string, GameDoc>
    var games: map<string, GameDoc>
    var playerSockets: set<string>

    /** Every stored game sits under its own id and never holds more than MaxPlayers. */
    ghost predicate Valid()
      reads this
    {
      forall k :: k in db ==> db[k].gameId == k && |db[k].players| <= MaxPlayers
    }

    constructor ()
      ensures Valid() && db == map[] && games == map[] && playerSockets == {}
    {
      db := map[];
      games := map[];
      playerSockets := {};
    }

    method HandleJoinGame(socketId: string, gameId: string, username: string) returns (v: Verdict)
      requires Valid()
      modifies this
      ensures Valid()
      ensures var before := if gameId in old(db) then old(db)[gameId] else NewGameDoc(gameId, socketId);
              var step := JoinSpec(before, socketId, username);
              && v == step.outcome
              && db == (if v == Applied then old(db)[gameId := step.doc] else old(db))
              && playerSockets == (if v == Applied then old(playerSockets) + {socketId} else old(playerSockets))
              && games == old(games)
    {
      var game: GameRecord;
      if gameId in db {
        game := new GameRecord.Load(db[gameId]);
      } else {
        game := new GameRecord.Load(NewGameDoc(gameId, socketId));
      }
      v := game.Join(socketId, username);
      if v == Applied {
        db := db[gameId := game.Doc()];
        playerSockets := playerSockets + {socketId};
      }
    }

    method HandleStartGame(socketId: string, gameId: string, reaperIndex: nat, picks: seq<nat>)
      returns (v: Verdict)
      requires Valid()
      requires gameId in db && |db[gameId].players| >= 2 ==>
                 reaperIndex < |db[gameId].players| && |picks| == |db[gameId].players| && PicksFit(picks, CellCount)
      modifies this
      ensures Valid()
      ensures gameId !in old(db) ==> v == Rejected(GameNotFound) && db == old(db) && games == old(games)
      ensures gameId in old(db) ==>
                var step := StartSpec(old(db)[gameId], socketId, reaperIndex, picks);
                && v == step.outcome
                && db == (if v == Applied then old(db)[gameId := step.doc] else old(db))
                && games == (if v == Applied then old(games)[gameId := step.doc] else old(games))
      ensures playerSockets == old(playerSockets)
    {
      if gameId !in db {
        return Rejected(GameNotFound);
      }
      var game := new GameRecord.Load(db[gameId]);
      v := game.Start(socketId, reaperIndex, picks);
      if v == Applied {
        db := db[gameId := game.Doc()];
        games := games[gameId := game.Doc()];
      }
    }

    method HandlePlayerMove(socketId: string, gameId: string, target: int) returns (v: Verdict)
      requires Valid()
      modifies this
      ensures Valid()
      ensures gameId !in old(db) ==> v == Ignored && db == old(db)
      ensures gameId in old(db) ==>
                var step := MoveSpec(old(db)[gameId], socketId, target);
                && v == step.outcome
                && db == (if v == Applied then old(db)[gameId := step.doc] else old(db))
      ensures games == old(games) && playerSockets == old(playerSockets)
    {
      if gameId !in db {
        return Ignored;
      }
      var game := new GameRecord.Load(db[gameId]);
      v := game.Move(socketId, target);
      if v == Applied {
        db := db[gameId := game.Doc()];
      }
    }

    method HandleUsePowerUp(socketId: string, gameId: string, powerUp: string) returns (out: PowerUpOutcome)
      requires Valid()
      modifies this
      ensures Valid()
      ensures gameId !in old(db) ==> out == PowerUpIgnored && db == old(db)
      ensures gameId in old(db) ==>
                var step := UsePowerUpSpec(old(db)[gameId], socketId, powerUp);
                && out == step.outcome
                && db == (if out.PowerUpUsed? then old(db)[gameId := step.doc] else old(db))
      ensures games == old(games) && playerSockets == old(playerSockets)
    {
      if gameId !in db {
        return PowerUpIgnored;
      }
      var game := new GameRecord.Load(db[gameId]);
      out := game.UsePowerUp(socketId, powerUp);
      if out.PowerUpUsed? {
        db := db[gameId := game.Doc()];
      }
    }

    /** The moves offered to a living player of a running game; changes nothing. */
    method HandleRequestValidMoves(socketId: string, gameId: string) returns (moves: Option<seq<int>>)
      ensures moves.Some? <==>
                && gameId in db && db[gameId].status == Playing
                && FindById(db[gameId].players, socketId).Some?
                && db[gameId].players[FindById(db[gameId].players, socketId).value].isAlive
      ensures moves.Some? ==>
                forall q :: q in moves.value <==>
                  CanMove(db[gameId].players, socketId, q)
    {
      if gameId !in db || db[gameId].status != Playing {
        return None;
      }
      var found := FindById(db[gameId].players, socketId);
      if found.None? || !db[gameId].players[found.value].isAlive {
        return None;
      }
      return Some(GetValidMoves(NumericPosition(db[gameId].players[found.value].position)));
    }

    method HandleDisconnect(socketId: string)
      modifies this
      ensures playerSockets == old(playerSockets) - {socketId}
      ensures db == old(db) && games == old(games)
    {
      playerSockets := playerSockets - {socketId};
    }
  }
}
