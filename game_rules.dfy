/**
 * The helper methods of the game document schema: the 4x4 grid topology and
 * the game-over / winner queries over a roster. Cells are 0..15 in row-major
 * order. Every helper is a pure function of the roster and the status, so
 * none of them can change the players, the status or the board.
 */
module GameRules {
  import opened Wrappers

  datatype Status = Waiting | Playing | Finished

  datatype Winner = ReaperWins | SurvivorsWin

  /** One entry of the document's `players` array. */
  datatype Player = Player(
    id: string,
    username: string,
    isReaper: bool,
    position: Option<int>,   // null until the game starts
    isAlive: bool,
    powerUps: seq<string>)

  const Side := 4
  const CellCount := 16

  /** JavaScript's `%`: the remainder takes the sign of the dividend. */
  function JsRem(a: int, d: int): (r: int)
    requires d > 0
    ensures a >= 0 ==> 0 <= r < d
    ensures a < 0 ==> -d < r <= 0
  {
    if a >= 0 then a % d else -((-a) % d)
  }

  /** A multiple of `d` leaves no remainder. */
  lemma MultipleHasNoRemainder(d: int, q: int)
    requires d > 0
    ensures (d * q) % d == 0
  {
    var k, m := (d * q) / d, (d * q) % d;
    assert d * (q - k) == m;
    // 0 <= m < d leaves no room for a non-zero multiple of d
    if q - k >= 1 {
      assert false;
    } else if q - k <= -1 {
      assert false;
    }
  }

  /** JavaScript's remainder differs from the dividend by a multiple of the divisor. */
  lemma JsRemCongruent(a: int, d: int)
    requires d > 0
    ensures (a - JsRem(a, d)) % d == 0
  {
    if a >= 0 {
      assert a - JsRem(a, d) == d * (a / d);
      MultipleHasNoRemainder(d, a / d);
    } else {
      assert a - JsRem(a, d) == d * -((-a) / d);
      MultipleHasNoRemainder(d, -((-a) / d));
    }
  }

  /** `Math.floor(position / 4)`. */
  function Row(p: int): int { p / Side }

  /** `position % 4` with JavaScript's remainder. */
  function Col(p: int): int { JsRem(p, Side) }

  /** The orthogonal neighbours of `p`, listed up, down, left, right. */
  function GetValidMoves(p: int): (moves: seq<int>)
    ensures |moves| <= 4
  {
    (if Row(p) > 0 then [p - Side] else [])
    + (if Row(p) < Side - 1 then [p + Side] else [])
    + (if Col(p) > 0 then [p - 1] else [])
    + (if Col(p) < Side - 1 then [p + 1] else [])
  }

  /** A position as JavaScript arithmetic sees it: `null` behaves as 0. */
  function NumericPosition(pos: Option<int>): int {
    if pos.Some? then pos.value else 0
  }

  /** The cells orthogonally adjacent to `p`, stated without the move list. */
  ghost predicate Adjacent(p: int, q: int) {
    q == p - Side || q == p + Side || (Row(p) == Row(q) && (q == p - 1 || q == p + 1))
  }

  predicate InGrid(p: int) { 0 <= p < CellCount }

  predicate IsCorner(p: int) { p == 0 || p == 3 || p == 12 || p == 15 }

  predicate IsInterior(p: int) { p == 5 || p == 6 || p == 9 || p == 10 }

  lemma ValidMovesStayOnGrid(p: int)
    requires InGrid(p)
    ensures forall q :: q in GetValidMoves(p) ==> InGrid(q) && q != p
  {
  }

  /** The neighbours of an on-grid cell are exactly its orthogonally adjacent cells. */
  lemma ValidMovesAreAdjacentCells(p: int, q: int)
    requires InGrid(p) && InGrid(q)
    ensures q in GetValidMoves(p) <==> Adjacent(p, q)
  {
  }

  /** Adjacency on the grid is symmetric. */
  lemma ValidMovesSymmetric(p: int, q: int)
    requires InGrid(p) && InGrid(q)
    ensures q in GetValidMoves(p) <==> p in GetValidMoves(q)
  {
    ValidMovesAreAdjacentCells(p, q);
    ValidMovesAreAdjacentCells(q, p);
  }

  /** Corners have two moves, other border cells three, interior cells four. */
  lemma ValidMoveCounts(p: int)
    requires InGrid(p)
    ensures |GetValidMoves(p)| == if IsCorner(p) then 2 else if IsInterior(p) then 4 else 3
  {
  }

  /** The moves come in the order up, down, left, right. */
  lemma ValidMovesOrder(p: int, i: nat, j: nat)
    requires InGrid(p)
    requires i < j < |GetValidMoves(p)|
    ensures MoveRank(p, GetValidMoves(p)[i]) < MoveRank(p, GetValidMoves(p)[j])
  {
  }

  /** 0 for up, 1 for down, 2 for left, 3 for right. */
  function MoveRank(p: int, q: int): nat {
    if q == p - Side then 0 else if q == p + Side then 1 else if q == p - 1 then 2 else 3
  }

  /** The first player whose id matches, as `players.find(p => p.id === id)`. */
  function FindById(players: seq<Player>, id: string): (r: Option<nat>)
    ensures r.Some? ==>
              && r.value < |players| && players[r.value].id == id
              && forall j :: 0 <= j < r.value ==> players[j].id != id
    ensures r.None? ==> forall j :: 0 <= j < |players| ==> players[j].id != id
  {
    if |players| == 0 then None
    else if players[0].id == id then Some(0)
    else
      var rest := FindById(players[1..], id);
      if rest.Some? then Some(rest.value + 1) else None
  }

  predicate IsLivingSurvivor(p: Player) { !p.isReaper && p.isAlive }

  /** `players.filter(p => !p.isReaper && p.isAlive)`. */
  function LivingSurvivors(players: seq<Player>): (r: seq<Player>)
    ensures forall p :: p in r <==> p in players && IsLivingSurvivor(p)
  {
    if |players| == 0 then []
    else (if IsLivingSurvivor(players[0]) then [players[0]] else []) + LivingSurvivors(players[1..])
  }

  /** No player is a living survivor. */
  predicate NoLivingSurvivor(players: seq<Player>) {
    forall i :: 0 <= i < |players| ==> !IsLivingSurvivor(players[i])
  }

  lemma NoLivingSurvivorIffEmpty(players: seq<Player>)
    ensures NoLivingSurvivor(players) <==> |LivingSurvivors(players)| == 0
  {
    var s := LivingSurvivors(players);
    if |s| > 0 {
      assert s[0] in s;
    }
    if !NoLivingSurvivor(players) {
      var i :| 0 <= i < |players| && IsLivingSurvivor(players[i]);
      assert players[i] in s;
    }
  }

  function IsGameOver(players: seq<Player>, status: Status): (over: bool)
    ensures over <==> status == Finished || NoLivingSurvivor(players)
  {
    NoLivingSurvivorIffEmpty(players);
    |LivingSurvivors(players)| == 0 || status == Finished
  }

  function GetWinner(players: seq<Player>, status: Status): (w: Option<Winner>)
    ensures status != Finished ==> w == None
    ensures status == Finished ==>
              && w.Some?
              && (w.value == ReaperWins <==> NoLivingSurvivor(players))
  {
    NoLivingSurvivorIffEmpty(players);
    if status != Finished then None
    else if |LivingSurvivors(players)| == 0 then Some(ReaperWins)
    else Some(SurvivorsWin)
  }

  function CanMove(players: seq<Player>, id: string, target: int): (ok: bool)
    ensures FindById(players, id).None? ==> !ok
    ensures FindById(players, id).Some? ==>
      var p := players[FindById(players, id).value];
      (ok <==> p.isAlive && target in GetValidMoves(NumericPosition(p.position)))
  {
    var found := FindById(players, id);
    if found.None? || !players[found.value].isAlive then false
    else target in GetValidMoves(NumericPosition(players[found.value].position))
  }
}
