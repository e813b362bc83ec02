/**
 * The puzzle side of server/utils/puzzleGenerator.js: the answer checks a
 * generated puzzle carries as its `validate` function, the letter shuffle
 * of an anagram prompt, and the maze flood of `generateMaze`.
 */
module PuzzleGenerator {
  import opened Wrappers
  import opened JsText

  // ---------------------------------------------------------------- answer checks

  /** The four word lists of the category puzzles. */
  datatype Category = Animals | Colors | Fruits | Countries

  function Words(c: Category): seq<string> {
    match c
    case Animals => ["lion", "elephant", "giraffe", "zebra", "penguin", "tiger", "bear"]
    case Colors => ["red", "blue", "green", "yellow", "purple", "orange", "pink"]
    case Fruits => ["apple", "banana", "orange", "grape", "mango", "pear", "kiwi"]
    case Countries => ["france", "spain", "italy", "germany", "japan", "brazil", "canada"]
  }

  /**
   * The two entry points of the `natural` library's Metaphone that the rhyme
   * checks call: `compare(a, b)` and `process(word)`. The library is not part
   * of this model, so they are given as functions.
   */
  datatype Metaphone = Metaphone(compare: (string, string) -> bool, process: string -> string)

  /**
   * The `validate` closure a generated puzzle carries, with the word it
   * captured. A rhyme check also calls Metaphone, which is passed in where
   * the closure is applied.
   */
  datatype Validator =
    | WordChainRule(baseWord: string)
    | AnagramRule(word: string)
    | RhymeRule(baseRhymeWord: string)
    | CategoryRule(category: Category)

  /** WORD_CHAIN: the input starts with the last two letters of the base word and is at least three long. */
  predicate WordChainAccepts(baseWord: string, input: string) {
    StartsWith(Lower(input), Lower(LastTwo(baseWord))) && |input| >= 3
  }

  /** ANAGRAM: the input is the word, ignoring case. */
  predicate AnagramAccepts(word: string, input: string) {
    Lower(input) == Lower(word)
  }

  /**
   * RHYME: Metaphone's `compare` holds between the raw last two letters of
   * the base word and of the input, and the input is not the base word itself.
   */
  predicate RhymeAccepts(baseRhymeWord: string, input: string, m: Metaphone) {
    m.compare(LastTwo(baseRhymeWord), LastTwo(input)) && Lower(input) != Lower(baseRhymeWord)
  }

  /** CATEGORY: the lower-cased input is on the category's list. */
  predicate CategoryAccepts(category: Category, input: string) {
    Lower(input) in Words(category)
  }

  /** `puzzle.validate(input)`. */
  predicate Apply(v: Validator, input: string, m: Metaphone) {
    match v
    case WordChainRule(baseWord) => WordChainAccepts(baseWord, input)
    case AnagramRule(word) => AnagramAccepts(word, input)
    case RhymeRule(baseRhymeWord) => RhymeAccepts(baseRhymeWord, input, m)
    case CategoryRule(category) => CategoryAccepts(category, input)
  }

  /**
   * A word chain accepts exactly the inputs of three or more letters that
   * continue the base word's last two letters, whatever their case: any
   * continuation of at least one letter is accepted, nothing shorter than
   * three letters is, and an accepted input begins with the last two
   * letters up to case.
   */
  lemma WordChainContinues(baseWord: string, tail: string)
    requires |baseWord| >= 2 && |tail| >= 1
    ensures WordChainAccepts(baseWord, LastTwo(baseWord) + tail)
    ensures forall input :: |input| < 3 ==> !WordChainAccepts(baseWord, input)
    ensures forall input :: WordChainAccepts(baseWord, input) ==>
              |input| >= 3 && Lower(input[..2]) == Lower(LastTwo(baseWord))
  {
    var input := LastTwo(baseWord) + tail;
    assert Lower(input)[..2] == Lower(LastTwo(baseWord));
    forall input | WordChainAccepts(baseWord, input)
      ensures Lower(input[..2]) == Lower(LastTwo(baseWord))
    {
      assert Lower(input[..2]) == Lower(input)[..2];
    }
  }

  /** Metaphone's `compare` gives the same verdict when its second word is lower-cased. */
  ghost predicate CompareIgnoresCase(m: Metaphone) {
    forall a, b :: m.compare(a, b) == m.compare(a, Lower(b))
  }

  /**
   * The word chain, anagram and category checks ignore the case of their
   * input; the rhyme check does when Metaphone's `compare` does.
   */
  lemma ChecksIgnoreCase(v: Validator, input: string, m: Metaphone)
    ensures (!v.RhymeRule? || CompareIgnoresCase(m)) ==> Apply(v, input, m) == Apply(v, Lower(input), m)
  {
    LowerIdempotent(input);
    if v.RhymeRule? && CompareIgnoresCase(m) {
      assert LastTwo(Lower(input)) == Lower(LastTwo(input));
      assert m.compare(LastTwo(v.baseRhymeWord), LastTwo(input))
          == m.compare(LastTwo(v.baseRhymeWord), Lower(LastTwo(input)));
    }
  }

  /** An anagram check accepts the word itself in any case, and the check is symmetric. */
  lemma AnagramAcceptsWord(word: string, input: string)
    ensures AnagramAccepts(word, word) && AnagramAccepts(word, Lower(word))
    ensures AnagramAccepts(word, input) <==> AnagramAccepts(input, word)
  {
    LowerIdempotent(word);
  }

  /** A category check accepts exactly the listed words, and nothing outside the list when already lower case. */
  lemma CategoryAcceptsListed(category: Category, input: string)
    ensures forall i :: 0 <= i < |Words(category)| ==> CategoryAccepts(category, Words(category)[i])
    ensures IsLowerWord(input) ==> (CategoryAccepts(category, input) <==> input in Words(category))
  {
    forall i | 0 <= i < |Words(category)| ensures CategoryAccepts(category, Words(category)[i]) {
      LowerOfLowerWord(Words(category)[i]);
    }
    if IsLowerWord(input) {
      LowerOfLowerWord(input);
    }
  }

  // ---------------------------------------------------------------- shuffle

  /**
   * `shuffleWord`: `sort` with a random comparator, which leaves some
   * arrangement of the letters. The comparator's choices are the swaps
   * `swaps`, applied in order.
   */
  method ShuffleWord(word: string, swaps: seq<(nat, nat)>) returns (shuffled: string)
    requires forall k :: 0 <= k < |swaps| ==> swaps[k].0 < |word| && swaps[k].1 < |word|
    ensures |shuffled| == |word|
    ensures multiset(shuffled) == multiset(word)
  {
    var letters := new char[|word|](i requires 0 <= i < |word| => word[i]);
    assert letters[..] == word;
    for k := 0 to |swaps|
      invariant multiset(letters[..]) == multiset(word)
    {
      var (i, j) := swaps[k];
      letters[i], letters[j] := letters[j], letters[i];
    }
    shuffled := letters[..];
  }

  // ---------------------------------------------------------------- maze

  /** The four steps of `generatePath`, before they are shuffled. */
  const Steps: seq<(int, int)> := [(0, 1), (1, 0), (0, -1), (-1, 0)]

  /** An arrangement of the four step indices, as the shuffle of `directions` leaves them. */
  predicate IsStepOrder(order: seq<nat>) {
    multiset(order) == multiset{0, 1, 2, 3}
  }

  /**
   * The random choices of `generateMaze`. `generatePath` marks a cell before
   * it draws anything and never draws again on a marked cell, so each cell
   * draws once: `order(x, y)` is its shuffle of the steps and `go(x, y, k)`
   * its 70% coin for the k-th of them.
   */
  ghost predicate ChoicesFit(order: (int, int) -> seq<nat>) {
    forall x: int, y: int :: IsStepOrder(order(x, y))
  }

  lemma StepOrderIndices(order: seq<nat>)
    requires IsStepOrder(order)
    ensures |order| == 4 && forall k :: 0 <= k < 4 ==> order[k] < 4
  {
    assert |order| == |multiset(order)| == 4;
    forall k | 0 <= k < 4 ensures order[k] < 4 {
      assert order[k] in multiset(order);
    }
  }

  /** The cell that step `d` of `Steps` leads to from `c`. */
  function StepFrom(c: (int, int), d: nat): (int, int) {
    if d < |Steps| then (c.0 + Steps[d].0, c.1 + Steps[d].1) else c
  }

  /** `generatePath` on `c` takes one of its shuffled steps, the coin says so, and it leads to `n`. */
  ghost predicate Tries(c: (int, int), n: (int, int), order: (int, int) -> seq<nat>, go: (int, int, nat) -> bool) {
    exists k: nat :: k < |order(c.0, c.1)| && go(c.0, c.1, k) && n == StepFrom(c, order(c.0, c.1)[k])
  }

  /** `n` lies off the `size`×`size` grid, or is one of `marks`. */
  predicate OffGridOrMarked(n: (int, int), size: nat, marks: set<(int, int)>) {
    !(0 <= n.0 < size && 0 <= n.1 < size) || n in marks
  }

  /** Every step a cell of `cells` takes leads off the grid or onto a cell of `marks`. */
  ghost predicate Covered(cells: set<(int, int)>, marks: set<(int, int)>, size: nat,
                          order: (int, int) -> seq<nat>, go: (int, int, nat) -> bool) {
    forall c, n :: c in cells && Tries(c, n, order, go) ==> OffGridOrMarked(n, size, marks)
  }

  /** A chain of steps the flood takes, one cell to the next, every cell after the first in `within`. */
  ghost predicate FloodPath(path: seq<(int, int)>, within: set<(int, int)>,
                            order: (int, int) -> seq<nat>, go: (int, int, nat) -> bool) {
    && |path| >= 1
    && (forall i :: 0 < i < |path| ==> path[i] in within)
    && (forall i :: 0 <= i < |path| - 1 ==> Tries(path[i], path[i + 1], order, go))
  }

  /** The flood started at `from` can reach `to` through cells of `within`. */
  ghost predicate Reaches(from: (int, int), to: (int, int), within: set<(int, int)>,
                          order: (int, int) -> seq<nat>, go: (int, int, nat) -> bool) {
    exists path :: FloodPath(path, within, order, go) && path[0] == from && path[|path| - 1] == to
  }

  /** The flood started at `from` can reach every cell of `cells` without leaving `cells`. */
  ghost predicate AllReached(from: (int, int), cells: set<(int, int)>,
                             order: (int, int) -> seq<nat>, go: (int, int, nat) -> bool) {
    forall c :: c in cells ==> Reaches(from, c, cells, order, go)
  }

  lemma CoveredGrows(cells: set<(int, int)>, m1: set<(int, int)>, m2: set<(int, int)>, size: nat,
                     order: (int, int) -> seq<nat>, go: (int, int, nat) -> bool)
    requires Covered(cells, m1, size, order, go) && m1 <= m2
    ensures Covered(cells, m2, size, order, go)
  {
    forall c, n | c in cells && Tries(c, n, order, go) ensures OffGridOrMarked(n, size, m2) {
      assert OffGridOrMarked(n, size, m1);
    }
  }

  /** A step from `from` to `mid` of `within` extends every chain out of `mid`. */
  lemma ReachesThrough(from: (int, int), mid: (int, int), to: (int, int), within: set<(int, int)>,
                       order: (int, int) -> seq<nat>, go: (int, int, nat) -> bool)
    requires Tries(from, mid, order, go) && mid in within && Reaches(mid, to, within, order, go)
    ensures Reaches(from, to, within, order, go)
  {
    var path :| FloodPath(path, within, order, go) && path[0] == mid && path[|path| - 1] == to;
    var longer := [from] + path;
    assert forall i :: 1 <= i < |longer| ==> longer[i] == path[i - 1];
    assert FloodPath(longer, within, order, go);
  }

  /** A chain through `small` is a chain through any larger set. */
  lemma ReachesWiden(from: (int, int), to: (int, int), small: set<(int, int)>, large: set<(int, int)>,
                     order: (int, int) -> seq<nat>, go: (int, int, nat) -> bool)
    requires small <= large && Reaches(from, to, small, order, go)
    ensures Reaches(from, to, large, order, go)
  {
    var path :| FloodPath(path, small, order, go) && path[0] == from && path[|path| - 1] == to;
    assert FloodPath(path, large, order, go);
  }

  /** Marking `from` alone starts a flood: `from` reaches itself and nothing else is new. */
  lemma FloodStarts(from: (int, int), start: set<(int, int)>, now: set<(int, int)>, size: nat,
                    order: (int, int) -> seq<nat>, go: (int, int, nat) -> bool)
    requires now == start + {from}
    ensures AllReached(from, now - start, order, go)
    ensures Covered(now - start - {from}, now, size, order, go)
  {
    assert FloodPath([from], now - start, order, go);
    assert now - start - {from} == {};
  }

  /**
   * The k-th step from `from`, when its coin says so, extends the chains out
   * of `next` to all of `cells`, which are empty or hold `next`.
   */
  lemma AllReachThrough(from: (int, int), k: nat, next: (int, int), cells: set<(int, int)>,
                        order: (int, int) -> seq<nat>, go: (int, int, nat) -> bool)
    requires k < |order(from.0, from.1)| && go(from.0, from.1, k)
    requires next == StepFrom(from, order(from.0, from.1)[k])
    requires cells == {} || next in cells
    requires AllReached(next, cells, order, go)
    ensures AllReached(from, cells, order, go)
  {
    assert Tries(from, next, order, go);
    forall c | c in cells ensures Reaches(from, c, cells, order, go) {
      ReachesThrough(from, next, c, cells, order, go);
    }
  }

  /**
   * The cells marked since `start` in two rounds, `earlier - start` and then
   * `now - earlier`, are together reached from `from` and covered.
   */
  lemma UnionFlood(from: (int, int), start: set<(int, int)>, earlier: set<(int, int)>, now: set<(int, int)>,
                   size: nat, order: (int, int) -> seq<nat>, go: (int, int, nat) -> bool)
    requires start <= earlier <= now
    requires AllReached(from, now - earlier, order, go)
    requires Covered(now - earlier, now, size, order, go)
    requires AllReached(from, earlier - start, order, go)
    requires Covered(earlier - start - {from}, earlier, size, order, go)
    ensures AllReached(from, now - start, order, go)
    ensures Covered(now - start - {from}, now, size, order, go)
  {
    CoveredGrows(earlier - start - {from}, earlier, now, size, order, go);
    assert now - start - {from} <= (earlier - start - {from}) + (now - earlier);
    forall c | c in now - start ensures Reaches(from, c, now - start, order, go) {
      if c in now - earlier {
        ReachesWiden(from, c, now - earlier, now - start, order, go);
      } else {
        ReachesWiden(from, c, earlier - start, now - start, order, go);
      }
    }
  }

  /** The steps `from` took before the k-th stay on marks as the marks grow, and the k-th joins them. */
  lemma StepsStayMarked(from: (int, int), directions: seq<nat>, k: nat, earlier: set<(int, int)>,
                        now: set<(int, int)>, size: nat, go: (int, int, nat) -> bool)
    requires k < |directions| && earlier <= now
    requires forall j :: 0 <= j < k && go(from.0, from.1, j) ==>
               OffGridOrMarked(StepFrom(from, directions[j]), size, earlier)
    requires go(from.0, from.1, k) ==> OffGridOrMarked(StepFrom(from, directions[k]), size, now)
    ensures forall j :: 0 <= j < k + 1 && go(from.0, from.1, j) ==>
              OffGridOrMarked(StepFrom(from, directions[j]), size, now)
  {
  }

  /** Once every step `from` takes lands off the grid or on a mark, `from` itself is covered too. */
  lemma CoveredWithStart(from: (int, int), start: set<(int, int)>, now: set<(int, int)>, size: nat,
                         order: (int, int) -> seq<nat>, go: (int, int, nat) -> bool)
    requires forall j :: 0 <= j < |order(from.0, from.1)| && go(from.0, from.1, j) ==>
               OffGridOrMarked(StepFrom(from, order(from.0, from.1)[j]), size, now)
    requires Covered(now - start - {from}, now, size, order, go)
    ensures Covered(now - start, now, size, order, go)
  {
    forall c, n | c in now - start && Tries(c, n, order, go) ensures OffGridOrMarked(n, size, now) {
      if c == from {
        var j: nat :| j < |order(from.0, from.1)| && go(from.0, from.1, j) && n == StepFrom(from, order(from.0, from.1)[j]);
      }
    }
  }

  /** The maze being flooded and the cells given a puzzle so far. */
  class MazeBuilder {
    const size: nat
    const maze: array2<int>
    var puzzles: set<(int, int)>

    ghost predicate InGrid(x: int, y: int) {
      0 <= x < size && 0 <= y < size
    }

    /**
     * Every cell holds 0 or 1, and a cell has a puzzle exactly when it is 1:
     * `generatePath` sets both together.
     */
    ghost predicate Valid()
      reads this, maze
    {
      && maze.Length0 == size && maze.Length1 == size
      && (forall x, y :: 0 <= x < size && 0 <= y < size ==> maze[x, y] == 0 || maze[x, y] == 1)
      && (forall c :: c in puzzles <==> InGrid(c.0, c.1) && maze[c.0, c.1] == 1)
    }

    /** The cells still 0, which bound the recursion. */
    ghost function Unmarked(): set<(int, int)>
      reads this, maze
      requires maze.Length0 == size && maze.Length1 == size
    {
      set x, y | 0 <= x < size && 0 <= y < size && maze[x, y] != 1 :: (x, y)
    }

    /** `Array(size).fill().map(() => Array(size).fill(0))` and an empty `puzzles` map. */
    constructor (n: nat)
      ensures size == n && fresh(maze) && Valid() && puzzles == {}
      ensures forall x, y :: 0 <= x < n && 0 <= y < n ==> maze[x, y] == 0
    {
      size := n;
      maze := new int[n, n]((x, y) => 0);
      puzzles := {};
    }

    /**
     * `generatePath(x, y)`: stop outside the grid or on a marked cell;
     * otherwise mark the cell, give it a puzzle, and try each step in the
     * shuffled order when its coin says so. Marks are only ever added; the
     * cells marked by the call are reached from (x, y) by steps the coins
     * chose, and every step such a cell's coins choose leads off the grid
     * or onto a marked cell.
     */
    method GeneratePath(x: int, y: int, order: (int, int) -> seq<nat>, go: (int, int, nat) -> bool)
      requires Valid() && ChoicesFit(order)
      modifies maze, this`puzzles
      ensures Valid()
      ensures forall i, j :: 0 <= i < size && 0 <= j < size && old(maze[i, j]) == 1 ==> maze[i, j] == 1
      ensures old(puzzles) <= puzzles
      ensures InGrid(x, y) ==> maze[x, y] == 1 && (x, y) in puzzles
      ensures !InGrid(x, y) || old(maze[x, y]) == 1 ==> puzzles == old(puzzles) && unchanged(maze)
      ensures puzzles - old(puzzles) == {} || (x, y) in puzzles - old(puzzles)
      ensures AllReached((x, y), puzzles - old(puzzles), order, go)
      ensures Covered(puzzles - old(puzzles), puzzles, size, order, go)
      decreases Unmarked(), 0
    {
      if x < 0 || x >= size || y < 0 || y >= size || maze[x, y] == 1 {
        return;
      }
      ghost var before := Unmarked();
      maze[x, y] := 1;
      puzzles := puzzles + {(x, y)};
      assert Unmarked() < before by {
        assert (x, y) in before && (x, y) !in Unmarked();
      }
      FloodStarts((x, y), old(puzzles), puzzles, size, order, go);
      var directions := order(x, y);
      StepOrderIndices(directions);
      ghost var marked := Unmarked();
      for k := 0 to 4
        invariant Valid()
        invariant Unmarked() <= marked
        invariant maze[x, y] == 1 && (x, y) in puzzles
        invariant forall i, j :: 0 <= i < size && 0 <= j < size && old(maze[i, j]) == 1 ==> maze[i, j] == 1
        invariant old(puzzles) <= puzzles
        invariant AllReached((x, y), puzzles - old(puzzles), order, go)
        invariant Covered(puzzles - old(puzzles) - {(x, y)}, puzzles, size, order, go)
        invariant forall j :: 0 <= j < k && go(x, y, j) ==>
                    OffGridOrMarked(StepFrom((x, y), directions[j]), size, puzzles)
      {
        ghost var earlier := puzzles;
        TryStep(x, y, k, directions[k], order, go);
        UnionFlood((x, y), old(puzzles), earlier, puzzles, size, order, go);
        StepsStayMarked((x, y), directions, k, earlier, puzzles, size, go);
      }
      CoveredWithStart((x, y), old(puzzles), puzzles, size, order, go);
    }

    /**
     * One turn of the `for` loop of `generatePath` on the marked cell (x, y):
     * take the k-th shuffled step when its coin says so.
     */
    method TryStep(x: int, y: int, k: nat, d: nat, order: (int, int) -> seq<nat>, go: (int, int, nat) -> bool)
      requires Valid() && ChoicesFit(order) && (x, y) in puzzles
      requires k < |order(x, y)| && d == order(x, y)[k] && d < |Steps|
      modifies maze, this`puzzles
      ensures Valid()
      ensures forall i, j :: 0 <= i < size && 0 <= j < size && old(maze[i, j]) == 1 ==> maze[i, j] == 1
      ensures old(puzzles) <= puzzles
      ensures AllReached((x, y), puzzles - old(puzzles), order, go)
      ensures Covered(puzzles - old(puzzles), puzzles, size, order, go)
      ensures go(x, y, k) ==> OffGridOrMarked(StepFrom((x, y), order(x, y)[k]), size, puzzles)
      decreases Unmarked(), 1
    {
      var (dx, dy) := Steps[d];
      if go(x, y, k) {
        var next := (x + dx, y + dy);
        assert next == StepFrom((x, y), d);
        GeneratePath(x + dx, y + dy, order, go);
        AllReachThrough((x, y), k, next, puzzles - old(puzzles), order, go);
      }
    }
  }

  /** `generateMaze` left a maze; `size` 0 makes it fail on the end cell. */
  datatype Maze = Maze(cells: array2<int>, puzzles: set<(int, int)>)

  /**
   * `generateMaze(size = 8)`: flood from the top-left cell, then open the
   * bottom-right cell, which gets no puzzle of its own.
   */
  method GenerateMaze(order: (int, int) -> seq<nat>, go: (int, int, nat) -> bool, size: nat := 8)
    returns (result: Option<Maze>)
    requires ChoicesFit(order)
    ensures size == 0 <==> result.None?
    ensures result.Some? ==>
              var m := result.value.cells;
              && fresh(m) && m.Length0 == size && m.Length1 == size
              && m[0, 0] == 1 && m[size - 1, size - 1] == 1
              && (forall x, y :: 0 <= x < size && 0 <= y < size ==> m[x, y] == 0 || m[x, y] == 1)
              && (forall c :: c in result.value.puzzles ==> 0 <= c.0 < size && 0 <= c.1 < size && m[c.0, c.1] == 1)
              && (forall x, y :: 0 <= x < size && 0 <= y < size && m[x, y] == 1 && (x, y) != (size - 1, size - 1) ==>
                    (x, y) in result.value.puzzles)
              && (0, 0) in result.value.puzzles
              && AllReached((0, 0), result.value.puzzles, order, go)
              && Covered(result.value.puzzles, result.value.puzzles, size, order, go)
  {
    var builder := new MazeBuilder(size);
    builder.GeneratePath(0, 0, order, go);
    assert builder.puzzles - {} == builder.puzzles;
    if size == 0 {
      return None;
    }
    builder.maze[size - 1, size - 1] := 1;
    return Some(Maze(builder.maze, builder.puzzles));
  }
}
