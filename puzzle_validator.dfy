/**
 * server/utils/puzzleValidator.js: checking a submitted answer against a
 * puzzle, and scoring how hard a word is.
 *
 * A puzzle built by `generatePuzzle` carries its own `validate` function;
 * one that has travelled through JSON has lost it and is checked by its
 * `type` instead.
 */
module PuzzleValidator {
  import opened Wrappers
  import opened JsText
  import opened PuzzleGenerator

  // ---------------------------------------------------------------- puzzles

  /**
   * `puzzle.type`: one of the four names of `puzzleTypes` ('wordChain',
   * 'anagram', 'rhyme', 'category'), or any other value.
   */
  datatype PuzzleType = WordChainType | AnagramType | RhymeType | CategoryType | OtherType(name: OtherTypeName)

  /** The names the validator's `switch` has a case for. */
  predicate IsKnownTypeName(name: string) {
    name == "wordChain" || name == "anagram" || name == "rhyme" || name == "category"
  }

  /** A `puzzle.type` string that none of the `switch`'s cases matches. */
  type OtherTypeName = name: string | !IsKnownTypeName(name) witness ""

  /** `puzzle.category`: a list of words, or a category's name as `generatePuzzle` stores it. */
  datatype CategoryField = WordList(words: seq<string>) | Named(name: string)

  /** The fields of a puzzle object the validator reads; an absent field is `None`. */
  datatype Puzzle = Puzzle(
    kind: PuzzleType,
    answer: Option<string>,
    category: Option<CategoryField>,
    validate: Option<Validator>)

  /** The keys of the `categories` object. */
  function CategoryKey(c: Category): string {
    match c
    case Animals => "animals"
    case Colors => "colors"
    case Fruits => "fruits"
    case Countries => "countries"
  }

  /** `categories[name]`, absent for a name that is not a key. */
  function CategoryOf(name: string): (c: Option<Category>)
    ensures c.Some? ==> CategoryKey(c.value) == name
    ensures forall k: Category :: CategoryKey(k) == name ==> c == Some(k)
  {
    if name == "animals" then Some(Animals)
    else if name == "colors" then Some(Colors)
    else if name == "fruits" then Some(Fruits)
    else if name == "countries" then Some(Countries)
    else None
  }

  /** Every category is found under its own key. */
  lemma CategoryKeyLookup(c: Category)
    ensures CategoryOf(CategoryKey(c)) == Some(c)
  {
    match c
    case Animals =>
    case Colors => assert CategoryKey(c)[0] != 'a';
    case Fruits => assert CategoryKey(c)[0] != 'a' && CategoryKey(c)[0] != 'c';
    case Countries => assert CategoryKey(c)[0] != 'a' && CategoryKey(c)[2] != 'l' && CategoryKey(c)[0] != 'f';
  }

  /** The puzzle `generatePuzzle` builds around a validator: type, answer, category and `validate`. */
  function Generated(v: Validator): (p: Puzzle)
    ensures p.validate == Some(v)
  {
    match v
    case WordChainRule(baseWord) => Puzzle(WordChainType, Some(baseWord), None, Some(v))
    case AnagramRule(word) => Puzzle(AnagramType, Some(word), None, Some(v))
    case RhymeRule(baseRhymeWord) => Puzzle(RhymeType, Some(baseRhymeWord), None, Some(v))
    case CategoryRule(category) => Puzzle(CategoryType, None, Some(Named(CategoryKey(category))), Some(v))
  }

  /** The same puzzle after JSON serialisation, which drops the `validate` function. */
  function Stripped(p: Puzzle): (q: Puzzle)
    ensures q.validate.None?
    ensures q.kind == p.kind && q.answer == p.answer && q.category == p.category
  {
    p.(validate := None)
  }

  // ---------------------------------------------------------------- validateAnswer

  /** `answer.trim().toLowerCase()`. */
  function Clean(answer: string): (c: string)
    ensures |c| <= |answer|
  {
    Lower(Trim(answer))
  }

  /**
   * The guards before any puzzle-specific check: a missing puzzle, a missing
   * or empty answer, a cleaned answer shorter than two characters or holding
   * anything but a-z all fail. Otherwise the cleaned answer goes on.
   */
  function Screen(puzzle: Option<Puzzle>, answer: Option<string>): (clean: Option<string>)
    ensures clean.Some? <==>
              puzzle.Some? && answer.Some? && answer.value != ""
              && |Clean(answer.value)| >= 2 && IsLowerWord(Clean(answer.value))
    ensures clean.Some? ==> clean == Some(Clean(answer.value))
  {
    if puzzle.None? || answer.None? || answer.value == "" then None
    else
      var clean := Clean(answer.value);
      if |clean| < 2 then None
      else if !IsLowerWord(clean) then None
      else Some(clean)
  }

  /** `puzzle.category.includes(cleanAnswer)`: list membership, or a substring test on a name. */
  predicate CategoryIncludes(field: CategoryField, clean: string) {
    match field
    case WordList(words) => clean in words
    case Named(name) => Includes(name, clean)
  }

  /** `process(a).slice(-2) === process(b).slice(-2)`. */
  predicate CodesRhyme(m: Metaphone, a: string, b: string) {
    LastTwo(m.process(a)) == LastTwo(m.process(b))
  }

  /**
   * The `switch (puzzle.type)` of a puzzle without `validate`, on a screened
   * answer. Reading a missing `answer` or `category` throws, which is `None`.
   * The rhyme case compares the last two symbols of Metaphone's codes for
   * the whole words, not the closure's `compare` of their last two letters.
   */
  function ByType(p: Puzzle, clean: string, m: Metaphone): Option<bool> {
    if p.kind == WordChainType then
      if p.answer.None? then None
      else Some(StartsWith(clean, Lower(LastTwo(p.answer.value))) && |clean| >= 3)
    else if p.kind == AnagramType then
      if p.answer.None? then None
      else Some(clean == Lower(p.answer.value))
    else if p.kind == RhymeType then
      if p.answer.None? then None
      else Some(CodesRhyme(m, clean, p.answer.value) && clean != Lower(p.answer.value))
    else if p.kind == CategoryType then
      if p.category.None? then None
      else Some(CategoryIncludes(p.category.value, clean))
    else Some(false)
  }

  /**
   * `validateAnswer(puzzle, answer)` as written: `None` when it throws,
   * otherwise its verdict.
   */
  function ValidateAnswer(puzzle: Option<Puzzle>, answer: Option<string>, m: Metaphone): (r: Option<bool>)
    ensures Screen(puzzle, answer).None? ==> r == Some(false)
    ensures r == Some(true) ==> puzzle.Some? && answer.Some? && IsLowerWord(Clean(answer.value))
                                && |Clean(answer.value)| >= 2
    ensures Screen(puzzle, answer).Some? && puzzle.value.validate.Some? ==>
              r == Some(Apply(puzzle.value.validate.value, Clean(answer.value), m))
    ensures r.None? <==>
              && Screen(puzzle, answer).Some? && puzzle.value.validate.None?
              && (|| ((puzzle.value.kind == WordChainType || puzzle.value.kind == AnagramType
                       || puzzle.value.kind == RhymeType) && puzzle.value.answer.None?)
                  || (puzzle.value.kind == CategoryType && puzzle.value.category.None?))
  {
    match Screen(puzzle, answer)
    case None => Some(false)
    case Some(clean) =>
      if puzzle.value.validate.Some? then Some(Apply(puzzle.value.validate.value, clean, m))
      else ByType(puzzle.value, clean, m)
  }

  /**
   * Without `validate`, each type is checked as the `switch` says: a word
   * chain continues the answer's last two letters with three or more, an
   * anagram is the answer in lower case, a rhyme ends in the same two
   * Metaphone symbols as the answer without being it, a category holds the
   * cleaned answer, and an unknown type fails.
   */
  lemma DefaultChecks(p: Puzzle, answer: string, m: Metaphone)
    requires p.validate.None? && Screen(Some(p), Some(answer)).Some?
    ensures p.kind == WordChainType && p.answer.Some? ==>
              ValidateAnswer(Some(p), Some(answer), m) ==
                Some(|Clean(answer)| >= 3 && StartsWith(Clean(answer), Lower(LastTwo(p.answer.value))))
    ensures p.kind == AnagramType && p.answer.Some? ==>
              ValidateAnswer(Some(p), Some(answer), m) == Some(Clean(answer) == Lower(p.answer.value))
    ensures p.kind == RhymeType && p.answer.Some? ==>
              ValidateAnswer(Some(p), Some(answer), m) ==
                Some(CodesRhyme(m, Clean(answer), p.answer.value) && Clean(answer) != Lower(p.answer.value))
    ensures p.kind == CategoryType && p.category.Some? && p.category.value.WordList? ==>
              ValidateAnswer(Some(p), Some(answer), m) == Some(Clean(answer) in p.category.value.words)
    ensures p.kind.OtherType? ==>
              ValidateAnswer(Some(p), Some(answer), m) == Some(false)
    ensures (p.kind == WordChainType || p.kind == AnagramType || p.kind == RhymeType) && p.answer.None? ==>
              ValidateAnswer(Some(p), Some(answer), m).None?
  {
    assert Screen(Some(p), Some(answer)) == Some(Clean(answer));
  }

  /**
   * The check as evidently intended: a category given by name is looked up
   * in `categories`, and an unknown name fails.
   */
  function IntendedByType(p: Puzzle, clean: string, m: Metaphone): (r: Option<bool>)
    ensures p.kind == CategoryType && p.category.Some? && p.category.value.Named? ==>
              r == Some(CategoryOf(p.category.value.name).Some?
                        && clean in Words(CategoryOf(p.category.value.name).value))
    ensures !(p.kind == CategoryType && p.category.Some? && p.category.value.Named?) ==> r == ByType(p, clean, m)
  {
    if p.kind == CategoryType && p.category.Some? && p.category.value.Named? then
      match CategoryOf(p.category.value.name)
      case None => Some(false)
      case Some(c) => Some(clean in Words(c))
    else ByType(p, clean, m)
  }

  /** `validateAnswer` with the category lookup of `IntendedByType`. */
  function ValidateAnswerIntended(puzzle: Option<Puzzle>, answer: Option<string>, m: Metaphone): (r: Option<bool>)
    ensures Screen(puzzle, answer).None? ==> r == Some(false)
    ensures Screen(puzzle, answer).Some? && puzzle.value.validate.Some? ==>
              r == ValidateAnswer(puzzle, answer, m)
  {
    match Screen(puzzle, answer)
    case None => Some(false)
    case Some(clean) =>
      if puzzle.value.validate.Some? then Some(Apply(puzzle.value.validate.value, clean, m))
      else IntendedByType(puzzle.value, clean, m)
  }

  /**
   * The two Metaphone tests of a rhyme agree on an answer: the closure's
   * `compare` of the last two letters, and the `switch`'s comparison of the
   * last two symbols of the whole words' codes.
   */
  predicate RhymeTestsAgree(m: Metaphone, baseRhymeWord: string, clean: string) {
    m.compare(LastTwo(baseRhymeWord), LastTwo(clean)) == CodesRhyme(m, clean, baseRhymeWord)
  }

  /**
   * With the intended lookup, a generated word chain, anagram or category
   * puzzle that has lost its `validate` function is judged exactly as its
   * function would judge it, for every answer.
   */
  lemma {:induction false} StrippedAgreesWithValidate(v: Validator, answer: Option<string>, m: Metaphone)
    ensures !v.RhymeRule? ==>
              ValidateAnswerIntended(Some(Stripped(Generated(v))), answer, m)
                == ValidateAnswer(Some(Generated(v)), answer, m)
  {
    var clean := Screen(Some(Generated(v)), answer);
    if clean.Some? {
      LowerOfLowerWord(clean.value);
      match v
      case CategoryRule(c) =>
        CategoryKeyLookup(c);
      case _ =>
    }
  }

  /**
   * A generated rhyme puzzle that has lost its `validate` function is judged
   * as its function judges an answer exactly when the guards reject it, the
   * two Metaphone tests agree on it, or it is the base word, which both reject.
   */
  lemma StrippedRhymeAgreement(baseRhymeWord: string, answer: string, m: Metaphone)
    ensures ValidateAnswerIntended(Some(Stripped(Generated(RhymeRule(baseRhymeWord)))), Some(answer), m)
              == ValidateAnswer(Some(Generated(RhymeRule(baseRhymeWord))), Some(answer), m)
            <==> || Screen(Some(Generated(RhymeRule(baseRhymeWord))), Some(answer)).None?
                 || RhymeTestsAgree(m, baseRhymeWord, Clean(answer))
                 || Clean(answer) == Lower(baseRhymeWord)
  {
    var w := Clean(answer);
    if Screen(Some(Generated(RhymeRule(baseRhymeWord))), Some(answer)).None? {
      return;
    }
    LowerOfLowerWord(w);
    assert ValidateAnswer(Some(Generated(RhymeRule(baseRhymeWord))), Some(answer), m)
        == Some(RhymeAccepts(baseRhymeWord, w, m));
  }

  /** A word of a-z only comes out of `trim().toLowerCase()` as it went in. */
  lemma CleanOfLowerWord(w: string)
    requires IsLowerWord(w)
    ensures Clean(w) == w
  {
    TrimKeeps(w);
    LowerOfLowerWord(w);
  }

  /** A word of two or more letters a-z passes the guards unchanged. */
  lemma ScreenPassesLowerWord(p: Puzzle, w: string)
    requires IsLowerWord(w) && |w| >= 2
    ensures Screen(Some(p), Some(w)) == Some(w)
  {
    CleanOfLowerWord(w);
    assert w != "" by {
      assert |w| >= 2;
    }
  }

  /** The name "animals" contains "an" but not "lion". */
  lemma AnimalsNameSearch()
    ensures Includes("animals", "an") && !Includes("animals", "lion")
  {
    assert OccursAt("animals", "an", 0);
    forall i | 0 <= i <= 3 ensures !OccursAt("animals", "lion", i) {
      assert "animals"[i..i + 4][0] != 'l';
    }
  }

  /** On a screened answer, a generated category puzzle checks the word list. */
  lemma GeneratedCategoryVerdict(c: Category, w: string, m: Metaphone)
    requires IsLowerWord(w) && |w| >= 2
    ensures ValidateAnswer(Some(Generated(CategoryRule(c))), Some(w), m) == Some(w in Words(c))
  {
    ScreenPassesLowerWord(Generated(CategoryRule(c)), w);
    LowerOfLowerWord(w);
  }

  /**
   * The same puzzle without `validate` searches the category's name, as
   * written, for the answer.
   */
  lemma StrippedCategoryVerdict(c: Category, w: string, m: Metaphone)
    requires IsLowerWord(w) && |w| >= 2
    ensures ValidateAnswer(Some(Stripped(Generated(CategoryRule(c)))), Some(w), m)
         == Some(Includes(CategoryKey(c), w))
  {
    var p := Stripped(Generated(CategoryRule(c)));
    assert p == Puzzle(CategoryType, None, Some(Named(CategoryKey(c))), None);
    ScreenPassesLowerWord(p, w);
    NamedCategoryByType(p, CategoryKey(c), w, m);
  }

  /** Without `validate`, a category puzzle that names its category searches the name. */
  lemma NamedCategoryByType(p: Puzzle, name: string, clean: string, m: Metaphone)
    requires p.kind == CategoryType && p.category == Some(Named(name))
    ensures ByType(p, clean, m) == Some(Includes(name, clean))
  {
  }

  /** With the intended lookup, the puzzle without `validate` checks the word list again. */
  lemma IntendedCategoryVerdict(c: Category, w: string, m: Metaphone)
    requires IsLowerWord(w) && |w| >= 2
    ensures ValidateAnswerIntended(Some(Stripped(Generated(CategoryRule(c)))), Some(w), m)
         == Some(w in Words(c))
  {
    var p := Stripped(Generated(CategoryRule(c)));
    assert p == Puzzle(CategoryType, None, Some(Named(CategoryKey(c))), None);
    ScreenPassesLowerWord(p, w);
    CategoryKeyLookup(c);
    assert IntendedByType(p, w, m) == Some(w in Words(c));
  }

  /**
   * As written, a generated animals puzzle without `validate` rejects "lion",
   * which its own function accepts, and accepts "an", which is no animal:
   * the name "animals" is searched as a string.
   */
  lemma NamedCategoryIsSubstringTest(m: Metaphone)
    ensures ValidateAnswer(Some(Generated(CategoryRule(Animals))), Some("lion"), m) == Some(true)
    ensures ValidateAnswer(Some(Stripped(Generated(CategoryRule(Animals)))), Some("lion"), m) == Some(false)
    ensures ValidateAnswer(Some(Stripped(Generated(CategoryRule(Animals)))), Some("an"), m) == Some(true)
  {
    assert IsLowerWord("lion") && IsLowerWord("an");
    GeneratedCategoryVerdict(Animals, "lion", m);
    StrippedCategoryVerdict(Animals, "lion", m);
    StrippedCategoryVerdict(Animals, "an", m);
    AnimalsList();
    AnimalsNameSearch();
  }

  /** "lion" is on the animals list and "an" is not. */
  lemma AnimalsList()
    ensures "lion" in Words(Animals) && "an" !in Words(Animals)
  {
    assert Words(Animals)[0] == "lion";
    forall k | 0 <= k < |Words(Animals)| ensures |Words(Animals)[k]| >= 4 {
    }
  }

  /** With the intended lookup the stripped animals puzzle accepts "lion" and rejects "an". */
  lemma NamedCategoryLookedUp(m: Metaphone)
    ensures ValidateAnswerIntended(Some(Stripped(Generated(CategoryRule(Animals)))), Some("lion"), m) == Some(true)
    ensures ValidateAnswerIntended(Some(Stripped(Generated(CategoryRule(Animals)))), Some("an"), m) == Some(false)
  {
    assert IsLowerWord("lion") && IsLowerWord("an");
    IntendedCategoryVerdict(Animals, "lion", m);
    IntendedCategoryVerdict(Animals, "an", m);
    AnimalsList();
  }

  // ---------------------------------------------------------------- getWordDifficulty

  /** The letters `'jkqxz'` that score extra. */
  predicate IsUncommon(c: char) {
    c == 'j' || c == 'k' || c == 'q' || c == 'x' || c == 'z'
  }

  /** The class `[bcdfghjklmnpqrstvwxyz]`. */
  predicate IsConsonant(c: char) {
    'a' <= c <= 'z' && c != 'a' && c != 'e' && c != 'i' && c != 'o' && c != 'u'
  }

  /** The number of uncommon letters of `w`. */
  function UncommonCount(w: string): (n: nat)
    ensures n <= |w|
  {
    if w == [] then 0 else (if IsUncommon(w[0]) then 1 else 0) + UncommonCount(w[1..])
  }

  /** The length of the run of consonants at the start of `w`. */
  function RunLength(w: string): (n: nat)
    ensures n <= |w|
    ensures forall k :: 0 <= k < n ==> IsConsonant(w[k])
    ensures n < |w| ==> !IsConsonant(w[n])
  {
    if w != [] && IsConsonant(w[0]) then 1 + RunLength(w[1..]) else 0
  }

  /**
   * `word.match(/[bcdfghjklmnpqrstvwxyz]{3,}/g).length`: the greedy match
   * takes a whole run of consonants, so this counts the maximal runs of
   * three or more.
   */
  function ClusterCount(w: string): nat
    decreases |w|
  {
    if w == [] then 0
    else if IsConsonant(w[0]) then
      var n := RunLength(w);
      (if n >= 3 then 1 else 0) + ClusterCount(w[n..])
    else ClusterCount(w[1..])
  }

  /** A maximal run of three or more consonants starts at `i`. */
  predicate StartsCluster(w: string, i: int) {
    0 <= i <= |w| - 3 && IsConsonant(w[i]) && IsConsonant(w[i + 1]) && IsConsonant(w[i + 2])
    && (i == 0 || !IsConsonant(w[i - 1]))
  }

  /** The number of positions from `from` on where a cluster starts, counted one position at a time. */
  function StartCount(w: string, from: nat): nat
    decreases |w| - from
  {
    if from + 3 > |w| then 0
    else (if StartsCluster(w, from) then 1 else 0) + StartCount(w, from + 1)
  }

  /** Three or more letters each take at least three positions. */
  lemma {:induction false} ClusterCountBound(w: string)
    ensures 3 * ClusterCount(w) <= |w|
    decreases |w|
  {
    if w == [] {
    } else if IsConsonant(w[0]) {
      var n := RunLength(w);
      ClusterCountBound(w[n..]);
    } else {
      ClusterCountBound(w[1..]);
    }
  }

  /** Inside a run of consonants no cluster starts, so the count from anywhere in it is the count after it. */
  lemma {:induction false} NoStartsInsideRun(w: string, j: nat, end: nat)
    requires 0 < j <= end <= |w|
    requires forall k :: j - 1 <= k < end ==> IsConsonant(w[k])
    ensures StartCount(w, j) == StartCount(w, end)
    decreases end - j
  {
    if j < end {
      assert !StartsCluster(w, j);
      NoStartsInsideRun(w, j + 1, end);
    }
  }

  /** The run of consonants at `from` ends at the end of `w` or before a non-consonant. */
  lemma RunBounds(w: string, from: nat)
    requires from < |w|
    ensures var n := RunLength(w[from..]);
            && from + n <= |w|
            && (from + n == |w| || !IsConsonant(w[from + n]))
            && forall k :: from <= k < from + n ==> IsConsonant(w[k])
  {
    var rest := w[from..];
    var n := RunLength(rest);
    forall k | from <= k < from + n ensures IsConsonant(w[k]) {
      assert w[k] == rest[k - from];
    }
    if from + n < |w| {
      assert w[from + n] == rest[n];
    }
  }

  /** The recursion steps over a whole run, counting it when it is three long. */
  lemma ClusterCountOverRun(w: string, from: nat)
    requires from < |w| && IsConsonant(w[from])
    ensures var n := RunLength(w[from..]);
            && from + n <= |w|
            && ClusterCount(w[from..]) == (if n >= 3 then 1 else 0) + ClusterCount(w[from + n..])
  {
    var rest := w[from..];
    assert rest[RunLength(rest)..] == w[from + RunLength(rest)..];
  }

  /** The start count steps over a whole run the same way, when the run begins at `from`. */
  lemma StartCountOverRun(w: string, from: nat)
    requires from < |w| && IsConsonant(w[from])
    requires from == 0 || !IsConsonant(w[from - 1])
    ensures var n := RunLength(w[from..]);
            && from + n <= |w|
            && StartCount(w, from) == (if n >= 3 then 1 else 0) + StartCount(w, from + n)
  {
    var n := RunLength(w[from..]);
    RunBounds(w, from);
    NoStartsInsideRun(w, from + 1, from + n);
    assert StartsCluster(w, from) <==> n >= 3;
  }

  /**
   * Both counts step over the whole run of consonants at `from` to the same
   * cell `next`, which ends the run, and count the run alike.
   */
  lemma SkipRun(w: string, from: nat) returns (next: nat)
    requires from < |w| && IsConsonant(w[from])
    requires from == 0 || !IsConsonant(w[from - 1])
    ensures from < next <= |w|
    ensures next == |w| || !IsConsonant(w[next])
    ensures ClusterCount(w[next..]) == StartCount(w, next) ==> ClusterCount(w[from..]) == StartCount(w, from)
  {
    next := from + RunLength(w[from..]);
    RunBounds(w, from);
    ClusterCountOverRun(w, from);
    StartCountOverRun(w, from);
  }

  /** A non-consonant is skipped by both counts. */
  lemma CountsSkipNonConsonant(w: string, from: nat)
    requires from < |w| && !IsConsonant(w[from])
    ensures ClusterCount(w[from..]) == ClusterCount(w[from + 1..])
    ensures StartCount(w, from) == StartCount(w, from + 1)
  {
    assert w[from..][1..] == w[from + 1..];
  }

  /**
   * The count over the slice of `w` from `from`, where `from` is not inside
   * a run of consonants, equals the number of cluster starts there: the
   * recursion counts each maximal run of three once.
   */
  lemma {:induction false} ClusterCountCountsStarts(w: string, from: nat)
    requires from <= |w|
    requires from == 0 || from == |w| || !IsConsonant(w[from - 1]) || !IsConsonant(w[from])
    ensures ClusterCount(w[from..]) == StartCount(w, from)
    decreases |w| - from
  {
    if from == |w| {
      assert w[from..] == [];
    } else if IsConsonant(w[from]) {
      var next := SkipRun(w, from);
      ClusterCountCountsStarts(w, next);
    } else {
      CountsSkipNonConsonant(w, from);
      ClusterCountCountsStarts(w, from + 1);
    }
  }

  /** The recursion over runs counts exactly the positions where a maximal run of three or more starts. */
  lemma ClusterCountIsStarts(w: string)
    ensures ClusterCount(w) == StartCount(w, 0)
  {
    assert w[0..] == w;
    ClusterCountCountsStarts(w, 0);
  }

  /**
   * Twice the unrounded score `0.5 * length + 2 * uncommon + 1.5 * clusters`,
   * which is therefore an integer.
   */
  function DoubledScore(w: string): nat {
    |w| + 4 * UncommonCount(w) + 3 * ClusterCount(w)
  }

  /**
   * `getWordDifficulty(word)`: the score rounded half up by `Math.round`,
   * capped at 10.
   */
  function WordDifficulty(w: string): (r: nat)
    ensures r <= 10
    ensures r == 10 <==> DoubledScore(w) >= 19
    ensures r < 10 ==> DoubledScore(w) <= 2 * r <= DoubledScore(w) + 1
  {
    var rounded := (DoubledScore(w) + 1) / 2;
    if rounded < 10 then rounded else 10
  }

  /**
   * The score grows with the word: it is at least half the length rounded
   * up, and at most three times the length; a word of nineteen or more
   * characters scores 10.
   */
  lemma DifficultyBounds(w: string)
    ensures WordDifficulty(w) >= if (|w| + 1) / 2 < 10 then (|w| + 1) / 2 else 10
    ensures WordDifficulty(w) <= 3 * |w|
    ensures |w| >= 19 ==> WordDifficulty(w) == 10
  {
    ClusterCountBound(w);
  }
}
