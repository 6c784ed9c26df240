/** The outcome resolver and the opponent pick of the rock-paper-scissors game.

    The source works on plain strings: the resolver compares two strings and
    answers 0 (tie), 1 (player 1 wins) or 2 (player 2 wins), and it never fails
    on a string outside the three names; it falls through to 2. The three names
    are modelled as `Name`, with `Spelling` and `Parse` converting between a
    name and its string, and `Beats` is an independent statement of the game's
    rule against which the string-level resolver is checked.
 */
module Outcome {

  datatype Option<+T> = None | Some(value: T)

  /** The three things a player can show. */
  datatype Name = Rock | Paper | Scissors

  const AllNames: set<Name> := {Rock, Paper, Scissors}

  /** The string the game uses for each name. */
  function Spelling(n: Name): string {
    match n
    case Rock => "rock"
    case Paper => "paper"
    case Scissors => "scissors"
  }

  /** Reads a string back as a name; anything but the three exact,
      lower-case spellings is not a name. */
  function Parse(s: string): (r: Option<Name>)
    ensures r.Some? ==> Spelling(r.value) == s
    ensures r.None? ==> forall n: Name :: Spelling(n) != s
  {
    if s == "rock" then Some(Rock)
    else if s == "paper" then Some(Paper)
    else if s == "scissors" then Some(Scissors)
    else None
  }

  lemma ParseSpelling(n: Name)
    ensures Parse(Spelling(n)) == Some(n)
  {
  }

  /** Position of a name in the order rock, paper, scissors; this is also the
      index the opponent pick maps to it. */
  function Index(n: Name): int {
    match n
    case Rock => 0
    case Paper => 1
    case Scissors => 2
  }

  /** The rule of the game stated as a cycle: `a` beats `b` exactly when `a`
      comes one step after `b` in the cyclic order rock, paper, scissors. */
  predicate Beats(a: Name, b: Name) {
    (Index(a) - Index(b)) % 3 == 1
  }

  /** Both strings are names and the first beats the second. */
  predicate WinningPair(p1: string, p2: string) {
    && Parse(p1).Some?
    && Parse(p2).Some?
    && Beats(Parse(p1).value, Parse(p2).value)
  }

  /** `getResult`: 0 on equal strings, 1 when player 1's name beats player 2's,
      and 2 for everything else, including strings that are not names. */
  function GetResult(p1: string, p2: string): (r: int)
    ensures r == 0 || r == 1 || r == 2
    ensures r == 0 <==> p1 == p2
    ensures r == 1 <==> p1 != p2 && WinningPair(p1, p2)
    ensures r == 2 <==> p1 != p2 && !WinningPair(p1, p2)
  {
    if p1 == p2 then 0
    else if (p1 == "rock" && p2 == "scissors")
         || (p1 == "paper" && p2 == "rock")
         || (p1 == "scissors" && p2 == "paper") then 1
    else 2
  }

  /** The resolver seen on names rather than strings. */
  function Resolve(a: Name, b: Name): int {
    GetResult(Spelling(a), Spelling(b))
  }

  /** On names the resolver is exactly the cyclic rule. */
  lemma ResolveIsCyclicRule(a: Name, b: Name)
    ensures Resolve(a, b) == 0 <==> a == b
    ensures Resolve(a, b) == 1 <==> Beats(a, b)
    ensures Resolve(a, b) == 2 <==> a != b && !Beats(a, b)
  {
    ParseSpelling(a);
    ParseSpelling(b);
  }

  /** The three winning pairs, listed. */
  lemma WinsAreTheThreePairs(a: Name, b: Name)
    ensures Resolve(a, b) == 1 <==>
              (a, b) == (Rock, Scissors) || (a, b) == (Paper, Rock) || (a, b) == (Scissors, Paper)
  {
    ResolveIsCyclicRule(a, b);
  }

  /** Any string ties with itself. */
  lemma EqualInputsTie(s: string)
    ensures GetResult(s, s) == 0
  {
  }

  /** For two different names, exactly one side wins: never two wins,
      never a tie. */
  lemma DistinctNamesComplementary(a: Name, b: Name)
    requires a != b
    ensures Resolve(a, b) == 1 <==> Resolve(b, a) == 2
    ensures Resolve(a, b) + Resolve(b, a) == 3
  {
    ResolveIsCyclicRule(a, b);
    ResolveIsCyclicRule(b, a);
  }

  /** On arbitrary strings only one direction survives: a win for player 1
      is a win for player 2 once the arguments are swapped. */
  lemma WinSwapsToLoss(p1: string, p2: string)
    requires GetResult(p1, p2) == 1
    ensures GetResult(p2, p1) == 2
  {
    var a, b := Parse(p1).value, Parse(p2).value;
    assert Beats(a, b);
    assert !Beats(b, a);
  }

  /** The converse fails off the three names: two unrecognised strings lose
      in both directions. */
  lemma LossDoesNotSwapOffNames()
    ensures GetResult("lizard", "spock") == 2
    ensures GetResult("spock", "lizard") == 2
  {
    assert Parse("lizard").None?;
    assert Parse("spock").None?;
  }

  /** Each name beats exactly one name and loses to exactly one name. */
  lemma EachNameBeatsOneLosesToOne(a: Name)
    ensures |set b | b in AllNames && Resolve(a, b) == 1| == 1
    ensures |set b | b in AllNames && Resolve(a, b) == 2| == 1
  {
    ResolveIsCyclicRule(a, Rock);
    ResolveIsCyclicRule(a, Paper);
    ResolveIsCyclicRule(a, Scissors);
    var wins := set b | b in AllNames && Resolve(a, b) == 1;
    var losses := set b | b in AllNames && Resolve(a, b) == 2;
    match a
    case Rock =>
      assert wins == {Scissors};
      assert losses == {Paper};
    case Paper =>
      assert wins == {Rock};
      assert losses == {Scissors};
    case Scissors =>
      assert wins == {Paper};
      assert losses == {Rock};
  }

  /** There is no error path: a string that is not a name, against any
      different string, yields 2 whichever side it is on. */
  lemma UnrecognisedFallsToTwo(p1: string, p2: string)
    requires p1 != p2
    requires Parse(p1).None? || Parse(p2).None?
    ensures GetResult(p1, p2) == 2
  {
  }

  /** Matching is exact: a capitalised "Rock" is not rock and loses even
      against scissors. */
  lemma CapitalisedNameLoses()
    ensures GetResult("Rock", "scissors") == 2
    ensures GetResult("scissors", "Rock") == 2
  {
    assert Parse("Rock").None?;
  }

  /** `getComputerChoice` with its random draw `Math.floor(Math.random() * 3)`
      passed in as `i`: 0 is rock, 1 is paper, and every other value falls to
      the default branch, scissors. */
  function GetComputerChoice(i: int): (r: string)
    ensures Parse(r).Some?
    ensures 0 <= i < 3 ==> Index(Parse(r).value) == i
    ensures !(0 <= i < 2) ==> Parse(r) == Some(Scissors)
  {
    match i
    case 0 => "rock"
    case 1 => "paper"
    case _ => "scissors"
  }

  /** Over the three draws the pick is a bijection: each name comes from
      exactly one index, so a uniform draw picks each name with equal
      chance. */
  lemma ComputerChoiceOnePreimage(n: Name)
    ensures (set i | 0 <= i < 3 && GetComputerChoice(i) == Spelling(n)) == {Index(n)}
  {
    var pre := set i | 0 <= i < 3 && GetComputerChoice(i) == Spelling(n);
    forall i | 0 <= i < 3
      ensures i in pre <==> i == Index(n)
    {
      ParseSpelling(n);
      assert Index(Parse(GetComputerChoice(i)).value) == i;
    }
  }
}
