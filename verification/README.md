# Rock-paper-scissors: outcome resolver and choice visuals

A Dafny model of the two pieces of logic in the browser rock-paper-scissors
game that are more than rendering plumbing:

- **Outcome** (`outcome.dfy`, from `scripts/utils.js`): `getResult`, which
  compares two players' strings and answers 0 (tie), 1 (player 1 wins) or 2
  (player 2 wins), and `getComputerChoice`, which maps a random index to a
  name. The three names are the datatype `Name`; the resolver itself stays
  on strings, because the source does and because it answers 2, rather than
  failing, for strings that are not names. An independent cyclic rule,
  `Beats` (a beats b when a is one step after b in rock, paper, scissors), is
  the reference the resolver is proved against. The random draw
  `Math.floor(Math.random() * 3)` is the integer parameter of
  `GetComputerChoice`.
- **Visuals** (`visuals.dfy`, from `threedee.js`): the `Choice` record (name,
  hover flag, scale, rotation and position vectors) and the per-frame
  updates `rotate`, `updateScale` and `updateStats`, plus the hover
  bookkeeping of `mouseMove`. Numbers are Dafny `real`s. The ray cast is an
  input: the hit objects, nearest first, as indices into the list of
  choices. `Run` folds a sequence of pointer moves and animation frames over
  the choices, standing for the event listeners and the
  `requestAnimationFrame` loop.

The game's round flow (selecting, revealing the opponent, scoring, pausing)
is not present in the code: `scripts/GameManager.js` is an empty frozen
singleton. Nothing of it is modelled. An unrecognised name is not an error:
`getResult` answers 2 (`UnrecognisedFallsToTwo`).

## Model

| member | source | states |
|---|---|---|
| Outcome.GetResult | scripts/utils.js:24-32 | the result is 0, 1 or 2; 0 exactly on equal strings; 1 exactly when both strings are names and the first beats the second under the cyclic rule; 2 for every other pair of unequal strings |
| Outcome.Parse | scripts/utils.js:28-30 | only the exact lower-case spellings "rock", "paper", "scissors" are names, and a parsed name spells back to the string |
| Outcome.ParseSpelling | scripts/utils.js:12-14 | spelling a name and reading it back gives the same name |
| Outcome.ResolveIsCyclicRule | scripts/utils.js:26-31 | on names, tie iff equal, player 1 wins iff it beats the other by the cyclic rule, player 2 wins otherwise |
| Outcome.WinsAreTheThreePairs | scripts/utils.js:28-30 | player 1 wins exactly on (rock, scissors), (paper, rock), (scissors, paper) |
| Outcome.EqualInputsTie | scripts/utils.js:26 | any string against itself is a tie |
| Outcome.DistinctNamesComplementary | scripts/utils.js:26-31 | for two different names, player 1 wins one way round iff player 2 wins the other; the two results sum to 3, so never two wins and never a tie |
| Outcome.WinSwapsToLoss | scripts/utils.js:28-31 | on any strings, a win for player 1 becomes a win for player 2 when the arguments are swapped |
| Outcome.LossDoesNotSwapOffNames | scripts/utils.js:31 | two different unrecognised strings give 2 in both orders, so the converse of the swap property holds only on names |
| Outcome.EachNameBeatsOneLosesToOne | scripts/utils.js:28-31 | each name wins against exactly one name and loses against exactly one name |
| Outcome.UnrecognisedFallsToTwo | scripts/utils.js:31 | a string that is not a name, against any different string and on either side, gives 2; there is no error path |
| Outcome.CapitalisedNameLoses | scripts/utils.js:26-31 | matching is exact: "Rock" against "scissors" gives 2 in both orders |
| Outcome.GetComputerChoice | scripts/utils.js:9-16 | the pick is always a name; an index 0, 1 or 2 gives the name at that position; every index outside 0 and 1 gives scissors |
| Outcome.ComputerChoiceOnePreimage | scripts/utils.js:10-15 | over the three draws each name comes from exactly one index, so a uniform draw picks each name with equal chance |
| Visuals.NewChoice | threedee.js:18-31 | a new choice carries its name, is not hovered, has uniform scale 1, sits at the origin, and its initial x and y spin lie in [0, 3) when the draws lie in [0, 1) |
| Visuals.InitialChoices | threedee.js:33-45 | start-up yields rock, paper, scissors in that order at x = -3, 0, 3, all in range and none hovered |
| Visuals.Rotate | threedee.js:91-95 | the x and y rotation each grow by exactly 1.3 times the frame time; the z rotation and every other field are unchanged |
| Visuals.RotateAdditive | threedee.js:91-95 | two spins in a row equal one spin over the combined time |
| Visuals.UpdateScale | threedee.js:98-112 | after the update the three scale components are equal and nothing but the scale changes; for an in-range scale and non-negative frame time, the distance to the target (1.3 if hovered, 1 if not) shrinks by exactly 3 times the frame time, stopping at zero |
| Visuals.ScaleStaysInRange | threedee.js:98-112 | a scale in [1, 1.3] stays in [1, 1.3] (and uniform) for any non-negative frame time |
| Visuals.ScaleMonotone | threedee.js:101-108 | with non-negative frame time a hovered choice never shrinks, an unhovered one never grows, and the step is at most 3 times the frame time |
| Visuals.ScaleFixpoints | threedee.js:101-108 | hovered at 1.3 stays 1.3, unhovered at 1 stays 1, a zero frame time leaves the x scale unchanged and leaves an in-range choice entirely unchanged |
| Visuals.ScaleNotPulledBack | threedee.js:102-106 | a hovered scale above 1.3 and an unhovered scale below 1 are left where they are: each clamp works in the direction of motion only |
| Visuals.RotateScaleCommute | threedee.js:117-118 | spinning and rescaling touch disjoint fields, so their order within a frame does not matter |
| Visuals.LongFrameSettles | threedee.js:98-112 | a frame of at least 0.1 seconds brings an in-range choice all the way to 1.3 if hovered, to 1 if not |
| Visuals.UpdateStats | threedee.js:114-120 | the list keeps its length and order, and element i becomes exactly choice i spun and then rescaled |
| Visuals.UpdateStatsPreserves | threedee.js:114-120 | a frame keeps names, positions and hover flags, and keeps every choice in range when the frame time is non-negative |
| Visuals.ClearHover | threedee.js:81 | every choice ends unhovered and nothing else about it changes |
| Visuals.MouseMove | threedee.js:79-84 | nothing but hover flags change, and choice i is hovered exactly when it is the first hit |
| Visuals.MouseMoveHoversFirstHit | threedee.js:79-84 | after a pointer move the hovered set is the first hit alone, or empty when nothing is hit, so at most one choice is hovered |
| Visuals.RunPreservesInvariants | threedee.js:126-140 | over any sequence of pointer moves and non-negative frames the choices keep their number, names and positions, stay in range, and at most one is hovered |
| Visuals.GameKeepsInvariants | threedee.js:33-45 | from start-up, whatever the random spins and pointer moves, no scale leaves [1, 1.3] and at most one choice is hovered |

## Left out

- The scene, camera, renderer, texture loading, ray casting and window resizing: calls into the 3D library; the ray cast is an input sequence of hit indices.
- `clicked`: it only writes to the console.
- `setCursor`: a style change on the page.
- `Math.random()` and the frame clock: both are parameters (the draw index, the two spin draws, each frame's time).
- The draft `scripts/threedee.js`, `scripts/GameManager.js`, `scripts/InputManager.js`, `scripts/UIManager.js` and `scripts/animations.js`: a duplicate of `threedee.js` calling manager methods that do not exist, an empty singleton, event wiring, page styling, and wrappers over an animation library; none holds game logic.
- A round state machine, scoring and pausing: the code contains none.
- IEEE double rounding: the arithmetic is exact over `real`, so `1.3` and `3 * deltaTime` are the exact values.
- A hit on an object that is not one of the choices cannot happen in `threedee.js`, whose scene holds only the choices; the model lets such an index through and marks nothing.
