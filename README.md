# Advent of Code 2023 solutions, modelled in Dafny

This project models the puzzle solvers of the `aoc-2023-rs` crate, days 2, 3, 4, 5 and 7 to 23. Each day is one Dafny module (`Day02` … `Day23`, with `Day20Input` holding the day 20 input parser). The crate's shared code has its own modules:

- `Wrappers`: `Option`, `Result` and `Outcome`. `Outcome` stands for a loop that ran out of its step bound.
- `Grid`: the matrix and direction helpers.
- `Seqs`, `Sorting`, `Iteration`, `Text` and `Numbers`: the sequence, sorting, parsing and number helpers the days use.
- `RangeMaps`: the interval map behind day 5.

Each solver follows the shape of its Rust code:

- A loop that accumulates a total or updates a buffer is a `method`. Its `while` loop carries invariants, and its `ensures` ties the result to a specification function.
- The recursive and functional code is made of `function`s.
- What the puzzles promise is proved as lemmas about those functions: each part's answer and how it splits over the input, round trips of the parsers, termination and bounds of the simulations, and agreement between the fast algorithm and the direct definition. Example lemmas state the outcomes in the puzzle texts. Examples are the day 2 game sums, the day 4 card points, the six steps on day 8 and the day 15 `HASH` value.
- A Rust `unwrap` or `panic!` becomes an `Option`, a `Result` or an `Outcome` error value.
- An open-ended loop (`loop`, `for counter in 1..`, a work queue) gets an explicit `fuel` bound. It returns an out-of-fuel outcome when the bound runs out.

The model follows the code where the code does something particular:

- Day 3 does not reset the gear list after a number of value 0. The model keeps that.
- Day 5 `map_ranges` gives a point that the first map leaves undefined only the second map's offset, so a stage is not the composition of the two maps. `Day05.GapIgnoresBase` states this.
- Day 11 starts the previous coordinate at 0. This shifts every expanded coordinate uniformly and leaves the distances unchanged.
- Day 20 multiplies the cycle lengths rather than taking their least common multiple. `Day20.Puzzle2` states that product.

Three places where the code misses the intended behaviour are listed under "Findings". Each has a member for the code as written and a corrected member.

## Model

| member | source | states |
|---|---|---|
| Day02.ParseGame | src/day02.rs:11-22 | Ok exactly when every colour named is red, blue or green (otherwise the panic, as Err); then each colour holds the count of its last mention, 0 when never mentioned |
| Day02.ParseMention | src/day02.rs:13-14 | a piece without a space is the `split_once` panic; a parsed count fits an `i64` and the colour is the text after the first space |
| Day02.ParseDraw | src/day02.rs:11-22 | the pieces between ", " parsed and folded by ParseGame, or the panic; DrawRoundTrip states it |
| Day02.ParseLine | src/day02.rs:27-30 | a line without ": " or without the "Game " prefix is the `unwrap` panic; a parsed game has an `i64` id and at least one draw |
| Day02.ParseInput | src/day02.rs:24-33 | the input parses exactly when every line does, one game per line, in order |
| Day02.MentionRoundTrip | src/day02.rs:13-14 | a mention with an `i64` count reads back from "<count> <colour>" |
| Day02.DrawRoundTrip | src/day02.rs:11-22 | a draw written as mentions joined by ", " parses as `parse_game` folds them: the last count of each colour, or the panic when a colour is unknown |
| Day02.DrawsRoundTrip | src/day02.rs:29 | draws of known colours joined by "; " read back one draw per piece |
| Day02.GameRoundTrip | src/day02.rs:24-33 | a line "Game <id>: ..." written from an `i64` id and draws of known colours reads back as that id and the folded draws |
| Day02.DrawTextPlain | src/day02.rs:29 | a draw of known colours holds no ';', so the "; " split does not cut inside it |
| Day02.SignedDigitsPlain | src/day02.rs:13-14 | a written number holds no space, comma, semicolon or colon, so the splits find the intended separators |
| Day02.Puzzle1 | src/day02.rs:37-54 | sum of ids of the games whose every draw is within 12 red, 13 green, 14 blue; 0 when no game is possible; non-negative for non-negative ids |
| Day02.Puzzle1Split | src/day02.rs:44-52 | the first answer is additive over concatenated game lists |
| Day02.MaxDraw | src/day02.rs:63-69 | each per-colour maximum starts at 0, bounds every draw's count and is 0 or attained by some draw |
| Day02.MaxDrawUnique | src/day02.rs:63-69 | the maxima are the unique non-negative values that bound every draw and are 0 or attained |
| Day02.MaxDrawIsLeast | src/day02.rs:60-72 | any non-negative bag that holds every draw is at least the maxima, colour by colour, and its product is at least the power |
| Day02.Power | src/day02.rs:70 | the power (product of the three maxima) is non-negative |
| Day02.Puzzle2 | src/day02.rs:58-74 | the sum of the powers is non-negative |
| Day02.ExamplePuzzle1 | src/day02.rs:35 | the example games give 8 |
| Day02.ExamplePuzzle2 | src/day02.rs:56 | the example games give 2286 |
| Day03.RunStart | src/day03.rs:18-40 | the number ending before column c starts after the last non-digit; every cell in between is a digit |
| Day03.Value | src/day03.rs:24 | digits accumulate left to right as num*10 + digit, giving a non-negative value |
| Day03.Puzzle1 | src/day03.rs:15-47 | the total is the sum, over every number flushed at a non-digit or at the row's end, of its value when some digit has a symbol (neither digit nor '.') among its 8 neighbours; num and adj are reset per row and per non-digit |
| Day03.NoSymbolsNoTotal | src/day03.rs:25-38 | with no symbol in the grid the first answer is 0 |
| Day03.StarsFrom | src/day03.rs:61-63 | the collected positions are '*' cells of the grid adjacent (8-way) to the digit |
| Day03.AddNew | src/day03.rs:61-68 | pushing a star only when absent keeps gearvec duplicate-free, holds exactly the old and new stars, and extends the old vector |
| Day03.UpsertLookup | src/day03.rs:73 | entry-or-insert-then-push appends the number to that star's list only and keeps one entry per star |
| Day03.RecordAllOnce | src/day03.rs:72-74 | draining distinct stars appends the number exactly once to each of their lists and changes no other list |
| Day03.RowScanValid | src/day03.rs:54-85 | during a row scan gearvec holds distinct '*' cells and the table has one entry per star, every key a '*' cell |
| Day03.GearTableValid | src/day03.rs:53-85 | the final table has distinct keys, all of them '*' cells of the grid |
| Day03.Puzzle2 | src/day03.rs:51-93 | the answer is the sum of n1*n2 over the stars with exactly two recorded numbers, of the table built row by row |
| Day04.Matches | src/day04.rs:63 | the match count is the size of the intersection of winning and held numbers, at most the size of either |
| Day04.ScoreDoubles | src/day04.rs:64-66 | one match scores 1, each further match doubles the score, and m matches score less than 2^m |
| Day04.Puzzle1 | src/day04.rs:59-69 | the total is the sum of 2^(m-1) over cards with m > 0 matches |
| Day04.Copies | src/day04.rs:75-80 | a card ends with at least one instance: its own (count starts at 1) plus one per instance of every earlier card whose matches reach it |
| Day04.TotalAtLeastCards | src/day04.rs:49 | the second answer is at least the number of cards |
| Day04.NoMatchesOneEach | src/day04.rs:75-80 | with no matches anywhere, no card wins copies |
| Day04.Puzzle2 | src/day04.rs:73-83 | None (the out-of-bounds panic) exactly when some card's matches run past the last card; otherwise the sum of the final counts, where card i adds its count to exactly the next m cards and never to cards at index <= i |
| Day04.ExamplePoints | src/day04.rs:57 | the example's match counts 4,2,2,1,0,0 score 13 |
| Day04.NoneWon | src/day04.rs:75-80 | a card that no earlier card's matches reach gains no extra copies |
| Day04.ExampleCopies | src/day04.rs:71 | the example's match counts give 30 cards |
| Day05.SplitSectionsJoin | src/day05.rs:47-48 | splitting the input on blank lines and joining the pieces back with the separator restores the input |
| Day05.CheckSections | src/day05.rs:47-51 | the input is accepted exactly when it has eight blank-line-separated sections, and "Invalid input" is returned otherwise |
| Day05.OutsideUnchanged | src/day05.rs:94-112 | a point outside every triple's source range keeps the base map's value; no triples leave the map unchanged |
| Day05.InsideOneTriple | src/day05.rs:96-109 | with disjoint source ranges, a point inside a triple's source range gets the bare offset where the base is undefined and base(x+offset)+offset where the base is defined at x and x+offset |
| Day05.GapIgnoresBase | src/day05.rs:106-109 | a stage is not the composition of maps: a point where the base is undefined gets only the stage's offset even if the base is defined at its image |
| Day05.MapRanges | src/day05.rs:94-112 | the result is a valid range map whose value at every point is the pointwise stage rule applied over the base, triple after triple |
| Day05.CompileAlmanac | src/day05.rs:128-144 | the compiled map is valid and agrees at every point with the seven stages folded from humidity-to-location back to seed-to-soil |
| Day05.MinOverChunks | src/day05.rs:118-120 | the running minimum drops to at most the location of every seed of the range where the map is defined, and is either unchanged or attained by such a seed |
| Day05.MinOverGaps | src/day05.rs:121-123 | the running minimum drops to at most every seed of the range where the map is undefined, and is either unchanged or attained by such a seed |
| Day05.MinRanges | src/day05.rs:114-126 | the result is at most i64::MAX, at most the location of every seed in every range, and either i64::MAX or the location of some seed in some range |
| Day05.Puzzle1 | src/day05.rs:148-158 | no answer (a panic) exactly when there are no seeds; otherwise the least location over the seeds, attained by one of them |
| Day05.SeedPairs | src/day05.rs:165-169 | pairs exist exactly when the number of seed numbers is even, and pair i is (seeds[2i], seeds[2i+1]) |
| Day05.Puzzle2 | src/day05.rs:162-172 | no answer (a panic) exactly when the seed count is odd; otherwise a bound on the location of every seed in every pair range, attained by one of them unless it is i64::MAX |
| Day07.ParseCard | src/day07.rs:6-23 | a card exists exactly for the thirteen glyphs, with values 2..14 and digits worth their face value |
| Day07.CardRoundTrip | src/day07.rs:6-23 | each card value has exactly one glyph: printing then parsing and parsing then printing are identities |
| Day07.FilterCards | src/day07.rs:44-47 | non-card characters are dropped, the kept cards are in 2..14, and a string of card glyphs keeps its length |
| Day07.ParseHand | src/day07.rs:44-49 | a hand exists exactly when five cards remain after filtering (otherwise the unwrap panics) |
| Day07.Downgrade | src/day07.rs:112-117 | a jack becomes 1 and every other card is unchanged |
| Day07.OrdInjective | src/day07.rs:27-36 | ranks are totally ordered in declaration order, different ranks at different positions |
| Day07.RankStep | src/day07.rs:66-76 | while at most five cards are counted, the loop's rank update after a count reaches c equals the classification of the new counts |
| Day07.RankHand | src/day07.rs:57-94 | the rank is the classification of the non-joker card counts (five, four, full house, three, two pairs, one pair, high card) followed by the joker table |
| Day07.CountCard | src/day07.rs:61-77 | after card i the counts array holds the non-joker counts of the first i+1 cards, the joker tally their jokers, and the rank their classification |
| Day07.CountsSum | src/day07.rs:61-66 | the counted cards plus the jokers make up the whole hand |
| Day07.JokersRaise | src/day07.rs:78-92 | on a five-card hand, zero jokers leave the rank unchanged and any jokers raise it strictly |
| Day07.RowLeTotalPreorder | src/day07.rs:100-104 | the tuple order by rank, then cards, then bet is total and transitive |
| Day07.SortedRowsUnique | src/day07.rs:104 | two sorted arrangements of the same rows are equal, so the answer does not depend on the sort |
| Day07.WinningsAtLeastBets | src/day07.rs:105-108 | with no negative bet the winnings are at least the sum of the bets |
| Day07.RankAll | src/day07.rs:100-103 | each hand is replaced by its rank, its cards (downgraded when jacks are jokers) and its bet, in input order |
| Day07.Weigh | src/day07.rs:105-108 | the total is the sum of each bet times its 1-based position |
| Day07.Puzzle | src/day07.rs:98-133 | the answer is the winnings of the ranked rows sorted by rank, cards and bet |
| Day08.ParseDir | src/day08.rs:12-16 | 'L' is left, 'R' is right, and any other character panics |
| Day08.ParseDirs | src/day08.rs:10-17 | the directions parse exactly when every character is L or R, one direction per character |
| Day08.WalkStaysNone | src/day08.rs:41 | once a walk reaches a node without an entry (a panic) it never recovers |
| Day08.WalkPeriodic | src/day08.rs:40 | the instructions repeat: after a full round the walk continues as a fresh walk from where the round ended |
| Day08.Puzzle1 | src/day08.rs:35-49 | the answer is the step count of the first arrival at ZZZ from AAA, at least 1, with no arrival before; 0 without instructions; a panic only at a missing node |
| Day08.ArrivalUnique | src/day08.rs:65-72 | a walker's first arrival at a node ending in Z is unique |
| Day08.StepAll | src/day08.rs:60-63 | every walker takes the branch the current instruction picks; a walker on a node without an entry panics |
| Day08.StepWalkers | src/day08.rs:59-64 | one step of all walkers keeps each walker at its walk's position after count+1 steps |
| Day08.Retain | src/day08.rs:65-72 | walkers on a node ending in Z leave, each recording the step count as its arrival time; the others stay in order |
| Day08.Puzzle2 | src/day08.rs:53-80 | when all walkers have left, each start's first arrival time is recorded exactly once and the answer is their lcm, positive and divisible by each |
| Day08.GcdDivides | src/day08.rs:78 | Euclid's gcd of a positive and a natural number is positive and divides both |
| Day08.LcmMultiple | src/day08.rs:78 | the lcm of two positive numbers is positive and a multiple of both |
| Day08.LcmFoldMultiple | src/day08.rs:78 | the lcm fold from 1 over positive lengths is positive and divisible by every length |
| Day08.LcmAll | src/day08.rs:78 | the loop computes the fold of lcm from 1 |
| Day08.ExampleSixSteps | src/day08.rs:32-33 | on the second example network, LLR reaches ZZZ in six steps and not before |
| Day09.Derive | src/day09.rs:13-15 | the differences have one element fewer than a non-empty row and each is the later value minus the earlier |
| Day09.PredictNext | src/day09.rs:17-23 | 0 on an all-zero row, otherwise the last value plus the prediction of the differences; NextStep and Arithmetic state what it yields |
| Day09.PredictPrev | src/day09.rs:36-42 | 0 on an all-zero row, otherwise the first value minus the prediction of the differences; PrevIsNextReversed relates it to PredictNext |
| Day09.NextStep | src/day09.rs:17-23 | the forward prediction minus the last value is the prediction of the differences (also on an all-zero row), and likewise backwards |
| Day09.NextExtends | src/day09.rs:17-23 | appending the forward prediction to a row appends the differences' prediction to its differences |
| Day09.PrevExtends | src/day09.rs:36-42 | prepending the backward prediction prepends the differences' backward prediction |
| Day09.ConstantDifferences | src/day09.rs:17-23 | a row whose differences are all zero predicts its last value forwards and its first backwards |
| Day09.Arithmetic | src/day09.rs:17-23 | an arithmetic row a, a+d, ... of n >= 2 values predicts a+nd forwards and a-d backwards |
| Day09.ExampleFirstRow | src/day09.rs:25 | the example row 0 3 6 9 12 15 predicts 18 and -3 |
| Day09.NextNegate | src/day09.rs:17-23 | negating a row negates its forward prediction |
| Day09.PrevIsNextReversed | src/day09.rs:36-42 | the backward prediction equals the forward prediction of the reversed row |
| Day09.Puzzle1 | src/day09.rs:27-34 | the loop's total is the sum of forward predictions over all rows |
| Day09.Puzzle2 | src/day09.rs:46-53 | the loop's total is the sum of backward predictions over all rows |
| Day09.TotalPrevReversed | src/day09.rs:46-53 | the second answer equals the first answer on the rows reversed |
| Day10.CharToPipe | src/day10.rs:19-31 | exactly the eight glyphs parse, never to the expansion filler, and each parsed tile prints back as its glyph |
| Day10.PipeCharRoundTrip | src/day10.rs:19-31 | every parsed tile's glyph parses back to that tile |
| Day10.ParseLine | src/day10.rs:35 | a line parses iff every character is a glyph, tile by tile |
| Day10.ParseGrid | src/day10.rs:33-37 | the grid parses iff the lines have equal length and every glyph is valid; the result is rectangular |
| Day10.NextPipe | src/day10.rs:62-78 | ground, start and filler tiles never continue a walk |
| Day10.NextPipeOpenings | src/day10.rs:62-78 | the transition is Some(e) iff the walk enters through an open side and e is the other open side |
| Day10.NextPipeReversible | src/day10.rs:62-78 | every transition can be walked backwards: entering opposite to the exit leaves opposite to the entry |
| Day10.BlockShape | src/day10.rs:108-162 | a pipe's block is its centre plus an arm towards each open side and nothing else; S fills its block, ground only the centre |
| Day10.DrawBlock | src/day10.rs:112-158 | one match arm draws exactly the tile's block and leaves every cell outside it unchanged |
| Day10.DrawRow | src/day10.rs:111-159 | after a row of tiles, every block up to that row is drawn and the rest is still empty |
| Day10.ExpandPipes | src/day10.rs:108-162 | the new matrix is three times as tall and wide and equals the block expansion of the input |
| Day10.ExpandedBlock | src/day10.rs:108-162 | each cell of block (br, bc) is taken from tile (br, bc) alone |
| Day10.ExpandedGroundCount | src/day10.rs:143-145 | expansion keeps the number of ground cells |
| Day10.FindInRow | src/day10.rs:84 | the first start tile of a row at or after a column, or none there |
| Day10.FindStart | src/day10.rs:84 | the first start tile in row-major order, or none in the grid |
| Day10.FirstExit | src/day10.rs:87-97 | the first direction of the fixed order through which the walk can leave the start tile |
| Day10.ChooseExit | src/day10.rs:87-97 | the loop that breaks at the first open direction picks the same walker as the specification |
| Day10.Step | src/day10.rs:101-102 | a step follows the pipe's transition and moves one cell in the new direction, staying in the grid |
| Day10.WalkLoop | src/day10.rs:99-103 | Done(n) iff the walk first returns to the start tile after n steps; the collected tiles are the start plus every tile visited |
| Day10.Puzzle1 | src/day10.rs:82-106 | panics without a start tile, gives 0 when no direction is open, and otherwise (n+1)/2 for the n steps of the closed loop |
| Day10.ClearOffLoop | src/day10.rs:191-195 | every cell outside the loop becomes ground and the loop's cells are kept |
| Day10.MarkOuter | src/day10.rs:199-202 | exactly the flood-filled cells become empty |
| Day10.CountGround | src/day10.rs:204 | the count is the number of ground cells |
| Day10.EnclosedWithoutFill | src/day10.rs:191-204 | without a flood fill the count would be the off-loop and ground tiles of the original grid |
| Day10.Enclose | src/day10.rs:191-204 | clearing, expanding, marking and counting compute the enclosed-ground specification |
| Day10.Puzzle2 | src/day10.rs:166-206 | the answer is the ground left after clearing everything off the walked loop, expanding and removing the flood fill |
| Day11.ParseGalaxies | src/day11.rs:4-15 | a position is returned iff it holds '#'; the list is in strict row-major order |
| Day11.Spread | src/day11.rs:18-27 | on a list sorted by the coordinate, each galaxy moves by `count` per empty line between line 0 and it |
| Day11.Expand | src/day11.rs:17-38 | the result is a permutation of the expansion of every input galaxy |
| Day11.ExpandZero | src/day11.rs:17-38 | with count 0 no galaxy moves |
| Day11.ShiftMonotone | src/day11.rs:21-27 | for count >= 0 the expansion keeps coordinates strictly ordered |
| Day11.ShiftDifference | src/day11.rs:21-27 | between an occupied line and a later line the gap grows by count per empty line between them |
| Day11.ConsecutiveGap | src/day11.rs:22-24 | consecutive occupied lines b < c end up (c-b) + (c-b-1)*count apart |
| Day11.Dist | src/day11.rs:50 | the Manhattan distance is zero exactly for equal positions |
| Day11.DistToAllPerm | src/day11.rs:49-51 | the distances from one galaxy to a list do not depend on its order |
| Day11.PairSumRemove | src/day11.rs:47-52 | removing any galaxy removes exactly the pairs it belongs to |
| Day11.PairSumPerm | src/day11.rs:47-52 | the all-pairs sum does not depend on the order of the galaxies |
| Day11.SumPairs | src/day11.rs:47-52 | the nested loops compute the sum over all pairs i < j |
| Day11.Puzzle | src/day11.rs:44-54 | the answer is the all-pairs distance sum of the expanded galaxies |
| Day12.ParseSpring | src/day12.rs:20-25 | '.', '#', '?' map to the three spring states and back; any other character is None |
| Day12.ParseSprings | src/day12.rs:18-26 | the row parses iff every character is a spring, and it reads back as the line |
| Day12.MinLenCons | src/day12.rs:60 | dropping a closed group lowers `minlen` by that group plus one, so the recursive `minlen` stays exact |
| Day12.CompletionsExactlyOnce | src/day12.rs:37-71 | the reference enumeration holds each filling that fits the known springs exactly once |
| Day12.RunsFirst | src/day12.rs:48-49 | a run in progress is the first run and at least as long, so a run over the next group, or with none left, admits nothing |
| Day12.RunsMinLen | src/day12.rs:50 | a filling's runs need at most its length of room, so the `minlen` prune discards nothing |
| Day12.WaysStep | src/day12.rs:56-68 | the fillings split on the first spring as the two recursive branches do |
| Day12.CountFIsWays | src/day12.rs:37-71 | for positive groups, the count equals the number of fillings whose damaged runs are the groups |
| Day12.Memo.Count | src/day12.rs:37-71 | the cached recursion returns the uncached count and every cache entry stays equal to the uncached count |
| Day12.CountLine | src/day12.rs:111-112 | a fresh cache with `minlen = sum + len - 1` gives the count for the line |
| Day12.Unfold | src/day12.rs:73-95 | five copies of the springs joined by '?' (length 5n+4) and five copies of the groups (length 5m) |
| Day12.UnfoldMinLen | src/day12.rs:73-95 | the unfolded `minlen` is five times the folded one plus four |
| Day12.UnfoldPositive | src/day12.rs:86-93 | unfolding keeps every group positive |
| Day12.TotalIsWays | src/day12.rs:109-115 | the summed counts are the summed numbers of fillings |
| Day12.Puzzle | src/day12.rs:101-116 | the answer is the sum of the line counts, after unfolding when asked |
| Day12.SumLines | src/day12.rs:110-114 | the sum over the lines of each line's count, computed with a fresh cache per line |
| Day12.ExampleFirstLine | src/day12.rs:97 | `???.### 1,1,3` has exactly one arrangement |
| Day13.ParseCell | src/day13.rs:11-15 | '.' is ash and '#' rock; any other character is None |
| Day13.ParseRow | src/day13.rs:11-15 | a line parses iff it holds only '.' and '#', cell by cell |
| Day13.ParsePattern | src/day13.rs:10-17 | a block parses iff its lines have one length and valid characters; the matrix holds the rocks |
| Day13.RowDiff | src/day13.rs:63-65 | the difference count is zero iff the two rows agree, and at most the width |
| Day13.TotalDiffMonotone | src/day13.rs:25-35 | differences summed over more mirrored pairs never decrease, so a break on a differing pair is final |
| Day13.PerfectMirror | src/day13.rs:25-35 | no differences iff every mirrored pair of rows is equal |
| Day13.Found | src/day13.rs:23-38 | the first line from a start row on that the loops accept, None exactly when they accept none |
| Day13.FoundFrom | src/day13.rs:23-38 | any line that is accepted with no accepted line before it is the one Found gives, and so is None when none is accepted |
| Day13.FindMirror | src/day13.rs:23-38 | returns the smallest accepted line with a perfect reflection, None when there is none (also for fewer than two rows); this is Found with no differences |
| Day13.FindMirrorSmudged | src/day13.rs:53-81 | returns the smallest accepted line whose mirrored pairs differ in exactly one cell in all; this is Found with one difference |
| Day13.SmudgedAt | src/day13.rs:55-79 | the scan of one line returns it exactly when the loops accept it with one differing cell in all its mirrored row pairs |
| Day13.TwoRowsMissed | src/day13.rs:24-35 | two equal rows reflect across the middle, yet the loops never reach the exit test |
| Day13.AcceptsUnlessTwoRows | src/day13.rs:25-31 | for any other number of rows the exit test is always reached |
| Day13.Reflection | src/day13.rs:23-81 | the corrected search: the smallest reflecting line with the given number of differences, None when there is none |
| Day13.FindMirrorAgrees | src/day13.rs:23-81 | on patterns without two rows, the line the loops return (Found) is the corrected search's answer |
| Grid.RotateCW | src/day13.rs:47 | the rotation has the columns as rows, each read bottom-up |
| Day13.Score | src/day13.rs:47 | a pattern scores 0 exactly when the loops find no line in it or in its rotation |
| Day13.CorrectedScore | src/day13.rs:47 | with the corrected search, a pattern scores 0 exactly when it has no line of reflection either way |
| Day13.ScoreAgrees | src/day13.rs:47 | a pattern with neither two rows nor two columns gets the same score from the loops and from the corrected search |
| Day13.Total | src/day13.rs:44-50 | the sum of the patterns' scores is 0 exactly when every pattern scores 0 |
| Day13.CorrectedTotal | src/day13.rs:44-50 | the corrected sum is 0 exactly when every pattern's corrected score is 0 |
| Day13.TotalAgrees | src/day13.rs:44-50 | without two-row or two-column patterns, the answer is the corrected sum |
| Day13.TwoRowsTotal | src/day13.rs:44-50 | the two-row pattern `#` / `#` scores 0 in the answer, where the corrected sum gives 100 |
| Day13.Search | src/day13.rs:47 | the search the puzzle chooses (`find_mirror` or `find_mirror_smudged`) returns Found for its number of differences |
| Day13.Puzzle | src/day13.rs:42-94 | the loop's total is the sum of the code's scores, 100 times the horizontal line plus the vertical line, 0 for none; without two-row or two-column patterns it is the corrected sum |
| Day14.ParseRock | src/day14.rs:15-20 | exactly 'O', '#' and '.' parse, to round, cube and empty |
| Day14.RolledInvariant | src/day14.rs:44-61 | the rolled prefix is settled; the free row, when set, lies inside it, starts a run of empty cells to its end and sits just below a non-empty cell; when unset the last cell is not empty |
| Day14.TiltSettled | src/day14.rs:42-65 | after rolling, no empty cell lies directly north of a round rock |
| Day14.TiltCubes | src/day14.rs:42-65 | rolling keeps every cube rock in its cell and puts none anywhere else |
| Day14.TiltCount | src/day14.rs:47-52 | rolling keeps the number of round rocks in the column: each move empties one cell and fills another |
| Day14.SettledFixed | src/day14.rs:42-65 | a settled column does not change when rolled |
| Day14.TiltIdempotent | src/day14.rs:42-65 | rolling a column twice is rolling it once |
| Day14.TiltNorthColumns | src/day14.rs:42-65 | each column of the rolled platform is the rolled column: same cubes, same round-rock count, settled |
| Day14.TiltNorthIdempotent | src/day14.rs:42-65 | `roll` is idempotent on the whole platform |
| Day14.RollColumn | src/day14.rs:44-63 | the free-row loop leaves the column rolled north and every other column unchanged |
| Day14.Roll | src/day14.rs:42-65 | the matrix becomes the platform with every column rolled north |
| Day14.Rotate | src/day14.rs:82 | the rotated matrix has the dimensions swapped and holds the clockwise rotation |
| Day14.RotateFour | src/day14.rs:80-89 | four quarter turns restore the platform |
| Day14.CycleCubes | src/day14.rs:80-89 | a spin cycle keeps the dimensions and moves no cube rock |
| Day14.Cycle | src/day14.rs:80-89 | the matrix after a cycle is the spin-cycled platform |
| Day14.CycleNShape | src/day14.rs:80-89 | any number of cycles keeps the platform's dimensions |
| Iteration.IteratePeriodic | src/day14.rs:108-113 | once two states repeat, every later state repeats with that period |
| Iteration.IterateSkip | src/day14.rs:108-113 | the state after the target number of steps is the one `(target - end) % (end - start)` steps past `end` |
| Day14.FindLoop | src/day14.rs:91-102 | a found (start, end) has 1 <= start < end, equal platforms after start and end cycles, none repeating before end, and the matrix left after end cycles; giving up means no repeat within the budget |
| Day14.DistinctStates | src/day14.rs:92-99 | the platforms recorded in `seen` are pairwise distinct |
| Day14.Load | src/day14.rs:72-76 | the load is zero exactly when there is no round rock |
| Day14.NorthLoad | src/day14.rs:72-76 | summing rows - y over round rocks cell by cell gives the row-wise load |
| Day14.Puzzle1 | src/day14.rs:69-78 | the answer is the load of the platform rolled north |
| Day14.Puzzle2 | src/day14.rs:106-120 | a finished answer is the load after 1000000000 cycles, and the first repeat closes by then; the `1000000000 - end` panic means the first repeat closes after it; running out of fuel means no repeat within the budget |
| Day14.FirstRepeatUnique | src/day14.rs:91-102 | the first repeat `find_loop` returns is unique, so finishing and panicking exclude each other |
| Day15.HashIsPolyMod | src/day15.rs:4-6 | wrapping at every step gives the unwrapped fold `(a + v) * 17` reduced mod 256 once at the end, so the hash is below 256 and the empty input hashes to 0 |
| Day15.Hash | src/day15.rs:4-6 | the `u8` left fold of add-then-multiply-by-17; HashIsPolyMod states its value |
| Day15.HashAppend | src/day15.rs:4-6 | the hash of a concatenation continues the left fold from the hash of the first part |
| Day15.ExampleHash | src/day15.rs:4-6 | "HASH" hashes to 52 |
| Day15.Puzzle1 | src/day15.rs:10-16 | there is an answer exactly when the input is non-empty (`split_last().unwrap()`) |
| Day15.Puzzle1Steps | src/day15.rs:10-16 | steps joined by commas plus one final byte give the sum of the steps' hashes |
| Day15.ParseU8 | src/day15.rs:31 | a parsed focal length is below 256 |
| Day15.ParseDecimal | src/day15.rs:31 | every value below 256 parses back from its decimal digits |
| Day15.SplitOnceAt | src/day15.rs:29 | `split_once` splits at the first separator |
| Day15.ParseInstr | src/day15.rs:24-34 | a parsed step carries the hash of its label; a Set has a `u8` focal length and a label without '=' |
| Day15.ParseRender | src/day15.rs:24-34 | parsing a written Rem or Set step gives the step back |
| Day15.Without | src/day15.rs:63-65 | no lens with the label is left, and a box without the label is unchanged |
| Day15.WithoutKeeps | src/day15.rs:63-65 | every lens with another label is kept, as often as it occurred |
| Day15.WithoutOrder | src/day15.rs:63-65 | the kept lenses come from the box in their original order |
| Day15.Replace | src/day15.rs:66-73 | every lens keeps its position and label; those with the label get the new focal length |
| Day15.Upsert | src/day15.rs:66-77 | a present label is replaced in place; an absent one is appended at the end |
| Day15.Apply | src/day15.rs:61-79 | a step leaves every box except the one of its label's hash unchanged |
| Day15.ApplyValid | src/day15.rs:61-79 | every step keeps each lens in the box of its label's hash and at most one lens per label per box |
| Day15.ApplyAllValid | src/day15.rs:60-79 | from 256 empty boxes, any run of parsed steps keeps the table valid |
| Day15.RemoveLens | src/day15.rs:63-65 | the `retain` leaves box `hash` filtered and the other boxes unchanged |
| Day15.SetLens | src/day15.rs:66-77 | the `iter_mut` loop with its `found` flag and the `push` leave the box upserted and the other boxes unchanged |
| Day15.CalcPower | src/day15.rs:45-53 | the nested accumulator computes the sum of (box + 1)(slot + 1)(focal length) |
| Day15.BoxPowerUpdate | src/day15.rs:45-53 | changing one focal length changes the power by its slot weight times the change |
| Day15.LeadSpace | src/day15.rs:59 | the length of the UTF-8 encoded White_Space character the bytes start with (1, 2 or 3 bytes), 0 when they start with none |
| Day15.TrailSpace | src/day15.rs:59 | the length of the UTF-8 encoded White_Space character the bytes end with, 0 when they end with none |
| Day15.LeadRun | src/day15.rs:59 | the leading run of whitespace characters, after which no whitespace character starts |
| Day15.LeadRunStep | src/day15.rs:59 | one more leading whitespace character extends the run |
| Day15.TrailRun | src/day15.rs:59 | the trailing run of whitespace characters, before which no whitespace character ends |
| Day15.TrailRunStep | src/day15.rs:59 | one more trailing whitespace character extends the run |
| Day15.TrailSpaceSuffix | src/day15.rs:59 | the whitespace character at the end of a suffix is the one at the end of the whole |
| Day15.TrimStart | src/day15.rs:59 | only a run of leading Unicode White_Space characters is removed, and the rest starts with none |
| Day15.TrimEnd | src/day15.rs:59 | only a run of trailing Unicode White_Space characters is removed, and the rest ends with none |
| Day15.TrimNoBreakSpace | src/day15.rs:59 | a no-break space (U+00A0) and a newline after the last step are both trimmed |
| Day15.ParseAll | src/day15.rs:59 | the steps parse one for one, or some step does not parse |
| Day15.Puzzle2 | src/day15.rs:57-82 | with every step parsed, the answer is the focusing power after running them on 256 empty boxes; otherwise none |
| Day16.ParseTile | src/day16.rs:18-25 | exactly '.', '/', '\\', '\|' and '-' are tiles |
| Day16.MirrorsReversible | src/day16.rs:40-48 | each mirror turn is its own inverse, and a reversed beam retraces its path through a mirror |
| Day16.Bounce | src/day16.rs:38-62 | a tile sends a beam on in one direction, or in two exactly when a splitter is met flat-on; an empty tile keeps the direction |
| Day16.SuccRays | src/day16.rs:38-63 | the successor states are the one moved ray, or the two rays a splitter pushes, each dropped when it leaves the grid |
| Day16.LeastUnique | src/day16.rs:30-65 | the set of states a beam reaches (the least closed set holding the start) is unique |
| Day16.TraceStep | src/day16.rs:35-63 | marking a pending state traced and adding its successors keeps the tracing invariant: traced states' successors are traced or pending, and all lie in every closed set holding the start |
| Day16.TraceSeen | src/day16.rs:35-37 | a ray reaching an already traced state may stop without losing any reachable state |
| Day16.TraceRaySplit | src/day16.rs:50-59 | a splitter met flat-on pushes its two rays and ends the current one, keeping the tracing invariant |
| Day16.MarkShrinks | src/day16.rs:35-37 | inserting a new (cell, direction) pair shrinks the untraced part of the finite state space, which bounds the loops |
| Day16.StepRay | src/day16.rs:34-63 | one step keeps the tracing invariant, and either marks a new state or stops the ray with nothing changed |
| Day16.FollowRay | src/day16.rs:34-64 | following a ray keeps the tracing invariant and either traces a new state or leaves the stack as it was |
| Day16.TraceDone | src/day16.rs:33 | once the stack is empty the traced states are exactly the least closed set holding the start |
| Day16.ShootRay | src/day16.rs:30-68 | the traced states are exactly the states the beam reaches, and the answer is the number of distinct cells among them |
| Day16.EnergizedBounds | src/day16.rs:66-67 | a beam from a grid cell energizes that cell, so at least 1 and at most rows x columns cells |
| Day16.Puzzle1 | src/day16.rs:72-76 | the answer is the energized count of the beam entering the top-left corner eastwards; it lies between 1 and rows x columns; an empty grid has no answer |
| Day16.BoundedRow | src/day16.rs:83-89 | after shooting a row's east and west beams the maximum bounds every beam of the rows so far |
| Day16.BoundedColumn | src/day16.rs:90-93 | after shooting a column's south and north beams the maximum bounds every beam of the columns so far |
| Day16.Puzzle2 | src/day16.rs:80-95 | the answer is at least the energized count of every edge beam and equals that of one of them (0 for an empty grid) |
| Day17.ParseCost | src/day17.rs:12 | a char's low byte at or above '0' gives its offset from '0' (the digit for '0'..'9'); a lower byte underflows |
| Day17.Arrive | src/day17.rs:34-37 | a move exists exactly when it stays on the grid, and lands on a grid cell in the direction moved |
| Day17.SuccessorsSound | src/day17.rs:22-37 | every successor comes from a tried direction the rules allow, with the run length and cost of that move |
| Day17.SuccessorsComplete | src/day17.rs:22-37 | every tried direction the rules allow that stays on the grid yields a successor |
| Day17.SuccessorsLoop | src/day17.rs:19-39 | the loop over the four (direction, opposite) pairs pushes exactly the allowed on-grid moves, in order |
| Day17.Successors1 | src/day17.rs:19-39 | `successors1` returns the allowed on-grid moves of the first rule set |
| Day17.Successors2 | src/day17.rs:64-89 | `successors2` returns the allowed on-grid moves of the second rule set |
| Day17.SuccessorMoves | src/day17.rs:34-36 | a successor is one cell away on the grid; its run length is one more when going straight and 1 after a turn; its cost is the digit of the cell entered |
| Day17.NormalRules | src/day17.rs:28-33 | `successors1` never reverses and never yields a fourth consecutive move in one direction |
| Day17.NormalComplete | src/day17.rs:22-37 | `successors1` yields every non-reversing on-grid move that is not a fourth straight one |
| Day17.UltraFromStart | src/day17.rs:74 | `successors2` with run length 0 yields every on-grid direction |
| Day17.UltraRules | src/day17.rs:74-84 | once moving, `successors2` never reverses, turns only after at least 4 straight moves and goes straight only below 10 |
| Day17.UltraComplete | src/day17.rs:74-88 | once moving, `successors2` yields every on-grid move those rules allow |
| Day17.NormalStartSkipsEast | src/day17.rs:28-30 | from the start state (0,0) going west with count 0, every `successors1` move goes south: east is skipped as a reversal |
| Day17.OneRowNoPath | src/day17.rs:28-30 | on the one-row grid "11" the start has no `successors1` successor |
| Day17.FromStartComplete | src/day17.rs:74 | with the start treated as directionless, as `successors2` does, every on-grid direction is offered from the start |
| Day17.FromStartAgrees | src/day17.rs:28-33 | the corrected rules differ from `successors1` only at run length 0 |
| Day17.Heuristic | src/day17.rs:42-44 | the Manhattan distance is 0 exactly at the goal |
| Day17.HeuristicConsistent | src/day17.rs:42-44 | with digits of at least 1, the heuristic drops by at most the cost of any successor step |
| Day18.ParseDir | src/day18.rs:12-18 | exactly "U", "D", "L" and "R" parse, to north, south, west and east |
| Day18.DirLetter | src/day18.rs:12-18 | each direction's letter parses back to it |
| Text.SplitOnce | src/day18.rs:10-11 | `split_once` fails exactly when the separator is absent; otherwise the parts rejoin to the text and the first holds no separator |
| Numbers.ParseUnsigned | src/day18.rs:19-20 | `parse`/`from_str_radix` accept an optional '+' and at least one digit and give a value below the type's bound |
| Day18.ParseColor | src/day18.rs:20 | the colour is the text between its first two characters and its last, read as hexadecimal into a u32; shorter texts panic |
| Day18.ParseLine | src/day18.rs:9-21 | a parsed line has a count that fits a usize and a colour that fits a u32 |
| Seqs.Collect | src/day18.rs:7-24 | collecting per-line parses into one result (as `parse_input` does) succeeds exactly when every line parses, with one result per line, in order |
| Numbers.ToDigitsValue | src/day18.rs:19-20 | the digits rendered for a number read back as that number |
| Day18.ParseRender | src/day18.rs:9-21 | parsing the rendered line "D n (#hex)" gives the instruction back |
| Day18.FixInstr | src/day18.rs:58-70 | `fix_input` succeeds exactly when the low hex digit is 0..3; the count is the colour shifted right by 4 and the colour is kept |
| Day18.FixEncoded | src/day18.rs:60-67 | a colour built as 16 x length + direction code (0 E, 1 S, 2 W, 3 N) decodes to that direction and length |
| Day18.FixInput | src/day18.rs:58-70 | the whole plan is fixed line by line and fails exactly when one line does |
| Day18.Vertices | src/day18.rs:45-53 | the corner list starts at (0, 0) and has one more entry than there are instructions |
| Day18.VerticesStep | src/day18.rs:50-52 | consecutive corners are `count` cells apart in the instruction's direction |
| Day18.CalcArea | src/day18.rs:72-77 | `calc_area` is half the absolute shoelace sum, rounded down, and is never negative |
| Day18.ShoelaceReverse | src/day18.rs:72-77 | walking the corners backwards negates the shoelace sum and leaves the area unchanged |
| Day18.Dig | src/day18.rs:45-54 | the loop returns shoelace area + border / 2 + 1 for the corners and the trench length it accumulates, at least 1 |
| Day18.RectangleLagoon | src/day18.rs:54 | a w x h rectangular trench gives (w + 1) x (h + 1) cells, trench included |
| Day18.Puzzle1 | src/day18.rs:28-56 | the answer is the lagoon size of the parsed plan, and fails exactly when parsing does |
| Day18.Puzzle2 | src/day18.rs:81-95 | the answer is the lagoon size of the plan with each line's colour decoded by `fix_input` |
| Numbers.ParseSignedDigits | src/day19.rs:53 | a signed value printed in decimal parses back to itself when it lies in the target type's range |
| Day19.ParseCat | src/day19.rs:39-47 | exactly the four names "x", "m", "a", "s" are categories, each naming the category it parses to; any other name is the `unreachable!` panic |
| Day19.ParseId | src/day19.rs:24-26 | a name folds into a value below 2^32 |
| Day19.KnownIds | src/day19.rs:104-129 | "in", "A" and "R" are 0x696e, 0x41 and 0x52 |
| Day19.PrintId | src/day19.rs:29-37 | the loop returns the id's non-zero bytes, most significant first |
| Day19.IdRoundTrip | src/day19.rs:24-37 | a name of one to four non-zero bytes prints back from its id |
| Day19.IdInjective | src/day19.rs:24-26 | distinct names of one to four non-zero bytes get distinct ids |
| Day19.ParseLtText | src/day19.rs:49-55 | "c<v:d" parses to the Lt rule with category c, value v and destination id of d |
| Day19.ParseGtText | src/day19.rs:56-61 | "c>v:d" parses to the Gt rule it spells when d holds no '<' |
| Day19.ParseRule | src/day19.rs:62-65 | a text with neither '<' nor '>' is an unconditional rule to the id of the whole text |
| Day19.ParseFieldText | src/day19.rs:86-90 | a field "k=v" sets rating k to v and leaves the others |
| Day19.SetFieldsFrom | src/day19.rs:85-91 | applying the fields of a part from index k on sets exactly those ratings |
| Day19.ParsePartText | src/day19.rs:82-93 | the line "{x=..,m=..,a=..,s=..}" of a part parses back to the part |
| Day19.Next | src/day19.rs:107-126 | the workflow a part goes to after one workflow's rules; NextIsFirstMatch states it |
| Day19.NextIsFirstMatch | src/day19.rs:107-126 | a workflow sends a part to the destination of its first matching rule, and keeps the id when no rule matches |
| Day19.FirstMatch | src/day19.rs:107-126 | the rule loop with `break` returns the first matching rule's destination |
| Day19.Eval | src/day19.rs:104-132 | a finished evaluation is worth the rating sum or 0 |
| Day19.EvalFuel | src/day19.rs:105-132 | more steps never change a finished evaluation |
| Day19.Evaluate | src/day19.rs:104-132 | the workflow loop computes the evaluation from "in", panicking on a missing workflow |
| Day19.TotalAccepted | src/day19.rs:99-135 | a finished total is the sum of each part's evaluation, every one of them finished |
| Day19.TotalFails | src/day19.rs:101-134 | once one part fails the total fails with it |
| Day19.Puzzle1 | src/day19.rs:99-136 | the loop over the parts computes the total |
| Day19.CutAsWritten | src/day19.rs:148-163 | the split as written, each end of both parts clamped at the rule's value; DegenerateSize shows it |
| Day19.Cut | src/day19.rs:148-163 | the split cut at the rule's value, either part possibly empty; CutPartition and CutSize state it |
| Day19.CutAgrees | src/day19.rs:148-163 | when the rule's value lies strictly inside the range, the code's split is the cut at the value |
| Day19.CutPartition | src/day19.rs:148-163 | the cut sends exactly the matching values and keeps exactly the others, widths adding up |
| Day19.DegenerateSplit | src/day19.rs:148-155 | the code sends the single value 999 on when splitting [2000, 4000] at "x<1000", the cut sends nothing |
| Day19.SizeFactor | src/day19.rs:140 | a box's size is one range's width times the others' product |
| Day19.VolumeSize | src/day19.rs:140 | on a box of non-empty ranges the code's volume is the number of combinations |
| Day19.CutSize | src/day19.rs:148-163 | cutting a box at a rule splits its combinations between the two sides exactly |
| Day19.DegenerateSize | src/day19.rs:148-155 | the code's split of a box the rule does not cut counts 4000^3 combinations twice |
| Day19.RuleBoxesNonEmpty | src/day19.rs:148-163 | the code's split never empties a range |
| Day19.TraverseRules | src/day19.rs:138-170 | the recursive method computes the traversal, panicking on a missing workflow |
| Day19.RunRulesFails | src/day19.rs:146-168 | once one rule's traversal fails the workflow's fails with it |
| Day19.Puzzle2 | src/day19.rs:174-178 | the answer is the traversal from "in" of the box of all ratings 1 to 4000 |
| Day19.FullVolume | src/day19.rs:176 | the full box holds 4000^4 combinations |
| Day20Input.ParseSource | src/day20.rs:19-27 | "broadcaster" is the unnamed broadcast module, a '%' or '&' prefix makes a flip-flop or a conjunction, anything else is the unreachable panic; a parse reads back from the text it came from |
| Day20Input.ParseLine | src/day20.rs:17-30 | a line splits at the first " -> " and its destinations at ", "; the parsed declaration re-joins to the line |
| Day20Input.ParseSourceText | src/day20.rs:19-27 | every module name and kind reads back from how it is written |
| Day20Input.ParseLineText | src/day20.rs:17-30 | a declaration whose names contain no spaces or commas reads back from its line |
| Day20Input.NameLeTotalPreorder | src/day20.rs:33 | the order of names is a total preorder, so sorting is well defined |
| Day20Input.SortByName | src/day20.rs:33 | the lines are sorted by name and are a permutation of the parsed lines |
| Day20Input.Undeclared | src/day20.rs:34-40 | every destination is either declared or listed, and only undeclared names are listed |
| Day20Input.Dedup | src/day20.rs:42 | dedup keeps exactly the names it is given and the last one |
| Day20Input.DedupDistinct | src/day20.rs:41-42 | after sorting, dedup leaves every name once |
| Day20Input.ExtraNames | src/day20.rs:34-42 | the appended names are exactly the undeclared destinations, each once |
| Day20Input.Complete | src/day20.rs:43-45 | appending keeps the sorted lines as a prefix |
| Day20Input.CompleteDeclares | src/day20.rs:34-45 | after appending, every destination names some module |
| Day20Input.CompleteAppends | src/day20.rs:43-45 | the appended modules are new, distinct, broadcast modules without destinations |
| Day20Input.Position | src/day20.rs:50 | position finds the first module with the name, or none when no module has it |
| Day20Input.Targets | src/day20.rs:47-53 | the destination set is defined exactly when every destination is declared, and holds only module indices |
| Day20Input.Resolve | src/day20.rs:46-55 | numbering keeps each module's kind and points only at existing modules; more than 64 modules do not fit |
| Day20Input.ParseLines | src/day20.rs:15-32 | one declaration per line, or the panic of any line |
| Day20Input.ResolveComplete | src/day20.rs:46-55 | within 64 modules the lookup `unwrap` never panics and every destination is a module; with at least one module the network is well formed |
| Day20Input.BroadcasterFirst | src/day20.rs:19-20 | the broadcaster, named "", sorts to index 0, where the button's pulse goes |
| Day20Input.ParseInputWellFormed | src/day20.rs:13-56 | when every line parses and the modules fit, parsing yields a network whose destinations are all modules, well formed when there is a line |
| Day20.Senders | src/day20.rs:58-66 | the senders of a module are exactly the earlier modules wired to it |
| Day20.SendersNext | src/day20.rs:60-64 | one more module adds itself to the senders of its destinations only |
| Day20.BuildRefs | src/day20.rs:58-66 | the nested loop fills 64 sets where i is in refs[d] exactly when d is a destination of module i |
| Day20.Run | src/day20.rs:79-110 | the queue runs until empty, within the fuel |
| Day20.PressButton | src/day20.rs:68-113 | the queue loop ends in the state Run describes: counts, flip-flops and conjunction memories, and a watch set holding exactly the senders of the high pulses that reach the watched conjunction |
| Day20.DeliverWatch | src/day20.rs:97-101 | a delivery adds its sender to the watch set exactly when it is a high pulse to the watched conjunction, and adds nothing else |
| Day20.DeliverFromWatch | src/day20.rs:80-109 | delivering a pulse from the k-th destination on adds its sender exactly when it is high and the watched conjunction is among those destinations |
| Day20.Taken | src/day20.rs:79-80 | the pulses the queue loop pops, at most one per unit of fuel, starting with the queue's head |
| Day20.RunWatch | src/day20.rs:79-110 | the watch set after the loop is the old one plus the senders of every popped high pulse to the watched conjunction |
| Day20.WatchedSendersCons | src/day20.rs:79-110 | one more popped pulse adds its sender exactly when it is watched |
| Day20.DeliverCounts | src/day20.rs:81 | each delivery counts exactly one pulse of its level |
| Day20.FlipFlopToggles | src/day20.rs:88-96 | a flip-flop ignores high pulses; a low pulse toggles it alone and it sends its new state |
| Day20.BroadcastForwards | src/day20.rs:83-87 | a broadcast module forwards the pulse unchanged unless it has no destinations |
| Day20.ConjunctionSendsLow | src/day20.rs:97-107 | a conjunction records the sender's level and sends low exactly when it remembers high from all its senders |
| Day20.DeliverConsistent | src/day20.rs:81-108 | a delivery keeps every memory within the module's senders and every queued pulse on a wire |
| Day20.DeliverFromConsistent | src/day20.rs:80-109 | the same for a whole pulse |
| Day20.RunConsistent | src/day20.rs:79-110 | a press's queue loop keeps the invariant |
| Day20.PressKeeps | src/day20.rs:68-113 | one press keeps memories within senders and flip-flop state on flip-flops |
| Day20.PressesConsistent | src/day20.rs:124-128 | after any number of presses the invariant holds |
| Day20.PressesSucc | src/day20.rs:124-128 | n+1 presses are one more press after n |
| Day20.PressesStuck | src/day20.rs:124-128 | once a press runs out of fuel, so does every later count |
| Day20.Puzzle1 | src/day20.rs:118-131 | the loop of 1000 presses returns the product of low and high counts that Answer1 defines; a network without modules is the panic of the first delivery |
| Day20.Least | src/day20.rs:139 | the first element of a set from k on, or none |
| Day20.Search | src/day20.rs:143-152 | a successful search ends with every watched sender seen high |
| Day20.SearchStep | src/day20.rs:143-152 | one press of the search records its watch set and stops exactly when all are seen |
| Day20.SearchCounters | src/day20.rs:143-152 | every recorded press number lies between 1 and the last press |
| Day20.RecordWatch | src/day20.rs:146-148 | the loop over the watch set records the counter for exactly its members |
| Day20.ProductPositive | src/day20.rs:154-157 | the product of recorded press numbers is at least 1 |
| Day20.Answer2Positive | src/day20.rs:134-157 | the answer of puzzle 2 is positive |
| Day20.Puzzle2 | src/day20.rs:134-157 | the counting loop returns the product Answer2 defines; a network without modules is the panic of `input.len() - 1` |
| Day21.ParseCell | src/day21.rs:12-19 | '.' and 'S' are plots, '#' a rock, any other character the unreachable panic |
| Day21.ParseRow | src/day21.rs:12-19 | a row parses exactly when every character is known, and a cell is a rock exactly when it is '#' |
| Day21.ParseRows | src/day21.rs:9-21 | the rows parse exactly when every character is known; each cell is a rock exactly when it is '#' |
| Day21.NonEmpty | src/day21.rs:9 | the empty lines are dropped and every other line kept |
| Day21.LastStart | src/day21.rs:15-18 | the start kept is an 'S', and no 'S' follows it in reading order; none when there is no 'S' |
| Day21.ParseGarden | src/day21.rs:6-25 | parsing succeeds exactly when every character is known, the rows have one length and some 'S' exists; the start is a plot in the grid |
| Day21.Clamp | src/day21.rs:27-32 | the cell lies on the grid |
| Day21.ClampCongruent | src/day21.rs:27-32 | the cell differs from the position by whole tiles, and a position on the grid is its own cell |
| Day21.ClampTile | src/day21.rs:27-32 | moving any number of whole tiles lands on the same cell |
| Day21.Around | src/day21.rs:38-40 | the four directions give at most four positions |
| Day21.AroundDistance | src/day21.rs:38-40 | the four directions reach exactly the positions one step away |
| Day21.Neighbours | src/day21.rs:34-42 | at most four neighbours |
| Day21.NeighboursMembers | src/day21.rs:34-42 | the neighbours are exactly the positions one step away whose cell is not a rock |
| Day21.StepMembers | src/day21.rs:53-58 | a step reaches exactly the open positions next to a reached one |
| Day21.StepFrom | src/day21.rs:53-58 | every position a step reaches is next to one reached before |
| Day21.StepMonotone | src/day21.rs:53-58 | more positions before a step give more after it |
| Day21.Step | src/day21.rs:53-58 | one step: the plots next to a reached plot that are not rock |
| Day21.Reach | src/day21.rs:52-58 | the plots reached after n steps from the start |
| Day21.Puzzle1 | src/day21.rs:48-60 | the step loop counts the positions reached after the given number of steps |
| Day21.ReachWithin | src/day21.rs:48-60 | after n steps every reached position is at most n steps from the start, with the parity of n |
| Day21.OpenReach | src/day21.rs:48-60 | without rocks the reached positions are exactly those at most n steps away with the parity of n |
| Day21.OpenReached | src/day21.rs:48-60 | without rocks every position within n steps with the parity of n is reached |
| Day21.DiamondArea | src/day21.rs:68-74 | 0 for 0, otherwise n(2n - 2) + 1; DiamondAreaValues gives its values |
| Day21.DiamondAreaValues | src/day21.rs:63-74 | the values of the source's test cases: 0, 1, 5, 13, 25, 41 |
| Day21.DiamondGrowth | src/day21.rs:68-74 | each diamond adds a ring of 4n cells to the one before |
| Day21.RingColumnMembers | src/day21.rs:68-74 | a ring column holds exactly the positions in that column at the ring's distance |
| Day21.RingColsMembers | src/day21.rs:68-74 | the first k ring columns hold exactly the ring positions in those columns |
| Day21.RingMembers | src/day21.rs:68-74 | a ring holds exactly the positions at its distance |
| Day21.BallMembers | src/day21.rs:68-74 | a diamond holds exactly the positions within its radius |
| Day21.RingColsCount | src/day21.rs:68-74 | the ring points in the first k columns number 2k-1, and 4r in all |
| Day21.RingCount | src/day21.rs:68-74 | a ring of radius r holds 4r positions |
| Day21.BallCount | src/day21.rs:63-74 | calc_diamond_area(r + 1) is the number of positions within r steps |
| Day21.ReachBound | src/day21.rs:48-74 | after n steps at most calc_diamond_area(n + 1) positions are reached |
| Day03.ScanRow | src/day03.rs:19-44 | one row of the first puzzle: the sum of the row's numbers, each ended by a non-digit or by the row's end, that have a symbol among their neighbours |
| Day03.ScanCell | src/day03.rs:58-77 | a digit extends the number and lists its neighbouring '*' cells not yet listed; any other cell drains the list into the table and resets the number |
| Day03.FlushGears | src/day03.rs:71-75 | when the number is positive and the list non-empty, each listed star gets the number appended and the list is emptied; otherwise nothing changes |
| Day03.PushNew | src/day03.rs:61-68 | the list becomes the old list followed by the new stars that were not yet in it |
| Day03.Drain | src/day03.rs:72-74 | draining appends the number under each listed star, in list order |
| Day03.ScanGears | src/day03.rs:55-84 | one row of the second puzzle: the table after every cell of the row and the drain at the row's end |
| Day03.SumRatios | src/day03.rs:86-91 | the sum of n1*n2 over the table's stars that hold exactly two numbers |
| Day03.FlushValid | src/day03.rs:71-76 | a drain keeps the list duplicate-free and made of '*' cells, and keeps one table entry per '*' cell |
| Day03.RowScanStep | src/day03.rs:57-78 | every cell of a row keeps the list duplicate-free and made of '*' cells, and the table keyed by distinct '*' cells |
| Day03.AddStarsValid | src/day03.rs:61-68 | pushing the stars around a digit keeps the list duplicate-free and made of '*' cells |
| Day03.NoSymbolsRow | src/day03.rs:21-44 | with no symbol anywhere, no number of a row is counted |
| Day03.Upsert | src/day03.rs:73 | entry-or-insert leaves the old keys plus the star |
| Day03.RecordAllDistinct | src/day03.rs:72-74 | draining keeps one entry per star, and the keys become the old keys plus the drained stars |
| Day05.MapChunk | src/day05.rs:99-105 | one source chunk: every part of its image where the base is defined is written back over the chunk as the base's value plus the offset, and the map stays valid |
| Day05.CopyPart | src/day05.rs:101-104 | one part of the base inside the chunk's image is written back at its source, shifted by the offset, and the map afterwards agrees with the inner loop state one part further |
| Day05.StagePointSnoc | src/day05.rs:96-110 | one more triple: a point of its source range gets the bare offset where the base is undefined at it, base(x+offset)+offset where the base is defined at its image, and otherwise keeps its earlier value |
| Day05.TripleValue | src/day05.rs:99-109 | after the chunk inserts and then the gap inserts of one triple, a point holds the value the stage rule gives, given whether it lies in a gap or in a chunk of the source range |
| Day05.MapChunks | src/day05.rs:99-105 | after the chunk loop of one triple, each point in a chunk whose shifted image the base defines holds that value plus the offset, and every other point keeps its value |
| Day05.FillGaps | src/day05.rs:106-109 | after the gap loop of one triple, each point in a gap of the base inside the source range holds the offset, and every other point keeps its value |
| Day05.GapStep | src/day05.rs:106-109 | writing the offset over one more gap extends the gap loop's state by exactly that gap |
| Day05.GapsIff | src/day05.rs:106 | the gaps of the base within the source range are exactly the points of the range where the base is undefined |
| Day05.ChunksIff | src/day05.rs:5-17 | the clamped overlapping chunks cover exactly the points of the range where the base is defined |
| Day05.InnerHit | src/day05.rs:100-103 | a point whose image lies in a clamped destination chunk lies in the source chunk, and the base holds that chunk's value at the image |
| Day07.Counts | src/day07.rs:58-68 | entry v of the 15 counters is the number of cards of value v in the hand, 0 for the joker when jacks are jokers |
| Day07.HandStep | src/day07.rs:61-77 | one more card: a joker bumps the joker count only, any other card bumps its counter, and the loop's rank update equals the classification of the new counters |
| Day07.TableRaises | src/day07.rs:78-92 | the joker table leaves the rank unchanged with no jokers and strictly raises it with one or more, for every reachable count of pairs, triples and quads |
| Day07.SeqLeTotal | src/day07.rs:104 | the lexicographic order on the cards is total and antisymmetric |
| Day07.SeqLeTrans | src/day07.rs:104 | the lexicographic order on the cards is transitive |
| Day07.Downgraded | src/day07.rs:125 | every card of the hand is downgraded, jacks to 1, in place |
| Day07.SortedRows | src/day07.rs:104 | the rows are sorted by (rank, cards, bet) and are a permutation of the ranked input |
| Day07.RankedRowsSnoc | src/day07.rs:100-103 | each ranked row is the rank, the cards (downgraded when jacks are jokers) and the bet of the input row at the same position |
| Day08.Partition | src/day08.rs:65-72 | retain keeps, in order, the walkers not on a node ending in Z, and pushes the step count once for each walker that left |
| Day08.KeepWalking | src/day08.rs:65-72 | the walkers retain keeps are still on their walks and none of them has arrived yet |
| Day08.DropRecorded | src/day08.rs:65-72 | each walker that leaves records the current count, which is its start's first arrival time |
| Day08.RetainSplits | src/day08.rs:65-72 | every walker either stays or leaves: the kept and the departed start indices together are the walkers before retain |
| Day08.StepArrives | src/day08.rs:64-72 | a step onto a node ending in Z, after none before, is the walk's first arrival; any other step leaves the walk without an arrival |
| Day09.DeriveSnoc | src/day09.rs:13-15 | appending a value to a row appends its difference with the old last value to the differences |
| Day09.DeriveCons | src/day09.rs:13-15 | prepending a value to a row prepends the old first value minus it to the differences |
| Day09.DeriveReverse | src/day09.rs:13-15 | the differences of the reversed row are the reversed differences, negated |
| Day09.ConstantRow | src/day09.rs:17-23 | a constant row predicts that constant in both directions |
| Day10.EncloseFrom | src/day10.rs:170-205 | from a found start tile: with no open direction only the start tile is kept; otherwise the walk's outcome, and on a closed loop the enclosed-ground count for the start plus every tile visited |
| Day10.AwaySnoc | src/day10.rs:185-189 | one more step from a tile other than the start keeps the walk away from the start and adds that tile to the loop's tiles |
| Day10.ToMatrix | src/day10.rs:33-36 | the matrix holds the parsed rows, with their height and width |
| Day10.Cleared | src/day10.rs:191-195 | a cell keeps its tile exactly when it is on the loop, and becomes ground otherwise; the shape is unchanged |
| Day10.Marked | src/day10.rs:199-202 | a cell becomes empty exactly when it is in the flood fill, and keeps its tile otherwise |
| Day10.DrawnAll | src/day10.rs:108-162 | once every row of tiles is drawn, the matrix is the block expansion of the input |
| Day10.ExpandRowGround | src/day10.rs:108-162 | the middle row of a row's blocks has one ground cell per ground tile; the outer rows have none |
| Day10.ExpandedLastGround | src/day10.rs:108-162 | the blocks of one more row of tiles add exactly that row's ground tiles to the ground count |
| Day11.ParseRow | src/day11.rs:8-12 | one line adds exactly its '#' positions, with the line's index as y, after the earlier galaxies and keeping row-major order |
| Day11.SpreadGap | src/day11.rs:22-24 | a new coordinate c after prev raises the increment by (c - prev - 1) * count, which keeps it count times the empty lines below c |
| Day11.ExpandSpec | src/day11.rs:17-38 | the two sorted passes together move every galaxy by count per empty column to its left and per empty row above, up to order |
| Day11.OccupiedPerm | src/day11.rs:20-30 | sorting does not change which lines are occupied |
| Day11.DistSymmetric | src/day11.rs:50 | the distance between two galaxies is symmetric |
| Day11.DistToAllRemove | src/day11.rs:49-51 | the distances from a galaxy to a list are the distance to any one member plus the distances to the rest |
| Day12.SpringCharRoundTrip | src/day12.rs:20-25 | every spring state prints as a glyph that parses back to it |
| Day12.TooLong | src/day12.rs:48-49 | a run in progress longer than the next group, or with no group left, admits no arrangement |
| Day12.TooShort | src/day12.rs:50 | fewer springs left than `minlen` minus the run in progress admit no arrangement |
| Day12.CountFStep | src/day12.rs:56-68 | past the guards, the count is the operational branch (close or skip) plus the damaged branch (extend the run), each taken only where the first spring allows it |
| Day12.OperationalStep | src/day12.rs:57-65 | fillings starting operational: with no run in progress they continue the same groups, a run equal to the next group closes it, anything else admits none |
| Day12.DamagedStep | src/day12.rs:66-68 | fillings starting damaged extend the run in progress by one |
| Day12.WaysEnd | src/day12.rs:44-47 | with no springs left, one arrangement exactly when the run in progress is the single remaining group or nothing remains, none otherwise |
| Day12.UnfoldAll | src/day12.rs:103-108 | every line is replaced by its unfolding, in order |
| Day12.Memo.constructor | src/day12.rs:112 | each line starts with an empty cache |
| Day13.RowDiffZero | src/day13.rs:32 | two rows of the pattern differ in no column exactly when they are equal |
| Day14.RolledSnoc | src/day14.rs:46-61 | one more cell: a round rock moves to the free row when there is one (which then moves down one) and otherwise stays, a cube clears the free row, and an empty cell becomes the free row when none is set |
| Day14.RollCell | src/day14.rs:46-61 | one cell of the column loop writes the rolled prefix of the column into the matrix and changes no cell of another column or further down |
| Day14.TiltNorthCubes | src/day14.rs:42-65 | rolling the whole platform keeps every cube rock where it was |
| Day14.RotateTwice | src/day14.rs:82-84 | two quarter turns map each cell to the diagonally opposite one |
| Day14.Advance | src/day14.rs:93-95 | one more cycle of the matrix gives the platform after n+1 cycles, also returned as the key looked up in `seen` |
| Day14.SeenAdd | src/day14.rs:97-99 | recording an unseen platform under its cycle number keeps `seen` mapping each recorded platform to the cycle that produced it |
| Day14.SeenHit | src/day14.rs:95-96 | a platform found in `seen` repeats an earlier cycle's platform, and no two earlier cycles gave equal platforms |
| Day14.SkipPeriods | src/day14.rs:108-113 | once the platform after start cycles recurs after end cycles, rem = (1000000000 - end) % (end - start) more cycles reach the platform after 1000000000 cycles |
| Day14.SpinMore | src/day14.rs:111-113 | the rem extra cycles leave the platform cycled rem more times |
| Day14.LoadStep | src/day14.rs:114-118 | row y adds its round rocks times its weight, the number of rows minus y |
| Day14.RowLoad | src/day14.rs:114-118 | one row contributes its round rocks times its weight |
| Day15.BoxTotal | src/day15.rs:48-50 | one box's inner loop adds the box's weight times its power, the sum of (slot + 1) times focal length |
| Day15.ApplyStep | src/day15.rs:62-78 | one step on the array of boxes leaves it as the step applied to the old boxes |
| Day15.RunSteps | src/day15.rs:60-80 | running all steps from 256 empty boxes and then the power loop gives the power of the steps applied in order |
| Day15.ApplyAllSnoc | src/day15.rs:61-79 | the boxes after k+1 steps are step k applied to the boxes after k steps |
| Day15.NewBoxes | src/day15.rs:60 | the array starts as 256 empty boxes |
| Day15.SumHashes | src/day15.rs:14 | each part adds at most 255 to the first answer |
| Day15.DecimalValue | src/day15.rs:31 | the decimal digits of a number read back as that number |
| Day15.SplitOnce | src/day15.rs:29 | the split exists exactly when the separator occurs; the parts rejoin around it and the first part has no separator |
| Day15.WithoutSub | src/day15.rs:64 | every lens `retain` keeps was in the box |
| Day16.TraceStart | src/day16.rs:31-32 | the empty `seent` with the one starting ray satisfies the tracing invariant |
| Day16.TracePop | src/day16.rs:33 | popping the last ray keeps its state pending, so the invariant holds for the inner loop |
| Day16.TraceRayOn | src/day16.rs:35-63 | a new state on a tile that sends the beam one way is marked traced and the ray moves on, keeping the invariant |
| Day16.TraceRaySeen | src/day16.rs:35-37 | a ray on an already traced state can be dropped, keeping the invariant |
| Day16.TraceRayGone | src/day16.rs:34 | a ray that has left the grid can be dropped, keeping the invariant |
| Day16.Succ | src/day16.rs:38-63 | the successors of a state on the grid are on the grid |
| Day16.CellsCard | src/day16.rs:66-67 | the grid has rows x columns cells, the bound on the energized count |
| Day16.BoundedAll | src/day16.rs:82-94 | once every row and column is shot, the maximum bounds every edge beam's energized count |
| Day18.VerticesSnoc | src/day18.rs:48-52 | one more instruction appends the corner `count` cells further in its direction from the last corner |
| Day18.BorderPrefix | src/day18.rs:49 | each instruction adds its count to the border |
| Day18.ShoelaceSnoc | src/day18.rs:72-75 | one more corner adds the cross product of the last corner and the new one |
| Day18.ShoelaceBothEnds | src/day18.rs:72-75 | the windowed sum can be grown from either end, with the same value |
| Day18.RenderSplits | src/day18.rs:10-11 | a rendered line splits at its first space into the letter and the rest, and the rest at its first space into the count and the colour |
| Day18.RectangleVertices | src/day18.rs:45-53 | the w x h rectangle plan right, down, left, up visits the four corners and returns to (0, 0) |
| Day18.RectangleShoelace | src/day18.rs:72-75 | the rectangle's windowed cross sum is -2wh, so `calc_area` gives wh |
| Day18.RectangleBorder | src/day18.rs:48-49 | the rectangle's border is 2w + 2h |
| Day19.RuleInputs | src/day19.rs:147-166 | one rule's match arm: the box sent to the rule's destination and the box kept for the next rule are the code's cut of the current box |
| Day19.RunRulesStep | src/day19.rs:146-168 | the rule loop after k+1 rules adds the destination's traversal of the sent box to the total after k rules and keeps the rest, or stops at the first failure |
| Day19.ParseIdExact | src/day19.rs:24-26 | a name of at most four bytes folds to a value below 256^length, each byte shifted in after the earlier ones |
| Day19.ParseCondText | src/day19.rs:50-61 | "c<v:d" and "c>v:d" parse to the comparison on category c with value v sending to d |
| Day19.SetField | src/day19.rs:86-89 | a field sets one rating and leaves the other three unchanged |
| Day19.SetFieldsStep | src/day19.rs:86-90 | the field "k=v" sets rating k to v before the remaining fields are applied |
| Day19.ParseRules | src/day19.rs:77 | a workflow's rule list parses one rule per text |
| Day20.Refs | src/day20.rs:58-66 | the table of senders has one set for each of the 64 module slots |
| Day20.Deliver | src/day20.rs:81-108 | delivering one pulse to one module keeps the state shaped for the input: 64 memories and pulses addressed to known modules |
| Day20.DeliverFrom | src/day20.rs:80-109 | delivering a pulse to each of its destinations from the k-th on keeps the state shaped for the input |
| Day20.DeliverOne | src/day20.rs:81-108 | the per-destination body updates the conjunction array in place and returns the counts, watch set and queue that Deliver defines |
| Day20.NoMemory | src/day20.rs:123 | the starting conjunction memory holds 64 empty sets |
| Day20.NewMemory | src/day20.rs:123 | a fresh conjunction array starts as NoMemory |
| Day20.NoneSeen | src/day20.rs:141 | no press has yet been recorded for any of the 64 modules |
| Day20.Press | src/day20.rs:124-128 | a press that finishes within the fuel keeps one memory per module slot |
| Day20.Presses | src/day20.rs:124-128 | any number of finished presses keeps one memory per module slot |
| Day20.PressMany | src/day20.rs:124-128 | the press loop returns the state after n presses that Presses defines |
| Day20.CountPress | src/day20.rs:125-127 | one iteration of the press loop finishes exactly when press n+1 does, leaving the state after n+1 presses |
| Day20.Record | src/day20.rs:146-148 | recording the watch set keeps one entry per module slot |
| Day20.SearchPress | src/day20.rs:142-152 | one iteration of the search either finishes with the product of recorded presses Search defines or leaves fewer presses and the same remaining search |
| Day20Input.LexLeTotalPreorder | src/day20.rs:41 | byte-wise comparison of names is a total preorder, so sorting the extra names is well defined |
| Day20Input.Missing | src/day20.rs:34-40 | every listed name is undeclared and every destination is declared or listed |
| Day20Input.ExtraNew | src/day20.rs:34-44 | no appended name is already the name of a declared module |
| Day20Input.ResolveFrom | src/day20.rs:46-54 | the first n modules resolve exactly when all their destinations are declared, keeping each kind and pointing only at modules |
| Day21.ParityStep | src/day21.rs:53-58 | a step from a distance of n-1 with the parity of n-1 lands at most n away with the parity of n |
| Day21.NeighbourDistance | src/day21.rs:38-40 | a move to a neighbouring position changes the distance from any point by exactly one |
| Day21.Closer | src/day21.rs:53-58 | every position within n steps with the parity of n has a neighbour within n-1 steps with the parity of n-1 |
| Day21.OpenNoRock | src/day21.rs:41 | on a garden without rocks no position, however far, is blocked by the wrapped lookup |
| Day21.RingColumn | src/day21.rs:68-74 | a column of a ring holds one position at its tips and two elsewhere, all in that column |
| Day21.BallRingDisjoint | src/day21.rs:68-74 | the diamond of radius r-1 and the ring of radius r share no position |
| Day22.ParseBlock | src/day22.rs:14-22 | a parsed brick has each start coordinate at most its end coordinate, as the assertion demands |
| Day22.SignedDigitsNoSeparator | src/day22.rs:14-18 | a written coordinate contains neither ',' nor '~', so the splits find the intended separators |
| Day22.ParsePointText | src/day22.rs:15-19 | a point within i64 written as "x,y,z" parses back to itself |
| Day22.ParseBlockText | src/day22.rs:14-22 | an ordered brick within i64 written as "x1,y1,z1~x2,y2,z2" parses back to itself |
| Day22.ParseBlocks | src/day22.rs:8-26 | every parsed brick is ordered; a malformed line makes the whole parse fail |
| Day22.OneDown | src/day22.rs:28-35 | a brick on level 0 cannot go down; otherwise both ends move one level down and nothing else changes |
| Day22.Intersects | src/day22.rs:37-41 | two boxes meet when they overlap on every axis, ends included; IntersectsSymmetric states it is symmetric |
| Day22.IntersectsSymmetric | src/day22.rs:37-41 | two bricks meet regardless of the order they are given in |
| Day22.IntersectsCommonPoint | src/day22.rs:37-41 | two ordered bricks meet exactly when some point lies in both |
| Day22.Drop | src/day22.rs:45-51 | a dropped brick keeps its x, y and height, ends no higher and not below ground, and rests on the ground or on a brick below |
| Day22.Fallen | src/day22.rs:43-54 | dropping every brick keeps their number and keeps them above ground |
| Day22.FallenPrefix | src/day22.rs:43-54 | the first k bricks fall the same whether or not later bricks exist |
| Day22.FallenShape | src/day22.rs:43-54 | a fallen brick keeps its x, y and height and ends between the ground and where it started |
| Day22.FallenSettled | src/day22.rs:43-54 | each fallen brick rests on the ground or on a brick before it |
| Day22.FallenIsSettled | src/day22.rs:43-54 | after falling every brick off the ground rests on an earlier brick |
| Day22.AnyBelow | src/day22.rs:47 | the scan over earlier bricks reports a hit exactly when one of them is in the way |
| Day22.DropAt | src/day22.rs:45-52 | the inner loop computes the drop of the brick onto the bricks before it |
| Day22.FallBlocks | src/day22.rs:43-54 | the array is overwritten in place with the fallen bricks |
| Day22.WouldFallSpec | src/day22.rs:56-66 | some brick off the ground, lowered by one, meets no earlier brick other than the skipped one |
| Day22.WouldFall | src/day22.rs:56-66 | the scan answers true exactly when some brick off the ground meets no earlier brick but the skipped one when lowered |
| Day22.SortAboveGround | src/day22.rs:72 | sorting by bottom keeps every brick above ground |
| Day22.Settle | src/day22.rs:72-74 | after sort, fall and sort the bricks are as many as before and sorted by bottom |
| Day22.Prepare | src/day22.rs:71-74 | the preparation steps return the settled bricks |
| Day22.SafeCount | src/day22.rs:75 | at most k of the first k bricks can be removed safely |
| Day22.Puzzle1 | src/day22.rs:70-77 | the answer counts the bricks whose removal lets nothing fall |
| Day22.SupportsOf | src/day22.rs:84 | the supports are below k and listed from the highest index down |
| Day22.SupportsOfMembers | src/day22.rs:84 | j is listed exactly when j is below k and the lowered brick meets brick j |
| Day22.Supports | src/day22.rs:79-90 | one list of supports per brick |
| Day22.SupportsMembers | src/day22.rs:79-90 | j supports i exactly when i is off the ground, j is before i and the lowered i meets j |
| Day22.SupportsBackward | src/day22.rs:79-90 | every support of a brick comes before it |
| Day22.SupportsRow | src/day22.rs:82-87 | one iteration builds the support list of brick i |
| Day22.MapSupports | src/day22.rs:79-90 | the loop builds the support lists of all bricks |
| Day22.Marked | src/day22.rs:93-99 | the marked set holds the skipped brick and otherwise only bricks already scanned |
| Day22.MarkedFalls | src/day22.rs:93-99 | a brick is marked exactly when it is the skipped one or it has supports that are all skipped or falling |
| Day22.CountFall | src/day22.rs:92-101 | the loop returns the number of marked bricks besides the skipped one |
| Day22.Puzzle2 | src/day22.rs:105-113 | the answer sums, over all bricks, how many others fall when it is removed |
| Day22.WouldFallCounts | src/day22.rs:56-101 | on settled bricks, a removal that lets something fall makes some other brick fall in count_fall |
| Day22.CountedWouldFall | src/day22.rs:56-101 | a removal that makes some brick fall in count_fall lets something fall in would_fall |
| Day22.WouldFallIffCount | src/day22.rs:56-101 | on settled bricks the two puzzles agree: a removal is unsafe exactly when it makes at least one other brick fall |
| Day22.FirstFalling | src/day22.rs:93-99 | when some brick falls, one of them rests on the skipped brick alone |
| Day22.LeastFalling | src/day22.rs:93-99 | below any falling brick lies a falling brick all of whose supports are the skipped brick |
| Day23.Toward | src/day23.rs:25 | a move in any direction leaves the cell |
| Day23.Dirs | src/day23.rs:15-22 | a cell has directions to try exactly when it is a path or a slope; a forest cell is the unreachable panic |
| Day23.Steps | src/day23.rs:23-31 | at most one neighbour per direction tried |
| Day23.StepsMembers | src/day23.rs:23-31 | q is produced exactly when it lies on the map, is a path or a slope, and is one of the tried directions away |
| Day23.Neighbours | src/day23.rs:14-32 | neighbours are defined exactly on a path or slope cell, and there are at most four |
| Day23.Neighbours2 | src/day23.rs:54-65 | at most four neighbours |
| Day23.Neighbours2Members | src/day23.rs:54-65 | q is a neighbour exactly when it lies on the map, is a path or a slope, and is one step away in some direction |
| Day23.NeighboursOnSlope | src/day23.rs:16-19 | on a slope the only possible neighbour is the cell the arrow points to |
| Day23.NeighboursOnPath | src/day23.rs:20 | on a plain path cell both neighbour functions agree |
| Day23.NeighboursWithin | src/day23.rs:14-65 | every neighbour along the slopes is also a neighbour when slopes are ignored |
| Day23.Paint | src/day23.rs:54-65 | repainting one cell keeps the map's shape |
| Day23.StepsIgnoreOwnCell | src/day23.rs:54-65 | the neighbours found from a cell do not depend on what the cell itself holds |
| Day23.Neighbours2IgnoresSlopes | src/day23.rs:54-65 | with slopes ignored, the neighbours of a cell do not depend on its own character |
| Day23.Max | src/day23.rs:45 | the larger of two costs, as `max` picks |
| Day23.ForwardMembers | src/day23.rs:48 | the pushed branches are exactly those from the current cell, one step dearer, to a neighbour other than the cell just left |
| Day23.SlopeWalkSnoc | src/day23.rs:48 | extending a walk by a neighbour of its last cell other than the one before gives a walk |
| Day23.NeighboursOpen | src/day23.rs:26-30 | every neighbour lies on the map and is a path or a slope |
| Day23.ForwardSound | src/day23.rs:48 | each pushed branch stands for a walk along the slopes |
| Day23.ForwardOneSound | src/day23.rs:48 | a branch pushed after a sound branch extends that branch's walk by one step along the slopes |
| Day23.PopGoal | src/day23.rs:44-47 | popping a branch at the goal raises the best to cover it and every other hike stays covered or pending |
| Day23.PopExpand | src/day23.rs:48 | replacing a branch by its forward branches keeps every hike covered by the best or still pending |
| Day23.Puzzle1 | src/day23.rs:36-52 | an empty or too narrow map panics; a finished search returns the length of the longest hike along the slopes, or 0 when there is none |
| Day23.TargetIndex | src/day23.rs:82 | the index of the edge to b, or none when no edge goes to b |
| Day23.AddEdge | src/day23.rs:75-82 | the edge with its weight is present afterwards, the flag says whether an edge to b already existed, no other edge is added, and targets stay unique |
| Day23.Ahead | src/day23.rs:78 | the positions kept are exactly the neighbours other than the cell just left |
| Day23.CorridorExtend | src/day23.rs:79-80 | following the single way on keeps a corridor a walk from its junction one step longer |
| Day23.CorridorStart | src/day23.rs:85-87 | each corridor started at a junction is a one-step walk from it |
| Day23.CorridorJoins | src/day23.rs:74-82 | a corridor stands for a walk of exactly its cost from its junction to its current cell |
| Day23.AddCorridor | src/day23.rs:75-82 | adding a corridor's edge keeps every edge a walk of exactly its weight |
| Day23.Simplify | src/day23.rs:67-91 | the graph has at most one edge between two nodes and every edge is a walk on the map of exactly its weight |
| Day23.EdgeCostUnique | src/day23.rs:110 | with unique targets the weight of an existing edge is the one looked up |
| Day23.EdgeCostEdge | src/day23.rs:110 | a weight looked up belongs to an edge of the graph |
| Day23.OnwardMembers | src/day23.rs:110-117 | the pushed trails are exactly the edges to unseen nodes, with the cost added and the node added to the seen set |
| Day23.PathSnoc | src/day23.rs:114-116 | extending a path adds the edge's weight to its cost and the node to its seen set |
| Day23.SimplePathSnoc | src/day23.rs:110-116 | a simple path extended along an edge to an unseen node stays simple |
| Day23.TrailAtLast | src/day23.rs:103-116 | the trail of a whole path holds its last node, its cost and its nodes |
| Day23.TrailSnoc | src/day23.rs:110-116 | extending a simple path gives the trail the loop pushes for it |
| Day23.OnwardEdge | src/day23.rs:110-116 | a pushed trail follows an edge of the graph to an unseen node |
| Day23.TrailExtend | src/day23.rs:110-116 | a trail pushed from a path's trail stands for a longer simple path |
| Day23.OnwardSound | src/day23.rs:110-117 | every trail pushed from a sound trail stands for a simple path |
| Day23.TrailGoal | src/day23.rs:106-108 | popping a trail at the goal raises the best to cover it and every other simple path stays covered or pending |
| Day23.TrailNext | src/day23.rs:110-117 | each longer prefix of a simple path is among the trails pushed from the shorter one |
| Day23.TrailExpand | src/day23.rs:110-117 | replacing a trail by its onward trails keeps every simple path to the goal covered or pending |
| Day23.LongestSimplePath | src/day23.rs:98-120 | the search never panics and, when it finishes, returns the heaviest simple path to the goal, or 0 |
| Day23.Puzzle2 | src/day23.rs:95-121 | an empty or too narrow map is exactly when it panics; a finished result is the longest simple path to the goal in the graph `simplify` built, whose edges are corridors of the map |
| Grid.Opposite | src/day17.rs:22-27 | the opposite direction has both offsets negated and differs from the original |
| Grid.Move | src/day17.rs:33 | a move succeeds exactly when the neighbouring cell lies on the grid, and then lands on it |
| Iteration.IterateAdd | src/day14.rs:104-113 | a steps and then b more steps reach the state after a+b steps |
| Seqs.Count | src/day07.rs:58-66 | an element occurs at most as many times as the sequence is long |
| Seqs.Map | src/day11.rs:17-35 | the mapped sequence has one result per element, in order |
| Seqs.MapPerm | src/day22.rs:72 | mapping a permutation gives a permutation of the mapped values |
| Seqs.Split | src/day15.rs:13 | splitting on a separator gives one piece more than there are separators, and no piece holds the separator |
| Seqs.SplitJoin | src/day15.rs:13 | pieces without the separator split back from their join |
| Seqs.JoinSplit | src/day15.rs:13 | joining the pieces of a split with the separator restores the input |
| Sorting.Insert | src/day07.rs:104 | inserting one element adds exactly it to the multiset |
| Sorting.InsertSorted | src/day07.rs:104 | inserting into a sorted sequence by a total preorder keeps it sorted |
| Sorting.Sort | src/day07.rs:104 | `sort` returns a sorted permutation of its input |
| Sorting.InsertByKey | src/day11.rs:20 | inserting one element by key adds exactly it to the multiset |
| Sorting.InsertByKeySorted | src/day11.rs:20 | inserting by key into a sequence sorted by key keeps it sorted |
| Sorting.InsertByKeyStable | src/day11.rs:20 | an element goes after every earlier element with the same key |
| Sorting.SortByKey | src/day11.rs:20 | `sort_by_key` returns a permutation sorted by key that keeps the order of elements with equal keys |
| Text.Find | src/day18.rs:10 | the first position of the character, or none exactly when it does not occur |
| Text.FindAt | src/day18.rs:10 | a character absent from a prefix is found right after it |
| Text.FindStr | src/day20.rs:18 | the first occurrence of the pattern from a position on, with no earlier one |
| Text.SplitOnceStr | src/day20.rs:18 | splitting at the first occurrence of a pattern fails exactly when it does not occur; otherwise the parts rejoin around it with no earlier occurrence |
| Text.SplitOnceStrAt | src/day20.rs:18 | a text whose head cannot start the pattern splits right after the head |
| Text.SplitStr | src/day20.rs:28 | the pieces of a split on a pattern rejoin with the pattern to the text |
| Text.SplitStrWhole | src/day20.rs:28 | a text that cannot contain the pattern is one piece |
| Text.SplitStrCons | src/day20.rs:28 | a text split at a first occurrence gives the head followed by the pieces of the rest |
| Text.SplitJoinStr | src/day20.rs:28 | pieces that cannot contain the pattern split back from their join |
| Text.SplitOnceAt | src/day19.rs:87 | a character absent from the head splits the text right after the head |
| Text.LexTotal | src/day20.rs:32 | any two names are ordered one way or the other |
| Text.LexTrans | src/day20.rs:32 | the order of names is transitive |
| Text.LexAntisymmetric | src/day20.rs:32 | two names each at most the other are equal |
| Numbers.DigitValue | src/day18.rs:20 | a digit's value, or -1 for a character that is not a hexadecimal digit |
| Numbers.DigitChar | src/day18.rs:20 | the digit written for a value below 16 reads back as that value |
| Numbers.ToDigits | src/day18.rs:20 | a number is written as a non-empty numeral in the radix |
| Numbers.ParseUnsignedDigits | src/day18.rs:19-20 | a numeral without sign whose value is in range parses to its value |
| Numbers.ParseToDigits | src/day18.rs:19-20 | a number in range, written in a radix, parses back to itself |
| Numbers.ParseSigned | src/day22.rs:19-20 | a parsed signed value lies in the type's range |
| Numbers.ParseSignedMinus | src/day22.rs:19-20 | a minus sign before a numeral in range parses to the negated value |
| Numbers.ParseSignedPlain | src/day22.rs:19-20 | a numeral below the bound parses to its value |
| Numbers.SignedDigitsChars | src/day22.rs:19-20 | a written signed value holds only digits and a minus sign |
| RangeMaps.GetIn | src/day05.rs:119 | in a valid map, a point inside an entry gets that entry's value |
| RangeMaps.GetNone | src/day05.rs:119 | a point has no value exactly when no entry covers it |
| RangeMaps.Overlapping | src/day05.rs:5-17 | the clamped chunks lie within the queried range |
| RangeMaps.OverlappingValues | src/day05.rs:5-17 | every point of a clamped chunk has the chunk's value in the map |
| RangeMaps.OverlappingCovers | src/day05.rs:5-17 | every point of the range that has a value lies in some clamped chunk |
| RangeMaps.Gaps | src/day05.rs:106 | the gaps lie within the queried range |
| RangeMaps.GapsUndefined | src/day05.rs:106 | no point of a gap has a value |
| RangeMaps.GapsCover | src/day05.rs:106 | every point of the range without a value lies in some gap |
| RangeMaps.CutSpec | src/day05.rs:103 | removing a range keeps the map valid, leaves no entry inside the range and leaves the values outside it unchanged |
| RangeMaps.PlaceSpec | src/day05.rs:103 | placing an entry into a free range keeps the map valid and gives the entry's value inside it and the old values elsewhere |
| RangeMaps.Insert | src/day05.rs:103 | `insert` gives the new value inside the range and keeps every value outside it, and the map stays valid |
| Day03.Flushed | src/day03.rs:25-38 | a number flushed before column e of a row contributes a non-negative amount |
| Day03.RowSum | src/day03.rs:20-39 | the numbers counted in the first c cells of a row add up to a non-negative amount |
| Day03.RowTotal | src/day03.rs:19-44 | a row, including the number flushed at its end, adds a non-negative amount |
| Day03.PartTotal | src/day03.rs:18-45 | the first n rows add up to a non-negative total |
| Day03.UnfoldDigit | src/day03.rs:58-69 | a digit cell adds its new neighbouring stars to the list and leaves the table alone |
| Day03.RowScanDigit | src/day03.rs:58-69 | a digit cell keeps the scan state valid |
| Day03.RowScanFlush | src/day03.rs:70-77 | a non-digit cell keeps the scan state valid |
| Day04.MatchList | src/day04.rs:74 | one match count per card, in order |
| Day05.SplitSections | src/day05.rs:48 | splitting on blank lines always gives at least one section |
| Day05.MapTriple | src/day05.rs:97-109 | after one triple's chunk loop and gap loop, a point in its source range where the base is undefined maps to the offset, one whose shifted image the base defines maps to that value plus the offset, and every other point keeps its previous value |
| Day05.InnerStep | src/day05.rs:101-104 | one destination chunk insert gives each point the value of the partial stage after it |
| Day05.InnerDone | src/day05.rs:99-105 | after all destination chunks of a source chunk, the state is the one after that whole chunk |
| Day07.CountsSnoc | src/day07.rs:61-66 | one more card bumps the joker count for a joker and its own counter otherwise |
| Day07.CountStepAgrees | src/day07.rs:66-76 | one more non-joker card bumps its counter and moves the rank as the loop's match does |
| Day07.HandStart | src/day07.rs:58-60 | before any card all counters and the joker count are zero and the rank is high card |
| Day07.RankedRows | src/day07.rs:100-103 | one ranked row per input row |
| Day07.SortedUnique | src/day07.rs:104 | under an antisymmetric order two sorted permutations of the same rows are equal |
| Day08.Range | src/day08.rs:57 | the walkers are numbered 0 to n-1 in order |
| Day08.RecordOne | src/day08.rs:66-69 | a walker that arrives at the current count joins the recorded arrivals |
| Day08.KeepOne | src/day08.rs:65-72 | a walker that has not yet arrived stays among the walkers still on their way |
| Day08.KeepNotZ | src/day08.rs:65-72 | retain keeps at most the walkers it is given |
| Day08.IdxLengths | src/day08.rs:65-72 | the kept and the leaving walkers together number as many as before |
| Day08.IdxSnoc | src/day08.rs:65-72 | each further walker goes either to the kept or to the leaving ones |
| Day09.Reverse | src/day09.rs:36-42 | the reversed row holds the same values from the other end |
| Day09.Negate | src/day09.rs:17-23 | the negated row holds each value negated |
| Day09.DeriveNegate | src/day09.rs:13-15 | the differences of a negated row are the negated differences |
| Day09.ArithmeticDifferences | src/day09.rs:13-15 | the differences of an arithmetic row are all its step |
| Day10.FirstMove | src/day10.rs:87-97 | the first move from the start, when there is one, lands on the grid |
| Day10.Trace | src/day10.rs:99-103 | every step of the walk stays on the grid |
| Day10.Visited | src/day10.rs:185-189 | the tiles recorded along the walk all lie on the grid |
| Day10.Rows | src/day10.rs:108-110 | the matrix read as rows has its height and width |
| Day10.Expanded | src/day10.rs:108-110 | the expanded grid is three times as tall and wide |
| Day10.ExpandRow | src/day10.rs:111-159 | a row of tiles expands to three cells per tile |
| Day10.ExpandRowSnoc | src/day10.rs:111-159 | one more tile appends its three block cells to an expanded row |
| Day10.CountBlockRow | src/day10.rs:143-145 | a block row holds one ground cell exactly when it is the middle row of a ground tile |
| Day10.ExpandedPrefix | src/day10.rs:108-162 | the expansion of all rows but the last is the expansion of the whole grid without its last three rows |
| Day10.ExpandedLast | src/day10.rs:108-162 | the last three expanded rows are the block rows of the last row of tiles |
| Day10.ExpandedSplit | src/day10.rs:108-162 | the expansion of a grid is the expansion of its rows but the last followed by the last row's three block rows |
| Day10.MarkedNothing | src/day10.rs:199-202 | an empty flood fill changes no cell |
| Day11.Moved | src/day11.rs:26 | a galaxy moved on one axis gets the new coordinate there and keeps the other |
| Day11.EmptySplit | src/day11.rs:21-27 | the empty lines of a span are those of its two halves |
| Day11.EmptyNone | src/day11.rs:22-24 | a span holding no galaxy is all empty lines |
| Day11.GapStep | src/day11.rs:22-24 | the empty lines before a new coordinate c are those before the previous one plus the c-prev-1 between them |
| Day11.SortedSplit | src/day11.rs:20-24 | in the sorted list, the previous coordinate is occupied (or 0) and no galaxy lies strictly between it and the new one |
| Day11.EmptyMonotone | src/day11.rs:21-27 | a later line has at least as many empty lines before it |
| Day11.EmptyFrom | src/day11.rs:21-27 | from an occupied line on, the empty lines before c are those before it plus those between |
| Day11.ConsUnfold | src/day11.rs:47-52 | the all-pairs sum of a list is the first galaxy's distances to the rest plus the sum for the rest |
| Day12.Completions | src/day12.rs:37-71 | every enumerated filling has one cell per spring |
| Day12.CountPrefix | src/day12.rs:56-68 | fillings led by one choice hold a group pattern only when it starts with that choice |
| Day12.FitsCons | src/day12.rs:56-68 | a filling fits the springs exactly when its first cell fits the first spring and the rest fits the rest |
| Day12.NoMatch | src/day12.rs:44-50 | when no filling has the required runs, there are no arrangements |
| Day14.Rolled | src/day14.rs:44-61 | the rolled column keeps its length and the free row stays within it |
| Day14.Tilt | src/day14.rs:44-63 | rolling keeps the column's length |
| Day14.CountUpdate | src/day14.rs:47-52 | overwriting a cell changes the count of round rocks by what was removed and what was written |
| Day14.Column | src/day14.rs:44-63 | a column holds the cell of each row at that index |
| Day14.TiltNorth | src/day14.rs:42-65 | rolling the platform keeps its dimensions |
| Day14.Cells | src/day14.rs:42-65 | the matrix read as rows has its dimensions and holds its cells |
| Day14.CycleF | src/day14.rs:80-89 | a spin cycle keeps the platform's dimensions |
| Day14.RotateCubes | src/day14.rs:82 | rotating two platforms with the same cubes gives platforms with the same cubes |
| Day14.SameCubesTrans | src/day14.rs:80-89 | having the same cubes is transitive |
| Day14.CycleNSucc | src/day14.rs:93-95 | the platform after n+1 cycles is one cycle after the platform after n |
| Day15.DigitValue | src/day15.rs:31 | a digit byte's value is below 10 |
| Day15.Decimal | src/day15.rs:31 | a number is written as a non-empty run of digit bytes |
| Day15.Labels | src/day15.rs:63-73 | the labels of a box are its lenses' names, in order |
| Day15.ApplyAll | src/day15.rs:60-79 | running the steps keeps 256 boxes |
| Day16.PendingSnoc | src/day16.rs:31-33 | pushing one more ray adds its state to the pending ones |
| Day16.ValidInAll | src/day16.rs:66-67 | every state on the grid is one of the rows x columns x 4 possible states |
| Day16.CellsIn | src/day16.rs:66-67 | the cells of the grid are exactly the positions on it |
| Day16.RowCellsCard | src/day16.rs:66-67 | a row holds as many cells as the grid has columns |
| Day16.BoundedMono | src/day16.rs:82-94 | a bound on the energized counts stays a bound when the running maximum grows |
| Day17.PairsOpposite | src/day17.rs:22-27 | the four (direction, opposite) pairs pair each direction of the fixed order with its reverse |
| Day17.TryDir | src/day17.rs:28-37 | one pair of the loop adds the move in that direction exactly when the rule allows it |
| Day17.SuccessorsPrefix | src/day17.rs:22-37 | after one more pair the list is the earlier list followed by that direction's move when the rule allows it |
| Day18.Reverse | src/day18.rs:72-77 | the reversed corner list holds the corners from the other end |
| Day19.Index | src/day19.rs:39-47 | each category has an index below four |
| Day19.CatAt | src/day19.rs:39-47 | each index below four names the category with that index |
| Day19.Reversed | src/day19.rs:29-37 | reversing a name keeps its length |
| Day19.NoSeparators | src/day19.rs:49-90 | a written value holds none of the separators the parser splits on |
| Day19.PartFields | src/day19.rs:86 | a part is written as four fields |
| Day19.PartFieldsPlain | src/day19.rs:86 | no field of a part written within i64 holds a comma |
| Day19.SetFieldsTail | src/day19.rs:86-90 | applying the fields from k on is setting field k and then applying the rest |
| Day19.MergeStep | src/day19.rs:86-90 | merging from k after setting rating k is merging from k |
| Day21.LastIn | src/day21.rs:15-18 | the last position of the start character in a row, or none exactly when it does not occur |

## Left out

- Days 1, 6, 24 and 25 and `src/util.rs` are not part of this model. Days 6 and 24 use floating point. Day 25 uses random sampling and graph library algorithms. Day 1 and `util.rs` are thin wrappers over a parser-combinator library.
- Reading the input files is not modelled. Every parser takes the file's text, or its lines, as a value. The `test_case` harness is not modelled. The example and puzzle input files are not part of this model. Only the examples written out as lemmas are stated.
- The `println!` diagnostics of days 8, 10, 14, 15 and 21 have no counterpart. They do not affect any result.
- Some line parsers are not modelled, and their operations start from parsed values: the day 4 card lines, the day 5 number lines, the day 8 node lines, the day 9 rows, the day 12 group lists and the blank-line split of day 13. The character-to-cell tables of days 10, 12, 13, 14, 16 and 17 are modelled, and day 23 keeps its map as characters. Assembling the lines into a matrix is not modelled for days 14, 16 and 23.
- Machine integers (`i64`, `usize`, `isize`) are unbounded integers, with three exceptions: the `u8` arithmetic of the day 15 hash, the `u32` wrap of the day 19 identifiers and the byte truncation of a day 17 digit.
- Open-ended loops take an explicit `fuel` bound and report when it runs out. This covers the day 8 walks, the day 10 loop walk, the day 14 cycle search, the day 19 workflow chain, the day 20 pulse queue and press counter, and the day 23 corridor walks. Termination on a given puzzle input depends on that input and is not proved.
- Day10.Puzzle2: the flood fill from the corner (the graph library's `bfs_reachable`) is the parameter `outer`, and it is not computed. The contract holds for any such set.
- Day17: the A* search of the graph library is not modelled, and so neither are the answers of `puzzle1` and `puzzle2`. The model covers the successor functions, the heuristic and the goal test they pass to it. `HeuristicConsistent` shows that the heuristic drops by at most the cost of each step.
- Day21: `puzzle2` is an empirical extrapolation with no stated guarantee, and it is not modelled. `calc_diamond_area`, which it uses, is.
- Day12.Memo: the cache is a map keyed without `minlen`, as in the code. Its counts are unbounded integers, where the code's `i64` counts could overflow.
- Day20: the code does not use `num::integer::lcm` for the second answer. It multiplies the cycle lengths, and the model follows the multiplication. The `Set64` bitsets are sets of indices below 64.
- Day20Input.SortByName: orders declarations by name alone, where the code compares whole tuples. The two orders differ only between declarations with the same name.
- Day15.Puzzle2: takes the file as bytes that are valid UTF-8. `read_to_string` fails on other bytes, and that error path is not modelled. The trim recognises the 25 Unicode White_Space characters by their UTF-8 encodings.
- Day19.ParseId: takes each character as its low byte, with no UTF-8 encoding. It agrees with the code on ASCII names.
- Day19: the round trip of the workflow printer and parser is not proved.
- RangeMaps: the interval map keeps touching entries with equal values as separate entries, where the crate merges them. Lookups agree. The number of entries can differ.
- Day22.FallBlocks: requires every block's lowest z to be at least 0. With a negative z the code's drop loop would not stop.
- Day22.WouldFallIffCount: requires a settled stack. `FallenIsSettled` proves this for the result of falling. The model does not prove it again after the code's second sort.
- Day23.Simplify: proved sound only: every edge it adds is a corridor of the trail map with that length. It is not proved to find every corridor between junctions.
- Day23.Puzzle2: its answer is the longest path in the graph `Simplify` returned. Because `Simplify` is not proved complete, the contract does not rule out a graph that misses corridors. On a graph without edges, 0 meets the contract.
- Day23.Puzzle1: follows the code's rule of never stepping back onto the previous tile. It is not proved to be the longest path over all simple paths.
- Day23: the edge order of the `DiGraphMap` is insertion order in the model.
- Day16.Puzzle1: returns None for an empty grid, where the code's first beam would index outside the matrix.

## Findings

| source | as written | input that shows it | evidently intended | confidence | as-written member | corrected member |
|---|---|---|---|---|---|---|
| src/day13.rs:23-37 | `find_mirror` reports a line only when `diff` steps past an edge of the pattern. `diff` stops at `rows - 1`, so in a two-row pattern it never gets there and the mirror is missed | the two-row pattern `#` / `#`, mirrored between its rows | every line of reflection is found, including one that reaches both edges | not executed | Day13.TwoRowsMissed | Day13.Reflection |
| src/day17.rs:28-30 | the start state faces west, so the step east is skipped as a reversal from the first tile | the one-row grid `11`, whose only path goes east | from the start every on-grid direction is open | not executed | Day17.NormalStartSkipsEast | Day17.FromStartComplete |
| src/day19.rs:148-163 | a rule that cuts outside a range still leaves a one-wide range, because both ends are clamped to `val - 1` or `val + 1` | the range x in 2000..4000 with the rule `x<1000`, which sends x 999..999 to the rule's target | a rule's two parts are empty where the rule does not apply, and their sizes add up to the range's size | not executed | Day19.DegenerateSize | Day19.CutSize |
