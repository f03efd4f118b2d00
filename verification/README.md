# Advent of Code 2023 solutions, modelled in Dafny

This project models the core of a set of Rust solutions to the Advent of
Code 2023 puzzles. Each solution's `src/main.rs` becomes one Dafny module,
in the form the Rust code has. Pure helpers become functions and datatypes.
Loops that update variables become methods with loop invariants. Structures
whose fields are updated in place become classes.

| file | module | puzzle |
|---|---|---|
| `aoc01_trebuchet.dfy` | `Trebuchet` | the calibration value of a line, from its first and last digit, spelled out or not |
| `aoc02_cube_conundrum.dfy` | `CubeConundrum` | cube counts per colour, possible draws and the smallest bag for a game |
| `aoc03_gear_ratios.dfy` | `GearRatios` | parsing an engine schematic into numbers and symbols, and the elements bordering each one |
| `day04_scratchcards.dfy` | `Scratchcards` | card parsing, matches, points and the tally of won copies |
| `aoc05_if_you_give.dfy` | `Almanac` | seeds and seed ranges carried through the stages of shifting ranges |
| `day07_camel_cards.dfy` | `CamelCards` | cards, hand types with jokers wild, the order on hands and the ranking of bids |
| `aoc08_haunted_wasteland.dfy` | `HauntedWasteland` | the node network, the endless direction loop and the walk of all start nodes at once |
| `day09_mirage_maintenance.dfy` | `Mirage` | extrapolating a history forwards and backwards through its differences |
| `day10_pipe_maze.dfy` | `PipeMaze` | parsing the maze, the farthest point of the loop and the area it encloses |
| `day11_cosmic_expansion.dfy` | `CosmicExpansion` | expanding an image of galaxies and the sum of their pairwise distances |
| `day12_hot_springs.dfy` | `HotSprings` | unfolding rows of springs and counting the arrangements that fit the damaged runs |
| `day13_point_of_incidence.dfy` | `PointOfIncidence` | the lines of reflection of a pattern, with and without one smudge |
| `day14_parabolic_reflector.dfy` | `ParabolicReflector` | tilting a platform of rolling rocks and its load |
| `day15_lens_library.dfy` | `LensLibrary` | the HASH function and the 256 boxes of labelled lenses |
| `day16_floor_lava.dfy` | `FloorLava` | a beam of light spreading through mirrors and splitters |
| `day17_clumsy_crucible.dfy` | `ClumsyCrucible` | the relaxation of the cheapest heat loss per cell, direction and run length |
| `day18_lavaduct_lagoon.dfy` | `LavaductLagoon` | digging the trenches of a plan, digging out their inside, and helpers on inclusive ranges |
| `day19_aplenty.dfy` | `Aplenty` | routing parts through workflows, and splitting boxes of ratings to count the accepted ones |
| `wrappers.dfy` | `Wrappers` | `Option` and `Result`; a Rust panic that the model turns into an error uses `Err` |
| `text.dfy` | `Text` | the parts of Rust's `str` API the parsers use: `split`, `split_once`, `starts_with`, `trim`, `trim_start_matches`, `trim_end_matches` and integer `from_str`, on ASCII |

A Rust `panic` (an `unwrap` on `None`, an index out of range, a `usize`
subtraction that would go below zero) becomes an error result where that is
cheap to express. Otherwise it becomes a `requires`, and the line for that
member under "## Left out" says so.

## Model

| member | source | states |
|---|---|---|
| Trebuchet.DigitsTable | aoc01_trebuchet/src/main.rs:8-20 | the table holds exactly the nine number words, and the k-th word maps to the digit k+1 |
| Trebuchet.WordShape | aoc01_trebuchet/src/main.rs:8-20 | every number word is at least three letters long and maps to a single non-zero decimal digit |
| Trebuchet.PrefixWord | aoc01_trebuchet/src/main.rs:8-20 | no number word is a proper prefix of another |
| Trebuchet.WordsPrefixFree | aoc01_trebuchet/src/main.rs:8-20 | at any position of a text at most one number word starts |
| Trebuchet.DigitsKeys | aoc01_trebuchet/src/main.rs:8-20 | the table's keys are "one" to "nine" and nothing else |
| Trebuchet.MatchValue | aoc01_trebuchet/src/main.rs:55-61 | a checked substring contributes a single decimal digit, or nothing |
| Trebuchet.ScanEmpty | aoc01_trebuchet/src/main.rs:44-66 | the scan has pushed nothing exactly when no digit or number word was checked before the current position |
| Trebuchet.ScanFirst | aoc01_trebuchet/src/main.rs:44-66 | the first pushed value is the value of the first match in scan order (by start, then end) |
| Trebuchet.ScanLast | aoc01_trebuchet/src/main.rs:44-66 | the last pushed value is the value of the last match before the current position |
| Trebuchet.ExtractDigitsAndWords | aoc01_trebuchet/src/main.rs:44-72 | `None` exactly when no substring is a digit or a number word; otherwise the first and the last match in scan order |
| Trebuchet.ScanRow | aoc01_trebuchet/src/main.rs:49-62 | the inner loop leaves exactly what the scan pushes up to the end of the row: every substring from `start`, shortest first |
| Trebuchet.Push | aoc01_trebuchet/src/main.rs:56-61 | one step pushes the substring when it is a single digit and the digit of the word when it is a number word |
| Trebuchet.ScanDone | aoc01_trebuchet/src/main.rs:67-71 | the finished scan is empty exactly when there is no match, and otherwise starts with the first match and ends with the last one |
| Trebuchet.WordEnd | aoc01_trebuchet/src/main.rs:79-92 | the end of the shortest number word starting the text at or after a given length, or none when no prefix is a word |
| Trebuchet.ReplacedWordAt | aoc01_trebuchet/src/main.rs:85-89 | a shortest number word at the scan position is replaced by its digit and the scan resumes after it |
| Trebuchet.ReplacedNoWordAt | aoc01_trebuchet/src/main.rs:79-95 | with no number word at the scan position the character is kept |
| Trebuchet.ReplaceWords | aoc01_trebuchet/src/main.rs:74-98 | the loop returns the left-to-right replacement of shortest number words by their digits |
| Trebuchet.ReplaceRun | aoc01_trebuchet/src/main.rs:79-92 | the inner loop keeps the replacement invariant, never lengthens what is left to scan, and stops only where no number word starts |
| Trebuchet.NoWordAtLead | aoc01_trebuchet/src/main.rs:74-98 | a text whose first character starts no number word keeps that character |
| Trebuchet.WordAtLead | aoc01_trebuchet/src/main.rs:74-98 | a text starting with a number word has it replaced by its digit |
| Trebuchet.ReplacedWithoutWords | aoc01_trebuchet/src/main.rs:74-98 | a text in which no number word occurs is returned unchanged |
| Trebuchet.ReplacedNotLonger | aoc01_trebuchet/src/main.rs:74-98 | replacing never makes a text longer |
| Trebuchet.ReplacedExample1 | aoc01_trebuchet/src/main.rs:131-141 | "onetwothree" becomes "123" |
| Trebuchet.ReplacedExample2 | aoc01_trebuchet/src/main.rs:131-141 | "xonetwothree" becomes "x123" |
| Trebuchet.ReplacedExample3 | aoc01_trebuchet/src/main.rs:131-141 | "12onetwox" becomes "1212x" |
| Trebuchet.DigitsOf | aoc01_trebuchet/src/main.rs:101 | the filtered characters are all decimal digits and no more than the text |
| Trebuchet.DigitsOfAppend | aoc01_trebuchet/src/main.rs:101 | filtering digits distributes over concatenation |
| Trebuchet.ExtractDigits | aoc01_trebuchet/src/main.rs:100-107 | `None` exactly when the text has no digit; otherwise the text's first and last decimal digit |
| Trebuchet.DigitsOfFirst | aoc01_trebuchet/src/main.rs:101-103 | the digits are empty exactly when the text has none, and the first of them is the text's first digit |
| Trebuchet.DigitsOfLast | aoc01_trebuchet/src/main.rs:101-103 | the last of the digits is the text's last digit |
| Trebuchet.ExtractDigitsExamples | aoc01_trebuchet/src/main.rs:114-129 | the test's cases: "12" gives ('1','2'), "sdlfk3abc4sdbp" gives ('3','4'), "stuff7stuff" gives ('7','7') |
| CubeConundrum.Add | aoc02_cube_conundrum/src/main.rs:91-113 | the total of a sum of counts is the sum of the totals |
| CubeConundrum.Sub | aoc02_cube_conundrum/src/main.rs:121-131 | the total of a difference is the difference of the totals |
| CubeConundrum.AddSubInverse | aoc02_cube_conundrum/src/main.rs:91-131 | subtracting undoes adding and adding undoes subtracting |
| CubeConundrum.AddCommutesAssociates | aoc02_cube_conundrum/src/main.rs:91-119 | adding counts is commutative and associative with the default counts as unit, so the fold in `sum` does not depend on grouping |
| CubeConundrum.SumCountsAppend | aoc02_cube_conundrum/src/main.rs:115-119 | the sum of concatenated lists is the sum of the two sums |
| CubeConundrum.SumCountsTotal | aoc02_cube_conundrum/src/main.rs:115-119 | the total of the summed counts is the sum of the totals |
| CubeConundrum.Max | aoc02_cube_conundrum/src/main.rs:173-179 | the colour-wise maximum bounds both arguments and takes every colour from one of them |
| CubeConundrum.MaxCommutes | aoc02_cube_conundrum/src/main.rs:173-179 | the maximum does not depend on argument order |
| CubeConundrum.MaxLeast | aoc02_cube_conundrum/src/main.rs:173-179 | the maximum is the least upper bound of its arguments |
| CubeConundrum.PowerMonotone | aoc02_cube_conundrum/src/main.rs:181-183 | the power of a non-negative bag grows with the bag |
| CubeConundrum.IsValid | aoc02_cube_conundrum/src/main.rs:44-65 | valid exactly when no colour exceeds 12 red, 13 green, 14 blue and the total is not negative (the total check of the source reduces to that) |
| CubeConundrum.IsValidNonNegative | aoc02_cube_conundrum/src/main.rs:44-65 | for non-negative counts validity is just the three colour bounds |
| CubeConundrum.MinBag | aoc02_cube_conundrum/src/main.rs:18-26 | the folded maximum is non-negative and holds every draw of the game |
| CubeConundrum.MinBagLeast | aoc02_cube_conundrum/src/main.rs:18-26 | every non-negative bag that holds every draw also holds the folded maximum, so it is the minimum bag |
| CubeConundrum.GamePossibleMinBag | aoc02_cube_conundrum/src/main.rs:33-36 | every draw is valid exactly when the minimum bag fits the limits |
| CubeConundrum.ParseDraws | aoc02_cube_conundrum/src/main.rs:156-163 | one summed draw per `; `-separated group, in order |
| CubeConundrum.PullTexts | aoc02_cube_conundrum/src/main.rs:139-152 | the rendering of the pulls, one text per pull |
| CubeConundrum.DrawTexts | aoc02_cube_conundrum/src/main.rs:156-163 | the rendering of the draws, one text per draw |
| CubeConundrum.PullCounts | aoc02_cube_conundrum/src/main.rs:139-152 | the counts each pull stands for, in order |
| CubeConundrum.ParsePullText | aoc02_cube_conundrum/src/main.rs:139-152 | parsing "n colour" gives n in that colour's slot (nothing for an unknown colour) |
| CubeConundrum.ParsedPullTexts | aoc02_cube_conundrum/src/main.rs:159-161 | parsing rendered pulls gives back their counts |
| CubeConundrum.PullTextLacks | aoc02_cube_conundrum/src/main.rs:157-159 | a rendered pull contains no separator, so splitting cannot cut it |
| CubeConundrum.ParseDrawText | aoc02_cube_conundrum/src/main.rs:158-162 | parsing a rendered draw gives the sum of its pulls' counts |
| CubeConundrum.DrawTextsLack | aoc02_cube_conundrum/src/main.rs:156-158 | a rendered draw contains no `;` |
| CubeConundrum.SplitHeader | aoc02_cube_conundrum/src/main.rs:154 | a rendered line splits at its first ": " into header and draws |
| CubeConundrum.ParseGameText | aoc02_cube_conundrum/src/main.rs:72-81 | "Game n" parses to game n |
| CubeConundrum.ParseLineText | aoc02_cube_conundrum/src/main.rs:135-167 | parsing a rendered line gives back the game number and each draw's summed counts |
| CubeConundrum.ParseGameRejects | aoc02_cube_conundrum/src/main.rs:72-81 | a header not starting with "Game " is rejected |
| GearRatios.NumberOf | aoc03_gear_ratios/src/main.rs:255-260 | `Some(n)` exactly for a `Number(n)` element, `None` for a symbol |
| GearRatios.SymbolOf | aoc03_gear_ratios/src/main.rs:262-267 | `Some(c)` exactly for a `Symbol(c)` element, `None` for a number |
| GearRatios.TokenBuffer.constructor | aoc03_gear_ratios/src/main.rs:213-216 | a new buffer holds nothing |
| GearRatios.TokenBuffer.Push | aoc03_gear_ratios/src/main.rs:219-224 | the first push records the character and its column; later pushes append the character and keep the start column |
| GearRatios.TokenBuffer.Take | aoc03_gear_ratios/src/main.rs:226-228 | returns the buffered digits and start column and leaves the buffer empty |
| GearRatios.RunStart | aoc03_gear_ratios/src/main.rs:55-60 | the column where the run of digits through a given digit begins: all digits from there, preceded by a non-digit or the line start |
| GearRatios.RunEnd | aoc03_gear_ratios/src/main.rs:55-75 | the column just past that run: all digits up to it, followed by a non-digit or the line end |
| GearRatios.SpecRow | aoc03_gear_ratios/src/main.rs:53-77 | the expected row has one slot per character of the line, each slot as the cell rule says |
| GearRatios.StartsSpan | aoc03_gear_ratios/src/main.rs:97-100 | the elements started in a row prefix grow by one element when the prefix passes the end of that element's span |
| GearRatios.SpecRows | aoc03_gear_ratios/src/main.rs:52-78 | one expected row per line, in order |
| GearRatios.RunOf | aoc03_gear_ratios/src/main.rs:55-75 | a maximal run of digits has the expected start and end from each of its columns |
| GearRatios.RunStartOf | aoc03_gear_ratios/src/main.rs:55-60 | a maximal run's start is found from any of its columns |
| GearRatios.RunEndOf | aoc03_gear_ratios/src/main.rs:59-75 | a maximal run's end is found from any of its columns |
| GearRatios.CellInRun | aoc03_gear_ratios/src/main.rs:89-100 | every cell of a maximal run holds the same Number element, with the run's value, row, start and end |
| GearRatios.LineDataRun | aoc03_gear_ratios/src/main.rs:89-100 | finishing a run appends exactly its Number element to the parsed data |
| GearRatios.FinishNumber | aoc03_gear_ratios/src/main.rs:89-103 | with digits buffered: appends a Number whose end is start + digit count and writes it into every slot in start..end; empties the buffer; with nothing buffered changes nothing |
| GearRatios.FinishRun | aoc03_gear_ratios/src/main.rs:89-103 | flushing a maximal run keeps the row equal to the expected row up to the run's end |
| GearRatios.DigitStep | aoc03_gear_ratios/src/main.rs:55-58 | a digit adds an empty slot and extends the buffered run, keeping the scan invariant |
| GearRatios.FinishStep | aoc03_gear_ratios/src/main.rs:59-60 | flushing at a non-digit or line end keeps the scan invariant with an empty buffer |
| GearRatios.FinishedBeforeSlot | aoc03_gear_ratios/src/main.rs:56-60 | flushing after the new empty slot is pushed writes only earlier slots |
| GearRatios.SymbolStep | aoc03_gear_ratios/src/main.rs:61-70 | a non-digit other than '.' becomes a one-column Symbol (end = column + 1) in its slot and in the data; '.' leaves the slot empty |
| GearRatios.RowComplete | aoc03_gear_ratios/src/main.rs:73-77 | at the end of a line, with the trailing number flushed, the row is the expected row and the data gained that line's elements |
| GearRatios.ScanChar | aoc03_gear_ratios/src/main.rs:55-71 | one character keeps the line's scan state: the settled slots and elements match the expected row, and the buffer holds the digits of the run in progress |
| GearRatios.ParseRow | aoc03_gear_ratios/src/main.rs:53-77 | the character loop of one line builds the expected row and appends the line's elements in order |
| GearRatios.Parse | aoc03_gear_ratios/src/main.rs:46-87 | an error exactly for input without lines (the `rows[0]` panic); otherwise the expected schematic |
| GearRatios.ParsedValid | aoc03_gear_ratios/src/main.rs:46-87 | parsing lines of equal length gives a schematic whose rows all have the first line's width and whose elements all lie inside it, so the neighbour and part-number contracts apply to it |
| GearRatios.ParsedCells | aoc03_gear_ratios/src/main.rs:46-103 | in a parsed schematic each row has one slot per character; '.' gives an empty slot, another non-digit a one-column Symbol, a digit the Number of its maximal run |
| GearRatios.InspectedCellsBorder | aoc03_gear_ratios/src/main.rs:110-144 | the inspected cells lie in rows row-1..row+1 and columns start-1..end inside the grid; they are all bordering cells except the one after a number ending in the next-to-last column |
| GearRatios.AddNeighbor | aoc03_gear_ratios/src/main.rs:116-120 | the neighbour set becomes the elements found in the inspected cells so far |
| GearRatios.Neighbors | aoc03_gear_ratios/src/main.rs:105-149 | the neighbours are exactly the elements occupying an inspected cell |
| GearRatios.FoundInspected | aoc03_gear_ratios/src/main.rs:105-149 | the elements found in a set of cells that is exactly the inspected cells are exactly the inspected elements |
| GearRatios.SymbolNear | aoc03_gear_ratios/src/main.rs:166-205 | the scans before, after, above and below report true exactly when a symbol occupies one of the looked-at cells |
| GearRatios.IsPartNumber | aoc03_gear_ratios/src/main.rs:153-210 | the filter keeps an element exactly when it is a Number with a symbol in an inspected cell |
| GearRatios.PartsOfFrom | aoc03_gear_ratios/src/main.rs:154-209 | the filter over a suffix keeps its head when it is a part and then filters the rest |
| GearRatios.PartNumbers | aoc03_gear_ratios/src/main.rs:153-210 | the loop returns the data filtered by the part rule, in order |
| GearRatios.PartsAreNumbers | aoc03_gear_ratios/src/main.rs:153-210 | the parts are never symbols, and an element is kept exactly when it is in the data and is a part |
| GearRatios.LookedFixedBorder | aoc03_gear_ratios/src/main.rs:110-111 | with `column_after` guarded by `end < num_cols` the looked-at cells are exactly the bordering cells |
| GearRatios.IsPartNumberFixed | aoc03_gear_ratios/src/main.rs:153-210 | with that guard a Number is kept exactly when a symbol occupies one of its bordering cells |
| GearRatios.ColumnAfterCounterexample | aoc03_gear_ratios/src/main.rs:111 | on the one-line schematic "1*" the 1 is not a part as written, though a symbol borders it |
| Scratchcards.CountMatches | day04_scratchcards/src/main.rs:99-104 | the number of matches never exceeds the number of picks |
| Scratchcards.CountMatchesIndices | day04_scratchcards/src/main.rs:99-104 | the count equals the number of pick positions, repeats included, whose number is winning |
| Scratchcards.Pow2 | day04_scratchcards/src/main.rs:95 | a power of two is at least 1 |
| Scratchcards.Points | day04_scratchcards/src/main.rs:92-97 | 0 exactly when nothing matches, otherwise 2^(m-1) for m matches |
| Scratchcards.PointsExtraPick | day04_scratchcards/src/main.rs:92-104 | one more pick leaves the points as they are when it loses, makes them 1 when it is the first match, and doubles them otherwise |
| Scratchcards.AddCopiesEffect | day04_scratchcards/src/main.rs:34-39 | adding copies raises exactly the cards number+1..number+m by the amount and leaves every other count alone |
| Scratchcards.CollectEffect | day04_scratchcards/src/main.rs:25-43 | one card adds 1 to its own count and its new count to each of the next m card numbers; nothing else changes |
| Scratchcards.MapSumRemove | day04_scratchcards/src/main.rs:44 | the sum of the counts splits off any one entry |
| Scratchcards.MapSumAdd | day04_scratchcards/src/main.rs:27-38 | raising one count by d raises the sum by d |
| Scratchcards.AddCopiesSum | day04_scratchcards/src/main.rs:37-39 | adding `amount` copies to `count` cards raises the sum by count * amount |
| Scratchcards.CollectSum | day04_scratchcards/src/main.rs:25-43 | one card raises the sum by 1 + m * (its new count) |
| Scratchcards.CollectGrows | day04_scratchcards/src/main.rs:25-43 | every card strictly raises the sum, since counts only increase |
| Scratchcards.TallyAtLeastCards | day04_scratchcards/src/main.rs:22-45 | the tally is at least the number of cards |
| Scratchcards.SumValues | day04_scratchcards/src/main.rs:44 | the loop adds up exactly the collected counts |
| Scratchcards.Tally | day04_scratchcards/src/main.rs:22-45 | the loop returns the sum of the counts obtained by collecting the cards in order |
| Scratchcards.ParseNumbers | day04_scratchcards/src/main.rs:72-80 | the loop over the space-separated tokens returns what the token-wise parse returns: the numbers in order, or the first error |
| Scratchcards.ParsedNumbersErr | day04_scratchcards/src/main.rs:72-80 | once a token fails, later tokens do not change the error |
| Scratchcards.NonEmpty | day04_scratchcards/src/main.rs:66 | the filter keeps no empty token |
| Scratchcards.ParsedNumbersSkipsEmpty | day04_scratchcards/src/main.rs:74-77 | empty tokens between spaces are skipped |
| Scratchcards.ParseHeader | day04_scratchcards/src/main.rs:59-64 | a header is accepted only when it is "Card" followed by a space |
| Scratchcards.ParseBody | day04_scratchcards/src/main.rs:66-70 | a body is accepted only when the separator (space, vertical bar, space) splits it into exactly two non-empty lists |
| Scratchcards.ParseCard | day04_scratchcards/src/main.rs:55-90 | a card parses exactly when it splits at ": " into a valid header and a valid body |
| Scratchcards.ParseHeaderWord | day04_scratchcards/src/main.rs:61-63 | any first word other than "Card" is an error |
| Scratchcards.ParseBodyRejects | day04_scratchcards/src/main.rs:66-83 | a body without exactly two number lists, or with a bad winning number, is an error |
| Scratchcards.NumberTokens | day04_scratchcards/src/main.rs:72-80 | rendered numbers are non-empty digit strings, one per number |
| Scratchcards.NumbersText | day04_scratchcards/src/main.rs:72-80 | a rendered non-empty list is a non-empty text |
| Scratchcards.ParsedNumbersText | day04_scratchcards/src/main.rs:72-80 | parsing rendered tokens gives back the numbers |
| Scratchcards.NumbersTextLacks | day04_scratchcards/src/main.rs:66 | a rendered list contains no separator character |
| Scratchcards.ParseNumbersText | day04_scratchcards/src/main.rs:72-80 | parsing a rendered list gives back the numbers |
| Scratchcards.ParseHeaderText | day04_scratchcards/src/main.rs:59-64 | "Card n" parses to n |
| Scratchcards.ParseBodyText | day04_scratchcards/src/main.rs:66-83 | a rendered body parses back to its two lists |
| Scratchcards.ParseCardText | day04_scratchcards/src/main.rs:55-90 | a rendered card parses back to its number, its set of winning numbers and its picks |
| Almanac.OverlapsMeaning | aoc05_if_you_give/src/main.rs:254-258 | `overlaps` is symmetric; ranges sharing a value overlap, and two non-empty overlapping ranges share the larger start; an empty range inside another still counts as overlapping |
| Almanac.OverlapsExamples | aoc05_if_you_give/src/main.rs:282-298 | the test's cases: 0..10 overlaps 9..20, 3..4 and 0..1; 0..10 and 10..20 do not overlap, in either order |
| Almanac.CountInAppend | aoc05_if_you_give/src/main.rs:52-82 | how often a value lies in a list of ranges adds up over concatenation |
| Almanac.CountInSome | aoc05_if_you_give/src/main.rs:52-82 | a value is counted exactly when some range holds it |
| Almanac.TransformSingle | aoc05_if_you_give/src/main.rs:92-98 | `Some` exactly when `from` holds the input, and then the input shifted by to_start - from.start |
| Almanac.TransformSingleExamples | aoc05_if_you_give/src/main.rs:265-280 | the test's cases for 15..25 to 35: 15 gives 35, 24 gives 44, 25, 0 and 30 give nothing |
| Almanac.TransformRange | aoc05_if_you_give/src/main.rs:100-120 | a mapped piece exists exactly when the input overlaps `from`; the mapped input lies in `from` and maps to a range of the same length shifted by to_start - from.start; the excluded pieces miss `from`; mapped and excluded pieces together hold every input value exactly once and nothing else |
| Almanac.FirstMatchSpec | aoc05_if_you_give/src/main.rs:43-50 | no range holds the value exactly when the lookup fails; otherwise the first range holding it decides the result |
| Almanac.FirstMatchSnoc | aoc05_if_you_give/src/main.rs:43-50 | a range added at the end is consulted only when no earlier range holds the value |
| Almanac.CountEntriesAppend | aoc05_if_you_give/src/main.rs:54-74 | the count of a value in the working entries adds up over concatenation |
| Almanac.Unmoved | aoc05_if_you_give/src/main.rs:54 | one unmapped entry per input range |
| Almanac.UnmovedSpec | aoc05_if_you_give/src/main.rs:54 | the initial entries hold the input ranges unmapped, each value as often as the input holds it |
| Almanac.KeepMoved | aoc05_if_you_give/src/main.rs:59-62 | a piece already mapped is kept as it is and stays correct after one more range |
| Almanac.StepPieces | aoc05_if_you_give/src/main.rs:64-71 | the pieces of an unmapped entry cover it exactly and are correct for the ranges so far |
| Almanac.InPiece | aoc05_if_you_give/src/main.rs:100-120 | a value of the mapped piece is a value of the input |
| Almanac.ExcludedInInput | aoc05_if_you_give/src/main.rs:100-120 | a value of an excluded piece is a value of the input |
| Almanac.AppendStep | aoc05_if_you_give/src/main.rs:57-72 | after each entry the rebuilt list holds the values of the entries taken so far, all correct |
| Almanac.Finish | aoc05_if_you_give/src/main.rs:74-81 | one pair per entry |
| Almanac.Inputs | aoc05_if_you_give/src/main.rs:242 | one input range per pair |
| Almanac.Outputs | aoc05_if_you_give/src/main.rs:242-244 | one output range per pair |
| Almanac.FinishSpec | aoc05_if_you_give/src/main.rs:74-81 | an unmapped piece maps to itself, and every pair sends each value where the stage sends it |
| Almanac.TransformRanges | aoc05_if_you_give/src/main.rs:52-82 | the input pieces partition the given ranges value by value, and each piece maps, same length and value for value, to where the first range holding the value sends it, or to itself when none does |
| Almanac.RunSeeds | aoc05_if_you_give/src/main.rs:225-235 | the map has exactly the seeds as keys, and each seed maps to the result of passing it through the stages in order |
| Almanac.InputsAt | aoc05_if_you_give/src/main.rs:242 | the k-th input range is the k-th pair's input |
| Almanac.OutputsAt | aoc05_if_you_give/src/main.rs:242-244 | the k-th output range is the k-th pair's output |
| Almanac.StageImage | aoc05_if_you_give/src/main.rs:240-245 | the outputs of one stage hold exactly the images of its input values |
| Almanac.RunRanges | aoc05_if_you_give/src/main.rs:237-247 | the final ranges hold exactly the locations reached from the seed values |
| Almanac.RunStage | aoc05_if_you_give/src/main.rs:241-244 | one stage turns the ranges into ranges holding exactly their images |
| Almanac.RangesStep | aoc05_if_you_give/src/main.rs:240-245 | the invariant "ranges hold exactly the values reached" survives one more stage |
| Almanac.ParseSeedRanges | aoc05_if_you_give/src/main.rs:164-177 | the loop returns the ranges start..start+length of consecutive token pairs, an unpaired last token ignored; an error without the "seeds: " prefix or on a token that is not a number |
| Almanac.PrependStep | aoc05_if_you_give/src/main.rs:171-175 | taking one pair keeps the loop's result equal to the specification |
| Almanac.SeedPairsOdd | aoc05_if_you_give/src/main.rs:171 | a last token without a partner is ignored |
| Almanac.PairTokens | aoc05_if_you_give/src/main.rs:169-171 | two tokens per (start, length) pair |
| Almanac.SeedPairsTokens | aoc05_if_you_give/src/main.rs:171-175 | rendered pairs parse back to their ranges |
| Almanac.PairTokensLackSpace | aoc05_if_you_give/src/main.rs:170 | a rendered token holds no space |
| Almanac.TrimSeedsHeader | aoc05_if_you_give/src/main.rs:169 | trimming the "seeds: " prefix leaves the numbers |
| Almanac.SeedRangesText | aoc05_if_you_give/src/main.rs:164-177 | a rendered seeds line parses back to its ranges |
| Almanac.ParsedNats | aoc05_if_you_give/src/main.rs:180-183 | a successful parse gives one number per token |
| Almanac.ParseRange | aoc05_if_you_give/src/main.rs:179-192 | a parsed range is well ordered (from.start <= from.end) |
| Almanac.ParsedNatsTexts | aoc05_if_you_give/src/main.rs:180-183 | rendered numbers parse back |
| Almanac.NatTexts | aoc05_if_you_give/src/main.rs:180-183 | one token per number |
| Almanac.NatTextsLackSpace | aoc05_if_you_give/src/main.rs:181 | a rendered number holds no space |
| Almanac.ParseRangeText | aoc05_if_you_give/src/main.rs:179-192 | "to from len" reads as from..from+len with to_start = to; any other count of numbers is an error |
| Almanac.ParseRangeOf | aoc05_if_you_give/src/main.rs:179-192 | a line whose tokens are all numbers gives the range for three of them and the triple error otherwise |
| CamelCards.Rank | day07_camel_cards/src/main.rs:69-82 | A=14, K=13, Q=12, J=11, T=10, the joker X=1 and a digit its face value, so never above 14 |
| CamelCards.Index | day07_camel_cards/src/main.rs:85-87 | rank - 1 is a slot below the 14 slots of the count array |
| CamelCards.RankInjective | day07_camel_cards/src/main.rs:69-82 | two playable cards have the same rank exactly when they are the same card, so the card order is total |
| CamelCards.CardOfAsWritten | day07_camel_cards/src/main.rs:93-101 | as written: every accepted character, '0' and '1' included, is a card face |
| CamelCards.CardOfAsWrittenLowDigits | day07_camel_cards/src/main.rs:95 | as written, '0' is accepted with rank 0 (so `index` underflows) and '1' is accepted with the joker's rank |
| CamelCards.CardOf | day07_camel_cards/src/main.rs:93-101 | every accepted card is playable |
| CamelCards.CardOfRanks | day07_camel_cards/src/main.rs:93-101 | the digits 2 to 9 and T, J, Q, K, A are accepted and nothing else; a card's rank is at least 1, only 'J' (read as the wild joker X) lands in slot 0, and other characters are kept as the face |
| CamelCards.CompareNat | day07_camel_cards/src/main.rs:111-113 | Less exactly when smaller, Equal exactly when equal |
| CamelCards.CompareCardSeqsLaws | day07_camel_cards/src/main.rs:192 | the lexicographic comparison of card arrays by rank is antisymmetric, equal only on equal arrays, and transitive |
| CamelCards.TypeRank | day07_camel_cards/src/main.rs:232-243 | hand type ranks run from 0 (HighCard) to 6 (FiveOfAKind) |
| CamelCards.TypeRankInjective | day07_camel_cards/src/main.rs:232-255 | distinct hand types have distinct ranks, so their order is total |
| CamelCards.Promote | day07_camel_cards/src/main.rs:221-227 | one joker never lowers the type and raises every type except FiveOfAKind |
| CamelCards.WithJokers | day07_camel_cards/src/main.rs:217-230 | the loop applies one promotion per joker |
| CamelCards.PromotedLaws | day07_camel_cards/src/main.rs:217-230 | zero jokers change nothing, more jokers never give a lower type, and FiveOfAKind is a fixed point |
| CamelCards.PromotedFour | day07_camel_cards/src/main.rs:217-230 | four or more jokers always make FiveOfAKind |
| CamelCards.CountsOf | day07_camel_cards/src/main.rs:140-143 | the count array has 14 slots |
| CamelCards.CountsOfMeaning | day07_camel_cards/src/main.rs:140-143 | slot k counts the cards whose index is k |
| CamelCards.InSlotStep | day07_camel_cards/src/main.rs:141-143 | one more card adds one to its own slot only |
| CamelCards.SumUpdate | day07_camel_cards/src/main.rs:142 | updating one slot changes the total by the difference |
| CamelCards.CountsTotal | day07_camel_cards/src/main.rs:140-143 | the counts add up to the number of cards |
| CamelCards.MaxOf | day07_camel_cards/src/main.rs:148 | the maximum of the non-joker counts is one of them and bounds them all; 0 for none |
| CamelCards.HandTypeOf | day07_camel_cards/src/main.rs:137-176 | the counting loop and the case split give the hand's type: the base type from the largest non-joker count and the number of pairs, promoted once per joker |
| CamelCards.FiveEqualCards | day07_camel_cards/src/main.rs:137-176 | five equal cards, jokers included, are FiveOfAKind |
| CamelCards.AllInOneSlot | day07_camel_cards/src/main.rs:147-172 | with all five cards in one slot the promoted base type is FiveOfAKind |
| CamelCards.SumBound | day07_camel_cards/src/main.rs:148 | no slot holds more than the total |
| CamelCards.CompareHandsLaws | day07_camel_cards/src/main.rs:189-196 | hands compare by type first, then by their cards; this order is antisymmetric, equal only on equal hands, and transitive |
| CamelCards.HandOf | day07_camel_cards/src/main.rs:126-135 | an accepted hand has five cards, each with a face `rank` knows ('0' and '1' included, as `try_from` accepts them) |
| CamelCards.CardsOf | day07_camel_cards/src/main.rs:131-133 | one card per character, each with a face `rank` knows |
| CamelCards.CardsOfSpec | day07_camel_cards/src/main.rs:131-133 | the characters are accepted exactly when `try_from` as written accepts each, and the k-th card is the k-th character's card |
| CamelCards.ParseHand | day07_camel_cards/src/main.rs:126-135 | the loop returns an error unless there are exactly 5 characters, each a card, and otherwise the hand of those cards |
| CamelCards.HandOfValid | day07_camel_cards/src/main.rs:93-101 | a text reads as a hand the ranking takes exactly when it has five characters that the corrected card rule accepts |
| CamelCards.HandOfLowDigits | day07_camel_cards/src/main.rs:95 | "1AAAA" and "0AAAA" read as hands, which the ranking does not take |
| CamelCards.CardsOfPrefix | day07_camel_cards/src/main.rs:131-133 | the first bad character decides the error |
| CamelCards.AtMostLaws | day07_camel_cards/src/main.rs:52 | the order `sort` uses on (hand, bid) pairs (hand first, then bid) is total, antisymmetric and transitive |
| CamelCards.Insert | day07_camel_cards/src/main.rs:52 | inserting a pair gives the same multiset plus that pair |
| CamelCards.InsertHead | day07_camel_cards/src/main.rs:52 | inserting adds one pair, and the head is the new pair or the old head |
| CamelCards.InsertSorted | day07_camel_cards/src/main.rs:52 | inserting into a sorted sequence keeps it sorted |
| CamelCards.SortedPairwise | day07_camel_cards/src/main.rs:52 | in a sorted sequence every earlier pair is at most every later one |
| CamelCards.Unranked | day07_camel_cards/src/main.rs:53-60 | dropping the ranks keeps the length |
| CamelCards.UnrankedAt | day07_camel_cards/src/main.rs:53-60 | the k-th pair is the k-th ranked hand's hand and bid |
| CamelCards.SortBids | day07_camel_cards/src/main.rs:52 | the sorted pairs are a permutation of the input, ordered by hand and then by bid |
| CamelCards.RankHands | day07_camel_cards/src/main.rs:50-61 | `rank` returns the same (hand, bid) multiset sorted ascending, with ranks 1..n in order |
| CamelCards.RankedAppend | day07_camel_cards/src/main.rs:53-60 | dropping ranks distributes over appending |
| CamelCards.RankOrder | day07_camel_cards/src/main.rs:50-61 | a lower rank never goes to a stronger hand |
| HauntedWasteland.DirectionOf | aoc08_haunted_wasteland/src/main.rs:146-156 | only 'L' and 'R' are accepted, 'L' as Left and 'R' as Right |
| HauntedWasteland.DirectionsOfChars | aoc08_haunted_wasteland/src/main.rs:136-138 | a direction line parses exactly when every character is 'L' or 'R', one direction per character |
| HauntedWasteland.DirectionsText | aoc08_haunted_wasteland/src/main.rs:136-138 | the rendering of directions has one character per direction |
| HauntedWasteland.DirectionsRoundTrip | aoc08_haunted_wasteland/src/main.rs:136-156 | rendered directions parse back to themselves |
| HauntedWasteland.ListLoop.constructor | aoc08_haunted_wasteland/src/main.rs:164-166 | a new loop over the list has made no calls |
| HauntedWasteland.ListLoop.Next | aoc08_haunted_wasteland/src/main.rs:172-182 | `None` and no change for an empty list; otherwise the k-th call returns `list[k mod len]`, and the index stays below the length |
| HauntedWasteland.Cycle | aoc08_haunted_wasteland/src/main.rs:169-182 | the first `count` items of the endless loop: item k is `list[k mod len]` |
| HauntedWasteland.Take | aoc08_haunted_wasteland/src/main.rs:169-182 | calling `next` `count` times on a fresh loop yields exactly that cycle |
| HauntedWasteland.LineRoundTrip | aoc08_haunted_wasteland/src/main.rs:49-54 | a rendered "NODE = (LEFT, RIGHT)" line parses back to its three names |
| HauntedWasteland.TrimOpen | aoc08_haunted_wasteland/src/main.rs:53 | trimming the leading "(" leaves the left name |
| HauntedWasteland.TrimClose | aoc08_haunted_wasteland/src/main.rs:53 | trimming the trailing ")" leaves the right name |
| HauntedWasteland.LinesOf | aoc08_haunted_wasteland/src/main.rs:48-58 | a successful parse gives one line per text |
| HauntedWasteland.Names | aoc08_haunted_wasteland/src/main.rs:50-56 | the names in the order `add_node` sees them: node, left, right per line |
| HauntedWasteland.DedupSame | aoc08_haunted_wasteland/src/main.rs:40-46 | the numbered names are exactly the names seen |
| HauntedWasteland.IndexOf | aoc08_haunted_wasteland/src/main.rs:40-46 | the position of the first occurrence, or the length when absent |
| HauntedWasteland.IndexOfDistinct | aoc08_haunted_wasteland/src/main.rs:40-46 | in a list without repeats, the index of the k-th element is k |
| HauntedWasteland.IndexOfPrefix | aoc08_haunted_wasteland/src/main.rs:40-46 | appending does not move an element already present |
| HauntedWasteland.IndexOfLonger | aoc08_haunted_wasteland/src/main.rs:40-46 | extending the list does not move an element already present |
| HauntedWasteland.DedupOrder | aoc08_haunted_wasteland/src/main.rs:39-46 | each distinct name gets one index, in order of first appearance |
| HauntedWasteland.EdgesOfSpec | aoc08_haunted_wasteland/src/main.rs:48-58 | every edge belongs to a named node and points at two valid node indices |
| HauntedWasteland.EdgesOfLast | aoc08_haunted_wasteland/src/main.rs:57 | a node's edge comes from its last line: the indices of its left and right names |
| HauntedWasteland.NetworkOfWellFormed | aoc08_haunted_wasteland/src/main.rs:35-64 | a parsed network has distinct nodes and edges that point inside it |
| HauntedWasteland.LeftOf | aoc08_haunted_wasteland/src/main.rs:111-114 | the left neighbour of a node with an edge is a node of the network |
| HauntedWasteland.RightOf | aoc08_haunted_wasteland/src/main.rs:116-119 | the right neighbour of a node with an edge is a node of the network |
| HauntedWasteland.LeftRightOfParsed | aoc08_haunted_wasteland/src/main.rs:35-64 | in a parsed network `left` and `right` of a node give the names on its (last) line |
| HauntedWasteland.NamesAt | aoc08_haunted_wasteland/src/main.rs:50-56 | every name on a line is among the names seen |
| HauntedWasteland.DedupStep | aoc08_haunted_wasteland/src/main.rs:41-45 | a new name is numbered next; a known one keeps its number |
| HauntedWasteland.NumberedGrow | aoc08_haunted_wasteland/src/main.rs:41-45 | numbering a new name with the counter and incrementing it keeps the numbering consistent |
| HauntedWasteland.AddNode | aoc08_haunted_wasteland/src/main.rs:40-46 | a known name keeps its index and the counter stays; a new one gets the counter, which is then incremented; the result is the name's index in order of first appearance |
| HauntedWasteland.NamesStep | aoc08_haunted_wasteland/src/main.rs:50-56 | one more line adds its node, left and right names |
| HauntedWasteland.EdgesOfWider | aoc08_haunted_wasteland/src/main.rs:48-58 | numbering more names later does not change the edges |
| HauntedWasteland.EdgesOfStep | aoc08_haunted_wasteland/src/main.rs:57 | one more line sets that node's edge and keeps the others |
| HauntedWasteland.AddNodeAndLeft | aoc08_haunted_wasteland/src/main.rs:51-55 | numbering the node and its left name gives the left name's index |
| HauntedWasteland.AddLine | aoc08_haunted_wasteland/src/main.rs:48-58 | one loop turn keeps the numbering and the edge map equal to their specifications |
| HauntedWasteland.ListByIndex | aoc08_haunted_wasteland/src/main.rs:59-62 | placing each name at its index gives the names in order of first appearance |
| HauntedWasteland.Parse | aoc08_haunted_wasteland/src/main.rs:35-64 | the loop returns what the line-wise specification gives: the first malformed line's error, or the numbered nodes and their edges |
| HauntedWasteland.LinesOfPrefix | aoc08_haunted_wasteland/src/main.rs:48-58 | the first malformed line decides the error |
| HauntedWasteland.Follow | aoc08_haunted_wasteland/src/main.rs:98-101 | following a direction gives a node of the network exactly when the node has a line of its own; otherwise nothing, where `unwrap` panics |
| HauntedWasteland.StepAll | aoc08_haunted_wasteland/src/main.rs:97-102 | one step moves every current node, staying in the network, exactly when every current node has a line; otherwise nothing |
| HauntedWasteland.CanMoveCons | aoc08_haunted_wasteland/src/main.rs:97-102 | a list of nodes can all move exactly when its first node has a line and the rest can all move |
| HauntedWasteland.Walk | aoc08_haunted_wasteland/src/main.rs:86-107 | a walk that does not fail keeps one node per start |
| HauntedWasteland.Starts | aoc08_haunted_wasteland/src/main.rs:83 | the starts are nodes of the network |
| HauntedWasteland.AllAtEnd | aoc08_haunted_wasteland/src/main.rs:87 | the loop decides whether all current nodes are end nodes |
| HauntedWasteland.AnyBack | aoc08_haunted_wasteland/src/main.rs:91 | the loop decides whether some node is back at its own start |
| HauntedWasteland.StepEach | aoc08_haunted_wasteland/src/main.rs:97-102 | the in-place loop over the nodes computes one step of all of them |
| HauntedWasteland.StepAllOf | aoc08_haunted_wasteland/src/main.rs:97-102 | nodes each moved once along the direction are the step of the whole list |
| HauntedWasteland.Traverse | aoc08_haunted_wasteland/src/main.rs:81-109 | the loop returns what `traverse_until`'s specification gives for the direction sequence: a step count, nothing, or an error where a node without a line has to move |
| HauntedWasteland.WalkFirst | aoc08_haunted_wasteland/src/main.rs:86-107 | walking m directions is one step followed by the other m-1 |
| HauntedWasteland.UntilSome | aoc08_haunted_wasteland/src/main.rs:86-107 | a reported count is the first number of steps after which every node is an end node, and every walk up to it succeeds |
| HauntedWasteland.TraverseSome | aoc08_haunted_wasteland/src/main.rs:81-109 | `Some(s)` means s is below the number of directions, the walk of s directions succeeds with all nodes on end nodes, and every shorter walk succeeds with some node not on one |
| HauntedWasteland.TraverseAtOnce | aoc08_haunted_wasteland/src/main.rs:81-109 | no directions give `None`; otherwise `Some(0)` exactly when all starts are end nodes |
| HauntedWasteland.UntilBack | aoc08_haunted_wasteland/src/main.rs:90-95 | after at least one step, a node back at its own start before all are at an end gives `None` |
| HauntedWasteland.UntilExtend | aoc08_haunted_wasteland/src/main.rs:81-109 | a count found within some directions stays the count with more directions |
| HauntedWasteland.UntilClosed | aoc08_haunted_wasteland/src/main.rs:86-107 | when every node has a line, the walk never fails |
| HauntedWasteland.TraverseClosed | aoc08_haunted_wasteland/src/main.rs:81-109 | when every node has a line, `traverse_until` never panics |
| HauntedWasteland.OneLine | aoc08_haunted_wasteland/src/main.rs:35-64 | the network of `AAA = (BBB, BBB)` is well formed but BBB has no line |
| HauntedWasteland.OneLineParsed | aoc08_haunted_wasteland/src/main.rs:35-64 | `parse` reads that network from the single line |
| HauntedWasteland.TraverseOneLine | aoc08_haunted_wasteland/src/main.rs:81-109 | from AAA to BBB on that network the answer is one step, though BBB has no line |
| HauntedWasteland.TraverseAsWritten | aoc08_haunted_wasteland/src/main.rs:66-79 | as written (both directions follow the left edge), a walk that does not fail ends at the node itself or a node of the network |
| HauntedWasteland.TraverseFrom | aoc08_haunted_wasteland/src/main.rs:66-79 | with Right following the right edge, a walk that does not fail ends at the node itself or a node of the network |
| HauntedWasteland.TraverseFromWalk | aoc08_haunted_wasteland/src/main.rs:66-79 | the corrected walk from one node agrees with the walk `traverse_until` makes |
| HauntedWasteland.TraverseRightGoesLeft | aoc08_haunted_wasteland/src/main.rs:73-75 | in the network AAA = (BBB, CCC), going Right from AAA ends at BBB as written and at CCC corrected |
| Mirage.Differences | day09_mirage_maintenance/src/main.rs:38-40 | the difference row is one shorter than a non-empty history (empty for an empty one) |
| Mirage.DifferencesAt | day09_mirage_maintenance/src/main.rs:38-40 | element i of the difference row is h[i+1] - h[i] |
| Mirage.AllZeroAt | day09_mirage_maintenance/src/main.rs:49 | a row is all zero exactly when every element is 0 (the empty row included) |
| Mirage.RowsStep | day09_mirage_maintenance/src/main.rs:46-58 | a non-zero difference row contributes its first and last element in front of those of the rows below it |
| Mirage.Extrapolate | day09_mirage_maintenance/src/main.rs:34-70 | an error exactly for an empty history (the panic); otherwise (prev, next) as the difference-row specification defines them, the loop stopping at the first all-zero or empty row |
| Mirage.AltFoldShift | day09_mirage_maintenance/src/main.rs:61-67 | the indexed fold adds or subtracts the alternating sum by the parity of its starting index |
| Mirage.AltSumCons | day09_mirage_maintenance/src/main.rs:61-67 | the alternating sum of a0, a1, ... is a0 minus the alternating sum of the rest |
| Mirage.NextFromStack | day09_mirage_maintenance/src/main.rs:60 | next = last + the sum of the last elements of each non-zero difference row |
| Mirage.PrevFromStack | day09_mirage_maintenance/src/main.rs:61-67 | prev = first - the alternating sum of the first elements of each non-zero difference row |
| Mirage.ConstantHistory | day09_mirage_maintenance/src/main.rs:46-67 | a constant history extrapolates to that constant in both directions |
| Mirage.LinearDifferences | day09_mirage_maintenance/src/main.rs:38-40 | the differences of an arithmetic sequence are its step |
| Mirage.LinearEnds | day09_mirage_maintenance/src/main.rs:60-61 | the ends of an arithmetic sequence a + b*i |
| Mirage.LinearHistory | day09_mirage_maintenance/src/main.rs:34-70 | an arithmetic sequence a + b*i of two or more values extrapolates to a + b*n forward and a - b backward |
| Mirage.ParsedInts | day09_mirage_maintenance/src/main.rs:30-32 | the tokens parse exactly when each is a decimal integer, one value per token |
| Mirage.ParseHistory | day09_mirage_maintenance/src/main.rs:30-32 | an empty line gives the empty history, and a line with a token that is not an integer is an error |
| Mirage.IntText | day09_mirage_maintenance/src/main.rs:31 | a rendered integer is non-empty and holds no space |
| Mirage.IntTextRoundTrip | day09_mirage_maintenance/src/main.rs:31 | a rendered integer parses back to itself, negative ones included |
| Mirage.Texts | day09_mirage_maintenance/src/main.rs:31 | one text per value |
| Mirage.TextsLackSpace | day09_mirage_maintenance/src/main.rs:31 | no rendered value holds the separator |
| Mirage.ParsedIntsText | day09_mirage_maintenance/src/main.rs:31 | rendered values parse back |
| Mirage.ParseHistoryText | day09_mirage_maintenance/src/main.rs:30-32 | a space-separated rendered history parses back to itself |
| PipeMaze.OpeningsSides | day10_pipe_maze/src/main.rs:33-50 | a character is a pipe exactly when it opens somewhere: '-', the vertical bar, 'F', 'J', 'L', '7' onto their two sides, 'S' onto all four; the listed neighbours are distinct, one per open side |
| PipeMaze.OpeningsDistinct | day10_pipe_maze/src/main.rs:33-50 | a pipe never lists the same neighbour twice |
| PipeMaze.Connect | day10_pipe_maze/src/main.rs:52-59 | the de-duplicating push keeps exactly the listed neighbours, without repeats, in order when they were distinct already |
| PipeMaze.Keep | day10_pipe_maze/src/main.rs:79 | `retain` keeps exactly the links not marked for removal |
| PipeMaze.TwoWaySymmetric | day10_pipe_maze/src/main.rs:62-79 | after one-way links are dropped every pipe keeps its entry, a link survives exactly when it is answered, and the relation is symmetric |
| PipeMaze.FindOneWay | day10_pipe_maze/src/main.rs:64-76 | the nested loop marks exactly the unanswered links |
| PipeMaze.Retain | day10_pipe_maze/src/main.rs:79 | the loop over one list keeps what `retain` keeps |
| PipeMaze.DropOneWay | day10_pipe_maze/src/main.rs:79 | dropping the marked links from every list leaves the two-way table |
| PipeMaze.FrontierStart | day10_pipe_maze/src/main.rs:80-81 | the search starts with the start on the stack and nothing seen |
| PipeMaze.FrontierSeen | day10_pipe_maze/src/main.rs:82-83 | popping a cell already seen keeps the search invariant |
| PipeMaze.FrontierNew | day10_pipe_maze/src/main.rs:82-87 | popping a new cell marks it and pushes its links, keeping the search invariant |
| PipeMaze.FewerUnseen | day10_pipe_maze/src/main.rs:82-88 | marking a new cell shrinks the unseen cells, so the search ends |
| PipeMaze.ReachStep | day10_pipe_maze/src/main.rs:82-87 | one pop keeps the invariant and makes progress |
| PipeMaze.Reach | day10_pipe_maze/src/main.rs:80-88 | the stack search returns exactly the cells reachable from the start through links |
| PipeMaze.Maze.Distances | day10_pipe_maze/src/main.rs:135-153 | the breadth-first search records the start at 0 and every cell met at the length of a walk to it, and no link leads to a cell more than one farther |
| PipeMaze.Maze.FarthestLocation | day10_pipe_maze/src/main.rs:135-160 | the result is a cell at its shortest distance, as far as any reachable cell, and the last in coordinate order among the equally far ones (the stable sort's last element) |
| PipeMaze.Maze.StartChar | day10_pipe_maze/src/main.rs:233-249 | the pipe whose two openings are the sides the start's links lie on; `None` (the panic) for a start without links or with links on other than two sides |
| PipeMaze.Maze.Grid | day10_pipe_maze/src/main.rs:172-179 | the scanned grid has `height` rows of `width` cells |
| PipeMaze.Maze.InteriorArea | day10_pipe_maze/src/main.rs:162-231 | the loops return the scanline count of the grid or its first illegal state, and the area is at most height * width |
| PipeMaze.Maze.ScanAt | day10_pipe_maze/src/main.rs:179-222 | one cell follows the scanline rule, the start tile read as the pipe it stands for |
| PipeMaze.Maze.ScanRow | day10_pipe_maze/src/main.rs:173-224 | one row, starting outside and not squeezing, counts what the rule counts |
| PipeMaze.ScanLine | day10_pipe_maze/src/main.rs:24-61 | one line of the scan keeps the gathered table, tiles and last start equal to their specifications |
| PipeMaze.ScanCell | day10_pipe_maze/src/main.rs:27-60 | one character of the scan keeps that invariant |
| PipeMaze.GatheredCell | day10_pipe_maze/src/main.rs:33-59 | a pipe character records its tile and its openings; any other character is skipped |
| PipeMaze.LastStartCell | day10_pipe_maze/src/main.rs:34-35 | an 'S' becomes the start, so the last 'S' wins |
| PipeMaze.ParseMaze | day10_pipe_maze/src/main.rs:18-92 | an error exactly when there is no 'S'; otherwise height is the line count, width the last line's length, the start the last 'S', the links the symmetric two-way table, and the tiles kept exactly the reachable pipes with their characters |
| PipeMaze.RestrictKeys | day10_pipe_maze/src/main.rs:90 | `retain` on the tiles keeps exactly the reached keys |
| PipeMaze.RawTableScanned | day10_pipe_maze/src/main.rs:24-61 | after all lines the table is the raw connection table and the start is the last 'S', if any |
| PipeMaze.SearchDone | day10_pipe_maze/src/main.rs:139-153 | with the queue empty, the recorded distances are those `Distances` promises |
| PipeMaze.SearchStart | day10_pipe_maze/src/main.rs:136-138 | the breadth-first invariant holds with only the start queued at 0 |
| PipeMaze.Tagged | day10_pipe_maze/src/main.rs:150-152 | every link is queued at the next distance |
| PipeMaze.PushAll | day10_pipe_maze/src/main.rs:150-152 | the loop appends the tagged links to the queue |
| PipeMaze.SeenAgain | day10_pipe_maze/src/main.rs:140-143 | a cell met again was recorded no farther, so `min` keeps its distance |
| PipeMaze.PendingAgain | day10_pipe_maze/src/main.rs:140-143 | dropping a cell met again keeps the pending part of the invariant |
| PipeMaze.SoundFirst | day10_pipe_maze/src/main.rs:144-152 | recording a new cell keeps every recorded distance the length of a walk |
| PipeMaze.OrderedFirst | day10_pipe_maze/src/main.rs:139-152 | the queue stays ordered by distance, within one of the head |
| PipeMaze.PendingFirst | day10_pipe_maze/src/main.rs:144-152 | the links of every recorded cell stay recorded or queued |
| PipeMaze.InUniverse | day10_pipe_maze/src/main.rs:148-152 | a linked cell is among the cells the search can meet |
| PipeMaze.BoundedFirst | day10_pipe_maze/src/main.rs:139-152 | queued and recorded cells stay among those, and a new cell shrinks what is left |
| PipeMaze.FirstSeen | day10_pipe_maze/src/main.rs:144-152 | recording a new cell keeps the invariant and makes progress |
| PipeMaze.Visit | day10_pipe_maze/src/main.rs:139-153 | one turn of the loop keeps the invariant and makes progress |
| PipeMaze.VisitAgain | day10_pipe_maze/src/main.rs:140-143 | a cell met again changes no distance |
| PipeMaze.VisitNew | day10_pipe_maze/src/main.rs:144-152 | a new cell is recorded and its links queued |
| PipeMaze.WalkBound | day10_pipe_maze/src/main.rs:135-153 | no walk reaches a cell in fewer steps than recorded |
| PipeMaze.DistancesShortest | day10_pipe_maze/src/main.rs:135-153 | the recorded distances are exactly the shortest walk lengths |
| PipeMaze.Farthest | day10_pipe_maze/src/main.rs:154-159 | the cell the sort puts last: greatest distance, then greatest coordinates |
| PipeMaze.TileFor | day10_pipe_maze/src/main.rs:240-248 | a pipe exactly when two of the four sides are open, and then the one opening onto them |
| PipeMaze.SidesOfCount | day10_pipe_maze/src/main.rs:236-240 | the number of open sides is the number of true flags |
| PipeMaze.Cross | day10_pipe_maze/src/main.rs:184-213 | crossing a pipe fails exactly for an illegal combination of run and pipe; afterwards a run is open exactly after 'F', 'L' or '-' |
| PipeMaze.Gaps | day10_pipe_maze/src/main.rs:214-222 | the cells off the loop are no more than the cells |
| PipeMaze.ScanCells | day10_pipe_maze/src/main.rs:176-223 | only cells off the loop are counted |
| PipeMaze.ScanNext | day10_pipe_maze/src/main.rs:176-223 | the scan of one more cell is one more step of the rule |
| PipeMaze.RowCount | day10_pipe_maze/src/main.rs:172-224 | a row never counts more than its cells off the loop |
| PipeMaze.AreaBound | day10_pipe_maze/src/main.rs:162-231 | the area is at most height * width |
| PipeMaze.ScanCellsErr | day10_pipe_maze/src/main.rs:210-212 | the first illegal cell decides the error |
| PipeMaze.AreaErr | day10_pipe_maze/src/main.rs:210-212 | the first row with an illegal cell decides the error |
| PipeMaze.RunOpen | day10_pipe_maze/src/main.rs:189-195 | 'F' or 'L' followed by dashes opens a run toward the pipe above or below |
| PipeMaze.RunCrossing | day10_pipe_maze/src/main.rs:184-209 | the vertical bar, F…J and L…7 toggle inside; F…7 and L…J do not |
| PipeMaze.RunClose | day10_pipe_maze/src/main.rs:189-209 | a run closes with a toggle exactly when it bends back the other way |
| CosmicExpansion.DistanceMetric | day11_cosmic_expansion/src/main.rs:83-85 | the Manhattan distance is 0 exactly for equal points, symmetric, and obeys the triangle inequality |
| CosmicExpansion.SeenStep | day11_cosmic_expansion/src/main.rs:39-46 | one more character adds its position when it is '#' and nothing otherwise |
| CosmicExpansion.SeenRow | day11_cosmic_expansion/src/main.rs:36-48 | the end of a line is the start of the next |
| CosmicExpansion.SeenAll | day11_cosmic_expansion/src/main.rs:36-48 | after all lines the scan holds exactly the galaxies, and it met only '#' and '.' exactly when the text is clean |
| CosmicExpansion.GalaxiesOfSpec | day11_cosmic_expansion/src/main.rs:39-43 | (x, y) is a galaxy exactly when line y has '#' at column x |
| CosmicExpansion.ParsedInBounds | day11_cosmic_expansion/src/main.rs:32-50 | with lines of equal length every galaxy lies inside width × height |
| CosmicExpansion.CountBelow | day11_cosmic_expansion/src/main.rs:67-68 | the number of empty columns left of x is at most their number |
| CosmicExpansion.MoveMonotone | day11_cosmic_expansion/src/main.rs:67-69 | shifting keeps the order of coordinates strictly |
| CosmicExpansion.MoveInjective | day11_cosmic_expansion/src/main.rs:67-69 | distinct coordinates stay distinct |
| CosmicExpansion.ShiftInjective | day11_cosmic_expansion/src/main.rs:66-70 | distinct galaxies stay distinct after the shift |
| CosmicExpansion.ExpandedAdd | day11_cosmic_expansion/src/main.rs:66-70 | the expanded set gains one shifted galaxy per galaxy |
| CosmicExpansion.ExpandedCount | day11_cosmic_expansion/src/main.rs:66-70 | `expand` keeps the number of galaxies |
| CosmicExpansion.ExpandedByNothing | day11_cosmic_expansion/src/main.rs:62-70 | factor 1 leaves the galaxies where they are |
| CosmicExpansion.MoveDistance | day11_cosmic_expansion/src/main.rs:67-69 | the gap between two shifted coordinates grows by factor-1 per empty line between them |
| CosmicExpansion.ExpandedDistance | day11_cosmic_expansion/src/main.rs:66-85 | the distance of two expanded galaxies is their old distance plus factor-1 per empty column and empty row between them |
| CosmicExpansion.ExpandedInBounds | day11_cosmic_expansion/src/main.rs:52-71 | expanded galaxies lie inside the grown width and height |
| CosmicExpansion.DistanceToRemove | day11_cosmic_expansion/src/main.rs:73-81 | the distances from one galaxy to a set split off any member |
| CosmicExpansion.PairDistancesRemove | day11_cosmic_expansion/src/main.rs:73-81 | the sum over unordered pairs splits into the pairs with one galaxy and the pairs of the rest |
| CosmicExpansion.PairDistancesOfTwo | day11_cosmic_expansion/src/main.rs:73-81 | two galaxies give their one distance |
| CosmicExpansion.Image.constructor | day11_cosmic_expansion/src/main.rs:24-29 | an image holds the given width, height and galaxies |
| CosmicExpansion.Image.Parse | day11_cosmic_expansion/src/main.rs:32-50 | an error exactly when a character other than '#' and '.' occurs; otherwise width is the last line's length, height the line count, and the galaxies the '#' positions |
| CosmicExpansion.Image.Expand | day11_cosmic_expansion/src/main.rs:52-71 | width and height grow by factor-1 per empty column and row, and each galaxy shifts by factor-1 per empty column left of it and empty row above it |
| CosmicExpansion.Image.SumOfDistances | day11_cosmic_expansion/src/main.rs:73-81 | the sum of `distance` over unordered pairs of distinct galaxies |
| CosmicExpansion.Moved | day11_cosmic_expansion/src/main.rs:66-70 | the loop over the taken galaxies reinserts exactly their shifted positions |
| CosmicExpansion.MissingOf | day11_cosmic_expansion/src/main.rs:53-60 | the loops collect exactly the lines below the bound that hold no galaxy |
| CosmicExpansion.DistanceSum | day11_cosmic_expansion/src/main.rs:77-79 | the inner loop adds the distances from one galaxy to the others |
| HotSprings.SpringOf | day12_hot_springs/src/main.rs:58-69 | exactly '.', '#' and '?' decode to a spring, and a decoded spring prints back as the same character |
| HotSprings.SpringRoundTrip | day12_hot_springs/src/main.rs:49-69 | decoding the character a spring prints as gives that spring back |
| HotSprings.SpringsOf | day12_hot_springs/src/main.rs:91-96 | a springs field decodes iff every character is a spring character, and then spring by spring to the same characters |
| HotSprings.Chars | day12_hot_springs/src/main.rs:49-55 | the printed field has one character per spring, each the spring's own character |
| HotSprings.SpringsRoundTrip | day12_hot_springs/src/main.rs:91-96 | decoding a printed springs field gives the springs back |
| HotSprings.CountsOf | day12_hot_springs/src/main.rs:98-101 | a decoded count list has one count per comma-separated piece |
| HotSprings.ParseRow | day12_hot_springs/src/main.rs:90-106 | a parsed row has at least one spring and at least one count |
| HotSprings.CountsRoundTrip | day12_hot_springs/src/main.rs:98-101 | decoding a non-empty list of counts joined by commas gives the counts back |
| HotSprings.ParseRowText | day12_hot_springs/src/main.rs:90-106 | parsing the text of a row (springs, a space, comma-separated counts) gives back its springs and counts |
| HotSprings.IsValid | day12_hot_springs/src/main.rs:118-130 | a row is accepted iff it has at least as many damaged runs as counts and its first runs have exactly the listed lengths |
| HotSprings.RunsFromSum | day12_hot_springs/src/main.rs:118-124 | in a row without unknown springs every run is non-empty and the run lengths add up to the number of damaged springs |
| HotSprings.ExactWhenAllCounted | day12_hot_springs/src/main.rs:118-130 | when a fully known row has as many damaged springs as the counts add up to, acceptance means its runs are exactly the counts |
| HotSprings.GetDamaged | day12_hot_springs/src/main.rs:132-143 | the filled row has the chosen springs damaged, every other unknown spring working and every known spring unchanged |
| HotSprings.UnknownsUpTo | day12_hot_springs/src/main.rs:132-136 | the positions collected are exactly the unknown springs before the bound, in increasing order |
| HotSprings.FillDamaged | day12_hot_springs/src/main.rs:132-147 | filling in increasing unknown positions leaves no unknown spring and adds exactly that many damaged springs |
| HotSprings.FillKnown | day12_hot_springs/src/main.rs:132-143 | a filled row has no unknown spring |
| HotSprings.DamagedFill | day12_hot_springs/src/main.rs:132-147 | on every prefix the filled row has the original damaged springs plus the chosen ones in that prefix |
| HotSprings.CombinationsSpec | day12_hot_springs/src/main.rs:148-151 | the combinations of k unknown positions are exactly the increasing choices of k of them |
| HotSprings.CombinationsMember | day12_hot_springs/src/main.rs:148-151 | one choice is among the combinations iff it is k increasing positions from the list |
| HotSprings.CombinationsSound | day12_hot_springs/src/main.rs:148-151 | every combination is k increasing positions from the list |
| HotSprings.CombinationsComplete | day12_hot_springs/src/main.rs:148-151 | every choice of k increasing positions from the list is among the combinations |
| HotSprings.CombinationsDistinct | day12_hot_springs/src/main.rs:148-151 | no combination is produced twice |
| HotSprings.CountValidSet | day12_hot_springs/src/main.rs:148-153 | counting the accepted choices in a list without repeats gives the size of the set of accepted choices |
| HotSprings.ArrangementsSpec | day12_hot_springs/src/main.rs:145-153 | an arrangement is exactly a choice of the missing number of unknown springs, in increasing order, whose filled row has exactly the listed runs |
| HotSprings.ChoiceOfUnknowns | day12_hot_springs/src/main.rs:132-151 | a choice among the unknown positions is a list of increasing positions of unknown springs |
| HotSprings.Row.constructor | day12_hot_springs/src/main.rs:83-87 | a row holds the given springs and counts |
| HotSprings.Row.Unfold | day12_hot_springs/src/main.rs:108-115 | unfolding repeats the counts five times and the springs five times with an unknown spring between copies |
| HotSprings.Row.Permutations | day12_hot_springs/src/main.rs:117-154 | fails exactly when the row already has more damaged springs than the counts add up to (the unsigned subtraction underflows); otherwise returns the number of arrangements |
| HotSprings.CountArrangements | day12_hot_springs/src/main.rs:148-153 | the count equals the number of arrangements of the given number of unknown springs |
| HotSprings.CountValidChoices | day12_hot_springs/src/main.rs:148-153 | the loop counts the accepted choices of the list |
| HotSprings.CycleTake | day12_hot_springs/src/main.rs:110-114 | taking five copies' worth from the cycled list gives the list five times over |
| PointOfIncidence.FirstBlank | day13_point_of_incidence/src/main.rs:73 | the index found is the first blank line, every line before it being non-blank |
| PointOfIncidence.Blocks | day13_point_of_incidence/src/main.rs:41-45 | grouping the lines on blank lines yields at least one pattern |
| PointOfIncidence.BlocksOk | day13_point_of_incidence/src/main.rs:67-80 | every pattern grouped has at least one line, each made of one or more '#' and '.' |
| PointOfIncidence.Parse | day13_point_of_incidence/src/main.rs:41-80 | a parsed input has at least one pattern; each pattern's height is its number of lines (at least one), its width the length of its first line, and its lines are made of '#' and '.' only |
| PointOfIncidence.BlocksInterleave | day13_point_of_incidence/src/main.rs:41-45 | grouping the lines of patterns joined with blank lines gives the patterns back |
| PointOfIncidence.InterleaveBlocks | day13_point_of_incidence/src/main.rs:41-45 | joining the grouped patterns with blank lines gives the lines back |
| PointOfIncidence.ParseRender | day13_point_of_incidence/src/main.rs:41-80 | parsing the text of patterns (lines joined by newlines, patterns by an empty line) gives those patterns back |
| PointOfIncidence.RenderParse | day13_point_of_incidence/src/main.rs:41-80 | any input the grammar accepts is exactly the text of the patterns it parses to |
| PointOfIncidence.MirroredNoMismatch | day13_point_of_incidence/src/main.rs:171-206 | a section is mirrored over a pivot iff no cell before the pivot differs from its mirror image |
| PointOfIncidence.Reverse | day13_point_of_incidence/src/main.rs:199 | the reversed run holds the same cells from the other end |
| PointOfIncidence.ZipEqual | day13_point_of_incidence/src/main.rs:199 | the zipped comparison holds iff the two sequences agree over their common length |
| PointOfIncidence.IsReflected | day13_point_of_incidence/src/main.rs:194-206 | a section is reflected over a pivot iff the pivot is not 0 and every cell before it equals its mirror image within the section |
| PointOfIncidence.ZipReflected | day13_point_of_incidence/src/main.rs:198-199 | comparing the reversed start with the end is the same as checking every mirror pair |
| PointOfIncidence.DifferencesShape | day13_point_of_incidence/src/main.rs:171-186 | the differences list two indices per mismatched pair, and a single mismatch lists the cell and its mirror |
| PointOfIncidence.SingleMismatch | day13_point_of_incidence/src/main.rs:171-188 | with exactly one mismatch the differences are that cell before the pivot and its mirror image after it, which differ |
| PointOfIncidence.FindError | day13_point_of_incidence/src/main.rs:171-192 | Some(None) iff the section is mirrored; Some(Some((i, j))) iff exactly one cell i before the pivot differs from its mirror j = 2p-1-i; None when two or more differ |
| PointOfIncidence.Column | day13_point_of_incidence/src/main.rs:82-88 | the column holds the cell at that column of each line, top to bottom |
| PointOfIncidence.ColumnsAt | day13_point_of_incidence/src/main.rs:82-88 | every column of the pattern is as tall as the pattern and holds the cells of that column |
| PointOfIncidence.PivotsSpec | day13_point_of_incidence/src/main.rs:90-166 | the pivots collected are exactly the pivots 1 to n-1 that mirror every section, in increasing order |
| PointOfIncidence.LastMax | day13_point_of_incidence/src/main.rs:100 | the position found holds a greatest key, and every later pivot has a strictly smaller key (max_by_key keeps the last maximum) |
| PointOfIncidence.MaxByKey | day13_point_of_incidence/src/main.rs:100-167 | there is no result exactly when there are no pivots |
| PointOfIncidence.MaxPivot | day13_point_of_incidence/src/main.rs:90-101 | the pivot with the greatest distance to the nearer edge is the best line of reflection |
| PointOfIncidence.BestPivotUnique | day13_point_of_incidence/src/main.rs:90-101 | at most one pivot meets the best-line-of-reflection description |
| PointOfIncidence.RowsReflected | day13_point_of_incidence/src/main.rs:93-97 | the inner loop reports true iff every row is mirrored over the pivot |
| PointOfIncidence.ColumnsReflected | day13_point_of_incidence/src/main.rs:159-164 | the inner loop reports true iff every column is mirrored over the pivot |
| PointOfIncidence.FindVertPivot | day13_point_of_incidence/src/main.rs:90-101 | nothing when no vertical pivot mirrors every row; otherwise the pivot that does with the greatest distance to the nearer edge, the last one on ties |
| PointOfIncidence.FindHorizPivot | day13_point_of_incidence/src/main.rs:156-168 | the same search over the columns: the best horizontal line of reflection, or nothing |
| PointOfIncidence.HorizMirrorsRows | day13_point_of_incidence/src/main.rs:156-168 | a horizontal pivot mirrors every column iff each row before it equals its mirror row |
| PointOfIncidence.SmudgedOne | day13_point_of_incidence/src/main.rs:104-128 | a pivot is a smudged line iff exactly one section has a single mismatch and every other section is mirrored |
| PointOfIncidence.NotSmudgedAt | day13_point_of_incidence/src/main.rs:108-110 | a section with two or more mismatches rules the pivot out |
| PointOfIncidence.NotSmudgedTwice | day13_point_of_incidence/src/main.rs:113-117 | two sections with one mismatch each rule the pivot out |
| PointOfIncidence.FindVertSmudgedPivot | day13_point_of_incidence/src/main.rs:104-128 | the first vertical pivot over which all rows but one are mirrored and that one has a single mismatch, or nothing when there is none |
| PointOfIncidence.FindHorizSmudge | day13_point_of_incidence/src/main.rs:130-154 | the first horizontal pivot that is a smudged line of reflection over the columns, or nothing |
| ParabolicReflector.InFrontKey | day14_parabolic_reflector/src/main.rs:147-163 | a point is in front of another iff it is on the same line of travel with a smaller sort key |
| ParabolicReflector.LaneKeyInjective | day14_parabolic_reflector/src/main.rs:156-163 | the line of travel and the sort key together pick out one point |
| ParabolicReflector.Stack | day14_parabolic_reflector/src/main.rs:165-184 | a stacked rock keeps its line of travel and comes to rest one step behind its blocker, or at the edge the tilt runs to when nothing blocks it |
| ParabolicReflector.AheadEdge | day14_parabolic_reflector/src/main.rs:165-184 | a cell on the platform has no cell ahead of it exactly at the edge the tilt runs to, and otherwise the cell ahead is on the platform |
| ParabolicReflector.StackRests | day14_parabolic_reflector/src/main.rs:165-184 | a stacked rock stays on the platform, never moves backwards, and the cell ahead of it is its blocker or off the platform |
| ParabolicReflector.CellsOfSpec | day14_parabolic_reflector/src/main.rs:88-108 | the cells recorded for a character are exactly the row-column positions holding it |
| ParabolicReflector.SeenAll | day14_parabolic_reflector/src/main.rs:90-105 | after the whole scan the cells recorded for a character are all its positions |
| ParabolicReflector.ParsedConsistent | day14_parabolic_reflector/src/main.rs:88-108 | when all lines have the same length the parsed round and cube rocks are disjoint and on the platform |
| ParabolicReflector.KeyOrderFirst | day14_parabolic_reflector/src/main.rs:113 | the key order of a set of rocks starts with the rock that comes before all others |
| ParabolicReflector.KeyOrderSorted | day14_parabolic_reflector/src/main.rs:113 | the key order has no rock twice and its sort keys never decrease |
| ParabolicReflector.SortByKey | day14_parabolic_reflector/src/main.rs:111-113 | the sorted rocks are the same rocks, each once, ordered by the tilt's sort key, and are the key order of the set |
| ParabolicReflector.Least | day14_parabolic_reflector/src/main.rs:113 | the rock picked comes before every rock left, by sort key and then by lane |
| ParabolicReflector.FindBlock | day14_parabolic_reflector/src/main.rs:117-121 | finds nothing when no occupied cell is in front of the rock, otherwise an occupied cell in front of it with the greatest sort key, the nearest one |
| ParabolicReflector.IsBlockUnique | day14_parabolic_reflector/src/main.rs:117-121 | the nearest occupied cell in front of a rock is unique, so the search has one answer |
| ParabolicReflector.NearestExists | day14_parabolic_reflector/src/main.rs:117-121 | when some occupied cell is in front of a rock, one of them has the greatest sort key among those in front |
| ParabolicReflector.StackKeepsSide | day14_parabolic_reflector/src/main.rs:165-184 | a stacked rock is past a cube rock of its lane exactly when it started past it |
| ParabolicReflector.KeptStep | day14_parabolic_reflector/src/main.rs:115-123 | putting back one more rock keeps, lane by lane and behind every cube rock, as many placed rocks as taken ones |
| ParabolicReflector.PlaceStep | day14_parabolic_reflector/src/main.rs:115-123 | placing the next rock on its blocker keeps the placed rocks disjoint from the cube rocks, on the platform, settled and never behind where they started |
| ParabolicReflector.TiltRocks | day14_parabolic_reflector/src/main.rs:110-124 | the rocks after the loop are the reference tilt of the rocks before it: as many, disjoint from the cube rocks and on the platform, each moved only forward along its line of travel, none able to roll further, and each lane and each stretch behind a cube rock holding as many rocks as before |
| ParabolicReflector.PutBack | day14_parabolic_reflector/src/main.rs:117-122 | one step of the tilt loop adds exactly the rock stacked on its nearest blocker among the cube rocks and the rocks already put back |
| ParabolicReflector.TiltedRun | day14_parabolic_reflector/src/main.rs:115-123 | putting back every rock of a key-ordered sequence leaves the placed rocks distinct, clear, settled, ahead of the rocks still to come and with the segment counts of the rocks taken |
| ParabolicReflector.KeyOrderClear | day14_parabolic_reflector/src/main.rs:111-115 | the rocks in key order are clear of the cube rocks and on the platform, and the reference tilt puts them back in that order |
| ParabolicReflector.PlacedAll | day14_parabolic_reflector/src/main.rs:110-124 | once every rock is put back the placed rocks are as many as the rocks, clear, settled, moved only forward and in the same segments |
| ParabolicReflector.TiltedKeeps | day14_parabolic_reflector/src/main.rs:110-124 | the reference tilt keeps the number of rocks and the count in each lane and behind each cube rock, moves each rock only forward and leaves them settled |
| ParabolicReflector.TiltPastCube | day14_parabolic_reflector/src/main.rs:165-184 | a rock below a cube rock in its column tilts north to the cell just south of the cube rock |
| ParabolicReflector.TiltTwoLanes | day14_parabolic_reflector/src/main.rs:110-124 | two rocks in different columns each roll to the north edge of their own column |
| ParabolicReflector.LoadRemove | day14_parabolic_reflector/src/main.rs:126-129 | the load is a rock's distance from the south edge plus the load of the others |
| ParabolicReflector.LoadBounds | day14_parabolic_reflector/src/main.rs:126-129 | each rock on the platform adds between 1 and the height to the load |
| ParabolicReflector.Platform.constructor | day14_parabolic_reflector/src/main.rs:62-68 | a platform holds the given rocks, cube rocks and size |
| ParabolicReflector.Platform.Parse | day14_parabolic_reflector/src/main.rs:88-108 | succeeds iff every character is 'O', '#' or '.'; then the round rocks and cube rocks are the cells holding 'O' and '#', the height is the number of lines and the width the length of the last line |
| ParabolicReflector.Platform.Tilt | day14_parabolic_reflector/src/main.rs:110-124 | the tilt keeps the cube rocks and the size; the new round rocks are the reference tilt of the old ones, as many, each moved only forward along its line of travel, settled, and as many per lane and behind each cube rock as before |
| ParabolicReflector.Platform.Load | day14_parabolic_reflector/src/main.rs:126-129 | the load is the sum over the round rocks of their distance from the south edge |
| LensLibrary.HashFold | day15_lens_library/src/main.rs:47-51 | folding from a value below 256 stays below 256 |
| LensLibrary.HashRange | day15_lens_library/src/main.rs:47-51 | every hash is a box number below 256, and the empty string hashes to 0 |
| LensLibrary.HashSnoc | day15_lens_library/src/main.rs:47-51 | hashing one more character applies one step (add the code, times 17, modulo 256) to the hash so far |
| LensLibrary.HashExample | day15_lens_library/src/main.rs:47-51 | "HASH" hashes to 52 |
| LensLibrary.HashSumBound | day15_lens_library/src/main.rs:14 | the sum of the hashes of the comma-separated steps is at most 255 per step |
| LensLibrary.IndexOfSpec | day15_lens_library/src/main.rs:67 | the search finds nothing iff no lens in the box has the label, otherwise the first lens with it |
| LensLibrary.LookupUnique | day15_lens_library/src/main.rs:65-72 | in a box with distinct labels the lens with a label is found at its own slot |
| LensLibrary.InsertedSpec | day15_lens_library/src/main.rs:65-72 | inserting keeps the labels distinct, maps the label to the new focal length, changes no other label, keeps every lens in its slot and appends a new label at the end |
| LensLibrary.RemovedFrom | day15_lens_library/src/main.rs:74-76 | every lens left after removal was in the box and does not carry the label |
| LensLibrary.RemovedAbsent | day15_lens_library/src/main.rs:74-76 | removing a label that is not in the box leaves the box unchanged |
| LensLibrary.RemovedSlot | day15_lens_library/src/main.rs:74-76 | removing a present label takes out exactly its slot, keeping the order of the others |
| LensLibrary.DeleteSlot | day15_lens_library/src/main.rs:74-76 | deleting one slot keeps the labels distinct, drops that label and leaves every other lookup unchanged |
| LensLibrary.RemovedSpec | day15_lens_library/src/main.rs:74-76 | after removal the label is gone, the labels stay distinct and every other label maps as before |
| LensLibrary.InsertIntoSpec | day15_lens_library/src/main.rs:65-72 | inserting into the map changes only the label's box, where the label now has the new focal length |
| LensLibrary.RemoveFromSpec | day15_lens_library/src/main.rs:74-76 | removing from the map changes only the label's box, where the label is now absent |
| LensLibrary.ApplyAllWellFormed | day15_lens_library/src/main.rs:20-27 | applying the commands keeps 256 boxes, each lens in the box its label hashes to, with distinct labels |
| LensLibrary.InsertPower | day15_lens_library/src/main.rs:33-72 | inserting a new label adds its box-times-slot-times-focal weight to the focusing power; replacing one swaps the old weight for the new |
| LensLibrary.LensMap.constructor | day15_lens_library/src/main.rs:59-63 | a new map has 256 empty boxes |
| LensLibrary.LensMap.Insert | day15_lens_library/src/main.rs:65-72 | the boxes after an insert are the insertion applied to the boxes before |
| LensLibrary.LensMap.Remove | day15_lens_library/src/main.rs:74-76 | the boxes after a remove are the removal applied to the boxes before |
| LensLibrary.LensMap.Run | day15_lens_library/src/main.rs:20-27 | the boxes after the loop are all the commands applied in order |
| LensLibrary.FocusingPowerOf | day15_lens_library/src/main.rs:17-43 | the focusing power summed is that of the boxes the commands build from empty boxes |
| LensLibrary.NoLensesPower | day15_lens_library/src/main.rs:33-42 | empty boxes have no focusing power |
| LensLibrary.LetterPrefixSpec | day15_lens_library/src/main.rs:102 | the label taken is the longest prefix of letters |
| LensLibrary.ParseCommand | day15_lens_library/src/main.rs:100-118 | a parsed command has a non-empty label of letters |
| LensLibrary.ParseCommandText | day15_lens_library/src/main.rs:100-118 | parsing the text of a command (label, '=' and a number, or label and '-') gives the command back |
| LensLibrary.ParseCommandMismatch | day15_lens_library/src/main.rs:106-113 | '=' without a number and '-' followed by a number are rejected |
| LensLibrary.ParseCommandsText | day15_lens_library/src/main.rs:120-124 | parsing a list of command texts gives the commands back |
| LensLibrary.ParseInputText | day15_lens_library/src/main.rs:120-124 | parsing commands joined by commas gives the commands back |
| FloorLava.OpticOf | day16_floor_lava/src/main.rs:70-82 | exactly '-', the vertical bar, '/' and '\\' decode to an optic, and a decoded optic prints back as the same character |
| FloorLava.OpticRoundTrip | day16_floor_lava/src/main.rs:38-82 | decoding the character an optic prints as gives that optic back |
| FloorLava.Deflect | day16_floor_lava/src/main.rs:47-61 | an optic sends light on in one or two directions |
| FloorLava.DeflectSplitter | day16_floor_lava/src/main.rs:47-61 | a splitter hit across its length splits the light into the two directions along it; hit along its length it lets the light pass |
| FloorLava.DeflectMirror | day16_floor_lava/src/main.rs:47-61 | a mirror turns the light by a right angle, and light sent back along the way out leaves the way it came in |
| FloorLava.Mark | day16_floor_lava/src/main.rs:204-233 | after marking, a cell records exactly the directions it recorded before plus the new one |
| FloorLava.MarkTwice | day16_floor_lava/src/main.rs:204-233 | marking the same direction twice changes nothing the second time |
| FloorLava.BeamsOfMark | day16_floor_lava/src/main.rs:204-233 | marking a cell adds exactly that beam to the beams recorded |
| FloorLava.RowLitCount | day16_floor_lava/src/main.rs:235-237 | the lit cells counted in a row are its lit positions |
| FloorLava.LitCellsCount | day16_floor_lava/src/main.rs:235-237 | the lit cells counted are exactly the lit positions of the grid |
| FloorLava.LitPositionsBeams | day16_floor_lava/src/main.rs:204-237 | the lit positions are the positions of the beams recorded |
| FloorLava.LitCellsBound | day16_floor_lava/src/main.rs:235-237 | no more cells are lit than the grid has |
| FloorLava.GridLight.Unlit | day16_floor_lava/src/main.rs:198-200 | a fresh record has the grid's shape and no cell lit |
| FloorLava.GridLight.Set | day16_floor_lava/src/main.rs:204-233 | returns whether the direction was already recorded at the cell, and marks it there, changing no other cell |
| FloorLava.GridLight.LitCount | day16_floor_lava/src/main.rs:235-237 | the count is the number of lit positions |
| FloorLava.NextCell | day16_floor_lava/src/main.rs:132-140 | the next cell stays on the grid, and there is none exactly when the light leaves over the edge it travels towards |
| FloorLava.Outgoing | day16_floor_lava/src/main.rs:149-151 | light leaves a cell in one or two directions |
| FloorLava.MovesInGrid | day16_floor_lava/src/main.rs:152-156 | every beam pushed is on the grid |
| FloorLava.RowText | day16_floor_lava/src/main.rs:163-175 | the printed row has one character per cell, the optic's own or '.' |
| FloorLava.Grid.Empty | day16_floor_lava/src/main.rs:95-99 | a new grid has the given size and no optics |
| FloorLava.Grid.Put | day16_floor_lava/src/main.rs:123-125 | putting an optic changes that one cell only |
| FloorLava.Grid.Parse | day16_floor_lava/src/main.rs:91-108 | succeeds unless an optic lies beyond the grid, which is as wide as there are lines (the write out of range panics); then each cell holds the optic of the text, unknown characters being empty cells |
| FloorLava.Grid.Render | day16_floor_lava/src/main.rs:163-175 | the printed grid has one line per row, each the row's characters |
| FloorLava.Grid.ParseRender | day16_floor_lava/src/main.rs:91-175 | a square text of optics and '.' is printed back exactly from the grid parsed from it |
| FloorLava.Grid.Edges | day16_floor_lava/src/main.rs:110-121 | the starts are, per row, rightwards from the left edge and leftwards from the right edge, then per column downwards from the top and upwards from the bottom |
| FloorLava.Grid.Light | day16_floor_lava/src/main.rs:127-160 | the beams recorded are exactly the least set holding the start that every recorded beam's successors stay in; the start cell is lit |
| FloorLava.LightStep | day16_floor_lava/src/main.rs:144-157 | one step of the stack loop keeps the frontier invariant and either records a new beam or shrinks the stack |
| FloorLava.PushMoves | day16_floor_lava/src/main.rs:152-156 | the stack grows by the moves to the neighbouring cells, in order |
| FloorLava.FrontierDone | day16_floor_lava/src/main.rs:144-157 | when the stack is empty the beams seen are the lit beams |
| FloorLava.RecordBeam | day16_floor_lava/src/main.rs:145-148 | recording a beam adds it to the seen beams, returns whether it was seen before, and a new beam leaves fewer beams unseen |
| ClumsyCrucible.Reverse | day17_clumsy_crucible/src/main.rs:198-207 | the reverse of a direction is another direction |
| ClumsyCrucible.ReverseInvolution | day17_clumsy_crucible/src/main.rs:198-207 | reversing twice gives the direction back |
| ClumsyCrucible.NeighborsOf | day17_clumsy_crucible/src/main.rs:55-62 | at most four neighbours, each one step in its direction and inside the grid |
| ClumsyCrucible.NeighborsComplete | day17_clumsy_crucible/src/main.rs:55-62 | every cell of the grid one step away is listed, under its direction, and no direction is listed twice |
| ClumsyCrucible.MoveRules | day17_clumsy_crucible/src/main.rs:79-90 | a crucible goes on straight only while its run stays within the maximum, turns only after the minimum run and never reverses; every such move is queued |
| ClumsyCrucible.MinValue | day17_clumsy_crucible/src/main.rs:114-116 | the least cost recorded at a block, or nothing exactly when none is recorded |
| ClumsyCrucible.StoredMin | day17_clumsy_crucible/src/main.rs:132-148 | storing keeps the smaller of the old and new cost under the key, and the least cost of the block becomes the smaller of its old least and the new cost |
| ClumsyCrucible.Costs.New | day17_clumsy_crucible/src/main.rs:124-128 | new costs have the grid's shape and nothing recorded |
| ClumsyCrucible.Costs.Set | day17_clumsy_crucible/src/main.rs:132-148 | reports the cost used exactly when nothing was recorded for that direction and run or the recorded cost was higher, and stores the smaller cost at that one block |
| ClumsyCrucible.Costs.Get | day17_clumsy_crucible/src/main.rs:150-152 | nothing when no cost is recorded at the block, otherwise the least recorded cost |
| ClumsyCrucible.SetLowers | day17_clumsy_crucible/src/main.rs:132-148 | an improving set either fills a vacant entry or lowers a recorded one, which bounds the search loop |
| ClumsyCrucible.Weights.Get | day17_clumsy_crucible/src/main.rs:51-53 | a block's heat loss is a single digit |
| ClumsyCrucible.Weights.Costs | day17_clumsy_crucible/src/main.rs:64-94 | fails exactly when the start lies outside the grid; otherwise the start costs nothing, every journey from the start ends at a block whose least recorded cost is no more than the journey's heat loss, and every other block with a cost is reached by a journey of exactly that heat loss |
| ClumsyCrucible.ParseWeights | day17_clumsy_crucible/src/main.rs:34-49 | succeeds iff there is a first line, every character is a decimal digit and no line is longer than the first; the weights are then those digits, as wide as the first line |
| ClumsyCrucible.Drain | day17_clumsy_crucible/src/main.rs:76-92 | draining the queue never removes or raises a recorded cost, so the start keeps cost 0, and it keeps the search invariants: every move from a recorded state is recorded no dearer or still queued, and every queued crucible and recorded cost belongs to a journey |
| ClumsyCrucible.StartItems | day17_clumsy_crucible/src/main.rs:73-75 | the queue starts with one crucible per neighbour of the start, at cost 0 with a run of 1 |
| ClumsyCrucible.CostStep | day17_clumsy_crucible/src/main.rs:76-91 | one step relaxes the block the crucible enters; when that improves the record the queue gains the moves from it, otherwise it only loses its head |
| ClumsyCrucible.Continue | day17_clumsy_crucible/src/main.rs:79-90 | the queue grows by exactly the allowed moves |
| ClumsyCrucible.RelaxNoWorse | day17_clumsy_crucible/src/main.rs:132-148 | a set never removes or raises a recorded cost |
| ClumsyCrucible.NextItemsCost | day17_clumsy_crucible/src/main.rs:79-90 | the moves pushed from a block are the same whatever heat loss they carry |
| ClumsyCrucible.MovesInside | day17_clumsy_crucible/src/main.rs:77-90 | a move stays in the grid, carries the heat loss of the block it leaves and is at least one block into its run |
| ClumsyCrucible.JourneyExtend | day17_clumsy_crucible/src/main.rs:79-90 | a journey extended by any move the rules allow is still a journey |
| ClumsyCrucible.StartClosed | day17_clumsy_crucible/src/main.rs:72-75 | the start's cost of 0 and the crucibles queued from it establish both search invariants |
| ClumsyCrucible.CoveredStep | day17_clumsy_crucible/src/main.rs:76-91 | a crucible whose state is recorded no dearer or still queued stays so after one turn of the loop |
| ClumsyCrucible.OnwardQueued | day17_clumsy_crucible/src/main.rs:78-90 | when a turn improves an entry, every move from that entry is in the queue |
| ClumsyCrucible.OnwardKept | day17_clumsy_crucible/src/main.rs:76-91 | an entry the turn leaves unchanged keeps every move from it recorded no dearer or queued |
| ClumsyCrucible.ClosedStep | day17_clumsy_crucible/src/main.rs:76-91 | one turn of the loop keeps every move from every recorded state (and from the start) recorded no dearer or queued |
| ClumsyCrucible.QueueReached | day17_clumsy_crucible/src/main.rs:76-90 | after one turn every queued crucible still ends a journey from the start |
| ClumsyCrucible.EntriesAchieved | day17_clumsy_crucible/src/main.rs:77-78 | after one turn every recorded cost is the start's 0 or the heat loss of a journey ending in that state |
| ClumsyCrucible.SoundStep | day17_clumsy_crucible/src/main.rs:76-91 | one turn keeps the queue and the recorded costs made of journeys |
| ClumsyCrucible.RelaxingStep | day17_clumsy_crucible/src/main.rs:76-91 | one turn keeps both search invariants |
| ClumsyCrucible.BoundMove | day17_clumsy_crucible/src/main.rs:79-90 | once the queue is empty, a move from a state recorded no dearer than its crucible lands in a state recorded no dearer than the move |
| ClumsyCrucible.JourneyBound | day17_clumsy_crucible/src/main.rs:76-92 | once the queue is empty, every journey ends in a recorded state whose cost is no more than the journey's heat loss |
| ClumsyCrucible.LeastCosts | day17_clumsy_crucible/src/main.rs:76-92 | once the queue is empty, the least cost recorded at a block is at most the heat loss of every journey ending there and, away from the start, equal to that of one such journey |
| ClumsyCrucible.GetLeast | day17_clumsy_crucible/src/main.rs:150-152 | after the search `get` answers 0 at the start and the least heat loss of a journey to every other block it answers for |
| LavaductLagoon.ParseDirection | day18_lavaduct_lagoon/src/main.rs:67-79 | exactly 'U', 'D', 'L' and 'R' decode to a direction, which prints back as the same letter |
| LavaductLagoon.LetterParses | day18_lavaduct_lagoon/src/main.rs:67-91 | decoding the letter a direction prints as gives the direction back |
| LavaductLagoon.Span | day18_lavaduct_lagoon/src/main.rs:123-135 | the span has one cell per metre of the plan, the i-th being i+1 steps from the start in the plan's direction |
| LavaductLagoon.SpanCells | day18_lavaduct_lagoon/src/main.rs:123-135 | the first n cells of a span are exactly the cells 1 to n steps from the start |
| LavaductLagoon.Size | day18_lavaduct_lagoon/src/main.rs:487 | a range counts as many values as it holds |
| LavaductLagoon.IntervalCard | day18_lavaduct_lagoon/src/main.rs:487 | an inclusive range holds hi - lo + 1 values, or none when it is reversed |
| LavaductLagoon.Intersection | day18_lavaduct_lagoon/src/main.rs:494-496 | a value is in the intersection iff it is in both ranges |
| LavaductLagoon.IntersectionCommutes | day18_lavaduct_lagoon/src/main.rs:494-496 | the intersection does not depend on the order of the ranges |
| LavaductLagoon.UnionAsWritten | day18_lavaduct_lagoon/src/main.rs:498-511 | `range_union` as written: every value of either range lies in some piece |
| LavaductLagoon.UnionAsWrittenWithin | day18_lavaduct_lagoon/src/main.rs:498-511 | as written, the pieces of a union stay between the lowest start and the highest end |
| LavaductLagoon.UnionAsWrittenGap | day18_lavaduct_lagoon/src/main.rs:498-511 | as written, 0..=0 joined with 5..=5 gives 0..=4 and 1..=5, which cover 2 although neither range holds it |
| LavaductLagoon.UnionExact | day18_lavaduct_lagoon/src/main.rs:498-511 | the union with the outer parts kept to the ranges covers exactly the values of either range |
| LavaductLagoon.UnionWithin | day18_lavaduct_lagoon/src/main.rs:498-511 | the pieces of the corrected union stay between the lowest start and the highest end |
| LavaductLagoon.UnionPieces | day18_lavaduct_lagoon/src/main.rs:498-511 | the pieces of a union are in increasing order and apart, and ranges touching at an end become one |
| LavaductLagoon.CoveredConcat | day18_lavaduct_lagoon/src/main.rs:481 | a value is covered by two lists of pieces together iff one of them covers it |
| LavaductLagoon.Distinct | day18_lavaduct_lagoon/src/main.rs:475 | dropping repeats keeps exactly the same ranges |
| LavaductLagoon.IntersectSize | day18_lavaduct_lagoon/src/main.rs:474-492 | the sum is the size of the range's overlap with each piece, added up piece by piece, where the pieces are the ranges without repeats folded by `range_union` as written |
| LavaductLagoon.Joined | day18_lavaduct_lagoon/src/main.rs:481 | the new pieces are each old piece joined with the next range by `range_union` as written, in order |
| LavaductLagoon.JoinAllCovers | day18_lavaduct_lagoon/src/main.rs:481 | joining a range into the pieces as written keeps every value the pieces covered and every value of the range covered (and may cover more) |
| LavaductLagoon.PiecesCover | day18_lavaduct_lagoon/src/main.rs:476-483 | the fold as written covers every value of the ranges (and may cover more) |
| LavaductLagoon.MergeAllCovers | day18_lavaduct_lagoon/src/main.rs:481 | with the corrected union, joining a non-empty range into non-empty pieces covers exactly what the pieces covered plus the range |
| LavaductLagoon.MergedPiecesCover | day18_lavaduct_lagoon/src/main.rs:476-483 | with the corrected union, the fold of non-empty ranges covers exactly their values |
| LavaductLagoon.OverlapAtLeast | day18_lavaduct_lagoon/src/main.rs:484-491 | the added-up overlaps count every covered value of the range at least once |
| LavaductLagoon.IntersectSizeAtLeast | day18_lavaduct_lagoon/src/main.rs:474-492 | `intersect_size` as written never counts fewer values of the range than the ranges cover |
| LavaductLagoon.IntersectSizeTwice | day18_lavaduct_lagoon/src/main.rs:474-492 | with 0..=1, 5..=6 and 3..=3 in that order, the fold as written gives pieces holding 3 twice, so `intersect_size` of 3..=3 is 2 although only one value is covered |
| LavaductLagoon.IntersectSizeGap | day18_lavaduct_lagoon/src/main.rs:474-511 | with 0..=0 and 5..=5, in either order, `intersect_size` of 2..=2 is 2 although neither range holds 2 |
| LavaductLagoon.CoveredSize | day18_lavaduct_lagoon/src/main.rs:474-492 | counts each value of the range that some range holds exactly once |
| LavaductLagoon.DigAt | day18_lavaduct_lagoon/src/main.rs:255-262 | digging a span colours exactly the cells on it and leaves every other cell as it was |
| LavaductLagoon.DugIsDig | day18_lavaduct_lagoon/src/main.rs:258-260 | the trench loop's cell-by-cell result is the span dug into the grid |
| LavaductLagoon.DigAllNext | day18_lavaduct_lagoon/src/main.rs:208-213 | digging the plans one more plan at a time digs that plan's span into the field dug so far |
| LavaductLagoon.DigAllCells | day18_lavaduct_lagoon/src/main.rs:208-213 | after digging the edges a cell is dug iff it was dug before or lies on some plan's trench |
| LavaductLagoon.DugBound | day18_lavaduct_lagoon/src/main.rs:264-266 | a grid holds at most height times width dug cells |
| LavaductLagoon.DigAllGrows | day18_lavaduct_lagoon/src/main.rs:208-213 | digging the edges never lowers the dug area |
| LavaductLagoon.Center | day18_lavaduct_lagoon/src/main.rs:235-252 | the sweep keeps every dug cell and only ever turns undug cells white |
| LavaductLagoon.CenterGrows | day18_lavaduct_lagoon/src/main.rs:235-252 | digging the center never lowers the dug area |
| LavaductLagoon.Blank | day18_lavaduct_lagoon/src/main.rs:204 | a new field has the given size and no cell dug |
| LavaductLagoon.Extent | day18_lavaduct_lagoon/src/main.rs:165-186 | the box walked out contains the origin |
| LavaductLagoon.CornerInBox | day18_lavaduct_lagoon/src/main.rs:173-186 | every corner of the walk lies in the box |
| LavaductLagoon.WalkFits | day18_lavaduct_lagoon/src/main.rs:165-206 | shifted by the start, every plan begins and ends inside the field and its span leads from its start to the next plan's start |
| LavaductLagoon.Walk | day18_lavaduct_lagoon/src/main.rs:173-186 | the walk pairs each plan with the corner it starts at and finds the bounding box of all corners |
| LavaductLagoon.WalkStep | day18_lavaduct_lagoon/src/main.rs:175-184 | each plan moves the corner by its length in its direction and widens the box to the new corner |
| LavaductLagoon.ShiftAll | day18_lavaduct_lagoon/src/main.rs:192-197 | every start is moved by the offset, the plan itself unchanged |
| LavaductLagoon.Swept | day18_lavaduct_lagoon/src/main.rs:238-250 | the sweep keeps a dug cell and can only turn an undug one white |
| LavaductLagoon.Field.FromPlans | day18_lavaduct_lagoon/src/main.rs:165-206 | the field is the bounding box of the walk, the start the offset that brings the box to the origin, each plan paired with its shifted start corner, and no cell dug |
| LavaductLagoon.Field.Trench | day18_lavaduct_lagoon/src/main.rs:255-262 | digs exactly the plan's span in its colour and returns the span's last cell |
| LavaductLagoon.Field.DigEdges | day18_lavaduct_lagoon/src/main.rs:208-213 | the field after digging the edges is every plan's span dug in order into the field before |
| LavaductLagoon.Field.Boundaries | day18_lavaduct_lagoon/src/main.rs:218-233 | the boundary set is built exactly when every vertical plan has a cell, and then holds exactly the cells some plan marks |
| LavaductLagoon.Field.MarksOf | day18_lavaduct_lagoon/src/main.rs:221-232 | a vertical plan of length 0 makes the slice underflow; otherwise the cells added are exactly the ones the plan marks: all but the last of a vertical span, a whole horizontal span when the plans around it go the same way |
| LavaductLagoon.Field.SweepRow | day18_lavaduct_lagoon/src/main.rs:235-252 | sweeping a row whites the undug cells found inside and changes no other row |
| LavaductLagoon.Field.DigCenter | day18_lavaduct_lagoon/src/main.rs:215-253 | succeeds exactly when every vertical plan has a cell (the source underflows otherwise), and then the field is swept row by row; on failure nothing changes |
| LavaductLagoon.Field.DugArea | day18_lavaduct_lagoon/src/main.rs:264-266 | the dug area is at most the size of the field |
| Aplenty.ParseOp | day19_aplenty/src/main.rs:104-114 | exactly '>' and '<' decode to an operator, '>' being greater-than |
| Aplenty.ParseField | day19_aplenty/src/main.rs:124-136 | exactly 'x', 'm', 'a' and 's' decode to a rating field, which prints back as the same letter |
| Aplenty.FieldLetterParses | day19_aplenty/src/main.rs:124-136 | decoding the letter of a field gives the field back |
| Aplenty.ParseOutput | day19_aplenty/src/main.rs:146-157 | an output decodes iff it is a word of letters; "A" is accepted, "R" rejected, any other word forwards to the workflow of that name |
| Aplenty.OutputRoundTrip | day19_aplenty/src/main.rs:146-157 | decoding the text of an output gives it back |
| Aplenty.Sum | day19_aplenty/src/main.rs:327-329 | the sum of a part's four ratings, or nothing when it does not fit in 32 bits |
| Aplenty.ApplyReadsField | day19_aplenty/src/main.rs:236-247 | whether a rule applies depends only on the rating it names |
| Aplenty.Invert | day19_aplenty/src/main.rs:249-257 | the inverted rule keeps the field, value and output and swaps the operator |
| Aplenty.InvertTwice | day19_aplenty/src/main.rs:249-257 | inverting twice gives the rule back |
| Aplenty.InvertApply | day19_aplenty/src/main.rs:236-257 | the inverted rule applies exactly when the rule does not and the rating is not the rule's value |
| Aplenty.Len | day19_aplenty/src/main.rs:350-357 | a range counts its values: none iff it is empty, else its start to start + len - 1 |
| Aplenty.With | day19_aplenty/src/main.rs:259-282 | replacing one field's range changes that field only |
| Aplenty.FullContains | day19_aplenty/src/main.rs:341-348 | the starting ranges hold exactly the parts with every rating from 1 to 4000 |
| Aplenty.FullProduct | day19_aplenty/src/main.rs:341-357 | the starting ranges hold 4000^4 combinations |
| Aplenty.ProductEmpty | day19_aplenty/src/main.rs:350-357 | ranges with an empty field hold no combination |
| Aplenty.MeetWhen | day19_aplenty/src/main.rs:359-364 | two non-empty ranges meet iff each starts before the other ends |
| Aplenty.OverlapsSymmetric | day19_aplenty/src/main.rs:359-364 | overlapping is symmetric |
| Aplenty.OverlapsMeaning | day19_aplenty/src/main.rs:359-364 | two non-empty sets of ranges overlap iff they meet in every field, which is iff some part is in both |
| Aplenty.SeparatedNoOverlap | day19_aplenty/src/main.rs:359-364 | ranges apart in some field do not overlap and share no part |
| Aplenty.Restrict | day19_aplenty/src/main.rs:259-282 | splits the ranges on the rule's field into the part that passes and the part that does not: each exactly the parts of the box the rule does or does not apply to, missing iff empty, other fields kept, both inside the box and apart, their combinations adding up to the box's |
| Aplenty.SplitProduct | day19_aplenty/src/main.rs:259-282 | the combinations of the two sides add up to those of the box |
| Aplenty.SplitLen | day19_aplenty/src/main.rs:259-282 | the two sides of a split count as many values as the range |
| Aplenty.ExamineFirst | day19_aplenty/src/main.rs:199-206 | a workflow's output for a part is that of the first rule that applies to it, or the default when none does |
| Aplenty.PermutationsPush | day19_aplenty/src/main.rs:81 | one more accepted box adds its combinations to the total |
| Aplenty.RestrictAll | day19_aplenty/src/main.rs:208-224 | the pieces a workflow splits a box into hold only parts of the box, each with the output the workflow gives it; every part of the box is in a piece; pieces are pairwise apart and never overlap; their combinations add up to the box's |
| Aplenty.CutOnce | day19_aplenty/src/main.rs:208-224 | one rule of the loop keeps the progress invariant, or, when nothing is left, the pieces are complete, apart and inside the box |
| Aplenty.Include | day19_aplenty/src/main.rs:212-219 | the piece passing a rule is appended with the rule's output, keeping the pieces sound, inside the box and apart |
| Aplenty.Finish | day19_aplenty/src/main.rs:220-223 | the rest goes to the default output and the pieces are then complete, apart and inside the box |
| Aplenty.Push | day19_aplenty/src/main.rs:212-222 | appending a piece keeps the pieces sound, inside the box and apart and adds its combinations |
| Aplenty.PairwiseNoOverlap | day19_aplenty/src/main.rs:208-224 | pieces pairwise apart never overlap |
| Aplenty.Index | day19_aplenty/src/main.rs:21 | the map is keyed by name and holds exactly the names of the workflows |
| Aplenty.IndexLast | day19_aplenty/src/main.rs:21 | a name maps to the last workflow of that name |
| Aplenty.Start | day19_aplenty/src/main.rs:22 | fails iff there is no workflow named "in", otherwise gives it |
| Aplenty.LeadsUnique | day19_aplenty/src/main.rs:24-44 | following the workflows from a name ends after one number of steps with one output |
| Aplenty.EndsForward | day19_aplenty/src/main.rs:38-41 | a part forwarded by a workflow ends where it ends from the next workflow |
| Aplenty.EndsHere | day19_aplenty/src/main.rs:29-37 | a part accepted or rejected by a workflow ends there with that output |
| Aplenty.Route | day19_aplenty/src/main.rs:24-44 | a result says where the part ends from the start workflow, and every part whose walk ends within the fuel gets that result |
| Aplenty.Rate | day19_aplenty/src/main.rs:23-47 | the parts collected are the accepted ones, and the walk succeeds whenever every part's walk ends within the fuel |
| Aplenty.RatingSum | day19_aplenty/src/main.rs:47 | the sum of the accepted parts' ratings, or nothing when it does not fit in 32 bits |
| Aplenty.DisjointNoOverlap | day19_aplenty/src/main.rs:73-80 | accepted boxes pairwise apart never overlap, so the overlap warning never fires |
| Aplenty.Combinations | day19_aplenty/src/main.rs:50-82 | the accepted boxes never overlap, hold only parts of the starting ranges that the workflows accept, and hold every such part |
| Aplenty.Turn | day19_aplenty/src/main.rs:53-71 | one turn of the worklist keeps its invariant: accepted boxes and boxes still to do apart, sound, and together covering every accepted part |
| Aplenty.Pop | day19_aplenty/src/main.rs:53 | the popped box and the rest still cover every accepted part and stay apart |
| Aplenty.SendAll | day19_aplenty/src/main.rs:55-70 | dealing out a workflow's pieces keeps the worklist invariant |
| Aplenty.SendAccepted | day19_aplenty/src/main.rs:57-60 | an accepted piece joins the accepted boxes |
| Aplenty.SendRejected | day19_aplenty/src/main.rs:61-63 | a rejected piece is dropped: none of its parts is accepted |
| Aplenty.SendForward | day19_aplenty/src/main.rs:64-68 | a forwarded piece is pushed with its next workflow |

## Left out

- The `main` functions are not modelled, except the parts cited in the table above. This covers reading the input file, logging and printing, and the final sums, minimums and products built from the modelled operations (for example the calibration sum of `aoc01_trebuchet/src/main.rs:22-36` and the gear-ratio sum of `aoc03_gear_ratios/src/main.rs:19-30`). They are I/O plumbing or a plain fold over a modelled result.
- All `Debug` and `Display` implementations, and `print_distances` in `day10_pipe_maze/src/main.rs:266-286`, are not modelled. They only present values.
- `aoc06_wait_for_it` is not part of this model. Its answer comes from floating-point quadratic roots with `sqrt`, `floor` and `ceil`.
- Fixed-width integers are modelled as unbounded `int` and `nat`: overflow of `u32`, `i32`, `usize` and `isize` arithmetic is not modelled. The exception is day 19's rating sums, where `u32` overflow is modelled (`Aplenty.Sum`, `Aplenty.RatingSum`).
- Characters are ASCII: `is_numeric`, `is_alphabetic`, `is_ascii_digit` and `trim` are modelled on ASCII only.
- The winnow parser combinators and the itertools adapters are not modelled as libraries. Each small grammar and each `combinations` call is modelled directly.
- `GearRatios.Neighbors`, `GearRatios.SymbolNear`, `GearRatios.IsPartNumber` and `GearRatios.PartNumbers` require `Valid`, which a parse of lines of equal length meets (`GearRatios.ParsedValid`). For ragged lines the width is the first line's (`aoc03_gear_ratios/src/main.rs:81`), and the source may then index past a shorter row and panic, or miss cells of a longer one. Ragged schematics are not modelled.
- `CamelCards.TypeOf`, `CamelCards.CompareHands` and the ranking require `ValidHand`: hands holding '0' or '1', which `Hand::parse` accepts (`CamelCards.HandOfLowDigits`), are not typed or ranked. In the source '1' is ranked as the joker and '0' makes `index` underflow.
- `CamelCards`: `parse_line` (`day07_camel_cards/src/main.rs:33-41`) splitting a line into hand and bid is not modelled; `Hand::parse` (`CamelCards.ParseHand`) is.
- `HauntedWasteland`: `ListLoop` is endless; the model walks a finite prefix of its directions.
- `Almanac`: `from_file`, `parse_header` and `parse_seeds` (`aoc05_if_you_give/src/main.rs:138-162`) are not modelled, because they read the file. `parse_seed_ranges` and `parse_range` are modelled.
- `ParabolicReflector`: `cycle` and `get_hash` (`day14_parabolic_reflector/src/main.rs:28-47` and `131-135`) are not modelled. Cycle detection depends on the standard library's `DefaultHasher`, an opaque foreign hash. `sort_unstable` is modelled as a selection sort that breaks ties of the sort key by lane (`Before`); ties only occur between rocks in different lanes, but that the result does not depend on how they are broken is not proved.
- `ParabolicReflector.Platform.Tilt` requires `Valid()`: every rock on the height × width platform, where the width is the length of the last line (`day14_parabolic_reflector/src/main.rs:92`). Ragged platforms, which the source still tilts and where a rock past the width can be moved backwards, are not modelled.
- `LavaductLagoon`: `plot_plans` and `calculate_area` (`day18_lavaduct_lagoon/src/main.rs:294-472`) are not modelled. They are an area heuristic with unused variables and no stated contract. Parsing of plans and of their colours (`day18_lavaduct_lagoon/src/main.rs:40-45` and `101-121`) is not modelled either; a colour is an opaque value.
- `LavaductLagoon.PiecesCover`: states only that every value of the ranges is covered, because the fold as written also covers values between ranges that are apart (`LavaductLagoon.IntersectSizeGap`). The exact cover is proved of the corrected fold, `LavaductLagoon.MergedPiecesCover`.
- `LavaductLagoon.JoinAllCovers`: one direction only, for the same reason. The exact cover is `LavaductLagoon.MergeAllCovers`.
- `LavaductLagoon.IntersectSize`: the `HashSet` that drops repeated ranges iterates in an unspecified order. The model keeps the first occurrences in input order.
- `LavaductLagoon.Field.DugArea`: its contract states only that the count is at most height times width. That it counts the dug cells is stated by the function it is defined by.
- `LavaductLagoon.Field.DigCenter`: `plan.len - 1` underflows in the source for a plan of length 0. The model returns `false` and digs nothing.
- `Aplenty`: the parsers `parse`, `Workflow::parse`, `Rule::parse` and `Part::parse` (`day19_aplenty/src/main.rs:88-96`, `166-197`, `286-296`, `308-325`) are not modelled. Neither is the logging in `main`.
- `Aplenty.Route`, `Aplenty.Rate` and `Aplenty.Combinations` take a `fuel` bound and return an error when it runs out. The source loops forever when workflows form a cycle.
- `Aplenty.Combinations`: the sum of the accepted boxes' products is not proved equal to the number of accepted parts. What is proved is that the boxes are pairwise disjoint, accept only accepted parts, and cover every accepted part.
- `Aplenty.Restrict`: `value + 1` for `>` rules is unbounded, so `u32` overflow at the largest value is not modelled.
- `Aplenty.OverlapsMeaning`: it requires both boxes to be non-empty. `overlaps` reports two ranges as overlapping when one of them is empty, as in `5..3` against `1..10`.
- `CosmicExpansion.Image.Expand` requires `factor >= 1`, because `factor - 1` underflows in the source at 0.
- `PointOfIncidence.FindVertPivot`, `PointOfIncidence.FindHorizPivot`, `PointOfIncidence.FindVertSmudgedPivot`, `PointOfIncidence.FindHorizSmudge`: the row and column indexing of the source panics on ragged patterns, so these require that rows reach the width (`RowsFit`) or that the first `height` rows do (`ColumnsFit`). When the height is at most 1, `ColumnsFit` asks slightly more than the source needs.
- `FloorLava`: the grid is taken as square, because `Grid::parse` sets the width to the number of lines and `next_direction` bounds `Down` by the width. An optic past that width makes the model's parse return an error where the source panics. The maximum over all entry edges in `main` is not modelled.
- `ClumsyCrucible.Weights.Costs`: the least heat loss is stated per block, over every direction and run, which is what `Costs::get` answers; the per-state statement lives in the search invariants (`JourneyBound`, `EntriesAchieved`) and is not repeated in the method's contract. Heat loss is a `nat`: the `u32` sum of the source is not bounded. A journey is a sequence of moves the loop would push, starting with a crucible leaving the start. `main`'s choice of start and run lengths and the read of the far corner are not modelled.
- `LensLibrary.ParseInputText` states the round trip for a non-empty list of steps only, because the text helper `Text.Join` needs at least one part. The empty text reads as no steps directly from the definition of `LensLibrary.ParseInput`.

## Findings

| source | as written | input that shows it | evidently intended | confidence | as-written member | corrected member |
|---|---|---|---|---|---|---|
| aoc03_gear_ratios/src/main.rs:111 | the column after a number is looked at only when `end + 1 < num_cols`, so a number ending in the next-to-last column never sees the last column | the one-line schematic `1*` | look at column `end` whenever `end < num_cols` | not executed | GearRatios.ColumnAfterCounterexample | GearRatios.IsPartNumberFixed |
| day07_camel_cards/src/main.rs:95 | `try_from` accepts the digits `'0'` and `'1'` as cards | the card `'0'` (its `index` underflows) and the card `'1'` (ranked as the joker) | accept only `'2'..='9'` and the face letters | not executed | CamelCards.CardOfAsWrittenLowDigits | CamelCards.CardOfRanks |
| aoc08_haunted_wasteland/src/main.rs:73-75 | `traverse` follows the left edge for `Right` too | the network `AAA = (BBB, CCC)` walked `Right` from `AAA` | follow the right edge for `Right` | not executed | HauntedWasteland.TraverseRightGoesLeft | HauntedWasteland.TraverseFromWalk |
| day18_lavaduct_lagoon/src/main.rs:498-511 | for two ranges that neither touch nor overlap, the outer pieces of `range_union` reach into the gap between them | `0..=0` and `5..=5` give `0..=4` and `1..=5` | the outer pieces stop at the ends of the two ranges | not executed | LavaductLagoon.UnionAsWrittenGap | LavaductLagoon.UnionExact |
| day18_lavaduct_lagoon/src/main.rs:474-492 | `intersect_size` adds up overlapping union pieces, so it counts a value once per piece that holds it | the range `3..=3` against `0..=1`, `5..=6`, `3..=3` in that order gives 2 | count each covered value once | not executed | LavaductLagoon.IntersectSizeTwice | LavaductLagoon.CoveredSize |
