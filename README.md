# Advent of Code 2023, days 1 to 12, modelled in Dafny

This project models the puzzle solvers of a Rust Advent of Code 2023
repository. Each day's `main.rs` becomes one Dafny module, and the model
proves what each solver computes.

- Parsers become total functions that return `None`, `Failed` or an
  outcome wherever the Rust code would panic or return an error.
- Loops and in-place updates become methods. Each method is proved equal
  to a specification function.
- The specification functions are related by lemmas to independent
  definitions, to their inverses (print and parse back), and to the
  puzzle's test cases.

Shared modules:

- `Wrappers` holds `Option`.
- `Text` holds the Rust string operations the solvers use: `str::parse`
  for integers, `split`, `lines`, `split_ascii_whitespace`, `replace`,
  `find`, `starts_with`, and the nom scanners `tag`, `space0` and `u32`.
- `Folds` sums the values of a map in any order, as `values().sum()`
  over a hash map does.

The days:

- `day01_calibration.dfy`: calibration values from the first and last
  digits of a line, and from spelled-out digits scanned through a
  `directed_range` iterator. The iterator is modelled as a class.
- `day02_cube_games.dfy` and `day02_examples.dfy`: the nom grammar of
  cube games, and the sums over possible games and over game powers.
- `day03_engine_schematic.dfy`: part numbers next to symbols, and gear
  ratios.
- `day04_scratchcards.dfy`: card points, and card copies propagated
  through a table updated in place.
- `day05_almanac.dfy`: the seed almanac, its parser, the mapping groups,
  and the lowest location.
- `day06_boat_races.dfy`: the race sheet, and the count of winning hold
  times.
- `day07_camel_cards.dfy`: hand types with and without jokers, the hand
  order, and the winnings.
- `day08_haunted_wasteland.dfy`: the left/right network, the walks, and
  the ghost walk combined by least common multiple.
- `day09_mirage.dfy`: extrapolation by difference sequences.
- `day10_pipe_maze.dfy`: the pipe grid, start-kind inference, and the
  loop walk. The parser uses the corrected start-kind inference described
  under Findings. The source's version is kept beside it for comparison.
- `day11_cosmic_expansion.dfy`: galaxy expansion by transposition, and
  the sum of pairwise distances.
- `day12_hot_springs.dfy`: the spring rows, and the count of
  arrangements.

## Model

| member | source | states |
|---|---|---|
| Calibration.FirstDigit | day-1/src/main.rs:13 | `None` exactly when the line holds no decimal digit; otherwise a value below 10 |
| Calibration.FirstDigitAt | day-1/src/main.rs:13 | the first digit found is the one at the first position that holds a digit |
| Calibration.LastDigitAt | day-1/src/main.rs:14 | scanning the reversed characters finds the digit at the last position that holds one |
| Text.Reversed | day-1/src/main.rs:14 | `rev()`, used on the characters of a line here and on the day-9 sequences: same length, and the i-th element is the (n-1-i)-th |
| Calibration.CalibrationValue | day-1/src/main.rs:12-20 | a line's value is at most 99, and 0 when the line has no digit |
| Calibration.CalibrationOfDigits | day-1/src/main.rs:15-18 | when the first digit is at i and the last at j, the value is 10·d(i) + d(j) |
| Calibration.CalibrationSum | day-1/src/main.rs:21-24 | the sum over the lines is at most 99 per line |
| Calibration.CalculateSumOfLines | day-1/src/main.rs:11-25 | `calculate_sum` of lines joined by `\n` is the sum of their values: splitting gives the lines back |
| Calibration.RangeSeq | day-1/src/main.rs:67-93 | the indices `directed_range(a, b)` yields: \|a-b\|+1 of them, counting up from a when a <= b and down otherwise |
| Calibration.RangeSeqReversed | day-1/src/main.rs:67-93 | counting down from b to a is counting up from a to b, reversed |
| Calibration.DirectedRange.constructor | day-1/src/main.rs:67-70 | a fresh range will yield exactly `RangeSeq(a, b)` |
| Calibration.DirectedRange.Next | day-1/src/main.rs:71-92 | each call yields the next index and drops it from what remains; once the range is exhausted it yields `None` |
| Calibration.CountDownFromThree | day-1/src/main.rs:107-113 | `directed_range(3, 0)` yields 3, 2, 1 and 0, then `None` |
| Calibration.WordAt | day-1/src/main.rs:36-40 | the first number word, in list order, that the slice starts with; `None` when it starts with none |
| Calibration.NumberAt | day-1/src/main.rs:31-40 | a digit at i gives its value; otherwise the number word the slice from i starts with |
| Calibration.FirstNumber | day-1/src/main.rs:28-43 | the result is below 10 |
| Calibration.FirstNumberAt | day-1/src/main.rs:30-41 | the first index in the given order that holds a digit or a number word decides the result |
| Calibration.FirstNumberNone | day-1/src/main.rs:42 | the result is 0 when no index holds a number |
| Calibration.FindFirstNumber | day-1/src/main.rs:28-43 | the loop consumes the range and returns `FirstNumber` over the indices the range had left |
| Calibration.FirstNumberFrom | day-1/src/main.rs:47 | scanning from the front finds the number at the first index that holds one |
| Calibration.LastNumberAt | day-1/src/main.rs:48 | scanning from the back finds the number at the last index that holds one |
| Calibration.SpelledValue | day-1/src/main.rs:46-49 | a line's value with spelled digits is at most 99 |
| Calibration.CalculateSumSpelled | day-1/src/main.rs:45-54 | the method's sum is `SpelledSum` of the input split at `\n` |
| Calibration.SpelledSumBound | day-1/src/main.rs:46 | at most 99 per line; lines of length 0 or 1 are skipped, so they add nothing |
| Calibration.SingleDigit | day-1/src/main.rs:46-49 | a line whose only number is one digit d scores 11·d |
| Calibration.LastOfTwoOneNine | day-1/src/main.rs:100-104 | scanning "two1nine" from the back finds 9 |
| Calibration.FourBX | day-1/src/main.rs:116-120 | "4bx" sums to 44 |
| Calibration.XB4 | day-1/src/main.rs:123-127 | "xb4" sums to 44 |
| Calibration.OneAsdfNine | day-1/src/main.rs:130-134 | "1asdf9" sums to 19 |
| CubeGames.ParseColorName | day-2/src/main.rs:65-69 | the `alt` of the three tags: on success the input is the colour's name followed by the rest; it fails exactly when the input starts with none of the names |
| CubeGames.ColorNameRoundTrip | day-2/src/main.rs:65-69 | a colour's name followed by any text parses back to that colour and that text |
| CubeGames.ParseColor | day-2/src/main.rs:61-71 | the count fits a `u32`, and a success consumes input |
| CubeGames.ColorRoundTrip | day-2/src/main.rs:61-71 | an optional blank, a `u32` count, a space and a colour name parse back to that count and colour |
| CubeGames.ParseColors | day-2/src/main.rs:46 | `separated_list1(tag(","), color)`: a success holds at least one colour and consumes input |
| CubeGames.ColorsRoundTrip | day-2/src/main.rs:46 | a rendered comma-separated colour list parses back to the same list, up to a following text that does not start with `,` |
| CubeGames.LastCount | day-2/src/main.rs:47-57 | a colour that the reveal never names keeps count 0 |
| CubeGames.LastCountAt | day-2/src/main.rs:50-56 | a colour named more than once takes the count of its last mention |
| CubeGames.TallyColors | day-2/src/main.rs:47-57 | the loop over the colours gives `Tally`, the last count of each colour |
| CubeGames.ParseReveal | day-2/src/main.rs:45-59 | a success consumes input |
| CubeGames.RevealOfColors | day-2/src/main.rs:45-59 | a reveal is the tally of the colours its list parses to |
| CubeGames.ParseReveals | day-2/src/main.rs:41 | `separated_list1(tag(";"), reveal)`: a success holds at least one reveal and consumes input |
| CubeGames.RevealsRoundTrip | day-2/src/main.rs:41 | rendered reveals separated by `;` parse back to their tallies |
| CubeGames.ParseGame | day-2/src/main.rs:35-43 | a parsed game has at least one reveal and an id that fits a `u32`, and parsing consumes input |
| CubeGames.GameRoundTrip | day-2/src/main.rs:35-43 | "Game", an id, ":" and the reveals, rendered, parse back to the same game |
| CubeGames.ParseGames | day-2/src/main.rs:30-33 | `separated_list1(tag("\n"), game)`: a success holds at least one game |
| CubeGames.GamesRoundTrip | day-2/src/main.rs:30-33 | rendered games, one per line, parse back to the same games with nothing left over |
| CubeGames.TallyAll | day-2/src/main.rs:41 | one tally per colour list, in order |
| CubeGames.GamesOf | day-2/src/main.rs:35-43 | one game per game text, in order |
| CubeGames.PossibleGames | day-2/src/main.rs:74-82 | the filter keeps only games whose every reveal fits the bag, and only games from the input |
| CubeGames.PossibleKept | day-2/src/main.rs:76-82 | every possible game is kept by the filter |
| CubeGames.PossibleGameSumCons | day-2/src/main.rs:73-85 | the id sum adds the first game's id exactly when that game is possible |
| CubeGames.PossibleGameSumAppend | day-2/src/main.rs:73-85 | the id sum over two lists of games is the sum of their id sums |
| CubeGames.PossibleGameSumMonotone | day-2/src/main.rs:76-82 | a larger bag never lowers the id sum |
| CubeGames.PossibleGameSumAll | day-2/src/main.rs:73-85 | when every game is possible, the sum is the sum of all ids |
| CubeGames.PossibleGameSum | day-2/src/main.rs:73-85 | the sum of possible ids is at most the sum of all ids |
| CubeGames.PossibleIdsBound | day-2/src/main.rs:76-84 | the ids kept by the filter sum to at most the ids of all games |
| CubeGames.MaxReveal | day-2/src/main.rs:91-102 | the colour-wise maximum: every reveal fits within it, and each colour's maximum is attained by some reveal |
| CubeGames.PossibleIffCovers | day-2/src/main.rs:76-102 | a game is possible with a bag exactly when its colour-wise maximum fits in the bag |
| CubeGames.MinimumReveal | day-2/src/main.rs:91-102 | the loop, starting from the first reveal and raising each colour, gives `MaxReveal` |
| CubeGames.GamePowerSum | day-2/src/main.rs:87-106 | the method's sum is the sum over games of the product of the colour-wise maxima |
| CubeGames.PowerSum | day-2/src/main.rs:87-106 | the power sum is 0 exactly when every game has a colour whose maximum is 0 |
| CubeGamesExamples.SecondGameRendered | day-2/src/main.rs:126 | the text "Game 2: 1 blue" is the rendering of the second test game |
| CubeGamesExamples.ExampleGames | day-2/src/main.rs:127-142 | the two test games' texts denote the expected `Game` values |
| CubeGamesExamples.ParseExample | day-2/src/main.rs:124-144 | parsing the two rendered test games yields the expected games with nothing left over |
| CubeGamesExamples.MinimumPower | day-2/src/main.rs:148-151 | each of the five test games has the expected power |
| CubeGamesExamples.PowerExample | day-2/src/main.rs:146-152 | the power sum of the five test games is 2286 |
| EngineSchematic.ParseInput | day-3/src/main.rs:12-14 | every grid row is one line, so no row holds a line break |
| EngineSchematic.ParseInputOfRows | day-3/src/main.rs:12-14 | rows joined by `\n` parse back to the same rows when the last row is not blank and no row ends in `\r`; blank rows in between are allowed |
| EngineSchematic.NeighbourhoodIsAdjacent | day-3/src/main.rs:28-32 | the cells visited around (r, c) are exactly the grid cells at most one row and one column away |
| EngineSchematic.ScanRow | day-3/src/main.rs:29-39 | the column loop over one row of the window reports whether a symbol is there and which `*` cells are there |
| EngineSchematic.ScanNeighbours | day-3/src/main.rs:28-40 | the nested loops report whether a neighbour is a symbol (not a digit and not `.`) and which neighbours are `*` |
| EngineSchematic.RecordPart | day-3/src/main.rs:44-46 | pushing a part's value onto the list of each gear it touches gives `AddValue` |
| EngineSchematic.AddNothing | day-3/src/main.rs:44-46 | a part that touches no gear leaves the gear table unchanged |
| EngineSchematic.AddOne | day-3/src/main.rs:45 | `entry(gear).or_insert(Vec::new()).push(v)`: one more gear appends v to that gear's list, or starts the list [v] |
| EngineSchematic.ScanDigit | day-3/src/main.rs:24-40 | a digit extends the current number by one decimal place and adds its neighbourhood's symbol and gears |
| EngineSchematic.ScanStop | day-3/src/main.rs:41-58 | at a non-digit or at the row's end, the run just closed is a part exactly when its value is positive and it touches a symbol |
| EngineSchematic.ScanRowParts | day-3/src/main.rs:20-58 | one row's column loop adds that row's parts to the sum and to the gear table |
| EngineSchematic.ClosePart | day-3/src/main.rs:42-58 | closing a run adds its value and gears only when the run is a part |
| EngineSchematic.SumParts | day-3/src/main.rs:16-69 | the sum is the sum of all part numbers, and the ratio total is the sum over gears with exactly two parts of their product |
| EngineSchematic.PartsAreRuns | day-3/src/main.rs:19-58 | a part is listed exactly when it is a maximal digit run with a positive value that touches a symbol |
| EngineSchematic.PartMeaning | day-3/src/main.rs:23-58 | a listed part's digits fill its columns, the columns beside it hold no digit, its value is its decimal value and positive, and some digit touches a symbol |
| EngineSchematic.RunGearsNear | day-3/src/main.rs:36-38 | a run's gears are the `*` cells next to one of its digits |
| EngineSchematic.Touching | day-3/src/main.rs:44-46 | the values of the parts touching a gear are non-empty exactly when some part touches it |
| EngineSchematic.GearMapLists | day-3/src/main.rs:18-57 | the gear table's keys are exactly the gears some part touches, and each key lists those parts' values in reading order |
| Scratchcards.ParseNumberList | day-4/src/main.rs:18-36 | the loop that inserts each number token into the set gives `NumberSet`, `None` when a token is not a `u8` |
| Scratchcards.NumberSetFails | day-4/src/main.rs:26 | once a token fails to parse, the whole list fails (the `unwrap` panics) |
| Scratchcards.NumberSetMembers | day-4/src/main.rs:18-36 | the list parses exactly when every token is a `u8`, and then the set holds exactly the tokens' values |
| Scratchcards.NumberSetOfDecimals | day-4/src/main.rs:18-36 | the decimal texts of numbers up to 255 parse back to the set of those numbers |
| Scratchcards.PointsDouble | day-4/src/main.rs:60-64 | no match scores 0 and only no match does; one match scores 1; each further match doubles the score |
| Scratchcards.Points | day-4/src/main.rs:60-64 | a card scores 0 exactly when it has no match |
| Scratchcards.TotalPointsCons | day-4/src/main.rs:41-70 | the total is the first card's points plus the total of the rest |
| Scratchcards.TotalPointsAtLeastWinners | day-4/src/main.rs:60-65 | the total is at least the number of cards with some match |
| Scratchcards.TotalPoints | day-4/src/main.rs:41-70 | the total is 0 exactly when no card has a match |
| Scratchcards.CalculateSum | day-4/src/main.rs:38-73 | the loop's sum is `TotalPoints`, the sum of each card's points |
| Scratchcards.AddCopiesEffect | day-4/src/main.rs:106-109 | exactly the cards numbered from..to-1 gain the amount, entering the table at 1 first if missing; every other entry is unchanged |
| Scratchcards.PlayCardEffect | day-4/src/main.rs:99-109 | after one card, its own entry is there with its count, the next `Matches(c)` cards each gain that count, and every other entry is unchanged |
| Scratchcards.CountsAtLeastOne | day-4/src/main.rs:99-107 | every card seen has an entry, and every entry is at least 1 |
| Scratchcards.CountsAfter | day-4/src/main.rs:99-109 | every card played has an entry in the table |
| Scratchcards.SumAtLeastSize | day-4/src/main.rs:116 | a table whose every entry is at least 1 sums to at least its number of entries |
| Scratchcards.TotalAtLeastCards | day-4/src/main.rs:75-117 | the card total is at least the number of distinct card numbers |
| Scratchcards.CalculateCards | day-4/src/main.rs:75-117 | the loops that update the table in place end with the table `CountsAfter(cards)`, and the result is the sum of its values |
| SeedAlmanac.ParseU64 | day-5/src/main.rs:20-36 | a parsed value fits a `u64` |
| SeedAlmanac.ParseAll | day-5/src/main.rs:20 | a success gives one value per word, each fitting a `u64` |
| SeedAlmanac.ParseAllDecimals | day-5/src/main.rs:20 | decimal texts of values that fit a `u64` parse back to those values |
| SeedAlmanac.GroupLines | day-5/src/main.rs:24-40 | the final push adds at least one group to those already pushed |
| SeedAlmanac.ParseAlmanac | day-5/src/main.rs:17-46 | a parsed almanac has at least one group, and every seed fits a `u64` |
| SeedAlmanac.SeedsRoundTrip | day-5/src/main.rs:19-20 | "seeds: " and the seeds separated by single spaces parse back to the seeds |
| SeedAlmanac.MappingRoundTrip | day-5/src/main.rs:33-37 | the line "to from count" parses back to the mapping; it holds no "map:" and is not blank |
| SeedAlmanac.ParseInput | day-5/src/main.rs:17-46 | the loop over the lines gives `ParseAlmanac`: `None` where `parse_input` panics (no first line, or a number that does not parse) |
| SeedAlmanac.MappingLines | day-5/src/main.rs:33-37 | one line per mapping, in order |
| SeedAlmanac.MappingStep | day-5/src/main.rs:32-38 | a mapping line adds its mapping to the group being filled |
| SeedAlmanac.HeaderStep | day-5/src/main.rs:25-29 | a "map:" line pushes the group being filled when it is non-empty, and starts a new one |
| SeedAlmanac.Pushed | day-5/src/main.rs:26-29 | an empty group is not pushed; a non-empty one is appended |
| SeedAlmanac.GroupLinesOfMappings | day-5/src/main.rs:24-39 | a group's lines add all of its mappings, in order, to the group being filled |
| SeedAlmanac.GroupStep | day-5/src/main.rs:24-39 | a header followed by a group's lines pushes the previous group and fills this one |
| SeedAlmanac.GroupLinesOfGroups | day-5/src/main.rs:24-40 | the lines of headers and non-empty groups give back exactly those groups, the last pushed after the loop |
| SeedAlmanac.LinesOfAlmanac | day-5/src/main.rs:18 | `lines()` of the almanac's text gives back its lines |
| SeedAlmanac.AlmanacRoundTrip | day-5/src/main.rs:17-46 | the text of an almanac whose groups are non-empty and whose numbers fit a `u64` parses back to that almanac |
| SeedAlmanac.ApplyGroupFirstMatch | day-5/src/main.rs:52-57 | within a group the first mapping whose source range holds the id decides, and the id lands in that mapping's destination range |
| SeedAlmanac.ApplyGroupNoMatch | day-5/src/main.rs:52-57 | an id no mapping of the group holds passes through unchanged |
| SeedAlmanac.ApplyGroup | day-5/src/main.rs:52-57 | the id passes through or is the translation by a mapping whose source range holds it |
| SeedAlmanac.LocationAppend | day-5/src/main.rs:51-58 | going through two lists of groups is going through the first and then the second |
| SeedAlmanac.Location | day-5/src/main.rs:50-59 | the location is the seed itself or lies in the destination range of some mapping |
| SeedAlmanac.ApplyGroupLoop | day-5/src/main.rs:52-57 | the inner loop with its `break` gives `ApplyGroup` |
| SeedAlmanac.LocationOf | day-5/src/main.rs:50-59 | the loop over the groups gives the seed's location |
| SeedAlmanac.Minimum | day-5/src/main.rs:62 | `None` exactly for no values; otherwise one of the values, and no greater than any of them |
| SeedAlmanac.Locations | day-5/src/main.rs:49-60 | one location per seed |
| SeedAlmanac.LowestLocation | day-5/src/main.rs:48-63 | the least location of any seed, reached by some seed; `None` exactly when there are no seeds, where `unwrap` panics |
| SeedAlmanac.Range | day-5/src/main.rs:70 | `start..start + length`: length values counting up from start |
| SeedAlmanac.SeedRangesMembers | day-5/src/main.rs:66-71 | the expansion succeeds exactly for an even count of numbers, and then holds exactly the values of the (start, length) ranges |
| SeedAlmanac.SeedRanges | day-5/src/main.rs:66-71 | the expansion succeeds exactly for an even count of numbers |
| SeedAlmanac.ConvertSeedRange | day-5/src/main.rs:65-77 | the seeds become the values of the ranges and the mappings are kept; `None` for an odd count, where `chunk[1]` panics |
| BoatRaces.ParseAllEach | day-6/src/main.rs:4-5 | the words parse exactly when each one is an `i64`, and then give one value per word, in order |
| BoatRaces.Zip | day-6/src/main.rs:7 | as many races as the shorter list, the i-th time paired with the i-th distance |
| BoatRaces.Spaced | day-6/src/main.rs:4-5 | a list of numbers, each after a space, holds only digits and spaces, and a non-empty one ends in a digit |
| BoatRaces.Digits | day-6/src/main.rs:27 | the numbers written with no space between them hold only digits |
| BoatRaces.WordsSpaced | day-6/src/main.rs:4-5 | `split_ascii_whitespace` of the spaced numbers gives their decimal texts |
| BoatRaces.ParseDecimals | day-6/src/main.rs:4-5 | decimal texts of values that fit an `i64` parse back to those values |
| BoatRaces.ParseLabelled | day-6/src/main.rs:4-5 | a label followed by spaced numbers reads back as those numbers |
| BoatRaces.ParseTwoLines | day-6/src/main.rs:2-8 | two lines give the races of their times and distances, and `None` when either line fails |
| BoatRaces.ParseSheet | day-6/src/main.rs:2-8 | the "Time:" and "Distance:" lines of a sheet parse back to its races, zipped |
| BoatRaces.RemoveSpaces | day-6/src/main.rs:27 | removing the spaces from the spaced numbers leaves their digits run together |
| BoatRaces.SheetWithoutSpaces | day-6/src/main.rs:27 | with its spaces removed, a sheet becomes two lines of run-together digits |
| BoatRaces.ParseSheetWithoutSpaces | day-6/src/main.rs:2-27 | with its spaces removed, a sheet reads as one race of the run-together numbers, or `None` when either exceeds `i64` |
| BoatRaces.CountBelow | day-6/src/main.rs:12-17 | at most n-1 hold times below n win |
| BoatRaces.Ways | day-6/src/main.rs:11-17 | at most time-1 hold times win |
| BoatRaces.CountBelowIsSize | day-6/src/main.rs:12-17 | the count is the size of the set of winning hold times |
| BoatRaces.WaysCountsWinners | day-6/src/main.rs:12-17 | the count is the number of hold times 1 <= h < time whose distance beats the record |
| BoatRaces.MirrorWins | day-6/src/main.rs:13 | holding for h and for time-h travel equally far, so h wins exactly when time-h does |
| BoatRaces.WinnersContiguous | day-6/src/main.rs:13-16 | a hold time between two winning ones also wins |
| BoatRaces.Records | day-6/src/main.rs:10-19 | the product of the counts is never negative |
| BoatRaces.RecordsZero | day-6/src/main.rs:18 | the product is 0 exactly when some race cannot be won |
| BoatRaces.RecordsMultiple | day-6/src/main.rs:18 | each race's count divides the product |
| CamelCards.CardValue | day-7/src/main.rs:71-80 | a card is valued exactly when it is one of A, K, Q, J, T or a digit; values lie in 0..14, digits keep their value, and 1 is the jack only when jokers are in play |
| CamelCards.CardChar | day-7/src/main.rs:71-80 | every card value (other than 11 when jokers are in play) has a character that reads back as it |
| CamelCards.CardValues | day-7/src/main.rs:71-80 | the cards parse exactly when every character is valued, one value per character |
| CamelCards.ParseHand | day-7/src/main.rs:69-82 | a parsed hand holds the card values of the first word, one per character, and a bid that fits an `i64` |
| CamelCards.CardsText | day-7/src/main.rs:71-80 | every list of card values has a text whose characters read back as those values |
| CamelCards.ParseHandText | day-7/src/main.rs:69-82 | the cards' text, a space and the bid in decimal parse back to the same hand |
| CamelCards.ParseLines | day-7/src/main.rs:68-83 | one hand per line when every line parses; `None` when some line does not |
| CamelCards.ParseInput | day-7/src/main.rs:67-84 | one hand per line of the input, each the parse of its line |
| CamelCards.Count | day-7/src/main.rs:15-17 | how many cards have a value: at most the hand's size, and 0 exactly when none does |
| CamelCards.RemoveAll | day-7/src/main.rs:13 | the filter drops exactly the cards of that value: the others are kept, and the length drops by that value's count |
| CamelCards.CountRemoveAll | day-7/src/main.rs:13 | dropping the cards of one value leaves the count of every other value unchanged |
| CamelCards.Distinct | day-7/src/main.rs:14-17 | the distinct values of the hand, each once, and no others |
| CamelCards.Counts | day-7/src/main.rs:14-17 | one positive count per distinct value, adding up to the number of cards |
| CamelCards.CountsOfDistinct | day-7/src/main.rs:14-17 | the counts are the multiplicities of the hand's distinct values, value by value |
| CamelCards.InsertDescending | day-7/src/main.rs:18-19 | inserting into a descending list keeps it descending and adds exactly that element |
| CamelCards.SortDescending | day-7/src/main.rs:18-19 | `sorted().rev()`: descending, and a permutation of the counts |
| CamelCards.GroupSizes | day-7/src/main.rs:11-20 | the group sizes are positive, descending, and add up to the number of non-joker cards |
| CamelCards.GroupSizesOfValues | day-7/src/main.rs:11-20 | the group sizes are, up to order, the multiplicities of the distinct non-joker values of the hand |
| CamelCards.TypeOfPartition | day-7/src/main.rs:21-31 | every descending list of group sizes of at most five cards has a type in 1..7, and adding the missing cards to the largest group does not change it |
| CamelCards.TypeOf | day-7/src/main.rs:21-31 | a type found lies in 1..7, and is only found for at most five cards' worth of groups |
| CamelCards.HandType | day-7/src/main.rs:10-32 | a hand that does not reach the panic arm has a type in 1..7 |
| CamelCards.HandTypeTotal | day-7/src/main.rs:10-32 | a five-card hand never reaches the panic arm, and its type lies in 1..7 |
| CamelCards.JokersJoined | day-7/src/main.rs:22-29 | the jokers joined to the largest group: the other groups are unchanged |
| CamelCards.TypeOfJokersJoined | day-7/src/main.rs:21-31 | with jokers, the type is that of the hand whose jokers all join the largest group |
| CamelCards.HandTypeJokers | day-7/src/main.rs:10-32 | a hand with jokers has the type of its groups with the jokers added to the largest one |
| CamelCards.TypeOfFiveCards | day-7/src/main.rs:21-29 | for five real cards: five of a kind is 7, four of a kind 6, full house 5, three of a kind 4, two pairs 3, one pair 2 and high card 1, each exactly |
| CamelCards.FirstDifference | day-7/src/main.rs:40-46 | the first position where the cards differ, with equal cards before it; `None` exactly when they agree as far as both go |
| CamelCards.FirstDifferenceAt | day-7/src/main.rs:40-46 | a position where the cards differ, after agreement, is the first difference |
| CamelCards.FirstDifferenceSymmetric | day-7/src/main.rs:40-46 | the first difference does not depend on the order of the two hands |
| CamelCards.HandsEqual | day-7/src/main.rs:61-65 | `eq` is defined exactly when `cmp` is, and it never answers true |
| CamelCards.CompareDefined | day-7/src/main.rs:36-50 | two five-card hands compare exactly when their cards differ; identical cards reach the panicking `unwrap` |
| CamelCards.CompareTypedAntisymmetric | day-7/src/main.rs:36-50 | swapping the hands flips the answer |
| CamelCards.CompareTypedNeverEqual | day-7/src/main.rs:36-50 | the comparison never answers `Equal` |
| CamelCards.CompareTypedTransitive | day-7/src/main.rs:36-50 | the comparison is transitive |
| CamelCards.Compare | day-7/src/main.rs:35-51 | a comparison that does not panic has typed both hands and never answers `Equal` |
| CamelCards.CompareStrictOrder | day-7/src/main.rs:35-51 | `cmp` is a strict order wherever it does not panic |
| CamelCards.Insert | day-7/src/main.rs:87 | inserting a hand into an ascending list keeps it ascending and adds exactly that hand |
| CamelCards.SortHands | day-7/src/main.rs:87 | `sorted()`: ascending under `cmp`, and a permutation of the hands |
| CamelCards.AscendingUnique | day-7/src/main.rs:87 | two ascending permutations of the same hands are equal, so the sorted order is unique |
| CamelCards.Winnings | day-7/src/main.rs:86-91 | the winnings exist exactly when every pair of hands compares without a panic, and a lone hand has a type |
| CamelCards.ComparableTyped | day-7/src/main.rs:86-91 | when two or more hands all compare, every hand has a type |
| CamelCards.WinningsDefined | day-7/src/main.rs:86-91 | for five-card hands the winnings exist exactly when no two hands hold the same cards |
| CamelCards.WinningsRanked | day-7/src/main.rs:86-91 | the winnings are the bids weighted by rank in any ascending arrangement of the hands |
| HauntedWasteland.ParseDirections | day-8/src/main.rs:19-23 | the first line parses exactly when it holds only `L` and `R`, one direction per character |
| HauntedWasteland.ParseInput | day-8/src/main.rs:17-40 | the loop over the node lines gives `ParseNetwork`: `None` where `parse_input` panics |
| HauntedWasteland.NodesOfFails | day-8/src/main.rs:25-38 | once a node line fails to parse, the whole input fails |
| HauntedWasteland.FindAfter | day-8/src/main.rs:29 | a separator is found right after a prefix that does not hold its first character |
| HauntedWasteland.FindMissing | day-8/src/main.rs:29-31 | a separator is not found in a text that lacks one of its characters |
| HauntedWasteland.SplitOnAfter | day-8/src/main.rs:29-31 | splitting at a separator that follows a prefix gives that prefix first |
| HauntedWasteland.SplitOnMissing | day-8/src/main.rs:29-31 | splitting a text that lacks the separator gives the text alone |
| HauntedWasteland.RemoveFront | day-8/src/main.rs:32 | removing "(" from "(" and a name leaves the name |
| HauntedWasteland.RemoveBack | day-8/src/main.rs:33 | removing ")" from a name and ")" leaves the name |
| HauntedWasteland.ReplaceMissing | day-8/src/main.rs:32-33 | removing a character that is absent changes nothing |
| HauntedWasteland.NameExcludes | day-8/src/main.rs:29-33 | a node name holds none of the punctuation of a node line |
| HauntedWasteland.ParseInner | day-8/src/main.rs:31-33 | "(L, R)" splits at ", " into pieces that give L and R once the brackets are removed |
| HauntedWasteland.InnerHasNoEquals | day-8/src/main.rs:29 | "(L, R)" holds no `=`, so the line splits only once at " = " |
| HauntedWasteland.ParseNodeLine | day-8/src/main.rs:29-37 | the line "N = (L, R)" parses back to the node N with left L and right R |
| HauntedWasteland.WalkUntil | day-8/src/main.rs:46-69 | the walking loop, cut off after `fuel` steps, gives `Search` |
| HauntedWasteland.FindSteps | day-8/src/main.rs:42-56 | `find_steps` is the walk from AAA until ZZZ |
| HauntedWasteland.FindStepsLowerBound | day-8/src/main.rs:58-71 | `find_steps_lower_bound` is the walk from the start until a name ending in Z |
| HauntedWasteland.SearchMeaning | day-8/src/main.rs:46-54 | from a point the walk reached without meeting the goal, the search answers the least step count at the goal, or a panic within the budget, or that the goal was not met within it |
| HauntedWasteland.WalkUntilMeaning | day-8/src/main.rs:46-69 | a reached walk stops at the least number of steps that puts it at the goal; a panic happens within the budget; running out of fuel means no step up to the budget met the goal |
| HauntedWasteland.LowerBoundAtGoal | day-8/src/main.rs:61 | a start that already ends in Z takes no steps |
| HauntedWasteland.WalkStep | day-8/src/main.rs:62-67 | step number s follows instruction s mod the instruction count |
| HauntedWasteland.Walk | day-8/src/main.rs:61-67 | after one or more steps, the walk stands at a left or right neighbour of some node, and there are instructions |
| HauntedWasteland.Search | day-8/src/main.rs:46-69 | a reached search answers between the steps taken and that plus the fuel, and answers no new step only at the goal |
| HauntedWasteland.Gcd | day-8/src/main.rs:76 | the greatest common divisor is positive unless both numbers are 0 |
| HauntedWasteland.GcdDivides | day-8/src/main.rs:76 | the greatest common divisor divides both numbers |
| HauntedWasteland.GcdGreatest | day-8/src/main.rs:76 | every common divisor divides the greatest common divisor |
| HauntedWasteland.Lcm | day-8/src/main.rs:76 | `lcm` is 0 exactly when one of the numbers is 0 |
| HauntedWasteland.QuotientZero | day-8/src/main.rs:76 | `a * (b / gcd)` is 0 exactly when one of the numbers is 0 |
| HauntedWasteland.LcmAll | day-8/src/main.rs:76 | the fold is 0 exactly when some count is 0 |
| HauntedWasteland.Bezout | day-8/src/main.rs:76 | the greatest common divisor is an integer combination of the two numbers |
| HauntedWasteland.LcmMultiple | day-8/src/main.rs:76 | `lcm` is a common multiple, positive for positive numbers |
| HauntedWasteland.LcmLeast | day-8/src/main.rs:76 | `lcm` of positive numbers divides every common multiple |
| HauntedWasteland.LcmAllLeast | day-8/src/main.rs:76 | the fold from 1 is positive, a multiple of each count, and divides every common multiple |
| HauntedWasteland.LcmAllDividesLcmAll | day-8/src/main.rs:76 | the fold over counts that all occur in a second list divides the fold over that list |
| HauntedWasteland.LcmAllOrderFree | day-8/src/main.rs:76 | lists with the same counts fold to the same value, whatever their order or repetitions |
| HauntedWasteland.StepCounts | day-8/src/main.rs:75 | one step count per start node |
| HauntedWasteland.GhostStepsCounts | day-8/src/main.rs:73-77 | a ghost walk that succeeds reached a Z node from every start, and its answer is the fold of those counts |
| HauntedWasteland.GhostSteps | day-8/src/main.rs:73-77 | a ghost walk that succeeds reached a Z node from every start |
| HauntedWasteland.StartTakesSteps | day-8/src/main.rs:58-74 | a start ending in A takes at least one step to reach a Z node |
| HauntedWasteland.SearchFrom | day-8/src/main.rs:61-69 | a search from a node not at the goal takes at least one more step |
| HauntedWasteland.SearchMonotone | day-8/src/main.rs:46-69 | a search never answers fewer steps than were already taken |
| HauntedWasteland.GhostStepsLeast | day-8/src/main.rs:73-77 | when every ghost walk succeeds, the answer is the least common multiple of the counts: positive, a multiple of each, and a divisor of every common multiple |
| HauntedWasteland.GhostStepsOrderFree | day-8/src/main.rs:74 | any listing of the start nodes gives the same answer, so the key order of the hash map does not matter |
| HauntedWasteland.FindGhostSteps | day-8/src/main.rs:73-77 | the loop over the start nodes gives `GhostSteps` |
| HauntedWasteland.GhostStepsFails | day-8/src/main.rs:75-76 | once one walk fails, the whole ghost walk fails with it |
| HauntedWasteland.TwoSteps | day-8/src/main.rs:95-108 | the first test network is walked in 2 steps |
| HauntedWasteland.SixSteps | day-8/src/main.rs:111-120 | the second test network is walked in 6 steps |
| HauntedWasteland.GhostWalkFrom11A | day-8/src/main.rs:126-128 | from 11A, a Z node is reached in 2 steps |
| HauntedWasteland.GhostWalkFrom22A | day-8/src/main.rs:129-132 | from 22A, a Z node is reached in 3 steps |
| HauntedWasteland.LcmExamples | day-8/src/main.rs:76 | lcm(1, 2) = 2 and lcm(2, 3) = 6 |
| HauntedWasteland.GhostSixSteps | day-8/src/main.rs:123-137 | the ghost test network takes 6 steps |
| Mirage.ParseNumbers | day-9/src/main.rs:2 | a success gives one `i64` per word, each the parse of its word |
| Mirage.ParseSequence | day-9/src/main.rs:2 | a parsed line has one number per space-separated piece, and at least one |
| Mirage.ParseLines | day-9/src/main.rs:2 | one sequence per line when each line parses; `None` when some line does not |
| Mirage.ParseSequences | day-9/src/main.rs:1-3 | one non-empty sequence per line of the input |
| Mirage.NumberTexts | day-9/src/main.rs:2 | one decimal text per number, signed when negative |
| Mirage.RenderLines | day-9/src/main.rs:1-3 | one line per sequence |
| Mirage.NumbersRoundTrip | day-9/src/main.rs:2 | the texts of `i64` numbers parse back to the numbers |
| Mirage.SequenceRoundTrip | day-9/src/main.rs:2 | a sequence written with single spaces parses back to itself |
| Mirage.LinesRoundTrip | day-9/src/main.rs:1-3 | written sequences, line by line, parse back to themselves |
| Mirage.ParseRendered | day-9/src/main.rs:1-3 | the whole text of the sequences parses back to them |
| Mirage.Differences | day-9/src/main.rs:6 | `windows(2)`: one fewer element, the i-th being s[i+1] - s[i] |
| Mirage.ExtrapolateSequence | day-9/src/main.rs:5-16 | the extrapolated sequence has one more element |
| Mirage.NextRow | day-9/src/main.rs:7-11 | the row below is extended by one element |
| Mirage.ExtrapolateKeeps | day-9/src/main.rs:14 | the sequence is kept as the prefix of its extrapolation |
| Mirage.ExtrapolateConstant | day-9/src/main.rs:7-14 | a constant sequence extrapolates to its last value |
| Mirage.LastSumZero | day-9/src/main.rs:7-8 | the sum of the last values of an all-zero sequence's rows is 0 |
| Mirage.FirstPredictionZero | day-9/src/main.rs:7-8 | the backward prediction of an all-zero sequence is 0 |
| Mirage.ExtrapolatedValue | day-9/src/main.rs:5-16 | the new value is the sum of the last values of every row of differences |
| Mirage.ZeroDifferences | day-9/src/main.rs:6-7 | an all-zero sequence has all-zero differences |
| Mirage.ExtrapolateStep | day-9/src/main.rs:12-14 | the new value is the last value plus the new value of the differences |
| Mirage.DifferencesAppend | day-9/src/main.rs:6-14 | appending last + y appends y to the differences |
| Mirage.ExtrapolateCommutes | day-9/src/main.rs:5-16 | the differences of the extrapolation are the extrapolation of the differences |
| Mirage.ExtendedDifferences | day-9/src/main.rs:6-14 | a one-element extension whose new difference is the extension of the differences |
| Mirage.ArithmeticNext | day-9/src/main.rs:5-16 | a sequence with constant step c extrapolates to its last value plus c |
| Mirage.ArithmeticLastSum | day-9/src/main.rs:5-16 | for a constant step c, the last values sum to the last value plus c |
| Mirage.ArithmeticFirstPrediction | day-9/src/main.rs:28 | for a constant step c, the backward value is the first value minus c |
| Mirage.ConstantDifferences | day-9/src/main.rs:6 | constant steps give differences that all equal c |
| Mirage.ExtrapolateSequencesDefined | day-9/src/main.rs:18-20 | the sum is defined exactly when no sequence is empty; an empty one panics at `last().unwrap()` |
| Mirage.ExtrapolateSequencesTotal | day-9/src/main.rs:18-20 | the sum is the total of each sequence's new value |
| Mirage.ExtrapolateSequences | day-9/src/main.rs:18-20 | a sum is returned only when every sequence has a reading |
| Mirage.Negate | day-9/src/main.rs:28 | every element negated |
| Mirage.DifferencesReverse | day-9/src/main.rs:6-28 | the differences of the reversed sequence are the reversed differences, negated |
| Mirage.LastSumNegate | day-9/src/main.rs:5-16 | negating a sequence negates the sum of its rows' last values |
| Mirage.NegateDifferences | day-9/src/main.rs:6 | negation commutes with differences |
| Mirage.LastSumReverse | day-9/src/main.rs:28 | extrapolating the reversed sequence forward gives the backward prediction of the original |
| Mirage.ExtrapolateReversed | day-9/src/main.rs:28-29 | the new value of the reversed sequence is the value before the first |
| Mirage.FirstPrediction | day-9/src/main.rs:28-29 | a single reading is its own backward prediction |
| Mirage.ReverseAll | day-9/src/main.rs:28 | every sequence reversed |
| Mirage.ExtrapolateBackwards | day-9/src/main.rs:28-29 | part two's sum is the total of each sequence's backward prediction |
| Mirage.TotalLastSumReversed | day-9/src/main.rs:28-29 | the forward total of the reversed sequences is the backward total of the originals |
| Mirage.ReverseAllTail | day-9/src/main.rs:28 | reversing all sequences commutes with dropping the first |
| Mirage.ExampleFirst | day-9/src/main.rs:39 | 0 3 6 9 12 15 extrapolates to 18 forward and -3 backward |
| Mirage.ExampleSecond | day-9/src/main.rs:40 | 1 3 6 10 15 21 extrapolates to 28 forward and 0 backward |
| Mirage.ExampleThird | day-9/src/main.rs:41 | 10 13 16 21 30 45 extrapolates to 68 forward and 5 backward |
| Mirage.ExampleReportForward | day-9/src/main.rs:37-45 | the test report sums to 114 |
| Mirage.ExampleReportBackward | day-9/src/main.rs:47-57 | the reversed test report sums to 2 |
| Mirage.ExampleTotals | day-9/src/main.rs:37-57 | the test totals are 114 forward and 2 backward |
| PipeMaze.ConnectsTo | day-10/src/main.rs:30-40 | a pipe connects to a position exactly when that position is one of the two openings of its kind (none for an empty cell) |
| PipeMaze.OpeningsShape | day-10/src/main.rs:16-24 | an empty cell opens nowhere; every pipe kind opens towards exactly two distinct cells, each at Manhattan distance 1 |
| PipeMaze.ConnectionExamples | day-10/src/main.rs:134-152 | the twelve connections the connection test checks hold |
| PipeMaze.CellKind | day-10/src/main.rs:50-65 | a character is accepted exactly when it is one of `-|LJ7F.S`; anything else stops the parse |
| PipeMaze.KindChar | day-10/src/main.rs:50-57 | every kind has a character other than 'S' that reads back as that kind |
| PipeMaze.GridRow | day-10/src/main.rs:48-68 | row i of the grid has one cell per character, holding that character's kind and position (i, j) |
| PipeMaze.Grid | day-10/src/main.rs:47-70 | the grid has one row per line and row i is that line's row |
| PipeMaze.LastStartInLineSpec | day-10/src/main.rs:58-60 | scanning a line leaves the start at its last 'S', or where it was when the line has none |
| PipeMaze.LastStartSpec | day-10/src/main.rs:46-61 | the scan leaves the start at the last 'S' in reading order, and at (0, 0) when there is none |
| PipeMaze.ConnectsAt | day-10/src/main.rs:71-86 | reading a neighbour succeeds exactly when it lies in the grid; out of the grid the program stops |
| PipeMaze.StartKindOpensToConnecting | day-10/src/main.rs:71-88 | when exactly two neighbours connect to the start, the (corrected) start kind opens towards exactly those two |
| PipeMaze.StartKindAsWritten | day-10/src/main.rs:71-88 | an inferred kind is a pipe, and the west neighbour it reads lies in the grid |
| PipeMaze.StartKind | day-10/src/main.rs:71-88 | the corrected inference stops the program on the same grids, agrees with the written one when the west neighbour connects, and infers a pipe |
| PipeMaze.StartKindAsWrittenSwapped | day-10/src/main.rs:79-86 | with only the north and south neighbours connecting, the start kind as written is `NorthEast`, which does not open south; the corrected kind is `Vertical` |
| PipeMaze.StartInGrid | day-10/src/main.rs:71-88 | whenever a start kind is inferred, the start lies in the grid on an 'S' |
| PipeMaze.Parse | day-10/src/main.rs:44-90 | the character-by-character scan returns exactly the grid and start of the functional definition, or stops where it does |
| PipeMaze.ParsedCells | day-10/src/main.rs:44-90 | a parsed grid has the input's shape; every cell holds its own position; every cell but the start has its character's kind; the start is an 'S' holding the inferred kind |
| PipeMaze.ParseRejects | day-10/src/main.rs:62-64 | an unknown character, or an input without 'S', stops the parse |
| PipeMaze.ParseSpec | day-10/src/main.rs:44-90 | a parse succeeds only on valid lines holding an 'S', and its start is the last 'S' in reading order, inside the grid |
| PipeMaze.StartCellSet | day-10/src/main.rs:88-89 | giving the start cell its kind keeps the grid's shape and every cell's position |
| PipeMaze.FirstMove | day-10/src/main.rs:101-116 | the chosen neighbour is the first candidate, in the order west, east, north, south, that is unvisited and connected; none is chosen only when no candidate qualifies |
| PipeMaze.FindPathRec | day-10/src/main.rs:99-118 | the walk only adds grid cells to the visited set, and the set grows by exactly one cell per step taken |
| PipeMaze.FindPathHalfVisited | day-10/src/main.rs:92-97 | the answer is half the number of distinct cells the walk visits, the start included |
| PipeMaze.FindPath | day-10/src/main.rs:92-97 | an answer means the start is in the grid, and is at most half the number of cells |
| PipeMaze.SquareLoop | day-10/src/main.rs:92-118 | on a 2 by 2 loop of bends the farthest point is 2 steps away |
| CosmicExpansion.DistMetric | day-11/src/main.rs:11-13 | the galaxy distance is symmetric and is zero exactly between a galaxy and itself |
| CosmicExpansion.DistTriangle | day-11/src/main.rs:11-13 | the galaxy distance obeys the triangle inequality |
| CosmicExpansion.Dist | day-11/src/main.rs:11-13 | the distance is zero exactly between a galaxy and itself |
| CosmicExpansion.Column | day-11/src/main.rs:21-26 | taking element j from every row succeeds exactly when every row has one, and gives those elements in row order |
| CosmicExpansion.Columns | day-11/src/main.rs:20-27 | columns j to len succeed exactly when every row is long enough, and each is the corresponding column |
| CosmicExpansion.Transpose | day-11/src/main.rs:16-28 | the transpose exists exactly when there is a row and no row is shorter than the first; it has the first row's length in rows and element [j][i] is v[i][j] |
| CosmicExpansion.TransposeTwice | day-11/src/main.rs:16-28 | transposing a non-empty rectangular grid twice gives it back |
| CosmicExpansion.TransposeNoColumns | day-11/src/main.rs:16-18 | a grid of empty rows transposes to nothing, and transposing that panics |
| CosmicExpansion.ExpandEmptyLines | day-11/src/main.rs:30-32 | every row of the expanded grid is a row of the original |
| CosmicExpansion.Occupied | day-11/src/main.rs:30-32 | the rows kept as occupied all hold a galaxy |
| CosmicExpansion.ExpandKeepsOccupied | day-11/src/main.rs:30-32 | expansion keeps the rows holding galaxies unchanged and in order |
| CosmicExpansion.ExpandDoublesEmpty | day-11/src/main.rs:30-32 | expansion doubles the number of empty rows, so the grid grows by one row per empty row |
| CosmicExpansion.ExpandAppend | day-11/src/main.rs:30-32 | expanding two stacked grids is stacking their expansions |
| CosmicExpansion.ExpandRectangular | day-11/src/main.rs:30-32 | expansion keeps a rectangular grid rectangular and of the same width |
| CosmicExpansion.RowCountEmpty | day-11/src/main.rs:31 | a row counts no galaxy exactly when every cell is empty |
| CosmicExpansion.ExpandKeepsCount | day-11/src/main.rs:30-32 | expansion neither adds nor loses a galaxy |
| CosmicExpansion.RowGalaxies | day-11/src/main.rs:38 | a row yields exactly the galaxies at its `#` cells, left to right |
| CosmicExpansion.GridGalaxies | day-11/src/main.rs:38 | a grid yields exactly its galaxies, in row-major order |
| CosmicExpansion.ImageGrid | day-11/src/main.rs:35 | the flag grid has the lines' shape and a cell is set exactly where the line has '#' |
| CosmicExpansion.FindGalaxies | day-11/src/main.rs:34-39 | the galaxies found are exactly those of the image expanded in both directions, in row-major order; none when a transpose panics |
| CosmicExpansion.ExpandedImageDefined | day-11/src/main.rs:34-36 | a rectangular image with a row and a column expands without a panic |
| CosmicExpansion.ExpandedImage | day-11/src/main.rs:34-36 | the expanded image has a row and a column and is rectangular |
| CosmicExpansion.TransposeCount | day-11/src/main.rs:16-28 | transposing a rectangular grid keeps its galaxy count |
| CosmicExpansion.ColsCount | day-11/src/main.rs:16-28 | reading a grid by columns counts the same galaxies as reading it by rows |
| CosmicExpansion.FindGalaxiesCount | day-11/src/main.rs:34-39 | for a rectangular image, as many galaxies are found as the unexpanded image holds |
| CosmicExpansion.SumPathsHalf | day-11/src/main.rs:41-46 | the sum over unordered pairs is half the sum over all ordered pairs |
| CosmicExpansion.AllPairsCons | day-11/src/main.rs:41-46 | the ordered-pair sum splits off the distances to a galaxy put in front |
| CosmicExpansion.DistSum | day-11/src/main.rs:41-46 | the sum of distances from a galaxy is at least each of its terms |
| CosmicExpansion.SumPaths | day-11/src/main.rs:41-46 | no pairs sum to 0, and the pair sum is at least the distance of every pair |
| HotSprings.ParseSpring | day-12/src/main.rs:29-35 | one spring is read exactly when the input starts with `#`, `.` or `?`, and its `Debug` spelling is that character |
| HotSprings.ParseSprings | day-12/src/main.rs:37-39 | a successful parse reads at least one spring and consumes input |
| HotSprings.ParseGroup | day-12/src/main.rs:41-43 | a successful parse reads at least one number and consumes input |
| HotSprings.ParseLine | day-12/src/main.rs:45-51 | a successful parse consumes input |
| HotSprings.ParseInput | day-12/src/main.rs:53-55 | a successful parse reads at least one row |
| HotSprings.SpringRoundTrip | day-12/src/main.rs:19-35 | printing a spring with `Debug` and parsing it back gives the spring |
| HotSprings.SpringsRoundTrip | day-12/src/main.rs:37-39 | a printed non-empty row of springs parses back to itself, stopping at the next non-spring character |
| HotSprings.GroupsRoundTrip | day-12/src/main.rs:41-43 | printed run lengths within the i64 range parse back to themselves, stopping before the next character that is not a digit or comma |
| HotSprings.LineRoundTrip | day-12/src/main.rs:45-51 | a printed line parses back to the same row, whatever follows |
| HotSprings.InputRoundTrip | day-12/src/main.rs:53-55 | printed rows parse back to the same rows with nothing left over |
| HotSprings.RunLengths | day-12/src/main.rs:85-126 | every run length is positive, and a row ending in a damaged spring has at least one run |
| HotSprings.RunLengthsSnoc | day-12/src/main.rs:89-123 | appending a non-damaged spring keeps the runs; appending a damaged one lengthens the open run or starts a run of 1 |
| HotSprings.RunLengthsExtend | day-12/src/main.rs:89-123 | appending springs never removes a run or shortens the last, and never changes a run that is closed |
| HotSprings.PrefixRejects | day-12/src/main.rs:94-119 | a prefix whose runs already contradict the groups rules out the whole row, which is why the scan may return false early |
| HotSprings.ScanDamagedInRun | day-12/src/main.rs:94-100 | a damaged spring in a run whose group is used up rejects the row; otherwise the scan state stays exact |
| HotSprings.ScanDamagedNewRun | day-12/src/main.rs:101-113 | a damaged spring with no groups left, or with a group below 1, rejects the row; otherwise it opens the next group |
| HotSprings.ScanOperational | day-12/src/main.rs:114-121 | an operational spring ending a run that is not used up rejects the row; otherwise it closes the run |
| HotSprings.ScanEnd | day-12/src/main.rs:125 | at the end the row is arranged exactly when the open group is used up or none is open, and every group was used |
| HotSprings.GroupsValid | day-12/src/main.rs:85-126 | returns true exactly when the row has no unknown spring and its damaged runs have exactly the listed lengths, in order |
| HotSprings.Prepend | day-12/src/main.rs:62-72 | each listed row gets the spring in front, in order |
| HotSprings.PrependMember | day-12/src/main.rs:62-72 | a row is in the prefixed list exactly when it starts with the spring and its tail is in the list |
| HotSprings.CompletesStep | day-12/src/main.rs:62-72 | filling in a row splits into its first spring and the rest |
| HotSprings.CompletionsExact | day-12/src/main.rs:57-83 | the completions are exactly the ways of reading each unknown spring as damaged or operational |
| HotSprings.CompletionsDistinct | day-12/src/main.rs:57-83 | no completion is listed twice |
| HotSprings.CompletionsCount | day-12/src/main.rs:57-83 | a row with k unknown springs has 2^k completions |
| HotSprings.CompletionsKnown | day-12/src/main.rs:77-82 | a row with nothing unknown is its own only completion |
| HotSprings.CompletionsSplit | day-12/src/main.rs:62-72 | at the first unknown spring, the completions are those with it damaged followed by those with it operational |
| HotSprings.CompletionsKnownHead | day-12/src/main.rs:62-75 | a known first spring is kept in front of every completion of the rest |
| HotSprings.CountArranged | day-12/src/main.rs:57-83 | at most as many rows agree as are listed |
| HotSprings.CountArrangedAppend | day-12/src/main.rs:67-71 | the count over two lists is the sum of their counts |
| HotSprings.CountArrangedAsSet | day-12/src/main.rs:57-83 | counting a list without repeats counts the set of agreeing members |
| HotSprings.ArrangementsMeaning | day-12/src/main.rs:57-83 | the count is the number of distinct fillings of the unknown springs that agree with the run lengths, at most 2^k |
| HotSprings.ArrangementsKnown | day-12/src/main.rs:77-82 | a row with nothing unknown counts 1 if it agrees with its run lengths and 0 otherwise |
| HotSprings.Arrangements | day-12/src/main.rs:57-83 | the count is at most 2^k for a row with k unknown springs |
| HotSprings.UnknownCountUpdate | day-12/src/main.rs:65-69 | filling in one unknown spring leaves one unknown fewer, which is why the recursion ends |
| HotSprings.Choices | day-12/src/main.rs:57-83 | the recursion returns exactly the number of completions of the row that agree with its run lengths |
| HotSprings.TotalArrangementsSnoc | day-12/src/main.rs:128-130 | the total over rows plus one more is the old total plus that row's count |
| HotSprings.ChoiceSum | day-12/src/main.rs:128-130 | the sum is the total of every row's count |

## Left out

- Reading `input.txt`, the `main` functions, `println!` and debug prints: input and output only.
- The progress bar around the day-12 sum (`indicatif`) is display only.
- The parallel iteration of day 5 (`rayon`) is modelled as a sequential map followed by a minimum or a flattening. The result does not depend on the schedule.
- The internals of `nom`, `pest` and `itertools` are not modelled; the grammars and the iterator adaptors they provide are defined directly.
- The day-4 grammar file `cards.pest` is not part of this model. Day 4 starts from cards already split into a card number and two lists of number tokens.
- Hash map and hash set iteration order is left out. The day-3 gear table and the day-4 card counts are Dafny maps. The order in which day 8 lists its start nodes is a parameter, and `HauntedWasteland.GhostStepsOrderFree` shows that the answer does not depend on it.
- The day-8 walks are bounded by a fuel parameter; a walk that would loop forever in the program ends as `OutOfFuel` in the model.
- The "Unknown color" panic of day 2 cannot be reached, because the colour parser accepts only `red`, `green` and `blue`; the model has no branch for it.
- Day 1 takes the input to be ASCII, so indexing bytes and indexing characters agree.
- Scratchcards.PlayCardEffect: card numbers are unbounded integers. The `u8` addition `card_number + copies as u8 + 1` can overflow for card numbers near 255, and the model does not capture that.
- Scratchcards.PointsDouble: `2_i32.pow(k - 1)` and the `i32` sum are unbounded in the model, so `i32` overflow for 32 or more matches is not captured.
- SeedAlmanac.ApplyGroupFirstMatch: `from + count` and `to + (id - from)` are unbounded; a `u64` overflow is not captured.
- SeedAlmanac.ConvertSeedRange: `start + length` is unbounded; a `u64` overflow is not captured.
- BoatRaces.Records: the `i64` product of the counts is unbounded.
- CamelCards.WinningsRanked: the bid-times-rank sum is unbounded.
- CamelCards.Winnings: the `i64` sum of bid times rank is unbounded; an `i64` overflow is not captured.
- Mirage.ExtrapolateSequences: the `i64` differences, the sums of last values and the total are unbounded; an `i64` overflow is not captured.
- CubeGames.PossibleGameSum: the `u32` sum of ids is unbounded.
- Scratchcards.CalculateCards: the `i32` copy counts and their sum are unbounded.
- BoatRaces.Ways: the `i64` product `(time - held) * held` is unbounded.
- HauntedWasteland.LcmAll: the `usize` products of the `lcm` fold are unbounded.
- HauntedWasteland.GhostSteps: the `usize` answer, the `lcm` of the step counts, is unbounded.
- HauntedWasteland.FindSteps: the step counter is unbounded.
- EngineSchematic.SumParts: the `u32` sums and the gear-ratio products are unbounded; part numbers are accumulated without `u32` overflow.
- CubeGames.GamePowerSum: the `u32` products and sums are unbounded.
- Calibration.CalculateSumOfLines: the `u32` sum is unbounded.
- CosmicExpansion.SumPathsHalf: the `i64` distances and their sum are unbounded.
- HotSprings.ChoiceSum: the `i64` counts and their sum are unbounded.
- The day-3 tests, with expected results (4361, 467835) and (124, 15), are not stated. The general properties of the scan are proved instead.
- The day-7 tests, with expected winnings 12 and 21, are not stated. The same holds for hand types computed on concrete hands. `CamelCards.WinningsRanked` gives the general rank-times-bid sum.
- The day-10 tests on 5 by 5 mazes, with answers 4 and 8, are not stated. `PipeMaze.SquareLoop` works a 2 by 2 loop instead.
- The day-11 example, with answer 374, is not stated. The general properties of expansion and of the pair sum are proved instead.
- The day-12 tests are not stated: the rejected `groups_valid` row and the counts 10, 4 and 21. They are covered in general by `HotSprings.GroupsValid` and `HotSprings.ArrangementsMeaning`.

## Findings

| source | as written | input that shows it | evidently intended | confidence | as-written member | corrected member |
|---|---|---|---|---|---|---|
| day-10/src/main.rs:79-86 | when the west neighbour does not connect to the start: `NorthEast` when both south and north connect, `SouthEast` when only south connects, `Vertical` when neither does | a start whose north and south neighbours are vertical pipes, with nothing to the west: the start becomes `NorthEast`, which does not open south | `Vertical` when north and south connect, `NorthEast` when north and east connect | not executed | PipeMaze.StartKindAsWrittenSwapped | PipeMaze.StartKindOpensToConnecting |
