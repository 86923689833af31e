# Calibration values and cube games, in Dafny

This project models the library code of two Advent of Code 2023 puzzle
units and proves properties of the model.

* **Day 1 (calibration).** A line's calibration value is the two-digit
  number made of its first and last ASCII digit. The total is the `u16`
  sum over the input lines. In part 2, spelled-out digits ("one" ..
  "nine") are first rewritten into digit characters by `eng_to_char`. That
  function scans a table of nine word/digit mappings with an
  overlapping substring finder (`FindIter`). It records in one slot per
  offset the digit of the last mapping that matched there. Then it keeps
  the filled slots in offset order.
* **Day 2 (cube games).** A record `Game <id>: <round>; <round>; ...` is
  parsed into an id and a list of rounds. Each round is a comma-separated
  list of `<count> <colour>` pairs with `u16` counts. A game is *possible*
  when every round fits a bag of 12 red, 13 green and 14 blue cubes. The
  *power* of a game is the `u32` product of its per-colour maxima. The
  answers are the ids of the possible games and the `u32` sum of the
  powers.

Files and modules:

| file | module | contents |
|---|---|---|
| `wrappers.dfy` | `Wrappers` | `Option`, `Result`, and `Traverse` (`collect` into a `Result<Vec<_>>`) |
| `text.dfy` | `Text` | the `str` operations used: `find`, `split_once`, `split`, `trim`, unsigned `parse`; a decimal renderer as the parser's partner |
| `checked.dfy` | `Checked` | `Iterator::sum` into a fixed-width integer with overflow checking |
| `search.dfy` | `Search` | `FindIter`: its state, `next`, `find_iter`, and the collected offsets |
| `calibration.dfy` | `Calibration` | `ENG_CHAR_MAP`, `eng_to_char`, `get_line_calibration`, the two totals |
| `cubes.dfy` | `Cubes` | `Round`, `Game`, and the record parser, with a renderer as its partner |
| `cube_stats.dfy` | `CubeStats` | `is_possible`, `max_of_rounds`, `power_of_max`, `find_possible_game_ids`, `get_total_power` |

Conventions:

* Text is a `string`, with one `char` per byte. The inputs are ASCII, so
  byte offsets are sequence indices.
* The input lines are a parameter: `seq<Result<string, IoError>>`. A line
  that could not be read is an `Err`.
* Every Rust panic on the paths modelled is an error value of the model:
  * `unwrap` of an unreadable line;
  * `expect` on a line without a digit;
  * slicing a header shorter than five bytes;
  * integer overflow in a checked (debug) build, which is how `cargo run`
    and `cargo test` build.

## Model

| member | source | states |
|---|---|---|
| Text.FindFrom | day_1/src/lib.rs:71-72 | the result is an occurrence at or after the start offset, no earlier occurrence exists at or after the start, and `None` comes back exactly when there is no occurrence at or after the start |
| Text.Find | day_1/src/lib.rs:71-72 | `str::find` returns the offset of the first occurrence of the pattern, and `None` exactly when the pattern does not occur |
| Search.Start | day_1/src/lib.rs:84-90 | `find_iter` keeps the text and the pattern it is given and starts its cursor at offset 0 |
| Search.Next | day_1/src/lib.rs:70-80 | `next` yields the first occurrence at or after the cursor and moves the cursor to one past that occurrence's start, leaving the text and pattern alone; it yields `None` exactly when no occurrence remains |
| Search.Remaining | day_1/src/lib.rs:70-80 | collecting the iterator yields strictly ascending offsets, each an occurrence at or after the cursor, and misses none of them |
| Search.RemainingIsMatches | day_1/src/lib.rs:70-80 | what the iterator yields is exactly what an offset-by-offset reference scan finds, overlapping occurrences included |
| Search.FindAll | day_1/src/lib.rs:84-90 | the collected offsets are exactly the occurrences of the pattern in the text, and they equal the reference scan from 0 |
| Search.FindAllExample | day_1/src/lib.rs:105-110 | "aa" is found in "aaaXXaXXXaaXXXaa" at 0, 1, 9 and 14 |
| Calibration.MapShape | day_1/src/lib.rs:28-38 | the table has nine entries, entry `k` stands for the digit `k + 1`, and every word is at least three letters long and starts with a lower-case letter |
| Calibration.WordHeadsExact | day_1/src/lib.rs:28-38 | the set of two-letter word starts used to rule out matches is exactly the set of first two letters of the table's nine words |
| Calibration.Mark | day_1/src/lib.rs:47-53 | after `digits[o] = Some(c)` for each offset `o` found, exactly the slots at those offsets hold `c` and every other slot is unchanged |
| Calibration.ScanMapping | day_1/src/lib.rs:45-54 | one turn of the table loop writes the mapping's digit into exactly the slots where its word or its digit starts, and leaves every other slot unchanged |
| Calibration.FillSlots | day_1/src/lib.rs:42-55 | after the first `n` mappings are scanned, every slot holds what the reference "last writer" definition says |
| Calibration.LastWriterWins | day_1/src/lib.rs:45-55 | a slot is empty exactly when no mapping matches at its offset; otherwise it holds the digit of the last mapping in table order that matches there |
| Calibration.MatchUnique | day_1/src/lib.rs:28-38 | no two different mappings match at the same offset, because no two words share their first two letters |
| Calibration.SlotExact | day_1/src/lib.rs:42-55 | so the scan order does not decide anything: after the whole table, slot `i` holds digit `k + 1` exactly when mapping `k` matches at `i` |
| Calibration.Collapse | day_1/src/lib.rs:57-59 | `filter_map` keeps only filled slots: the result is no longer than the slots, and a character is in it exactly when some slot holds it |
| Calibration.CollapseOne | day_1/src/lib.rs:57-59 | a single slot gives its digit if it holds one, and nothing otherwise |
| Calibration.CollapseAppend | day_1/src/lib.rs:57-59 | collapsing two runs of slots one after the other gives the first run's digits followed by the second's; with `CollapseOne` this fixes the order and the number of copies of every digit |
| Calibration.EngToChar | day_1/src/lib.rs:41-60 | the rewritten line is, offset by offset in order, the digit of the last mapping that matches there (offsets where none matches give nothing); it is no longer than the input and holds only '1' .. '9' |
| Calibration.CollapseSlots | day_1/src/lib.rs:41-60 | collapsing the filled slots from any offset on gives the offset-by-offset reference digits from that offset |
| Calibration.EngToCharDigitsOnly | day_1/src/lib.rs:41-60 | a line made only of the digits '1' .. '9' comes out unchanged |
| Calibration.ZeroNoSlot | day_1/src/lib.rs:28-60 | '0' is not in the table and starts no word, so an offset of any line that holds '0' never gets a digit |
| Calibration.ZeroDropped | day_1/src/lib.rs:28-60 | '0' is not in the table, so the line "0" comes out empty |
| Calibration.EngToCharExample | day_1/src/lib.rs:113-117 | "two3four5" is rewritten to "2345" |
| Calibration.LineCalibration | day_1/src/lib.rs:16-26 | a line fails (with `NoDigit`) exactly when it has no ASCII digit; otherwise its value is at most 99 and equals ten times its first digit plus its last digit |
| Calibration.CalibrationAt | day_1/src/lib.rs:16-26 | a line's first and last digit determine its value |
| Calibration.WordsValueRange | day_1/src/lib.rs:8-13 | after digit words are rewritten, a line's value lies between 11 and 99 |
| Calibration.TotalCalibration | day_1/src/lib.rs:2-5 | the `u16` total succeeds exactly when every line is readable and has a digit and the unbounded sum of the line values is at most 65535; it then equals that sum |
| Calibration.TotalCalibrationSample | day_1/src/lib.rs:97-102 | the four lines "1abc2", "pqr3stu8vwx", "a1b2c3d4e5f" and "treb7uchet" total 142 |
| Calibration.TotalCalibration2 | day_1/src/lib.rs:8-13 | the same characterisation for the total taken after each line's digit words are rewritten |
| Checked.CheckedSumIsPlainSum | day_2/src/lib.rs:4-8 | a sum that stops at the first error or the first partial sum above the limit succeeds exactly when all values are present and the unbounded total is within the limit, and then it equals that total |
| Wrappers.Traverse | day_2/src/lib.rs:89-93 | collecting results into `Result<Vec<_>>` is `Ok` exactly when every element maps to `Ok`, keeps length and order, and otherwise returns the error of the first failing element |
| Text.SplitOnce | day_2/src/lib.rs:113-114 | `split_once` fails exactly when the separator is absent; otherwise the text is the part before the first separator, the separator, and the rest |
| Text.Split | day_2/src/lib.rs:89-93 | `split` yields at least one piece, no piece holds the separator, and joining the pieces gives the text back |
| Text.SplitJoin | day_2/src/lib.rs:89-93 | splitting reverses joining, for pieces that do not hold the separator |
| Text.Trim | day_2/src/lib.rs:130-131 | `trim` returns a slice of the input with no whitespace at either end, and only whitespace is cut off |
| Text.ParseNat | day_2/src/lib.rs:83 | unsigned `parse` accepts exactly an optional '+' followed by one or more ASCII digits and returns their decimal value |
| Text.ParseShow | day_2/src/lib.rs:83 | parsing the decimal rendering of a number, with or without a leading '+', returns that number |
| Cubes.ColourOf | day_2/src/lib.rs:133-137 | a colour name maps to the colour with exactly that name, and to nothing when no colour has it |
| Cubes.ParsePiece | day_2/src/lib.rs:129-138 | a piece fails with `MissingSpace` exactly when its trimmed text has no space, fails only with a round error, and on success is the count text, one space and a colour name |
| Cubes.PieceErrors | day_2/src/lib.rs:129-138 | for a piece that trims to a count, a space and a name, an unknown name fails with `UnknownColour` whatever the count, and a known colour with a count that is not a number up to 65535 fails with `BadCount` |
| Cubes.ParsedPiece | day_2/src/lib.rs:129-138 | a piece that trims to a number, a space and a colour name parses to that colour and number |
| Cubes.Assign | day_2/src/lib.rs:127-139 | after the loop over a round's pieces, a colour no piece names keeps its initial count, and a colour ends with the count of the last piece naming it |
| Cubes.AssignIsLastCount | day_2/src/lib.rs:127-141 | the forward assignment loop agrees, colour by colour, with a backward reference that takes the last piece naming the colour, or 0 |
| Cubes.ParseRound | day_2/src/lib.rs:126-142 | a round parses exactly when every comma-separated piece does, and each colour's count is that of the last piece naming it, or 0; otherwise the error is that of the first failing piece, and it is a round error |
| Cubes.ParseGameId | day_2/src/lib.rs:79-86 | a header shorter than "Game " is exactly the `HeaderTooShort` case, one of that length or more not starting with "Game " exactly the `MissingGameLabel` case, and a labelled header whose rest is not a number exactly the `BadId` case; a parsed id is the number after the "Game " label |
| Cubes.LabelledId | day_2/src/lib.rs:79-86 | "Game " followed by a number parses to that number, and "Game " followed by anything else fails with `BadId` |
| Cubes.GetRounds | day_2/src/lib.rs:89-93 | the rounds parse exactly when every ';'-separated segment does, one round per segment in order; otherwise the error is that of the first failing segment |
| Cubes.ParseGame | day_2/src/lib.rs:112-120 | a record fails with `MissingColon` exactly when it has no ':', and otherwise only with a header or round error; a parsed game's id and rounds come from the parts before and after the first ':' |
| Cubes.ParseGameAt | day_2/src/lib.rs:112-120 | for a record split at its first ':', the result is the header's error if the id does not parse, else the rounds' error if they do not parse, else the game of that id and those rounds |
| Cubes.ParseLine | day_2/src/lib.rs:11-15 | a line that could not be read gives `ReadFailed`, and a line that was read gives what `Game::try_from` gives for its text, which is never `ReadFailed` |
| Cubes.GetGames | day_2/src/lib.rs:10-17 | the games parse exactly when every line was read and its text parses as a record, one game per line in order; otherwise the error is that of the first failing line |
| Cubes.PieceRoundTrip | day_2/src/lib.rs:129-138 | a rendered `" <count> <colour>"` piece parses back to its count and colour |
| Cubes.RoundRoundTrip | day_2/src/lib.rs:126-142 | a rendered non-empty round parses back to the counts its pieces assign |
| Cubes.GameRoundTrip | day_2/src/lib.rs:112-120 | a rendered record with at least one non-empty round parses back to its id and, round by round, the counts its pieces assign |
| Cubes.GameExample | day_2/src/lib.rs:149-161 | the test record parses to id 1 and rounds (4, 0, 3), (1, 2, 6), (0, 2, 0) |
| CubeStats.RoundPossible | day_2/src/lib.rs:98-102 | a round is possible exactly when, colour by colour, it fits the 12/13/14 bag |
| CubeStats.AllRoundsPossible | day_2/src/lib.rs:69-76 | the early-exit loop answers true exactly when every round fits the bag |
| CubeStats.IsPossible | day_2/src/lib.rs:69-76 | a game is possible exactly when every one of its rounds fits the bag |
| CubeStats.MaxOfRounds | day_2/src/lib.rs:51-65 | every round fits the per-colour maximum, and each colour's maximum is 0 or some round's count |
| CubeStats.MaxIsLeastBag | day_2/src/lib.rs:49-65 | the maximum is the least bag: all rounds fit a bag exactly when the maximum does |
| CubeStats.PossibleIffMaxFits | day_2/src/lib.rs:51-76 | a game is possible exactly when its maximum round fits the bag |
| CubeStats.U16Product | day_2/src/lib.rs:44-45 | the first `u32` multiplication, of two `u16` counts, can never overflow |
| CubeStats.PowerOfMax | day_2/src/lib.rs:42-47 | the power overflows exactly when the product of the three maxima exceeds the `u32` range, and otherwise it is that product |
| CubeStats.PowerIsLeastBagProduct | day_2/src/lib.rs:42-50 | no bag that allows every round has a smaller product than the power |
| CubeStats.FindPossibleGameIds | day_2/src/lib.rs:19-26 | every id returned is that of a possible game, every possible game's id is returned, and there are at most as many ids as games |
| CubeStats.FindPossibleGameIdsAppend | day_2/src/lib.rs:19-26 | the filter keeps input order: the ids of two runs of games are the ids of the first followed by those of the second |
| CubeStats.TotalPower | day_2/src/lib.rs:4-8 | the `u32` total succeeds exactly when no power overflows and the unbounded sum of the powers is within `u32`, and then it equals that sum |

## Left out

- Reading input (`read_as_lines` in `src/lib.rs`) and the two `main.rs` programs. These do file I/O and printing. The lines are a parameter instead, and a failed read is an `Err` line.
- The part 1 test of day 1 reads a file that is not part of this model. The four sample lines of the puzzle's part 1 example are modelled instead (`Calibration.TotalCalibrationSample`).
- The part 2 test of day 1 (total 281) and the part 1 test of day 2 (id sum 8) read input files whose contents are not part of this model.
- The sum of the possible ids is not modelled. It happens in those tests and in `main.rs`, not in the library.
- Text.IsWhitespace: `trim` cuts Unicode whitespace, but the model cuts only ASCII whitespace (space, tab, line feed, vertical tab, form feed, carriage return), because the inputs are ASCII. The model also treats one `char` as one byte, so it says nothing about multi-byte UTF-8 text or the panic when slicing inside a character.
- Text.ParseNat: the game id is a `usize`, but the model parses it as an unbounded natural. It does not model the error for an id above the platform's `usize` range. Counts do use the `u16` limit.
- Search.Valid: an empty pattern is excluded by precondition. With an empty pattern the cursor steps past the end of the text and slicing panics. `eng_to_char` never passes one.
- Release builds are not modelled: there, overflowing `u16` and `u32` arithmetic wraps around instead of panicking.
- Game ids: the id is any natural number, 0 included, because `"0".parse::<usize>()` succeeds and the code accepts "Game 0".
- Calibration.EngToCharDigitsOnly: holds for lines of '1' .. '9' only. `eng_to_char` drops '0' (`Calibration.ZeroDropped`), so a line with a '0' does not come out unchanged.
