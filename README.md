# Advent of Code 2023 helpers, modelled in Dafny

This project models the library core of `aoc_2023` in Dafny:

- **Calibration (`src/lib.rs`):** `get_edge_digits` finds the first and last decimal digit of
  a line. `get_line_numbers` turns each line that has digits into the two-digit number
  `10 * first + last`.
- **Cube game (`src/block_game.rs`):** `Game::parse` reads a line `Game <id>: <draws>`.
  `Draw::parse` reads one `;`-separated draw made of `,`-separated `<n> <colour>` pairs.
  `possible` checks a draw or a game against limits, and `min_cubes` gives the fewest cubes
  of each colour that make a game possible.
- **Engine schematic (`src/engine.rs`):**
  - `parse_line` scans a row for numbers and symbols. `parse` builds the `Schematic`: the
    numbers and symbols keyed by position, the grid, and the longest number length.
  - `has_symbol_around` and `get_valid_part_numbers` find the numbers with a symbol in the
    ring of cells around them.
  - `get_gear_parts` and `get_gears` find the `*` cells with exactly two numbers next to them.
  - `Gear::ratio` multiplies a gear's two numbers.
- **Character trie (`src/trie.rs`):** a `Trie` of strings, built by `new` and `add`. A
  `TrieSearcher` walks it one character at a time and reports every stored string it passes.

Modules:

| file | module | contents |
|---|---|---|
| `wrappers.dfy` | `Wrappers` | `Option` and `Result` |
| `chars.dfy` | `Chars` | ASCII digits, decimal values, powers of ten, digit runs |
| `text.dfy` | `Text` | `str::split` on one character and `str::trim` |
| `trie.dfy` | `CharTrie` | trie nodes as values, and the `Trie` and `TrieSearcher` classes |
| `engine.dfy` | `Engine` | `Vec2`, the symbol set, `Digit::len`, and `parse_line` |
| `schematic.dfy` | `Schematics` | `Schematic`, `parse`, part numbers and gears |
| `block_game.dfy` | `BlockGame` | `Game`, `Draw`, their parsers, `possible` and `min_cubes` |
| `calibration.dfy` | `Calibration` | `get_edge_digits` and `get_line_numbers` |

How the Rust is represented:

- Rust's `u32` and `u64` values are `nat`, and `i64` coordinates are `int`. Overflow of
  the parsed counts and ids is an error case, and overflow of the scanned numbers is a
  precondition. The product in `Gear::ratio`, the `Vec2` arithmetic and the `as i64` casts
  in `parse_line` are not bounded (see "Left out").
- A `HashMap` is a Dafny `map`.
  - `extend` is `Extend`, where a later entry wins.
  - Where the source iterates a map, the order is a parameter `order` that lists every key
    exactly once (`Enumerates`). Where the result cannot depend on the order, as for the
    maximum in `LongestDigit`, the next key is an arbitrary choice instead.
  - Results that depend on that order are proved for every such order.
- Trie nodes are immutable values (`Node`), and `TrieNode::add` is the function `AddAt`. The
  two structs the source mutates or borrows, `Trie` and `TrieSearcher`, are classes.

## Model

| member | source | states |
|---|---|---|
| `Chars.DigitValue` | src/lib.rs:14 | the value `to_digit(10)` gives an ASCII digit is at most 9 |
| `Chars.DecValueBelow` | src/block_game.rs:80-84 | a numeral of n digits is worth less than 10^n |
| `Chars.DecValueNoLeadingZero` | src/engine.rs:269-273 | a numeral of n digits with no leading zero lies in [10^(n-1), 10^n) |
| `Chars.DecValueLeadingZero` | src/engine.rs:269-273 | a numeral of n digits that starts with '0' is below 10^(n-1) |
| `Chars.DecValueSplitFirst` | src/engine.rs:83-85 | a numeral's value is its first digit times 10^(n-1) plus the value of the rest |
| `Chars.DecValuePrefix` | src/engine.rs:83-85 | a prefix of a numeral is worth no more than the numeral, so accumulating digits never decreases |
| `Chars.DigitRun` | src/block_game.rs:70 | the longest prefix made of digits (`\d+`): all digits, followed by a non-digit or the end |
| `Text.Split` | src/block_game.rs:32-33 | `str::split(sep)` gives at least one piece, no piece contains `sep`, and joining the pieces with `sep` gives the input back |
| `Text.SplitJoin` | src/block_game.rs:75 | splitting pieces that were joined with `sep` returns exactly those pieces |
| `Text.SplitNoSep` | src/block_game.rs:75 | a string without `sep` splits into itself alone |
| `Text.TrimStart` | src/block_game.rs:76 | drops only leading whitespace, and the result does not start with whitespace |
| `Text.TrimEnd` | src/block_game.rs:76 | drops only trailing whitespace, and the result does not end with whitespace |
| `Text.TrimEndDrops` | src/block_game.rs:76 | every character `trim_end` removes is whitespace |
| `Text.Trim` | src/block_game.rs:76 | `trim` is a contiguous slice of the input with no whitespace at either end |
| `Text.TrimDropsWhitespace` | src/block_game.rs:76 | every character `trim` drops, at the front or the back, is whitespace |
| `CharTrie.GetNext` | src/trie.rs:59-61 | `get_next(c)` is the child under c: one step of `Lookup`, present exactly when c is a child key |
| `CharTrie.AddAt` | src/trie.rs:44-57 | `TrieNode::add(curr, key)` stores `curr` as the node's value and marks the node full only for the empty key; otherwise it adds the child for the key's first character, and every other child stays as it was |
| `CharTrie.LookupAppend` | src/trie.rs:103-116 | following p and then q from a node is the same as following p + q |
| `CharTrie.LookupEmptyNode` | src/trie.rs:35-40 | a default node has no path below it |
| `CharTrie.AddOffPath` | src/trie.rs:44-57 | `TrieNode::add` changes nothing at a path that is not a prefix of the added key |
| `CharTrie.AddOnPath` | src/trie.rs:44-57 | after `add`, every prefix q of the key has a node whose `val` is `curr + q`, and that node is full exactly when q is the key or was full before |
| `CharTrie.AddFindsKey` | src/trie.rs:44-57 | after `add`, the key is stored (full) and its node's `val` is `curr + key` |
| `CharTrie.AddKeys` | src/trie.rs:44-57 | after `add`, the stored strings are the old ones plus the key |
| `CharTrie.AddKeepsPaths` | src/trie.rs:44-57 | `add` removes no node |
| `CharTrie.AddPreservesPathsSpelled` | src/trie.rs:44-57 | `add` keeps the invariant that every node's `val` spells its path |
| `CharTrie.AddIdempotent` | src/trie.rs:44-57 | adding a key that is already stored leaves the node unchanged |
| `CharTrie.EmptyNodeSpelled` | src/trie.rs:35-40 | the default node satisfies the path invariant and stores nothing |
| `CharTrie.BuildKeys` | src/trie.rs:9-15 | adding keys one by one to a default node stores exactly those keys, and every node spells its path |
| `CharTrie.Trie.New` | src/trie.rs:9-15 | `Trie::new(values)` stores exactly `values`; with no values the root has no children and is not full |
| `CharTrie.Trie.Add` | src/trie.rs:17-19 | `add(value)` stores the old strings plus `value`, keeps every existing node, spells `value` at its node, marks the root full for the empty string, and changes nothing when `value` was already stored |
| `CharTrie.Trie.GetSearcher` | src/trie.rs:21-26 | a fresh searcher at the root of this trie with `len() == 0` |
| `CharTrie.TrieSearcher.constructor` | src/trie.rs:97-100 | a searcher starts at the trie's root with no characters processed |
| `CharTrie.TrieSearcher.Advance` | src/trie.rs:103-116 | with a child under c: move to it, count one more character, and return the string spelled so far exactly when that node is full; without one: `Err(NoMatch)` and nothing changes; every string returned is stored in the trie |
| `CharTrie.TrieSearcher.Len` | src/trie.rs:118-120 | `len()` is the number of characters advanced over successfully |
| `Engine.Plus` | src/engine.rs:287-293 | `Vec2 + Vec2`: subtracting either summand from the sum gives back the other one |
| `Engine.PlusUndoesMinus` | src/engine.rs:287-307 | `Vec2 - Vec2` (`Minus`) is undone by adding the subtrahend back, and `Add` is commutative |
| `Engine.NotSymbols` | src/engine.rs:7-16 | the constant `Symbols` (`SYMBOLS`) contains no digit, '.', space or letter, so a symbol cell is never part of a number |
| `Engine.DigitLen` | src/engine.rs:269-273 | `Digit::len` (`ilog10 + 1`) is at least 1 |
| `Engine.DigitLenBounds` | src/engine.rs:269-273 | a positive v with `Digit::len` n lies in [10^(n-1), 10^n) |
| `Engine.DigitLenUnique` | src/engine.rs:269-273 | n is the only length with 10^(n-1) <= v < 10^n |
| `Engine.DigitLenOfNumeral` | src/engine.rs:269-273 | `Digit::len` of a numeral's value is at most its number of characters, with equality exactly when it has no leading zero |
| `Engine.RunEnd` | src/engine.rs:80-100 | the end of the digits starting at column i: all digits up to it, then a non-digit or the end of the line |
| `Engine.RunsFromWellFormed` | src/engine.rs:80-100 | each digit run is a non-empty span of digits inside the line |
| `Engine.RunsFromEndMaximal` | src/engine.rs:89-95 | a run ends only at a non-digit or at the end of the line |
| `Engine.RunsFromStartMaximal` | src/engine.rs:83-88 | a run starts only after a non-digit |
| `Engine.RunsFromOrdered` | src/engine.rs:80-100 | runs come left to right and do not touch |
| `Engine.RunsFromCover` | src/engine.rs:80-100 | every digit of the line is inside some run |
| `Engine.RunsAreMaximal` | src/engine.rs:73-110 | the runs are exactly the maximal blocks of digits of the line, in order |
| `Engine.EntriesOf` | src/engine.rs:90-94 | one digit entry per run |
| `Engine.EntriesOfAt` | src/engine.rs:90-94 | the k-th entry is the one recorded for the k-th run |
| `Engine.RunEndStep` | src/engine.rs:83-89 | inside a run, a column is a digit exactly when the run goes on past it |
| `Engine.DigitStep` | src/engine.rs:83-88 | a digit extends the run and sets the number to `curr * 10 + d`, never past the run's value |
| `Engine.CloseRun` | src/engine.rs:89-95 | a non-digit or the line's end closes the run started at s |
| `Engine.ScanDigit` | src/engine.rs:83-88 | the digit step keeps the scan invariant, and the number stays below 2^32 |
| `Engine.OpenRunPositive` | src/engine.rs:90-94 | the number closed by a non-digit is positive, so `Digit::len` is defined |
| `Engine.CloseStep` | src/engine.rs:89-95 | closing the open number appends the entry of its run, and the rest of the line still yields the rest of the runs |
| `Engine.ScanOther` | src/engine.rs:89-98 | a non-digit column closes any open number, records a symbol, and keeps the scan invariant |
| `Engine.ScanEnd` | src/engine.rs:102-107 | at the end of the line, flushing the open number gives exactly the entries of all runs and all symbols |
| `Engine.ScanColumn` | src/engine.rs:81-100 | one column of the scan keeps the invariant that ties the accumulated numbers and symbols to the runs seen so far |
| `Engine.ParseLine` | src/engine.rs:73-110 | `parse_line` returns one entry per maximal run of digits, in order, and one per symbol character, in order |
| `Engine.EntryPlacement` | src/engine.rs:90-94 | an entry lies on row y, holds its run's value, and ends where the run ends; it starts where the run starts exactly when the run has no leading zero |
| `Engine.DigitEntriesSeparated` | src/engine.rs:73-110 | entries of one line are positive and each ends strictly before the next one starts |
| `Engine.EntriesSeparatedAt` | src/engine.rs:73-110 | any two entries of a line, in order, are separated by at least one column |
| `Engine.DigitEntriesInLine` | src/engine.rs:73-110 | every entry lies on row y with its `Digit::len` columns inside the line |
| `Engine.SymbolsUpToExact` | src/engine.rs:96-98 | symbol entries are exactly the `SYMBOLS` characters of the line, with their columns, in increasing order |
| `Engine.SymbolEntriesExact` | src/engine.rs:96-98 | (x, y, c) is a symbol entry exactly when column x of the line holds c and c is in `SYMBOLS` |
| `Schematics.Extend` | src/engine.rs:59-60 | `HashMap::extend` has the old keys plus the keys of the entries |
| `Schematics.ExtendValue` | src/engine.rs:59-60 | each value after `extend` is either the old one, when no entry names the key, or an entry's value |
| `Schematics.ExtendLastWins` | src/engine.rs:59-60 | the last entry for a key wins |
| `Schematics.LongestDigit` | src/engine.rs:63 | `max().unwrap_or(0)` of `Digit::len` over the numbers: an upper bound attained by some number, or 0 when there are none |
| `Schematics.LineEntriesDistinct` | src/engine.rs:73-110 | one line's entries are at distinct positions on that row, and hold positive values |
| `Schematics.DigitsStep` | src/engine.rs:57-61 | extending by row y's entries makes the map hold exactly the numbers of rows 0..y |
| `Schematics.ExtendedDigitRecorded` | src/engine.rs:57-61 | every key after the step is a number recorded by `parse_line` on a row so far |
| `Schematics.RecordedDigitExtended` | src/engine.rs:57-61 | every number `parse_line` records on rows 0..y is in the map after the step |
| `Schematics.SymbolsStep` | src/engine.rs:57-61 | extending by row y's symbols makes the map hold exactly the symbol cells of rows 0..y |
| `Schematics.RecordedSeparated` | src/engine.rs:73-110 | two numbers recorded on one row are positive and separated by a column |
| `Schematics.Parse` | src/engine.rs:51-71 | `parse` keeps the lines as the grid, maps exactly the numbers `parse_line` records, maps exactly the symbol cells, sets `longest_digit` to the maximum `Digit::len`, and on a rectangular grid `has_symbol` holds exactly at the symbol cells |
| `Schematics.ParsedDigitsSeparated` | src/engine.rs:51-71 | in a parsed schematic numbers are positive and those on a row do not overlap |
| `Schematics.HasSymbol` | src/engine.rs:165-175 | `has_symbol(pos)` holds exactly when pos is inside the grid and its character is in `SYMBOLS` |
| `Schematics.AnyInRow` | src/engine.rs:146-161 | the scan of a row segment finds a symbol exactly when one is there |
| `Schematics.RingCellChecked` | src/engine.rs:139-163 | a symbol anywhere in the ring around a number is found by the scan |
| `Schematics.CheckedCellInRing` | src/engine.rs:139-163 | every cell the scan checks is in the ring around the number |
| `Schematics.RingChecks` | src/engine.rs:139-163 | the scan finds a symbol exactly when the ring holds one |
| `Schematics.HasSymbolAround` | src/engine.rs:139-163 | `has_symbol_around` is true exactly when a symbol lies in the ring of cells bordering the number, itself excluded |
| `Schematics.PartNumbers` | src/engine.rs:112-123 | the filter keeps at most as many values as positions |
| `Schematics.PartNumbersMembers` | src/engine.rs:112-123 | the values kept are exactly those of positions with a symbol around them |
| `Schematics.EnumeratesNoRepeats` | src/engine.rs:113-115 | iterating a `HashMap` lists each key exactly once |
| `Schematics.GetValidPartNumbers` | src/engine.rs:112-123 | `get_valid_part_numbers` returns, in any map order, the values of exactly the numbers with a symbol around them, each value as many times as there are such numbers with that value |
| `Schematics.PartNumbersCounts` | src/engine.rs:112-123 | over an order listing every number once, each value occurs as often as the part numbers that hold it |
| `Schematics.PartNumbersCount` | src/engine.rs:115-121 | over positions listed at most once, the count of a value among the part numbers is the number of listed part numbers with that value |
| `Schematics.PartNumbersConcat` | src/engine.rs:112-123 | filtering distributes over concatenation of orders |
| `Schematics.PartNumbersInsert` | src/engine.rs:112-123 | inserting one position in the middle adds its value, if any, to the multiset |
| `Schematics.PartNumbersAnyOrder` | src/engine.rs:112-123 | the part numbers are the same multiset whatever order the map is iterated in |
| `Schematics.TouchRow` | src/engine.rs:184-211 | a row segment of the scan yields only numbers |
| `Schematics.TouchRowMembers` | src/engine.rs:184-211 | a row segment yields exactly the numbers in it that reach column g.x - 1, from left to right |
| `Schematics.RowsBefore` | src/engine.rs:182-212 | the rows scanned so far yield only numbers |
| `Schematics.RowsBeforeMembers` | src/engine.rs:182-212 | the rows scanned so far yield exactly the counted numbers in them, in row-major order |
| `Schematics.TouchingAreNeighbours` | src/engine.rs:177-219 | on a valid schematic the numbers the scan counts are exactly the numbers adjacent to g, each once |
| `Schematics.GearPartsExactlyTwo` | src/engine.rs:177-219 | the gear parts exist exactly when two numbers are adjacent to g, and they are those two numbers in reading order |
| `Schematics.TouchRowSkip` | src/engine.rs:205-210 | columns holding no number add nothing to a row segment |
| `Schematics.TouchRowGrows` | src/engine.rs:184-211 | a longer segment yields at least as many numbers |
| `Schematics.RowsBeforeGrows` | src/engine.rs:182-212 | the rows so far yield no more numbers than the whole scan |
| `Schematics.CountedSoFar` | src/engine.rs:184-211 | the numbers counted up to column x of a row are numbers |
| `Schematics.ScanStart` | src/engine.rs:183 | a row scan starts from the numbers of the rows before it |
| `Schematics.ScanCounts` | src/engine.rs:193-195 | counting a number and jumping past it appends that number |
| `Schematics.CountedSoFarSnoc` | src/engine.rs:193-195 | when the row segment up to the jump gains one number, so does the scan |
| `Schematics.RowJump` | src/engine.rs:193-195 | jumping over a number's columns skips no other number, on a valid schematic |
| `Schematics.NothingUnder` | src/engine.rs:193-195 | no other number starts under the columns a number covers |
| `Schematics.ScanSkips` | src/engine.rs:185-210 | a column that counts no number adds nothing |
| `Schematics.ScanRowDone` | src/engine.rs:184 | a row scan that reached column g.x + 2 has counted the whole row |
| `Schematics.ScanPrefix` | src/engine.rs:184-211 | the scan so far yields no more numbers than the whole scan |
| `Schematics.HeldShape` | src/engine.rs:198-204 | `part_values` holds the first and second counted values, or `None` when fewer were counted |
| `Schematics.CountOne` | src/engine.rs:193-204 | counting a number with both slots full means three numbers, so no gear; otherwise the slots take the next value |
| `Schematics.GetGearParts` | src/engine.rs:177-219 | `get_gear_parts(g)` is `Some` of the two adjacent numbers in reading order exactly when exactly two numbers are adjacent to g, and `None` otherwise |
| `Schematics.ScanRow` | src/engine.rs:183-211 | one row of the gear scan either meets a third number (then there is no gear) or ends holding the values counted on all rows so far |
| `Schematics.Gears` | src/engine.rs:125-137 | the filter keeps at most one gear per listed position, so no more gears than positions |
| `Schematics.GearsNoRepeats` | src/engine.rs:125-137 | over positions listed at most once, no two gears found share a position |
| `Schematics.GearsMembers` | src/engine.rs:125-137 | the gears kept are exactly the `*` positions with gear parts, with those parts |
| `Schematics.GetGears` | src/engine.rs:125-137 | `get_gears` returns, in any map order, exactly the `*` cells with two adjacent numbers, each once and with those numbers |
| `Schematics.Ratio` | src/engine.rs:45-47 | `Gear::ratio` is positive when both parts are |
| `Schematics.GearRatio` | src/engine.rs:45-47 | a gear's ratio is the product of two distinct adjacent numbers, and is positive |
| `BlockGame.ParseU64` | src/block_game.rs:80-84 | `parse::<u64>()` of a numeral gives its value, below 2^64, or `NumberTooLarge` for a value of at least 2^64; every numeral of up to 19 digits is accepted, and one of more than 20 significant digits, or of 20 digits starting with 2 or more, is rejected |
| `BlockGame.U64Digits` | src/block_game.rs:80-84 | 10^19 < 2^64 < 2 * 10^19: a numeral of up to 19 digits fits in a `u64`, one of more than 20 significant digits, or of 20 starting with 2 or more, does not |
| `BlockGame.ColourOf` | src/block_game.rs:90-95 | a colour is recognised only by its own name |
| `BlockGame.ParsePair` | src/block_game.rs:70-95 | an accepted segment is `<digits> <colour>` with a value below 2^64, and that value and colour are what is read |
| `BlockGame.ParsePairAccepts` | src/block_game.rs:70-95 | every `<digits> <colour>` with a value below 2^64 is accepted with that value and colour |
| `BlockGame.SegmentPair` | src/block_game.rs:76-84 | a segment is matched after trimming: a blank segment (as a stray comma leaves) is rejected, and an accepted count is below 2^64 |
| `BlockGame.DigitRunStopsAtSpace` | src/block_game.rs:70 | `\d+` stops at the space before the colour |
| `BlockGame.Collect` | src/block_game.rs:32-35 | a collected `Ok` has one result per item |
| `BlockGame.CollectSpec` | src/block_game.rs:32-35 | `collect::<Result<Vec<_>>>()` is `Ok` exactly when every item is, holding their values in order; otherwise it is the first error |
| `BlockGame.CollectSnoc` | src/block_game.rs:32-35 | after an `Ok` prefix, the next item's error is the result, or its value is appended |
| `BlockGame.LastCountMissing` | src/block_game.rs:72-74 | a colour no pair names keeps count 0 |
| `BlockGame.LastCountLast` | src/block_game.rs:90-95 | a colour's count is that of the last pair naming it |
| `BlockGame.DrawOf` | src/block_game.rs:69-103 | `Draw::parse` succeeds exactly when every `,`-segment, trimmed, is a valid pair |
| `BlockGame.DrawOfMissingColour` | src/block_game.rs:72-74 | a colour missing from a draw counts 0 |
| `BlockGame.DrawOfLastWins` | src/block_game.rs:90-95 | a colour named twice in a draw takes the last count |
| `BlockGame.ParseDraw` | src/block_game.rs:69-103 | the segment loop of `Draw::parse` computes `DrawOf`: the first bad segment's error, or the counts |
| `BlockGame.ToLineEnd` | src/block_game.rs:17 | `(.*)` captures the longest prefix without a newline |
| `BlockGame.ToLineEndNoNewline` | src/block_game.rs:17 | on a body without a newline `(.*)` captures it all |
| `BlockGame.HeaderDigits` | src/block_game.rs:17 | a header match means the line starts `Game `, then digits, then `: ` |
| `BlockGame.DigitRunAtColon` | src/block_game.rs:17 | `\d+` stops at the `:` of the header |
| `BlockGame.HeaderOfGameLine` | src/block_game.rs:17 | the header of `Game <digits>: <body>` is recognised with those digits and that body |
| `BlockGame.ParseGame` | src/block_game.rs:16-38 | `Game::parse` succeeds only on a line that starts `Game <digits>: `, and the game's id is the digits' value |
| `BlockGame.GameBody` | src/block_game.rs:27-37 | the game's id is the one given, and its draws are the parses of the `;`-pieces of the body up to the first newline, one per piece, in order |
| `BlockGame.ParseGameDraws` | src/block_game.rs:16-38 | a parsed game's draws are the parses of the `;`-pieces of its line, in order |
| `BlockGame.ParseGameAccepts` | src/block_game.rs:16-38 | `Game::parse("Game <digits>: <body>")` is the game with that id and the collected draws, or the first draw error |
| `BlockGame.ParseGameNeedsEveryDraw` | src/block_game.rs:32-35 | a game line parses exactly when every one of its draws does |
| `BlockGame.DrawPossible` | src/block_game.rs:105-107 | `Draw::possible(red, green, blue)` holds exactly when each colour's count is at most the argument for that colour, even though the arguments and the fields list the colours in different orders |
| `BlockGame.GamePossible` | src/block_game.rs:40-44 | `Game::possible` holds exactly when no draw has more cubes of any colour than that colour's limit; a game with no draws is possible |
| `BlockGame.GamePossibleMonotone` | src/block_game.rs:40-44 | raising the limits never makes a possible game impossible |
| `BlockGame.MinCubes` | src/block_game.rs:46-65 | `min_cubes` gives each colour's maximum over the draws (0 if none), and a game is possible under limits exactly when they are at least `min_cubes` |
| `Calibration.EdgeDigits` | src/lib.rs:11-24 | the first and last digit values of a line, each at most 9, or `None` |
| `Calibration.CalibrationValues` | src/lib.rs:26-45 | at most one value per line |
| `Calibration.DigitValuesConcat` | src/lib.rs:13-21 | the digits of a concatenation are the digits of each part |
| `Calibration.DigitValuesEmpty` | src/lib.rs:13-21 | a line has no digit values exactly when no character is a digit |
| `Calibration.EdgeDigitsNone` | src/lib.rs:11-24 | `get_edge_digits` is `None` exactly when the line has no digit |
| `Calibration.EdgeDigitsFirst` | src/lib.rs:17-18 | the first component is the line's first digit |
| `Calibration.EdgeDigitsLast` | src/lib.rs:14-16 | the second component is the line's last digit |
| `Calibration.EdgeDigitsSingle` | src/lib.rs:18 | a line with one digit gives that digit twice |
| `Calibration.EdgeDigitsIgnoresNonDigit` | src/lib.rs:14 | a non-digit character changes nothing |
| `Calibration.GetEdgeDigits` | src/lib.rs:11-24 | the loop computes the first and last digit of the line, or `None` |
| `Calibration.CalibrationValuesBounded` | src/lib.rs:38 | every calibration value is at most 99 |
| `Calibration.DigitValuesBounded` | src/lib.rs:14 | every digit value is at most 9 |
| `Calibration.CalibrationValuesConcat` | src/lib.rs:30-42 | the values of concatenated inputs are the values of each part in order |
| `Calibration.CalibrationValueOfLine` | src/lib.rs:36-41 | a line contributes one value exactly when it has a digit |
| `Calibration.GetLineNumbers` | src/lib.rs:26-45 | `get_line_numbers` gives `10 * first + last` for each line with a digit, in order, skipping lines without one |

## Left out

- Reading files and standard input, `println!` and `clap` options are not modelled.
  - `get_line_numbers` takes the lines as a sequence, so its I/O error path is not modelled.
  - The "line has no digits" message is not modelled; only the skipping of that line is.
- The `Display` implementations of `Trie` and `TrieNode` are not modelled. They only format
  output.
- `TrieNode::get_value` and `TrieNode::is_full` are read directly as the fields `val` and
  `full` of `Node`.
- The `regex` crate is not modelled as such. The two patterns are written out as grammars:
  `HeaderDigits` with `ToLineEnd`, and `ParsePair`.
- `eyre` error messages are not modelled. The errors are the kinds `MalformedLine`,
  `MalformedDraw` and `NumberTooLarge`.
- Text is modelled over single characters, not UTF-8 bytes. Two consequences are listed
  below under `CharTrie.AddAt` and `Engine.ScanEnd`.
  - `\d` and `to_digit(10)` are modelled as the ASCII digits.
  - Rust's regex `\d` also matches other Unicode decimal digits. Those would then fail
    `parse::<u64>()`, an error this model does not have.
  - `str::trim` uses Unicode White_Space. `IsWhitespace` lists those characters.
- The order in which a `HashMap` iterates is a parameter. Results that depend on it are
  proved for every order, up to a permutation of the output.
- `lazy_static!` becomes the constant set `Symbols`.
- Engine.ParseLine: requires that every number on the line is positive and below 2^32. The
  source panics on a number 0 (`ilog10` of 0) and wraps or panics on `u32` overflow.
- Engine.DigitLen: requires v > 0, the case where `ilog10` does not panic.
- Schematics.HasSymbol: requires every row to be as long as row 0. On a ragged grid the source
  measures every row by row 0: it ignores cells past that width and panics (by indexing)
  on a shorter row.
- Schematics.GetGearParts: proved only on schematics that satisfy `Valid`, which `Parse`
  establishes. On an arbitrary `Schematic` value the scan could skip a number.
- Schematics.Ratio: `u64` overflow of the product is not modelled.
- Engine.Plus: the `i64` overflow of `Vec2` arithmetic is not modelled, nor are the
  `as i64` casts of the column and row indices in `parse_line`.
- CharTrie.AddAt: accepts any key. The source slices the key with `&value[..1]`, which
  panics when the key starts with a character longer than one byte in UTF-8. The model
  adds such a key like any other.
- Engine.ScanEnd: places a number that ends the line at `|line|` minus its length, counting
  characters. The source uses `line.len()` there, which counts bytes, while every other
  column counts characters. So a non-ASCII character earlier in the row shifts that one
  entry in the source but not in the model.
- `Symbol::len` (always 1) is used by no modelled operation and is left out.
- BlockGame.MinCubes and BlockGame.GamePossibleMonotone: limits are unbounded naturals rather
  than `u64`. Every count fits in a `u64` anyway, because `ParseU64` rejects larger values.
