/**
 * The parsed engine schematic (src/engine.rs, `Schematic`): the grid of characters, the
 * numbers keyed by the position `parse_line` gives them, the symbols keyed by their cell,
 * and the neighbourhood queries over them: part numbers and gears.
 *
 * A `HashMap` is a `map`; where the source iterates one, the iteration order is a
 * parameter `order` that lists every key once, in any order.
 */
module Schematics {
  import opened Wrappers
  import opened Engine

  /** `Schematic`: numbers and symbols by position, the grid, and the longest `Digit::len`. */
  datatype Schematic = Schematic(digits: map<Vec2, nat>, symbols: map<Vec2, char>, grid: seq<string>, longestDigit: nat)

  /** `Gear`: the position of a '*' and the two numbers next to it. */
  datatype Gear = Gear(pos: Vec2, parts: (nat, nat))

  /** Every number is positive, so its `Digit::len` is defined. */
  predicate PositiveDigits(s: Schematic) {
    forall p :: p in s.digits ==> s.digits[p] > 0
  }

  /** What the gear scan relies on: numbers are positive, none is longer than
      `longest_digit`, and on one row each number ends before the next one starts. */
  predicate Valid(s: Schematic) {
    && PositiveDigits(s)
    && (forall p :: p in s.digits ==> DigitLen(s.digits[p]) <= s.longestDigit)
    && (forall p, q :: p in s.digits && q in s.digits && p.y == q.y && p.x < q.x ==>
          p.x + DigitLen(s.digits[p]) <= q.x)
  }

  /** Every row as wide as row 0, the only width `has_symbol` looks at. */
  predicate Rectangular(grid: seq<string>) {
    forall y :: 0 <= y < |grid| ==> |grid[y]| == |grid[0]|
  }

  /** The keys of a map, each listed once, in some order: how a `HashMap` iterates. */
  predicate Enumerates(order: seq<Vec2>, keys: set<Vec2>) {
    multiset(order) == multiset(keys)
  }

  /** No position is listed twice. */
  predicate NoRepeats(order: seq<Vec2>) {
    forall i, j :: 0 <= i < j < |order| ==> order[i] != order[j]
  }

  /** A position listed at two indices is counted twice by the multiset. */
  lemma CountsRepeat(order: seq<Vec2>, i: nat, j: nat)
    requires i < j < |order|
    ensures order[i] == order[j] ==> multiset(order)[order[i]] >= 2
  {
    assert order == order[..j] + order[j..];
    assert order[..j][i] == order[i];
    assert order[j..][0] == order[j];
  }

  /** An enumeration of a set of keys lists exactly those keys, each once. */
  lemma EnumeratesNoRepeats(order: seq<Vec2>, keys: set<Vec2>)
    requires Enumerates(order, keys)
    ensures NoRepeats(order)
    ensures forall p :: p in order <==> p in keys
    ensures |order| == |keys|
  {
    forall i, j | 0 <= i < j < |order| ensures order[i] != order[j] {
      CountsRepeat(order, i, j);
    }
    forall p ensures p in order <==> p in keys {
      assert p in order <==> p in multiset(order);
      assert p in keys <==> p in multiset(keys);
    }
    assert |order| == |multiset(order)| == |multiset(keys)| == |keys|;
  }

  // ---------------------------------------------------------------------------------
  // Parsing
  // ---------------------------------------------------------------------------------

  /** `HashMap::extend`: insert the entries in order, a later entry replacing an earlier one.
      The keys are the old keys and those of the entries. */
  function Extend<V>(m: map<Vec2, V>, entries: seq<(Vec2, V)>): (r: map<Vec2, V>)
    ensures forall p :: p in r <==> p in m || exists i :: 0 <= i < |entries| && entries[i].0 == p
  {
    if entries == [] then m
    else
      var init := entries[..|entries| - 1];
      assert forall i :: 0 <= i < |init| ==> init[i] == entries[i];
      var last := entries[|entries| - 1];
      Extend(m, init)[last.0 := last.1]
  }

  /** After `extend`, a key keeps its old value when no entry has it, and otherwise holds
      the value of an entry with that key. */
  lemma {:induction false} ExtendValue<V>(m: map<Vec2, V>, entries: seq<(Vec2, V)>, p: Vec2)
    requires p in Extend(m, entries)
    ensures || (p in m && Extend(m, entries)[p] == m[p] && forall i :: 0 <= i < |entries| ==> entries[i].0 != p)
            || (exists i :: 0 <= i < |entries| && entries[i] == (p, Extend(m, entries)[p]))
  {
    if entries != [] {
      var init := entries[..|entries| - 1];
      var last := entries[|entries| - 1];
      if p == last.0 {
        assert entries[|entries| - 1] == (p, Extend(m, entries)[p]);
      } else {
        assert Extend(m, entries)[p] == Extend(m, init)[p];
        ExtendValue(m, init, p);
        if i :| 0 <= i < |init| && init[i] == (p, Extend(m, init)[p]) {
          assert entries[i] == init[i];
        } else {
          forall i | 0 <= i < |entries| ensures entries[i].0 != p {
            if i < |init| {
              assert entries[i] == init[i];
            }
          }
        }
      }
    }
  }

  /** After `extend`, the last entry with a key decides its value. */
  lemma {:induction false} ExtendLastWins<V>(m: map<Vec2, V>, entries: seq<(Vec2, V)>, i: nat)
    requires i < |entries|
    requires forall j :: i < j < |entries| ==> entries[j].0 != entries[i].0
    ensures entries[i].0 in Extend(m, entries) && Extend(m, entries)[entries[i].0] == entries[i].1
  {
    if i < |entries| - 1 {
      var init := entries[..|entries| - 1];
      assert init[i] == entries[i];
      assert forall j :: i < j < |init| ==> init[j] == entries[j];
      ExtendLastWins(m, init, i);
    }
  }

  /** `(p, v)` is one of the digit entries `parse_line` gives for row p.y of `lines`. */
  predicate Recorded(lines: seq<string>, p: Vec2, v: nat) {
    && 0 <= p.y < |lines|
    && PositiveRuns(lines[p.y])
    && (p, v) in DigitEntries(lines[p.y], p.y)
  }

  /** Column p.x of row p.y of `lines` holds a symbol. */
  predicate SymbolCell(lines: seq<string>, p: Vec2) {
    0 <= p.y < |lines| && 0 <= p.x < |lines[p.y]| && lines[p.y][p.x] in Symbols
  }

  /** `.map(|(_, d)| d.len()).max().unwrap_or(0)` over the numbers, in the map's own order. */
  method LongestDigit(digits: map<Vec2, nat>) returns (longest: nat)
    requires forall p :: p in digits ==> digits[p] > 0
    ensures forall p :: p in digits ==> DigitLen(digits[p]) <= longest
    ensures digits == map[] ==> longest == 0
    ensures digits != map[] ==> exists p :: p in digits && DigitLen(digits[p]) == longest
  {
    longest := 0;
    var rest := digits.Keys;
    while rest != {}
      invariant rest <= digits.Keys
      invariant forall p :: p in digits && p !in rest ==> DigitLen(digits[p]) <= longest
      invariant longest == 0 || exists p :: p in digits && DigitLen(digits[p]) == longest
      invariant longest == 0 ==> rest == digits.Keys
      decreases |rest|
    {
      var p :| p in rest;
      var len := DigitLen(digits[p]);
      if len > longest {
        longest := len;
      }
      rest := rest - {p};
    }
  }

  /** The digit entries of one line have distinct positions, all on that line's row. */
  lemma LineEntriesDistinct(line: string, y: nat)
    requires PositiveRuns(line)
    ensures forall i, j :: 0 <= i < j < |DigitEntries(line, y)| ==> DigitEntries(line, y)[i].0 != DigitEntries(line, y)[j].0
    ensures forall e :: e in DigitEntries(line, y) ==> e.0.y == y && e.0.x >= 0 && e.1 > 0
  {
    DigitEntriesSeparated(line, y);
    DigitEntriesInLine(line, y);
  }

  /** The numbers of rows 0 .. y-1, as `parse` holds them after y lines. */
  ghost predicate DigitsUpTo(lines: seq<string>, y: nat, digits: map<Vec2, nat>) {
    && (forall p :: p in digits ==> p.y < y && Recorded(lines, p, digits[p]))
    && (forall p, v: nat :: Recorded(lines, p, v) && p.y < y ==> p in digits && digits[p] == v)
  }

  /** The symbols of rows 0 .. y-1, as `parse` holds them after y lines. */
  ghost predicate SymbolsUpToRow(lines: seq<string>, y: nat, symbols: map<Vec2, char>) {
    && (forall p :: p in symbols <==> p.y < y && SymbolCell(lines, p))
    && (forall p :: p in symbols ==> 0 <= p.y < |lines| && 0 <= p.x < |lines[p.y]| && symbols[p] == lines[p.y][p.x])
  }

  /** Adding line y's digit entries extends the numbers by exactly row y. */
  lemma DigitsStep(lines: seq<string>, y: nat, digits: map<Vec2, nat>)
    requires y < |lines| && PositiveRuns(lines[y])
    requires DigitsUpTo(lines, y, digits)
    ensures DigitsUpTo(lines, y + 1, Extend(digits, DigitEntries(lines[y], y)))
  {
    var r := Extend(digits, DigitEntries(lines[y], y));
    forall p | p in r
      ensures p.y < y + 1 && Recorded(lines, p, r[p])
    {
      ExtendedDigitRecorded(lines, y, digits, p);
    }
    forall p, v: nat | Recorded(lines, p, v) && p.y < y + 1
      ensures p in r && r[p] == v
    {
      RecordedDigitExtended(lines, y, digits, p, v);
    }
  }

  /** Every number after row y is added comes from rows 0 .. y. */
  lemma ExtendedDigitRecorded(lines: seq<string>, y: nat, digits: map<Vec2, nat>, p: Vec2)
    requires y < |lines| && PositiveRuns(lines[y])
    requires DigitsUpTo(lines, y, digits)
    requires p in Extend(digits, DigitEntries(lines[y], y))
    ensures p.y < y + 1 && Recorded(lines, p, Extend(digits, DigitEntries(lines[y], y))[p])
  {
    var es := DigitEntries(lines[y], y);
    var r := Extend(digits, es);
    LineEntriesDistinct(lines[y], y);
    ExtendValue(digits, es, p);
    if i :| 0 <= i < |es| && es[i] == (p, r[p]) {
      assert es[i] in es;
    }
  }

  /** Every number of rows 0 .. y is there, with its value, after row y is added. */
  lemma RecordedDigitExtended(lines: seq<string>, y: nat, digits: map<Vec2, nat>, p: Vec2, v: nat)
    requires y < |lines| && PositiveRuns(lines[y])
    requires DigitsUpTo(lines, y, digits)
    requires Recorded(lines, p, v) && p.y < y + 1
    ensures p in Extend(digits, DigitEntries(lines[y], y)) && Extend(digits, DigitEntries(lines[y], y))[p] == v
  {
    var es := DigitEntries(lines[y], y);
    LineEntriesDistinct(lines[y], y);
    if p.y == y {
      var i :| 0 <= i < |es| && es[i] == (p, v);
      ExtendLastWins(digits, es, i);
    } else {
      forall i | 0 <= i < |es| ensures es[i].0 != p {
        assert es[i] in es;
      }
      ExtendValue(digits, es, p);
    }
  }

  /** Adding line y's symbol entries extends the symbols by exactly row y. */
  lemma SymbolsStep(lines: seq<string>, y: nat, symbols: map<Vec2, char>)
    requires y < |lines|
    requires SymbolsUpToRow(lines, y, symbols)
    ensures SymbolsUpToRow(lines, y + 1, Extend(symbols, SymbolEntries(lines[y], y)))
  {
    var es := SymbolEntries(lines[y], y);
    var r := Extend(symbols, es);
    SymbolsUpToExact(lines[y], y, |lines[y]|);
    forall p ensures p in r <==> p.y < y + 1 && SymbolCell(lines, p) {
      if p.y == y && SymbolCell(lines, p) {
        assert (Vec2(p.x, y), lines[y][p.x]) in es;
        var i :| 0 <= i < |es| && es[i] == (Vec2(p.x, y), lines[y][p.x]);
        assert es[i].0 == p;
      }
    }
    forall p | p in r
      ensures 0 <= p.y < |lines| && 0 <= p.x < |lines[p.y]| && r[p] == lines[p.y][p.x]
    {
      ExtendValue(symbols, es, p);
    }
  }

  /** Positions recorded for one row are distinct and a number ends before the next starts. */
  lemma RecordedSeparated(lines: seq<string>, p: Vec2, v: nat, q: Vec2, w: nat)
    requires Recorded(lines, p, v) && Recorded(lines, q, w)
    requires p.y == q.y && p.x < q.x
    ensures v > 0 && p.x + DigitLen(v) < q.x
  {
    var line, y := lines[p.y], p.y;
    var es := DigitEntries(line, y);
    var k :| 0 <= k < |es| && es[k] == (p, v);
    var m :| 0 <= m < |es| && es[m] == (q, w);
    if m < k {
      EntriesSeparatedAt(line, y, m, k);
      assert false;
    }
    EntriesSeparatedAt(line, y, k, m);
  }

  /** `Schematic::parse(lines)`: row y of the grid is line y; the numbers and symbols are
      those `parse_line` gives for each line, keyed by position; `longest_digit` is the
      largest `Digit::len` of a number, or 0 when there is none. The result satisfies
      `Valid`, and on a rectangular grid `has_symbol` agrees with the symbol map. */
  method Parse(lines: seq<string>) returns (s: Schematic)
    requires forall y :: 0 <= y < |lines| ==> ScannableLine(lines[y])
    ensures s.grid == lines
    ensures forall p :: p in s.digits ==> Recorded(lines, p, s.digits[p])
    ensures forall p, v: nat :: Recorded(lines, p, v) ==> p in s.digits && s.digits[p] == v
    ensures forall p :: p in s.symbols <==> SymbolCell(lines, p)
    ensures forall p :: p in s.symbols ==>
      0 <= p.y < |lines| && 0 <= p.x < |lines[p.y]| && s.symbols[p] == lines[p.y][p.x]
    ensures Valid(s)
    ensures s.digits == map[] ==> s.longestDigit == 0
    ensures s.digits != map[] ==> exists p :: p in s.digits && DigitLen(s.digits[p]) == s.longestDigit
    ensures Rectangular(lines) ==> forall pos :: HasSymbol(s, pos) <==> pos in s.symbols
  {
    var digits: map<Vec2, nat> := map[];
    var symbols: map<Vec2, char> := map[];
    var grid: seq<string> := [];
    for y := 0 to |lines|
      invariant grid == lines[..y]
      invariant DigitsUpTo(lines, y, digits)
      invariant SymbolsUpToRow(lines, y, symbols)
    {
      assert lines[..y + 1] == lines[..y] + [lines[y]];
      grid := grid + [lines[y]];
      var newDigits, newSymbols := ParseLine(lines[y], y);
      DigitsStep(lines, y, digits);
      SymbolsStep(lines, y, symbols);
      digits := Extend(digits, newDigits);
      symbols := Extend(symbols, newSymbols);
    }
    assert grid == lines;
    ParsedDigitsSeparated(lines, digits);
    var longest := LongestDigit(digits);
    s := Schematic(digits, symbols, grid, longest);
  }

  /** The numbers of all the lines are positive, and on one row each ends before the next starts. */
  lemma ParsedDigitsSeparated(lines: seq<string>, digits: map<Vec2, nat>)
    requires DigitsUpTo(lines, |lines|, digits)
    ensures forall p :: p in digits ==> digits[p] > 0
    ensures forall p, q :: p in digits && q in digits && p.y == q.y && p.x < q.x ==>
      p.x + DigitLen(digits[p]) <= q.x
  {
    forall p | p in digits ensures digits[p] > 0 {
      LineEntriesDistinct(lines[p.y], p.y);
    }
    forall p, q | p in digits && q in digits && p.y == q.y && p.x < q.x
      ensures p.x + DigitLen(digits[p]) <= q.x
    {
      RecordedSeparated(lines, p, digits[p], q, digits[q]);
    }
  }

  // ---------------------------------------------------------------------------------
  // Symbols around a number: part numbers
  // ---------------------------------------------------------------------------------

  /** `has_symbol(pos)`: false for negative coordinates, a row past the last one or a
      column past the width of row 0; otherwise whether the cell holds a symbol. */
  function HasSymbol(s: Schematic, pos: Vec2): (r: bool)
    requires Rectangular(s.grid)
    ensures r <==> 0 <= pos.y < |s.grid| && 0 <= pos.x < |s.grid[pos.y]| && s.grid[pos.y][pos.x] in Symbols
  {
    if pos.x < 0 || pos.y < 0 || pos.y >= |s.grid| || pos.x >= |s.grid[0]| then false
    else s.grid[pos.y][pos.x] in Symbols
  }

  /** The one-cell ring around a number of length `len` at `pos`: the rectangle from
      column pos.x - 1 to pos.x + len and row pos.y - 1 to pos.y + 1, less the number. */
  predicate InRing(c: Vec2, pos: Vec2, len: nat) {
    && pos.x - 1 <= c.x <= pos.x + len
    && pos.y - 1 <= c.y <= pos.y + 1
    && !(c.y == pos.y && pos.x <= c.x < pos.x + len)
  }

  /** `has_symbol(pos + (x, dy))`. */
  predicate SymbolAt(s: Schematic, pos: Vec2, x: int, dy: int)
    requires Rectangular(s.grid)
  {
    HasSymbol(s, Plus(pos, Vec2(x, dy)))
  }

  /** `(lo..hi).any(|x| has_symbol(pos + (x, dy)))`. */
  function AnyInRow(s: Schematic, pos: Vec2, dy: int, lo: int, hi: int): (r: bool)
    requires Rectangular(s.grid)
    ensures r <==> (exists x :: lo <= x < hi && SymbolAt(s, pos, x, dy))
    decreases hi - lo
  {
    if lo >= hi then false
    else SymbolAt(s, pos, lo, dy) || AnyInRow(s, pos, dy, lo + 1, hi)
  }

  /** Some cell of the ring around a number of length `len` at `pos` holds a symbol. */
  ghost predicate SymbolInRing(s: Schematic, pos: Vec2, len: nat)
    requires Rectangular(s.grid)
  {
    exists c :: InRing(c, pos, len) && HasSymbol(s, c)
  }

  /** The eight checks `has_symbol_around` makes. */
  predicate RingChecked(s: Schematic, pos: Vec2, len: nat)
    requires Rectangular(s.grid)
  {
    || SymbolAt(s, pos, -1, 0) || SymbolAt(s, pos, len, 0)
    || SymbolAt(s, pos, -1, -1) || SymbolAt(s, pos, len, -1)
    || SymbolAt(s, pos, -1, 1) || SymbolAt(s, pos, len, 1)
    || AnyInRow(s, pos, -1, 0, len) || AnyInRow(s, pos, 1, 0, len)
  }

  /** A symbol in the ring is seen by one of the checks. */
  lemma RingCellChecked(s: Schematic, pos: Vec2, len: nat, c: Vec2)
    requires Rectangular(s.grid) && InRing(c, pos, len) && HasSymbol(s, c)
    ensures RingChecked(s, pos, len)
  {
    var x, dy := c.x - pos.x, c.y - pos.y;
    assert c == Plus(pos, Vec2(x, dy));
    assert SymbolAt(s, pos, x, dy);
    if dy != 0 && 0 <= x < len {
      assert AnyInRow(s, pos, dy, 0, len);
    }
  }

  /** A symbol seen by one of the checks lies in the ring. */
  lemma CheckedCellInRing(s: Schematic, pos: Vec2, len: nat, x: int, dy: int)
    requires Rectangular(s.grid) && -1 <= x <= len && -1 <= dy <= 1 && (dy == 0 ==> x == -1 || x == len)
    requires SymbolAt(s, pos, x, dy)
    ensures SymbolInRing(s, pos, len)
  {
    assert InRing(Plus(pos, Vec2(x, dy)), pos, len);
  }

  /** The eight checks of `has_symbol_around` cover exactly the ring. */
  lemma RingChecks(s: Schematic, pos: Vec2, len: nat)
    requires Rectangular(s.grid)
    ensures SymbolInRing(s, pos, len) <==> RingChecked(s, pos, len)
  {
    if c :| InRing(c, pos, len) && HasSymbol(s, c) {
      RingCellChecked(s, pos, len, c);
    }
    if AnyInRow(s, pos, -1, 0, len) {
      var x :| 0 <= x < len && SymbolAt(s, pos, x, -1);
      CheckedCellInRing(s, pos, len, x, -1);
    }
    if AnyInRow(s, pos, 1, 0, len) {
      var x :| 0 <= x < len && SymbolAt(s, pos, x, 1);
      CheckedCellInRing(s, pos, len, x, 1);
    }
    if SymbolAt(s, pos, -1, 0) { CheckedCellInRing(s, pos, len, -1, 0); }
    if SymbolAt(s, pos, len, 0) { CheckedCellInRing(s, pos, len, len, 0); }
    if SymbolAt(s, pos, -1, -1) { CheckedCellInRing(s, pos, len, -1, -1); }
    if SymbolAt(s, pos, len, -1) { CheckedCellInRing(s, pos, len, len, -1); }
    if SymbolAt(s, pos, -1, 1) { CheckedCellInRing(s, pos, len, -1, 1); }
    if SymbolAt(s, pos, len, 1) { CheckedCellInRing(s, pos, len, len, 1); }
  }

  /** `has_symbol_around(pos, digit)`: left and right of the number, its four corners, and
      the cells above and below it. True exactly when a symbol lies in its ring. */
  function HasSymbolAround(s: Schematic, pos: Vec2, digit: nat): (r: bool)
    requires Rectangular(s.grid) && digit > 0
    ensures r <==> SymbolInRing(s, pos, DigitLen(digit))
  {
    var len := DigitLen(digit);
    var left := SymbolAt(s, pos, -1, 0);
    var right := SymbolAt(s, pos, len, 0);
    var topLeft := SymbolAt(s, pos, -1, -1);
    var topRight := SymbolAt(s, pos, len, -1);
    var bottomLeft := SymbolAt(s, pos, -1, 1);
    var bottomRight := SymbolAt(s, pos, len, 1);
    var top := AnyInRow(s, pos, -1, 0, len);
    var bottom := AnyInRow(s, pos, 1, 0, len);
    RingChecks(s, pos, len);
    left || right || topLeft || topRight || bottomLeft || bottomRight || top || bottom
  }

  /** The number at p is a part number: a symbol lies in its ring. */
  ghost predicate IsPartNumber(s: Schematic, p: Vec2)
    requires Rectangular(s.grid) && PositiveDigits(s) && p in s.digits
  {
    SymbolInRing(s, p, DigitLen(s.digits[p]))
  }

  /** Every position in `order` is a number's. */
  predicate AllNumbers(s: Schematic, order: seq<Vec2>) {
    forall p :: p in order ==> p in s.digits
  }

  lemma AllNumbersInit(s: Schematic, order: seq<Vec2>)
    requires AllNumbers(s, order) && order != []
    ensures AllNumbers(s, order[..|order| - 1])
  {
    forall q | q in order[..|order| - 1] ensures q in s.digits {
      var i :| 0 <= i < |order| - 1 && order[i] == q;
      assert order[i] in order;
    }
  }

  /** `get_valid_part_numbers` over the numbers at the positions `order`, in that order. */
  function PartNumbers(s: Schematic, order: seq<Vec2>): (r: seq<nat>)
    requires Rectangular(s.grid) && PositiveDigits(s) && AllNumbers(s, order)
    ensures |r| <= |order|
  {
    if order == [] then []
    else
      var init := order[..|order| - 1];
      var p := order[|order| - 1];
      assert forall i :: 0 <= i < |init| ==> init[i] == order[i];
      AllNumbersInit(s, order);
      PartNumbers(s, init) + if HasSymbolAround(s, p, s.digits[p]) then [s.digits[p]] else []
  }

  /** The part numbers over `order` are the values of exactly those of its numbers with a
      symbol in their ring. */
  lemma {:induction false} PartNumbersMembers(s: Schematic, order: seq<Vec2>)
    requires Rectangular(s.grid) && PositiveDigits(s) && AllNumbers(s, order)
    ensures forall v :: v in PartNumbers(s, order) <==>
      exists p :: p in order && s.digits[p] == v && IsPartNumber(s, p)
  {
    if order != [] {
      var init := order[..|order| - 1];
      var p := order[|order| - 1];
      AllNumbersInit(s, order);
      PartNumbersMembers(s, init);
      assert order == init + [p];
    }
  }

  /** `get_valid_part_numbers`: over all the numbers, in the map's order, the values of
      exactly those with a symbol in their ring. */
  function GetValidPartNumbers(s: Schematic, order: seq<Vec2>): (r: seq<nat>)
    requires Rectangular(s.grid) && PositiveDigits(s)
    requires Enumerates(order, s.digits.Keys)
    ensures |r| <= |s.digits|
    ensures forall v :: v in r <==> exists p :: p in s.digits && s.digits[p] == v && IsPartNumber(s, p)
    ensures forall v :: multiset(r)[v] == |set p | p in s.digits && s.digits[p] == v && IsPartNumber(s, p)|
  {
    EnumeratesNoRepeats(order, s.digits.Keys);
    assert AllNumbers(s, order);
    PartNumbersMembers(s, order);
    PartNumbersCounts(s, order);
    PartNumbers(s, order)
  }

  /** Over an order that lists every number once, each value occurs in the part numbers as
      many times as there are part numbers with that value. */
  lemma PartNumbersCounts(s: Schematic, order: seq<Vec2>)
    requires Rectangular(s.grid) && PositiveDigits(s)
    requires AllNumbers(s, order) && NoRepeats(order)
    requires forall p :: p in order <==> p in s.digits
    ensures forall v :: multiset(PartNumbers(s, order))[v] ==
                        |set p | p in s.digits && s.digits[p] == v && IsPartNumber(s, p)|
  {
    forall v ensures multiset(PartNumbers(s, order))[v] ==
      |set p | p in s.digits && s.digits[p] == v && IsPartNumber(s, p)|
    {
      PartNumbersCount(s, order, v);
      assert (set p | p in order && s.digits[p] == v && IsPartNumber(s, p))
        == (set p | p in s.digits && s.digits[p] == v && IsPartNumber(s, p));
    }
  }

  /** Over positions listed at most once, the count of v among the part numbers is the
      number of listed part numbers with value v. */
  lemma {:induction false} PartNumbersCount(s: Schematic, order: seq<Vec2>, v: nat)
    requires Rectangular(s.grid) && PositiveDigits(s) && AllNumbers(s, order) && NoRepeats(order)
    ensures multiset(PartNumbers(s, order))[v] ==
      |set p | p in order && s.digits[p] == v && IsPartNumber(s, p)|
  {
    if order != [] {
      var init, last := order[..|order| - 1], order[|order| - 1];
      AllNumbersInit(s, order);
      forall i | 0 <= i < |init| ensures init[i] != last {
        assert init[i] == order[i];
      }
      PartNumbersCount(s, init, v);
      var hit := HasSymbolAround(s, last, s.digits[last]);
      assert hit == IsPartNumber(s, last);
      assert PartNumbers(s, order) == PartNumbers(s, init) + if hit then [s.digits[last]] else [];
      PartSetSnoc(s, order, v);
      var before := set p | p in init && s.digits[p] == v && IsPartNumber(s, p);
      assert last !in before;
    }
  }

  /** The part numbers with value v among `order` are those among all but its last position,
      plus the last one when it is such a part number. */
  lemma PartSetSnoc(s: Schematic, order: seq<Vec2>, v: nat)
    requires Rectangular(s.grid) && PositiveDigits(s) && AllNumbers(s, order) && order != []
    ensures var init, last := order[..|order| - 1], order[|order| - 1];
      (set p | p in order && s.digits[p] == v && IsPartNumber(s, p)) ==
      (set p | p in init && s.digits[p] == v && IsPartNumber(s, p))
        + if s.digits[last] == v && IsPartNumber(s, last) then {last} else {}
  {
    var init, last := order[..|order| - 1], order[|order| - 1];
    assert forall p :: p in order <==> p in init || p == last by {
      assert order == init + [last];
    }
  }

  lemma {:induction false} PartNumbersConcat(s: Schematic, a: seq<Vec2>, b: seq<Vec2>)
    requires Rectangular(s.grid) && PositiveDigits(s) && AllNumbers(s, a) && AllNumbers(s, b)
    ensures AllNumbers(s, a + b)
    ensures PartNumbers(s, a + b) == PartNumbers(s, a) + PartNumbers(s, b)
    decreases |b|
  {
    if b == [] {
      assert a + b == a;
    } else {
      var b' := b[..|b| - 1];
      AllNumbersInit(s, b);
      assert (a + b)[..|a + b| - 1] == a + b';
      assert (a + b)[|a + b| - 1] == b[|b| - 1];
      PartNumbersConcat(s, a, b');
    }
  }

  /** Taking the same element out of two orderings of one multiset leaves two orderings of
      one multiset. */
  lemma RemoveOne(init: seq<Vec2>, p: Vec2, a: seq<Vec2>, b: seq<Vec2>)
    requires multiset(init + [p]) == multiset(a + [p] + b)
    ensures multiset(init) == multiset(a + b)
  {
    calc {
      multiset(init);
      multiset(init + [p]) - multiset{p};
      multiset(a + [p] + b) - multiset{p};
      multiset(a) + multiset{p} + multiset(b) - multiset{p};
      multiset(a + b);
    }
  }

  /** Inserting a number anywhere adds its part number, if it is one, to the multiset. */
  lemma PartNumbersInsert(s: Schematic, a: seq<Vec2>, p: Vec2, b: seq<Vec2>)
    requires Rectangular(s.grid) && PositiveDigits(s)
    requires AllNumbers(s, a) && AllNumbers(s, [p]) && AllNumbers(s, b)
    ensures AllNumbers(s, a + b) && AllNumbers(s, a + [p] + b)
    ensures multiset(PartNumbers(s, a + [p] + b))
      == multiset(PartNumbers(s, a + b)) + multiset(PartNumbers(s, [p]))
  {
    var na, np, nb := PartNumbers(s, a), PartNumbers(s, [p]), PartNumbers(s, b);
    assert PartNumbers(s, a + [p] + b) == na + np + nb by {
      PartNumbersConcat(s, a, [p]);
      PartNumbersConcat(s, a + [p], b);
    }
    assert PartNumbers(s, a + b) == na + nb by {
      PartNumbersConcat(s, a, b);
    }
  }

  /** The part numbers do not depend on the map's iteration order, as a multiset. */
  lemma {:induction false} PartNumbersAnyOrder(s: Schematic, o1: seq<Vec2>, o2: seq<Vec2>)
    requires Rectangular(s.grid) && PositiveDigits(s) && AllNumbers(s, o1)
    requires multiset(o1) == multiset(o2)
    ensures AllNumbers(s, o2)
    ensures multiset(PartNumbers(s, o1)) == multiset(PartNumbers(s, o2))
    decreases |o1|
  {
    forall q | q in o2 ensures q in s.digits {
      assert q in multiset(o2);
      assert q in multiset(o1);
    }
    if o1 != [] {
      var init := o1[..|o1| - 1];
      var p := o1[|o1| - 1];
      assert o1 == init + [p];
      assert p in multiset(o2);
      var i :| 0 <= i < |o2| && o2[i] == p;
      var a, b := o2[..i], o2[i + 1..];
      assert o2 == a + [p] + b;
      RemoveOne(init, p, a, b);
      assert AllNumbers(s, a) && AllNumbers(s, b) && AllNumbers(s, [p]) by {
        forall q | q in a || q in b ensures q in o2 {
        }
      }
      AllNumbersInit(s, o1);
      PartNumbersInsert(s, a, p, b);
      PartNumbersAnyOrder(s, init, a + b);
      PartNumbersConcat(s, init, [p]);
    }
  }

  // ---------------------------------------------------------------------------------
  // Gears
  // ---------------------------------------------------------------------------------

  /** The scan of `get_gear_parts` around g counts the number at p: p is a number's position
      other than g itself, and the number reaches column g.x - 1 or further right. */
  predicate Counts(s: Schematic, g: Vec2, p: Vec2)
    requires PositiveDigits(s)
  {
    p != g && p in s.digits && p.x + DigitLen(s.digits[p]) >= g.x
  }

  /** The numbers the scan counts on row g.y + dy at the columns g.x + lo .. g.x + hi - 1,
      left to right. */
  function TouchRow(s: Schematic, g: Vec2, dy: int, lo: int, hi: int): (r: seq<Vec2>)
    requires PositiveDigits(s)
    ensures AllNumbers(s, r)
    decreases hi - lo
  {
    if hi <= lo then []
    else
      var p := Vec2(g.x + hi - 1, g.y + dy);
      TouchRow(s, g, dy, lo, hi - 1) + if Counts(s, g, p) then [p] else []
  }

  /** The row scan counts exactly the numbers of its row and columns that `Counts`
      accepts, from left to right. */
  lemma {:induction false} TouchRowMembers(s: Schematic, g: Vec2, dy: int, lo: int, hi: int)
    requires PositiveDigits(s)
    ensures forall p :: p in TouchRow(s, g, dy, lo, hi) <==>
      p.y == g.y + dy && g.x + lo <= p.x < g.x + hi && Counts(s, g, p)
    ensures forall i, j :: 0 <= i < j < |TouchRow(s, g, dy, lo, hi)| ==>
      TouchRow(s, g, dy, lo, hi)[i].x < TouchRow(s, g, dy, lo, hi)[j].x
    decreases hi - lo
  {
    if lo < hi {
      TouchRowMembers(s, g, dy, lo, hi - 1);
      var init := TouchRow(s, g, dy, lo, hi - 1);
      assert forall i :: 0 <= i < |init| ==> init[i] in init;
    }
  }

  /** The numbers the scan counts on the rows g.y - 1 .. g.y + dy - 1, row by row. */
  function RowsBefore(s: Schematic, g: Vec2, dy: int): (r: seq<Vec2>)
    requires PositiveDigits(s) && -1 <= dy <= 2
    ensures AllNumbers(s, r)
    decreases dy + 1
  {
    if dy == -1 then []
    else RowsBefore(s, g, dy - 1) + TouchRow(s, g, dy - 1, -(s.longestDigit as int), 2)
  }

  /** The scan of rows g.y - 1 .. g.y + dy - 1 counts exactly the numbers there, between
      columns g.x - longest_digit and g.x + 1, that `Counts` accepts, in row-major order. */
  lemma {:induction false} RowsBeforeMembers(s: Schematic, g: Vec2, dy: int)
    requires PositiveDigits(s) && -1 <= dy <= 2
    ensures forall p :: p in RowsBefore(s, g, dy) <==>
      g.y - 1 <= p.y < g.y + dy && g.x - s.longestDigit <= p.x < g.x + 2 && Counts(s, g, p)
    ensures forall i, j :: 0 <= i < j < |RowsBefore(s, g, dy)| ==>
      || RowsBefore(s, g, dy)[i].y < RowsBefore(s, g, dy)[j].y
      || (RowsBefore(s, g, dy)[i].y == RowsBefore(s, g, dy)[j].y && RowsBefore(s, g, dy)[i].x < RowsBefore(s, g, dy)[j].x)
    decreases dy + 1
  {
    if dy > -1 {
      RowsBeforeMembers(s, g, dy - 1);
      var before := RowsBefore(s, g, dy - 1);
      var row := TouchRow(s, g, dy - 1, -(s.longestDigit as int), 2);
      TouchRowMembers(s, g, dy - 1, -(s.longestDigit as int), 2);
      assert RowsBefore(s, g, dy) == before + row;
      assert forall i :: 0 <= i < |row| ==> row[i] in row;
      assert forall i :: 0 <= i < |before| ==> before[i] in before;
    }
  }

  /** All the numbers the scan counts around g, in scan order. */
  function Touching(s: Schematic, g: Vec2): seq<Vec2>
    requires PositiveDigits(s)
  {
    RowsBefore(s, g, 2)
  }

  /** The two numbers counted around g, in scan order, when there are exactly two. */
  function GearParts(s: Schematic, g: Vec2): Option<(nat, nat)>
    requires PositiveDigits(s)
  {
    var t := Touching(s, g);
    if |t| == 2 then
      assert t[0] in t && t[1] in t;
      Some((s.digits[t[0]], s.digits[t[1]]))
    else None
  }

  /** A number of length `len` at p is next to the cell g: g lies in the closed rectangle
      one cell around the number. */
  predicate Adjacent(g: Vec2, p: Vec2, len: nat) {
    p.x - 1 <= g.x <= p.x + len && p.y - 1 <= g.y <= p.y + 1
  }

  /** The positions of the numbers next to g, other than one at g itself. */
  function Neighbours(s: Schematic, g: Vec2): set<Vec2>
    requires PositiveDigits(s)
  {
    set p | p in s.digits && p != g && Adjacent(g, p, DigitLen(s.digits[p]))
  }

  /** A sequence without repetitions has as many elements as its set. */
  lemma {:induction false} DistinctCard(t: seq<Vec2>)
    requires NoRepeats(t)
    ensures |set p | p in t| == |t|
  {
    if t != [] {
      var init := t[..|t| - 1];
      DistinctCard(init);
      assert (set p | p in t) == (set p | p in init) + {t[|t| - 1]};
      assert t[|t| - 1] !in init;
    }
  }

  /** On a valid schematic, the scan counts exactly the numbers next to g, each once. */
  lemma TouchingAreNeighbours(s: Schematic, g: Vec2)
    requires Valid(s)
    ensures (set p | p in Touching(s, g)) == Neighbours(s, g)
    ensures |Touching(s, g)| == |Neighbours(s, g)|
  {
    var t := Touching(s, g);
    RowsBeforeMembers(s, g, 2);
    forall i, j | 0 <= i < j < |t| ensures t[i] != t[j] {
    }
    DistinctCard(t);
  }

  /** `get_gear_parts(g)` (as specified by `GearParts`) is `Some((a, b))` exactly when two
      numbers are next to g; then a and b are their values, the upper or left one first. */
  lemma GearPartsExactlyTwo(s: Schematic, g: Vec2)
    requires Valid(s)
    ensures GearParts(s, g).Some? <==> |Neighbours(s, g)| == 2
    ensures GearParts(s, g).Some? ==> exists p, q ::
      && p in Neighbours(s, g) && q in Neighbours(s, g)
      && (p.y < q.y || (p.y == q.y && p.x < q.x))
      && GearParts(s, g).value == (s.digits[p], s.digits[q])
  {
    TouchingAreNeighbours(s, g);
    var t := Touching(s, g);
    if |t| == 2 {
      RowsBeforeMembers(s, g, 2);
      assert t[0] in t && t[1] in t;
      assert t[0].y < t[1].y || (t[0].y == t[1].y && t[0].x < t[1].x);
      assert GearParts(s, g).value == (s.digits[t[0]], s.digits[t[1]]);
    }
  }

  /** The numbers on row dy at the columns a .. b-1 are not counted when there are none. */
  lemma {:induction false} TouchRowSkip(s: Schematic, g: Vec2, dy: int, lo: int, a: int, b: int)
    requires PositiveDigits(s) && lo <= a <= b
    requires forall p :: p in s.digits && p.y == g.y + dy ==> !(g.x + a <= p.x < g.x + b)
    ensures TouchRow(s, g, dy, lo, b) == TouchRow(s, g, dy, lo, a)
    decreases b - a
  {
    if a < b {
      TouchRowSkip(s, g, dy, lo, a, b - 1);
    }
  }

  /** Counting more columns never counts fewer numbers. */
  lemma {:induction false} TouchRowGrows(s: Schematic, g: Vec2, dy: int, lo: int, a: int, b: int)
    requires PositiveDigits(s) && a <= b
    ensures |TouchRow(s, g, dy, lo, a)| <= |TouchRow(s, g, dy, lo, b)|
    decreases b - a
  {
    if a < b {
      TouchRowGrows(s, g, dy, lo, a, b - 1);
    }
  }

  lemma {:induction false} RowsBeforeGrows(s: Schematic, g: Vec2, dy: int)
    requires PositiveDigits(s) && -1 <= dy <= 2
    ensures |RowsBefore(s, g, dy)| <= |Touching(s, g)|
    decreases 2 - dy
  {
    if dy < 2 {
      RowsBeforeGrows(s, g, dy + 1);
    }
  }

  /** What the scan has counted when it reaches column x of row dy: the rows above, and
      row dy up to column x - 1 (or to the end of the row, once x is past it). */
  function CountedSoFar(s: Schematic, g: Vec2, dy: int, x: int): (r: seq<Vec2>)
    requires PositiveDigits(s) && -1 <= dy <= 1
    ensures AllNumbers(s, r)
  {
    RowsBefore(s, g, dy) + TouchRow(s, g, dy, -(s.longestDigit as int), Min(x, 2))
  }

  /** A row's scan starts with the rows above it. */
  lemma ScanStart(s: Schematic, g: Vec2, dy: int)
    requires PositiveDigits(s) && -1 <= dy <= 1
    ensures CountedSoFar(s, g, dy, -(s.longestDigit as int)) == RowsBefore(s, g, dy)
  {
    assert TouchRow(s, g, dy, -(s.longestDigit as int), -(s.longestDigit as int)) == [];
  }

  /** Counting the number at column x of row dy adds it, and the scan resumes past its last
      digit: the columns it covers hold no other number. */
  lemma {:induction false} ScanCounts(s: Schematic, g: Vec2, dy: int, x: int, curr: Vec2, next: int)
    requires Valid(s) && -1 <= dy <= 1 && -(s.longestDigit as int) <= x <= 1
    requires curr == Vec2(g.x + x, g.y + dy) && Counts(s, g, curr)
    requires next == x + DigitLen(s.digits[curr])
    ensures CountedSoFar(s, g, dy, next) == CountedSoFar(s, g, dy, x) + [curr]
  {
    var lo := -(s.longestDigit as int);
    RowJump(s, g, dy, lo, x, curr, next);
    CountedSoFarSnoc(s, g, dy, x, next, curr);
  }

  /** The count at `next` adds curr to the count at x when the row's count does. */
  lemma CountedSoFarSnoc(s: Schematic, g: Vec2, dy: int, x: int, next: int, curr: Vec2)
    requires PositiveDigits(s) && -1 <= dy <= 1 && x <= 1
    requires TouchRow(s, g, dy, -(s.longestDigit as int), Min(next, 2))
      == TouchRow(s, g, dy, -(s.longestDigit as int), x) + [curr]
    ensures CountedSoFar(s, g, dy, next) == CountedSoFar(s, g, dy, x) + [curr]
  {
    var before := RowsBefore(s, g, dy);
    var row := TouchRow(s, g, dy, -(s.longestDigit as int), x);
    assert Min(x, 2) == x;
    assert (before + row) + [curr] == before + (row + [curr]);
  }

  /** The row's count past a counted number at column x is the count up to x and that number:
      on a valid schematic no other number starts under its digits. */
  lemma {:induction false} RowJump(s: Schematic, g: Vec2, dy: int, lo: int, x: int, curr: Vec2, next: int)
    requires Valid(s) && lo <= x <= 1
    requires curr == Vec2(g.x + x, g.y + dy) && Counts(s, g, curr)
    requires next == x + DigitLen(s.digits[curr])
    ensures TouchRow(s, g, dy, lo, Min(next, 2)) == TouchRow(s, g, dy, lo, x) + [curr]
  {
    var hi := Min(next, 2);
    assert TouchRow(s, g, dy, lo, x + 1) == TouchRow(s, g, dy, lo, x) + [curr];
    if x + 1 < hi {
      NothingUnder(s, curr, hi - x - 1);
      TouchRowSkip(s, g, dy, lo, x + 1, hi);
    } else {
      assert hi == x + 1;
    }
  }

  /** On a valid schematic no number starts under the digits of the number at curr. */
  lemma NothingUnder(s: Schematic, curr: Vec2, width: int)
    requires Valid(s) && curr in s.digits && width < DigitLen(s.digits[curr])
    ensures forall p :: p in s.digits && p.y == curr.y ==> !(curr.x < p.x <= curr.x + width)
  {
  }

  /** A column that does not hold a counted number adds nothing. */
  lemma ScanSkips(s: Schematic, g: Vec2, dy: int, x: int, next: int)
    requires PositiveDigits(s) && -1 <= dy <= 1 && -(s.longestDigit as int) <= x <= 1
    requires !Counts(s, g, Vec2(g.x + x, g.y + dy)) && next == x + 1
    ensures CountedSoFar(s, g, dy, next) == CountedSoFar(s, g, dy, x)
  {
    assert Min(x + 1, 2) == x + 1 && Min(x, 2) == x;
    assert TouchRow(s, g, dy, -(s.longestDigit as int), x + 1) == TouchRow(s, g, dy, -(s.longestDigit as int), x);
  }

  /** Past the end of row dy, the scan has counted the rows up to and including dy. */
  lemma ScanRowDone(s: Schematic, g: Vec2, dy: int, x: int)
    requires PositiveDigits(s) && -1 <= dy <= 1 && x >= 2
    ensures CountedSoFar(s, g, dy, x) == RowsBefore(s, g, dy + 1)
  {
  }

  /** What the scan has counted is never more than the whole count. */
  lemma {:induction false} ScanPrefix(s: Schematic, g: Vec2, dy: int, x: int)
    requires PositiveDigits(s) && -1 <= dy <= 1 && -(s.longestDigit as int) <= x
    ensures |CountedSoFar(s, g, dy, x)| <= |Touching(s, g)|
  {
    TouchRowGrows(s, g, dy, -(s.longestDigit as int), Min(x, 2), 2);
    RowsBeforeGrows(s, g, dy + 1);
  }

  /** One update of `part_values` with a counted number's value: the first free slot takes
      it; with both slots full the pair is left as it is (the scan stops there). */
  function Record(pv: (Option<nat>, Option<nat>), v: nat): (Option<nat>, Option<nat>) {
    if pv.0.None? && pv.1.None? then (Some(v), None)
    else if pv.0.Some? && pv.1.None? then (pv.0, Some(v))
    else pv
  }

  /** `part_values` after counting the numbers at `found`, one by one. */
  function Held(s: Schematic, found: seq<Vec2>): (Option<nat>, Option<nat>)
    requires AllNumbers(s, found)
  {
    if found == [] then (None, None)
    else
      AllNumbersInit(s, found);
      assert found[|found| - 1] in found;
      Record(Held(s, found[..|found| - 1]), s.digits[found[|found| - 1]])
  }

  /** Counting one more number is one more `Record`. */
  lemma HeldSnoc(s: Schematic, found: seq<Vec2>, c: Vec2)
    requires AllNumbers(s, found) && c in s.digits
    ensures AllNumbers(s, found + [c])
    ensures Held(s, found + [c]) == Record(Held(s, found), s.digits[c])
  {
    assert (found + [c])[..|found|] == found;
  }

  /** `part_values` holds the values of the first two numbers counted, in order, and a slot
      is empty exactly when fewer numbers were counted. */
  lemma {:induction false} HeldShape(s: Schematic, found: seq<Vec2>)
    requires AllNumbers(s, found)
    ensures |found| == 0 ==> Held(s, found) == (None, None)
    ensures |found| >= 1 ==> found[0] in s.digits && Held(s, found).0 == Some(s.digits[found[0]])
    ensures |found| == 1 ==> Held(s, found).1 == None
    ensures |found| >= 2 ==> found[1] in s.digits && Held(s, found).1 == Some(s.digits[found[1]])
  {
    if found != [] {
      var init := found[..|found| - 1];
      AllNumbersInit(s, found);
      HeldShape(s, init);
      assert found[0] in found;
      if |found| >= 2 {
        assert found[1] in found;
        assert init[0] == found[0];
      }
      if |found| >= 3 {
        assert init[1] == found[1];
      }
    }
  }

  /** `part_values` after counting the numbers `found`, of which there are at most two. */
  predicate Holds(s: Schematic, found: seq<Vec2>, pv: (Option<nat>, Option<nat>))
    requires AllNumbers(s, found)
  {
    |found| <= 2 && pv == Held(s, found)
  }

  /** Counting the number at curr either records its value in the first free slot, or,
      with both slots full, finds a third number, so that g has no pair of parts. */
  lemma CountOne(s: Schematic, g: Vec2, dy: int, x: int, curr: Vec2, next: int, pv: (Option<nat>, Option<nat>))
    requires Valid(s) && -1 <= dy <= 1 && -(s.longestDigit as int) <= x <= 1
    requires curr == Vec2(g.x + x, g.y + dy) && Counts(s, g, curr)
    requires next == x + DigitLen(s.digits[curr])
    requires Holds(s, CountedSoFar(s, g, dy, x), pv)
    ensures pv.0.None? ==> pv.1.None?
    ensures pv.0.Some? && pv.1.Some? ==> GearParts(s, g) == None
    ensures !(pv.0.Some? && pv.1.Some?) ==> Holds(s, CountedSoFar(s, g, dy, next), Record(pv, s.digits[curr]))
  {
    var before := CountedSoFar(s, g, dy, x);
    ScanCounts(s, g, dy, x, curr, next);
    HeldShape(s, before);
    HeldSnoc(s, before, curr);
    if pv.0.Some? && pv.1.Some? {
      ScanPrefix(s, g, dy, next);
    }
  }

  function Min(a: int, b: int): int {
    if a < b then a else b
  }

  /** `get_gear_parts(g)`: scan rows g.y - 1 .. g.y + 1 from column g.x - longest_digit to
      g.x + 1, skipping g itself; a number that reaches column g.x - 1 is counted and the
      scan jumps past it; a third number gives `None`. On a valid schematic this is
      `GearParts`: `Some` exactly when two numbers are next to g. */
  method GetGearParts(s: Schematic, g: Vec2) returns (r: Option<(nat, nat)>)
    requires Valid(s)
    ensures r == GearParts(s, g)
  {
    var partValues: (Option<nat>, Option<nat>) := (None, None);
    for dy := -1 to 2
      invariant Holds(s, RowsBefore(s, g, dy), partValues)
    {
      var third;
      partValues, third := ScanRow(s, g, dy, partValues);
      if third {
        return None;
      }
    }
    HeldShape(s, Touching(s, g));
    if partValues.0.Some? && partValues.1.Some? {
      r := Some((partValues.0.value, partValues.1.value));
    } else {
      r := None;
    }
  }

  /** One row of the scan of `get_gear_parts(g)`, row g.y + dy: either it meets a third
      number (`third`), and then g has no pair of parts, or it leaves `part_values` holding
      what the rows up to this one count. */
  method ScanRow(s: Schematic, g: Vec2, dy: int, pv: (Option<nat>, Option<nat>))
    returns (partValues: (Option<nat>, Option<nat>), third: bool)
    requires Valid(s) && -1 <= dy <= 1 && Holds(s, RowsBefore(s, g, dy), pv)
    ensures third ==> GearParts(s, g) == None
    ensures !third ==> Holds(s, RowsBefore(s, g, dy + 1), partValues)
  {
    partValues := pv;
    var l := s.longestDigit as int;
    var x := -l;
    ScanStart(s, g, dy);
    while x <= 1
      invariant -l <= x
      invariant Holds(s, CountedSoFar(s, g, dy, x), partValues)
      decreases 2 - x
    {
      var next := x + 1;
      var curr := Vec2(g.x + x, g.y + dy);
      if x == 0 && dy == 0 {
        ScanSkips(s, g, dy, x, next);
        x := next;
        continue;
      }
      if curr in s.digits {
        var len := DigitLen(s.digits[curr]);
        if curr.x + len >= g.x {
          next := x + len;
          CountOne(s, g, dy, x, curr, next, partValues);
          if partValues.0.None? && partValues.1.None? {
            partValues := (Some(s.digits[curr]), partValues.1);
          } else if partValues.0.Some? && partValues.1.None? {
            partValues := (partValues.0, Some(s.digits[curr]));
          } else {
            return partValues, true;
          }
        } else {
          ScanSkips(s, g, dy, x, next);
        }
      } else {
        ScanSkips(s, g, dy, x, next);
      }
      x := next;
    }
    ScanRowDone(s, g, dy, x);
    third := false;
  }

  /** Every position of `order` holds a symbol. */
  predicate AllSymbols(s: Schematic, order: seq<Vec2>) {
    forall p :: p in order ==> p in s.symbols
  }

  lemma AllSymbolsInit(s: Schematic, order: seq<Vec2>)
    requires AllSymbols(s, order) && order != []
    ensures AllSymbols(s, order[..|order| - 1])
  {
    forall p | p in order[..|order| - 1] ensures p in s.symbols {
      var i :| 0 <= i < |order| - 1 && order[..|order| - 1][i] == p;
      assert order[i] == p;
    }
  }

  /** `get_gears` over the symbols at the positions `order`: each '*' with a pair of parts. */
  function Gears(s: Schematic, order: seq<Vec2>): (r: seq<Gear>)
    requires PositiveDigits(s) && AllSymbols(s, order)
    ensures |r| <= |order|
  {
    if order == [] then []
    else
      var init := order[..|order| - 1];
      var pos := order[|order| - 1];
      AllSymbolsInit(s, order);
      var parts := if s.symbols[pos] == '*' then GearParts(s, pos) else None;
      Gears(s, init) + if parts.Some? then [Gear(pos, parts.value)] else []
  }

  /** The gears found are exactly the '*' symbols of `order` next to exactly two numbers. */
  lemma {:induction false} GearsMembers(s: Schematic, order: seq<Vec2>)
    requires PositiveDigits(s) && AllSymbols(s, order)
    ensures forall gear :: gear in Gears(s, order) <==>
      gear.pos in order && s.symbols[gear.pos] == '*' && GearParts(s, gear.pos) == Some(gear.parts)
  {
    if order != [] {
      var init := order[..|order| - 1];
      var pos := order[|order| - 1];
      AllSymbolsInit(s, order);
      GearsMembers(s, init);
      assert order == init + [pos];
      forall gear ensures gear in Gears(s, order) <==>
        gear.pos in order && s.symbols[gear.pos] == '*' && GearParts(s, gear.pos) == Some(gear.parts)
      {
        assert gear.pos in order <==> gear.pos in init || gear.pos == pos;
      }
    }
  }

  /** `get_gears`: over all the symbols, in the map's order, a gear for each '*' next to
      exactly two numbers, carrying their values. */
  function GetGears(s: Schematic, order: seq<Vec2>): (r: seq<Gear>)
    requires PositiveDigits(s)
    requires Enumerates(order, s.symbols.Keys)
    ensures |r| <= |s.symbols|
    ensures forall gear :: gear in r <==>
      gear.pos in s.symbols && s.symbols[gear.pos] == '*' && GearParts(s, gear.pos) == Some(gear.parts)
    ensures forall i, j :: 0 <= i < j < |r| ==> r[i].pos != r[j].pos
  {
    EnumeratesNoRepeats(order, s.symbols.Keys);
    assert AllSymbols(s, order);
    GearsMembers(s, order);
    GearsNoRepeats(s, order);
    Gears(s, order)
  }

  /** Over positions listed at most once, no two gears found share a position. */
  lemma {:induction false} GearsNoRepeats(s: Schematic, order: seq<Vec2>)
    requires PositiveDigits(s) && AllSymbols(s, order) && NoRepeats(order)
    ensures forall i, j :: 0 <= i < j < |Gears(s, order)| ==> Gears(s, order)[i].pos != Gears(s, order)[j].pos
  {
    if order != [] {
      var init, last := order[..|order| - 1], order[|order| - 1];
      AllSymbolsInit(s, order);
      forall i | 0 <= i < |init| ensures init[i] != last {
        assert init[i] == order[i];
      }
      GearsNoRepeats(s, init);
      GearsMembers(s, init);
      var before := Gears(s, init);
      forall i | 0 <= i < |before| ensures before[i].pos != last {
        assert before[i] in before;
      }
    }
  }

  function Product(a: nat, b: nat): nat {
    a * b
  }

  /** `Gear::ratio`: the product of the two parts. */
  function Ratio(gear: Gear): (r: nat)
    ensures gear.parts.0 > 0 && gear.parts.1 > 0 ==> r > 0
  {
    Product(gear.parts.0, gear.parts.1)
  }

  /** The ratio of a gear `get_gears` gives (its parts are `GearParts` of its position) is the
      product of the values of two distinct numbers next to it, and is positive. */
  lemma GearRatio(s: Schematic, gear: Gear)
    requires Valid(s) && GearParts(s, gear.pos) == Some(gear.parts)
    ensures exists p, q ::
      && p in Neighbours(s, gear.pos) && q in Neighbours(s, gear.pos) && p != q
      && Ratio(gear) == Product(s.digits[p], s.digits[q])
    ensures Ratio(gear) > 0
  {
    GearPartsExactlyTwo(s, gear.pos);
    var p, q :| && p in Neighbours(s, gear.pos) && q in Neighbours(s, gear.pos)
      && (p.y < q.y || (p.y == q.y && p.x < q.x))
      && GearParts(s, gear.pos).value == (s.digits[p], s.digits[q]);
    assert p != q;
    assert Ratio(gear) == Product(s.digits[p], s.digits[q]);
    assert gear.parts.0 > 0 && gear.parts.1 > 0;
  }
}
