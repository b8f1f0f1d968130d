/**
 * The engine schematic (src/engine.rs): a grid of characters in which runs of ASCII
 * digits are part numbers and punctuation characters are symbols. A part number is
 * valid when a symbol lies in the ring of cells around it; a '*' touched by exactly
 * two numbers is a gear.
 */
module Engine {
  import opened Wrappers
  import opened Chars

  /** A grid position: column x, row y. */
  datatype Vec2 = Vec2(x: int, y: int)

  function Minus(a: Vec2, b: Vec2): Vec2 {
    Vec2(a.x - b.x, a.y - b.y)
  }

  /** `Vec2 + Vec2`, component-wise: taking away either summand gives the other back. */
  function Plus(a: Vec2, b: Vec2): (r: Vec2)
    ensures Minus(r, b) == a && Minus(r, a) == b
  {
    Vec2(a.x + b.x, a.y + b.y)
  }

  /** Addition undoes subtraction, and addition is commutative. */
  lemma PlusUndoesMinus(a: Vec2, b: Vec2)
    ensures Plus(Minus(a, b), b) == a
    ensures Plus(a, b) == Plus(b, a)
  {
  }

  /** The characters that count as symbols. */
  const Symbols: set<char> :=
    {'!', '#', '$', '%', '&', '\'', '(', ')', '*', '+', ',', '-', '/', ':', ';', '<', '=',
     '>', '?', '@', '[', '\\', ']', '^', '_', '`', '{', '|', '}', '~'}

  /** Digits, the filler '.', letters and spaces are not symbols. */
  lemma NotSymbols(c: char)
    requires IsDigit(c) || c == '.' || c == ' ' || 'a' <= c <= 'z' || 'A' <= c <= 'Z'
    ensures c !in Symbols
  {
  }

  /** 2^32: the scanner accumulates a number in a `u32`. */
  const U32Limit: nat := 0x1_0000_0000

  /** `Digit::len`: `ilog10(v) + 1`, the number of decimal digits of a positive value. */
  function DigitLen(v: nat): (n: nat)
    requires v > 0
    ensures n >= 1
  {
    if v < 10 then 1 else 1 + DigitLen(v / 10)
  }

  /** `Digit::len` is the decimal order of magnitude: 10^(n-1) <= v < 10^n. */
  lemma {:induction false} DigitLenBounds(v: nat)
    requires v > 0
    ensures Pow10(DigitLen(v) - 1) <= v < Pow10(DigitLen(v))
  {
    if v >= 10 {
      var n' := DigitLen(v / 10);
      DigitLenBounds(v / 10);
      assert 10 * Pow10(n' - 1) <= 10 * (v / 10) <= v;
      assert v < 10 * (v / 10 + 1) <= 10 * Pow10(n');
    }
  }

  /** The decimal length is the only n with 10^(n-1) <= v < 10^n. */
  lemma DigitLenUnique(v: nat, n: nat)
    requires n >= 1 && Pow10(n - 1) <= v < Pow10(n)
    ensures DigitLen(v) == n
  {
    var m := DigitLen(v);
    DigitLenBounds(v);
    if m < n {
      Pow10Monotone(m, n - 1);
    } else if m > n {
      Pow10Monotone(n, m - 1);
    }
  }

  /** A positive numeral is |s| digits long by `Digit::len` exactly when it has no
      leading zero, and shorter otherwise. */
  lemma DigitLenOfNumeral(s: string)
    requires AllDigits(s) && DecValue(s) > 0
    ensures s != []
    ensures DigitLen(DecValue(s)) <= |s|
    ensures DigitLen(DecValue(s)) == |s| <==> s[0] != '0'
  {
    var v := DecValue(s);
    DecValueBelow(s);
    DigitLenBounds(v);
    if s[0] != '0' {
      DecValueNoLeadingZero(s);
      DigitLenUnique(v, |s|);
    } else {
      DecValueLeadingZero(s);
      if DigitLen(v) >= |s| {
        Pow10Monotone(|s| - 1, DigitLen(v) - 1);
      }
    }
    if DigitLen(v) > |s| {
      Pow10Monotone(|s|, DigitLen(v) - 1);
    }
  }

  /** A run of digits in a line: the columns start .. end-1. */
  datatype Run = Run(start: nat, end: nat)

  /** The columns start .. end-1 exist, are all ASCII digits and there is at least one. */
  predicate RunIn(line: string, r: Run) {
    r.start < r.end <= |line| && AllDigits(line[r.start..r.end])
  }

  /** The decimal value of a run. */
  function RunValue(line: string, r: Run): nat
    requires RunIn(line, r)
  {
    DecValue(line[r.start..r.end])
  }

  /** The column just after the digits that start at column i. */
  function RunEnd(line: string, i: nat): (e: nat)
    requires i <= |line|
    ensures i <= e <= |line|
    ensures AllDigits(line[i..e])
    ensures e < |line| ==> !IsDigit(line[e])
  {
    var k := DigitRun(line[i..]);
    assert line[i..][..k] == line[i..i + k];
    i + k
  }

  /** The runs of digits from column i on, left to right, each as long as it goes. */
  function RunsFrom(line: string, i: nat): seq<Run>
    requires i <= |line|
    decreases |line| - i
  {
    if i == |line| then []
    else if !IsDigit(line[i]) then RunsFrom(line, i + 1)
    else
      var e := RunEnd(line, i);
      [Run(i, e)] + RunsFrom(line, e)
  }

  /** The maximal runs of ASCII digits of a line, left to right. */
  function Runs(line: string): seq<Run> {
    RunsFrom(line, 0)
  }

  /** Every run from column i is a non-empty run of digits at or after column i. */
  lemma {:induction false} RunsFromWellFormed(line: string, i: nat)
    requires i <= |line|
    ensures forall k :: 0 <= k < |RunsFrom(line, i)| ==> RunIn(line, RunsFrom(line, i)[k]) && i <= RunsFrom(line, i)[k].start
    decreases |line| - i
  {
    if i < |line| {
      var runs := RunsFrom(line, i);
      if !IsDigit(line[i]) {
        assert runs == RunsFrom(line, i + 1);
        RunsFromWellFormed(line, i + 1);
      } else {
        var e := RunEnd(line, i);
        var rest := RunsFrom(line, e);
        assert runs == [Run(i, e)] + rest;
        RunsFromWellFormed(line, e);
        assert forall k :: 0 < k < |runs| ==> runs[k] == rest[k - 1];
      }
    }
  }

  /** No run from column i can be extended to the right. */
  lemma {:induction false} RunsFromEndMaximal(line: string, i: nat)
    requires i <= |line|
    ensures forall k :: 0 <= k < |RunsFrom(line, i)| ==>
      RunsFrom(line, i)[k].end < |line| ==> !IsDigit(line[RunsFrom(line, i)[k].end])
    decreases |line| - i
  {
    if i < |line| {
      var runs := RunsFrom(line, i);
      if !IsDigit(line[i]) {
        assert runs == RunsFrom(line, i + 1);
        RunsFromEndMaximal(line, i + 1);
      } else {
        var e := RunEnd(line, i);
        var rest := RunsFrom(line, e);
        assert runs == [Run(i, e)] + rest;
        RunsFromEndMaximal(line, e);
        assert forall k :: 0 < k < |runs| ==> runs[k] == rest[k - 1];
      }
    }
  }

  /** A run from column i that starts after i has a non-digit just before it. */
  lemma {:induction false} RunsFromStartMaximal(line: string, i: nat)
    requires i <= |line|
    ensures forall k :: 0 <= k < |RunsFrom(line, i)| ==>
      i < RunsFrom(line, i)[k].start <= |line| ==> !IsDigit(line[RunsFrom(line, i)[k].start - 1])
    decreases |line| - i
  {
    if i < |line| {
      var runs := RunsFrom(line, i);
      if !IsDigit(line[i]) {
        assert runs == RunsFrom(line, i + 1);
        RunsFromStartMaximal(line, i + 1);
      } else {
        var e := RunEnd(line, i);
        var rest := RunsFrom(line, e);
        assert runs == [Run(i, e)] + rest;
        RunsFromStartMaximal(line, e);
        RunsFromWellFormed(line, e);
        forall k | 0 <= k < |rest|
          ensures !IsDigit(line[rest[k].start - 1])
        {
          assert line[rest[k].start..rest[k].end][0] == line[rest[k].start];
        }
        assert forall k :: 0 < k < |runs| ==> runs[k] == rest[k - 1];
      }
    }
  }

  /** The runs from column i are in left-to-right order with a gap between each two. */
  lemma {:induction false} RunsFromOrdered(line: string, i: nat)
    requires i <= |line|
    ensures forall k, m :: 0 <= k < m < |RunsFrom(line, i)| ==> RunsFrom(line, i)[k].end < RunsFrom(line, i)[m].start
    decreases |line| - i
  {
    if i < |line| {
      var runs := RunsFrom(line, i);
      if !IsDigit(line[i]) {
        assert runs == RunsFrom(line, i + 1);
        RunsFromOrdered(line, i + 1);
      } else {
        var e := RunEnd(line, i);
        var rest := RunsFrom(line, e);
        assert runs == [Run(i, e)] + rest;
        RunsFromOrdered(line, e);
        RunsFromWellFormed(line, e);
        forall k | 0 <= k < |rest|
          ensures e < rest[k].start
        {
          assert line[rest[k].start..rest[k].end][0] == line[rest[k].start];
        }
        assert forall k :: 0 < k < |runs| ==> runs[k] == rest[k - 1];
      }
    }
  }

  /** Every digit from column i on lies in one of the runs from i. */
  lemma {:induction false} RunsFromCover(line: string, i: nat, j: nat)
    requires i <= j < |line| && IsDigit(line[j])
    ensures exists k :: 0 <= k < |RunsFrom(line, i)| && RunsFrom(line, i)[k].start <= j < RunsFrom(line, i)[k].end
    decreases |line| - i
  {
    var runs := RunsFrom(line, i);
    if !IsDigit(line[i]) {
      RunsFromCover(line, i + 1, j);
    } else {
      var e := RunEnd(line, i);
      if j < e {
        assert runs[0] == Run(i, e);
      } else {
        RunsFromCover(line, e, j);
        var k :| 0 <= k < |RunsFrom(line, e)| && RunsFrom(line, e)[k].start <= j < RunsFrom(line, e)[k].end;
        assert runs[k + 1] == RunsFrom(line, e)[k];
      }
    }
  }

  /** `parse_line` panics on a number 0 (`ilog10`) and overflows its `u32` accumulator
      from 2^32 on: every run of the line must be worth between 1 and 2^32 - 1. */
  predicate PositiveRuns(line: string) {
    forall k :: 0 <= k < |Runs(line)| ==> RunIn(line, Runs(line)[k]) && RunValue(line, Runs(line)[k]) > 0
  }

  predicate ScannableLine(line: string) {
    && PositiveRuns(line)
    && forall k :: 0 <= k < |Runs(line)| ==> RunValue(line, Runs(line)[k]) < U32Limit
  }

  /** The entry `parse_line` records for a run: its value, at the column after the run
      minus `Digit::len`. */
  function Entry(line: string, y: nat, r: Run): (Vec2, nat)
    requires RunIn(line, r) && RunValue(line, r) > 0
  {
    var v := RunValue(line, r);
    (Vec2(r.end - DigitLen(v), y), v)
  }

  predicate PositiveRunsIn(line: string, runs: seq<Run>) {
    forall k :: 0 <= k < |runs| ==> RunIn(line, runs[k]) && RunValue(line, runs[k]) > 0
  }

  function EntriesOf(line: string, y: nat, runs: seq<Run>): (entries: seq<(Vec2, nat)>)
    requires PositiveRunsIn(line, runs)
    ensures |entries| == |runs|
  {
    if runs == [] then [] else EntriesOf(line, y, runs[..|runs| - 1]) + [Entry(line, y, runs[|runs| - 1])]
  }

  /** The k-th entry is the entry of the k-th run. */
  lemma {:induction false} EntriesOfAt(line: string, y: nat, runs: seq<Run>, k: nat)
    requires PositiveRunsIn(line, runs) && k < |runs|
    ensures EntriesOf(line, y, runs)[k] == Entry(line, y, runs[k])
  {
    var init := runs[..|runs| - 1];
    if k < |init| {
      assert init[k] == runs[k];
      EntriesOfAt(line, y, init, k);
    }
  }

  /** The digit entries of line y, one per maximal run, left to right. */
  function DigitEntries(line: string, y: nat): seq<(Vec2, nat)>
    requires PositiveRuns(line)
  {
    EntriesOf(line, y, Runs(line))
  }

  /** The symbol entries of the first i columns of line y, left to right. */
  function SymbolsUpTo(line: string, y: nat, i: nat): seq<(Vec2, char)>
    requires i <= |line|
  {
    if i == 0 then []
    else SymbolsUpTo(line, y, i - 1) + if line[i - 1] in Symbols then [(Vec2(i - 1, y), line[i - 1])] else []
  }

  function SymbolEntries(line: string, y: nat): seq<(Vec2, char)> {
    SymbolsUpTo(line, y, |line|)
  }

  /** Inside the digits that start at column `start`, column x is still a digit exactly
      when the run goes on past it. */
  lemma RunEndStep(line: string, start: nat, x: nat)
    requires start <= x < |line| && x <= RunEnd(line, start)
    ensures x < RunEnd(line, start) <==> IsDigit(line[x])
  {
    var e := RunEnd(line, start);
    if x < e {
      assert line[start..e][x - start] == line[x];
    }
  }

  lemma EntriesOfSnoc(line: string, y: nat, runs: seq<Run>, r: Run)
    requires PositiveRunsIn(line, runs) && RunIn(line, r) && RunValue(line, r) > 0
    ensures PositiveRunsIn(line, runs + [r])
    ensures EntriesOf(line, y, runs + [r]) == EntriesOf(line, y, runs) + [Entry(line, y, r)]
  {
    assert (runs + [r])[..|runs|] == runs;
  }

  /** One more digit of the run that starts at column s: the run goes on past x, and the
      numeral grows by that digit without exceeding the value of the whole run. */
  lemma DigitStep(line: string, s: nat, x: nat)
    requires s <= x < |line| && x <= RunEnd(line, s) && IsDigit(line[x])
    ensures x < RunEnd(line, s)
    ensures AllDigits(line[s..x]) && AllDigits(line[s..x + 1])
    ensures DecValue(line[s..x + 1]) == 10 * DecValue(line[s..x]) + DigitValue(line[x])
    ensures DecValue(line[s..x + 1]) <= RunValue(line, Run(s, RunEnd(line, s)))
  {
    var e := RunEnd(line, s);
    RunEndStep(line, s, x);
    assert line[s..x] == line[s..e][..x - s];
    assert line[s..x + 1] == line[s..e][..x + 1 - s];
    var t := line[s..x + 1];
    assert t[..|t| - 1] == line[s..x];
    DecValuePrefix(line[s..e], x + 1 - s);
  }

  /** A run that started at column s and meets a non-digit (or the end of the line) at
      column x ends there. */
  lemma CloseRun(line: string, s: nat, x: nat)
    requires s < x <= |line| && x <= RunEnd(line, s) && IsDigit(line[s])
    requires x == |line| || !IsDigit(line[x])
    ensures RunEnd(line, s) == x
    ensures RunsFrom(line, s) == [Run(s, x)] + RunsFrom(line, x)
    ensures x < |line| ==> RunsFrom(line, x) == RunsFrom(line, x + 1)
  {
    if x < |line| {
      RunEndStep(line, s, x);
    }
  }

  /** A `u32`. */
  type U32 = v: nat | v < U32Limit

  /** The scanner's state after the first x columns: the runs closed so far are `done`
      (recorded in `digits`), the rest of the line's runs start at x or, while a run is
      open (`curr`), at its first column `start`; `curr` is the value of its digits so far. */
  ghost predicate Scanned(line: string, y: nat, x: nat, curr: Option<nat>, start: nat, done: seq<Run>,
                          digits: seq<(Vec2, nat)>, symbols: seq<(Vec2, char)>)
  {
    && x <= |line|
    && (curr.None? ==> done + RunsFrom(line, x) == Runs(line))
    && (curr.Some? ==> start < x <= RunEnd(line, start) && IsDigit(line[start]))
    && (curr.Some? ==> done + RunsFrom(line, start) == Runs(line))
    && (curr.Some? ==> AllDigits(line[start..x]) && curr.value == DecValue(line[start..x]))
    && PositiveRunsIn(line, done) && digits == EntriesOf(line, y, done)
    && symbols == SymbolsUpTo(line, y, x)
  }

  /** Scanning a digit opens a run or extends the open one; the value stays a `u32`. */
  lemma ScanDigit(line: string, y: nat, x: nat, curr: Option<nat>, start: nat, done: seq<Run>,
                  digits: seq<(Vec2, nat)>, symbols: seq<(Vec2, char)>, next: nat, start': nat)
    requires ScannableLine(line) && Scanned(line, y, x, curr, start, done, digits, symbols)
    requires x < |line| && IsDigit(line[x])
    requires next == if curr.Some? then curr.value * 10 + DigitValue(line[x]) else DigitValue(line[x])
    requires start' == if curr.Some? then start else x
    ensures next < U32Limit
    ensures Scanned(line, y, x + 1, Some(next), start', done, digits, symbols)
  {
    NotSymbols(line[x]);
    assert SymbolsUpTo(line, y, x + 1) == symbols;
    DigitStep(line, start', x);
    assert RunsFrom(line, start') == [Run(start', RunEnd(line, start'))] + RunsFrom(line, RunEnd(line, start'));
    assert Runs(line)[|done|] == Run(start', RunEnd(line, start'));
    assert line[x..x] == [];
  }

  /** While a run is open its value is positive. */
  lemma OpenRunPositive(line: string, y: nat, x: nat, curr: Option<nat>, start: nat, done: seq<Run>,
                        digits: seq<(Vec2, nat)>, symbols: seq<(Vec2, char)>)
    requires ScannableLine(line) && Scanned(line, y, x, curr, start, done, digits, symbols)
    requires curr.Some? && (x < |line| ==> !IsDigit(line[x]))
    ensures curr.value > 0
  {
    CloseRun(line, start, x);
    assert Runs(line)[|done|] == Run(start, x);
  }

  lemma SymbolsStep(line: string, y: nat, x: nat)
    requires x < |line|
    ensures SymbolsUpTo(line, y, x + 1) ==
      SymbolsUpTo(line, y, x) + if line[x] in Symbols then [(Vec2(x, y), line[x])] else []
  {
  }

  /** The entry of the run `start .. x-1` is its value at column x minus its length. */
  lemma EntryOfRun(line: string, y: nat, start: nat, x: nat)
    requires RunIn(line, Run(start, x)) && RunValue(line, Run(start, x)) > 0
    ensures var v := DecValue(line[start..x]);
      Entry(line, y, Run(start, x)) == (Vec2(x - DigitLen(v), y), v)
  {
  }

  /** Closing the open run `start .. x-1`, worth v, at a non-digit or at the end of the
      line records its entry and moves it from the runs ahead to the runs done. */
  lemma CloseStep(line: string, y: nat, x: nat, start: nat, done: seq<Run>, digits: seq<(Vec2, nat)>, v: nat)
    requires PositiveRuns(line)
    requires start < x <= |line| && x <= RunEnd(line, start) && IsDigit(line[start])
    requires x == |line| || !IsDigit(line[x])
    requires done + RunsFrom(line, start) == Runs(line)
    requires PositiveRunsIn(line, done) && digits == EntriesOf(line, y, done)
    requires AllDigits(line[start..x]) && v == DecValue(line[start..x])
    ensures v > 0
    ensures (done + [Run(start, x)]) + RunsFrom(line, x) == Runs(line)
    ensures PositiveRunsIn(line, done + [Run(start, x)])
    ensures digits + [(Vec2(x - DigitLen(v), y), v)] == EntriesOf(line, y, done + [Run(start, x)])
  {
    var run := Run(start, x);
    CloseRun(line, start, x);
    assert (done + [run]) + RunsFrom(line, x) == done + RunsFrom(line, start);
    assert Runs(line)[|done|] == run;
    assert RunIn(line, run) && RunValue(line, run) > 0;
    EntriesOfSnoc(line, y, done, run);
    EntryOfRun(line, y, start, x);
  }

  /** Scanning a non-digit closes the open run, recording it at x minus its length, and
      records the column if it holds a symbol. */
  lemma ScanOther(line: string, y: nat, x: nat, curr: Option<nat>, start: nat, done: seq<Run>,
                  digits: seq<(Vec2, nat)>, symbols: seq<(Vec2, char)>,
                  done': seq<Run>, digits': seq<(Vec2, nat)>, symbols': seq<(Vec2, char)>)
    requires ScannableLine(line) && Scanned(line, y, x, curr, start, done, digits, symbols)
    requires x < |line| && !IsDigit(line[x])
    requires curr.Some? ==> curr.value > 0 && done' == done + [Run(start, x)]
    requires curr.Some? ==> digits' == digits + [(Vec2(x - DigitLen(curr.value), y), curr.value)]
    requires curr.None? ==> done' == done && digits' == digits
    requires symbols' == if line[x] in Symbols then symbols + [(Vec2(x, y), line[x])] else symbols
    ensures Scanned(line, y, x + 1, None, start, done', digits', symbols')
  {
    SymbolsStep(line, y, x);
    if curr.Some? {
      ScanClose(line, y, x, start, done, digits, symbols, curr.value);
    } else {
      assert RunsFrom(line, x) == RunsFrom(line, x + 1);
    }
  }

  /** A non-digit after an open run worth v closes it; the runs and entries move on by one. */
  lemma ScanClose(line: string, y: nat, x: nat, start: nat, done: seq<Run>,
                  digits: seq<(Vec2, nat)>, symbols: seq<(Vec2, char)>, v: nat)
    requires ScannableLine(line) && Scanned(line, y, x, Some(v), start, done, digits, symbols)
    requires x < |line| && !IsDigit(line[x])
    ensures v > 0
    ensures (done + [Run(start, x)]) + RunsFrom(line, x + 1) == Runs(line)
    ensures PositiveRunsIn(line, done + [Run(start, x)])
    ensures digits + [(Vec2(x - DigitLen(v), y), v)] == EntriesOf(line, y, done + [Run(start, x)])
  {
    CloseStep(line, y, x, start, done, digits, v);
    CloseRun(line, start, x);
  }

  /** At the end of the line the open run, if any, is closed at the line's length; then
      every run has been recorded. */
  lemma ScanEnd(line: string, y: nat, curr: Option<nat>, start: nat, done: seq<Run>,
                digits: seq<(Vec2, nat)>, symbols: seq<(Vec2, char)>, digits': seq<(Vec2, nat)>)
    requires ScannableLine(line) && Scanned(line, y, |line|, curr, start, done, digits, symbols)
    requires curr.Some? ==> curr.value > 0 && digits' == digits + [(Vec2(|line| - DigitLen(curr.value), y), curr.value)]
    requires curr.None? ==> digits' == digits
    ensures digits' == DigitEntries(line, y) && symbols == SymbolEntries(line, y)
  {
    assert RunsFrom(line, |line|) == [];
    if curr.Some? {
      CloseStep(line, y, |line|, start, done, digits, curr.value);
      assert done + [Run(start, |line|)] == Runs(line);
    } else {
      assert done == Runs(line);
    }
  }

  /** The body of the scan in `Schematic::parse_line` for column x: a digit opens or
      extends the current number in a `u32`; any other character closes the current
      number, recording it at x minus its decimal length, and is recorded if it is a symbol. */
  method ScanColumn(line: string, y: nat, x: nat, curr: Option<U32>, ghost start: nat, ghost done: seq<Run>,
                    digits: seq<(Vec2, nat)>, symbols: seq<(Vec2, char)>)
    returns (curr': Option<U32>, ghost start': nat, ghost done': seq<Run>,
             digits': seq<(Vec2, nat)>, symbols': seq<(Vec2, char)>)
    requires ScannableLine(line) && x < |line|
    requires Scanned(line, y, x, curr, start, done, digits, symbols)
    ensures Scanned(line, y, x + 1, curr', start', done', digits', symbols')
  {
    var c := line[x];
    if IsDigit(c) {
      var d := DigitValue(c);
      ghost var next := if curr.Some? then curr.value * 10 + d else d;
      start' := if curr.Some? then start else x;
      ScanDigit(line, y, x, curr, start, done, digits, symbols, next, start');
      if curr.Some? {
        curr' := Some(curr.value * 10 + d);
      } else {
        curr' := Some(d);
      }
      done', digits', symbols' := done, digits, symbols;
    } else {
      start', done', digits', curr' := start, done, digits, None;
      if curr.Some? {
        OpenRunPositive(line, y, x, curr, start, done, digits, symbols);
        var digit: nat := curr.value;
        digits' := digits + [(Vec2(x - DigitLen(digit), y), digit)];
        done' := done + [Run(start, x)];
      }
      symbols' := symbols;
      if c in Symbols {
        symbols' := symbols + [(Vec2(x, y), c)];
      }
      ScanOther(line, y, x, curr, start, done, digits, symbols, done', digits', symbols');
    }
  }

  /** `Schematic::parse_line`: one scan of the line, left to right. At the end of the line
      a number still open is recorded at the line's length minus its decimal length. */
  method ParseLine(line: string, y: nat) returns (digits: seq<(Vec2, nat)>, symbols: seq<(Vec2, char)>)
    requires ScannableLine(line)
    ensures digits == DigitEntries(line, y)
    ensures symbols == SymbolEntries(line, y)
  {
    digits := [];
    symbols := [];
    var curr: Option<U32> := None;
    ghost var start: nat := 0;
    ghost var done: seq<Run> := [];
    for x := 0 to |line|
      invariant Scanned(line, y, x, curr, start, done, digits, symbols)
    {
      curr, start, done, digits, symbols := ScanColumn(line, y, x, curr, start, done, digits, symbols);
    }
    ghost var digits0 := digits;
    if curr.Some? {
      OpenRunPositive(line, y, |line|, curr, start, done, digits, symbols);
      var digit: nat := curr.value;
      digits := digits + [(Vec2(|line| - DigitLen(digit), y), digit)];
    }
    ScanEnd(line, y, curr, start, done, digits0, symbols, digits);
  }

  /** `parse_line` sees exactly the maximal runs of ASCII digits, left to right: each is a
      non-empty run of digits that cannot be extended at either end, they do not touch,
      and every digit of the line lies in one of them. */
  lemma RunsAreMaximal(line: string)
    ensures forall k :: 0 <= k < |Runs(line)| ==> RunIn(line, Runs(line)[k])
    ensures forall k :: 0 <= k < |Runs(line)| ==> 0 < Runs(line)[k].start <= |line| ==> !IsDigit(line[Runs(line)[k].start - 1])
    ensures forall k :: 0 <= k < |Runs(line)| ==> Runs(line)[k].end < |line| ==> !IsDigit(line[Runs(line)[k].end])
    ensures forall k, m :: 0 <= k < m < |Runs(line)| ==> Runs(line)[k].end < Runs(line)[m].start
    ensures forall j :: 0 <= j < |line| && IsDigit(line[j]) ==>
      exists k :: 0 <= k < |Runs(line)| && Runs(line)[k].start <= j < Runs(line)[k].end
  {
    RunsFromWellFormed(line, 0);
    RunsFromStartMaximal(line, 0);
    RunsFromEndMaximal(line, 0);
    RunsFromOrdered(line, 0);
    forall j | 0 <= j < |line| && IsDigit(line[j])
      ensures exists k :: 0 <= k < |Runs(line)| && Runs(line)[k].start <= j < Runs(line)[k].end
    {
      RunsFromCover(line, 0, j);
      var k :| 0 <= k < |RunsFrom(line, 0)| && RunsFrom(line, 0)[k].start <= j < RunsFrom(line, 0)[k].end;
      assert Runs(line)[k].start <= j < Runs(line)[k].end;
    }
  }

  /** The k-th digit entry of line y is the k-th run's value on row y, recorded so that it
      ends where the run ends; it starts at the run's first column exactly when the run
      has no leading zero, and further right otherwise. */
  lemma EntryPlacement(line: string, y: nat, k: nat)
    requires PositiveRuns(line) && k < |Runs(line)|
    ensures var r, e := Runs(line)[k], DigitEntries(line, y)[k];
      && e.0.y == y
      && e.1 == RunValue(line, r)
      && r.start <= e.0.x
      && e.0.x + DigitLen(e.1) == r.end
      && (e.0.x == r.start <==> line[r.start] != '0')
  {
    var r := Runs(line)[k];
    var digits := line[r.start..r.end];
    EntriesOfAt(line, y, Runs(line), k);
    assert digits[0] == line[r.start];
    DigitLenOfNumeral(digits);
  }

  /** Two digit entries of one line are separated by at least one column, in order. */
  lemma DigitEntriesSeparated(line: string, y: nat)
    requires PositiveRuns(line)
    ensures forall k :: 0 <= k < |DigitEntries(line, y)| ==> DigitEntries(line, y)[k].1 > 0
    ensures forall k, m :: 0 <= k < m < |DigitEntries(line, y)| ==>
      DigitEntries(line, y)[k].0.x + DigitLen(DigitEntries(line, y)[k].1) < DigitEntries(line, y)[m].0.x
  {
    forall k | 0 <= k < |DigitEntries(line, y)|
      ensures DigitEntries(line, y)[k].1 > 0
    {
      EntryPlacement(line, y, k);
    }
    forall k, m | 0 <= k < m < |DigitEntries(line, y)|
      ensures DigitEntries(line, y)[k].0.x + DigitLen(DigitEntries(line, y)[k].1) < DigitEntries(line, y)[m].0.x
    {
      EntriesSeparatedAt(line, y, k, m);
    }
  }

  /** The entry of an earlier run ends at least one column before that of a later run. */
  lemma EntriesSeparatedAt(line: string, y: nat, k: nat, m: nat)
    requires PositiveRuns(line) && k < m < |DigitEntries(line, y)|
    ensures DigitEntries(line, y)[k].1 > 0
    ensures DigitEntries(line, y)[k].0.x + DigitLen(DigitEntries(line, y)[k].1) < DigitEntries(line, y)[m].0.x
  {
    RunsFromOrdered(line, 0);
    EntryPlacement(line, y, k);
    EntryPlacement(line, y, m);
  }

  /** Every digit entry of line y lies on row y, inside the line, with a positive value. */
  lemma DigitEntriesInLine(line: string, y: nat)
    requires PositiveRuns(line)
    ensures forall k :: 0 <= k < |DigitEntries(line, y)| ==>
      var e := DigitEntries(line, y)[k];
      e.0.y == y && e.1 > 0 && 0 <= e.0.x && e.0.x + DigitLen(e.1) <= |line|
  {
    forall k | 0 <= k < |DigitEntries(line, y)|
      ensures var e := DigitEntries(line, y)[k];
        e.0.y == y && e.1 > 0 && 0 <= e.0.x && e.0.x + DigitLen(e.1) <= |line|
    {
      EntryPlacement(line, y, k);
    }
  }

  /** The symbol entries of the first i columns are, left to right, exactly the columns
      whose character is in the symbol set, each with that character, on row y. */
  lemma {:induction false} SymbolsUpToExact(line: string, y: nat, i: nat)
    requires i <= |line|
    ensures forall k :: 0 <= k < |SymbolsUpTo(line, y, i)| ==>
      var e := SymbolsUpTo(line, y, i)[k];
      e.0.y == y && 0 <= e.0.x < i && e.1 == line[e.0.x] && e.1 in Symbols
    ensures forall x :: 0 <= x < i && line[x] in Symbols ==> (Vec2(x, y), line[x]) in SymbolsUpTo(line, y, i)
    ensures forall k, m :: 0 <= k < m < |SymbolsUpTo(line, y, i)| ==>
      SymbolsUpTo(line, y, i)[k].0.x < SymbolsUpTo(line, y, i)[m].0.x
  {
    if i > 0 {
      SymbolsUpToExact(line, y, i - 1);
      var prev := SymbolsUpTo(line, y, i - 1);
      var added := if line[i - 1] in Symbols then [(Vec2(i - 1, y), line[i - 1])] else [];
      assert SymbolsUpTo(line, y, i) == prev + added;
      assert forall k :: 0 <= k < |prev| ==> (prev + added)[k] == prev[k];
    }
  }

  /** `parse_line` records a symbol at (x, y) with character c exactly when column x of
      the line holds c and c is in the symbol set; digits, '.', letters and spaces give none. */
  lemma SymbolEntriesExact(line: string, y: nat, x: int, c: char)
    ensures (Vec2(x, y), c) in SymbolEntries(line, y) <==> 0 <= x < |line| && line[x] == c && c in Symbols
  {
    SymbolsUpToExact(line, y, |line|);
  }
}
