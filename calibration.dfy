/**
 * First and last decimal digit of a line, and the per-line two-digit values built
 * from them (src/lib.rs). Lines are given as a sequence; reading them is not modelled.
 */
module Calibration {
  import opened Wrappers
  import opened Chars

  /** The values of the ASCII digits of `line`, in order; every other character is skipped. */
  function DigitValues(line: string): seq<nat>
  {
    if line == [] then []
    else
      var c := line[|line| - 1];
      DigitValues(line[..|line| - 1]) + (if IsDigit(c) then [DigitValue(c)] else [])
  }

  /** The first and last entries of `DigitValues`, or `None` when there are none. */
  function EdgeDigits(line: string): (r: Option<(nat, nat)>)
    ensures r.Some? ==> r.value.0 <= 9 && r.value.1 <= 9
  {
    var ds := DigitValues(line);
    DigitValuesBounded(line);
    if ds == [] then None
    else
      assert ds[0] in ds && ds[|ds| - 1] in ds;
      Some((ds[0], ds[|ds| - 1]))
  }

  lemma {:induction false} DigitValuesConcat(a: string, b: string)
    ensures DigitValues(a + b) == DigitValues(a) + DigitValues(b)
    decreases |b|
  {
    if b == [] {
      assert a + b == a;
    } else {
      var b' := b[..|b| - 1];
      assert (a + b)[..|a + b| - 1] == a + b';
      DigitValuesConcat(a, b');
    }
  }

  /** A line has no digit values exactly when it has no digit characters. */
  lemma {:induction false} DigitValuesEmpty(line: string)
    ensures DigitValues(line) == [] <==> forall i :: 0 <= i < |line| ==> !IsDigit(line[i])
  {
    if line != [] {
      var init := line[..|line| - 1];
      DigitValuesEmpty(init);
      assert forall i :: 0 <= i < |init| ==> init[i] == line[i];
    }
  }

  /** `get_edge_digits` is `None` exactly when the line holds no ASCII digit. */
  lemma EdgeDigitsNone(line: string)
    ensures EdgeDigits(line).None? <==> forall i :: 0 <= i < |line| ==> !IsDigit(line[i])
  {
    DigitValuesEmpty(line);
  }

  /** The first component is the value of the first digit character. */
  lemma EdgeDigitsFirst(line: string, i: nat)
    requires i < |line| && IsDigit(line[i])
    requires forall k :: 0 <= k < i ==> !IsDigit(line[k])
    ensures EdgeDigits(line).Some? && EdgeDigits(line).value.0 == DigitValue(line[i])
  {
    var pre, rest := line[..i], line[i + 1..];
    assert line == pre + [line[i]] + rest;
    DigitValuesConcat(pre + [line[i]], rest);
    DigitValuesConcat(pre, [line[i]]);
    assert [line[i]][..0] == [];
    DigitValuesEmpty(pre);
  }

  /** The second component is the value of the last digit character. */
  lemma EdgeDigitsLast(line: string, j: nat)
    requires j < |line| && IsDigit(line[j])
    requires forall k :: j < k < |line| ==> !IsDigit(line[k])
    ensures EdgeDigits(line).Some? && EdgeDigits(line).value.1 == DigitValue(line[j])
  {
    var pre, rest := line[..j], line[j + 1..];
    assert line == pre + [line[j]] + rest;
    DigitValuesConcat(pre + [line[j]], rest);
    DigitValuesConcat(pre, [line[j]]);
    assert [line[j]][..0] == [];
    assert forall k :: 0 <= k < |rest| ==> rest[k] == line[j + 1 + k];
    DigitValuesEmpty(rest);
  }

  /** A line with a single digit d gives (d, d). */
  lemma EdgeDigitsSingle(line: string, i: nat)
    requires i < |line| && IsDigit(line[i])
    requires forall k :: 0 <= k < |line| && k != i ==> !IsDigit(line[k])
    ensures EdgeDigits(line) == Some((DigitValue(line[i]), DigitValue(line[i])))
  {
    EdgeDigitsFirst(line, i);
    EdgeDigitsLast(line, i);
  }

  /** Characters that are not ASCII digits, spelled-out digit names included, change nothing. */
  lemma EdgeDigitsIgnoresNonDigit(a: string, c: char, b: string)
    requires !IsDigit(c)
    ensures EdgeDigits(a + [c] + b) == EdgeDigits(a + b)
  {
    DigitValuesConcat(a + [c], b);
    DigitValuesConcat(a, [c]);
    DigitValuesConcat(a, b);
    assert [c][..0] == [];
  }

  /** `get_edge_digits(line)`: one pass, keeping the first digit and overwriting the last. */
  method GetEdgeDigits(line: string) returns (digits: Option<(nat, nat)>)
    ensures digits == EdgeDigits(line)
  {
    digits := None;
    for i := 0 to |line|
      invariant digits == EdgeDigits(line[..i])
    {
      assert line[..i + 1][..i] == line[..i];
      var c := line[i];
      if IsDigit(c) {
        var digit := DigitValue(c);
        if digits.Some? {
          digits := Some((digits.value.0, digit));
        } else {
          digits := Some((digit, digit));
        }
      }
    }
    assert line[..|line|] == line;
  }

  /** The values `get_line_numbers` collects: `10 * first + last` for each line that has a digit. */
  function CalibrationValues(lines: seq<string>): (r: seq<nat>)
    ensures |r| <= |lines|
  {
    if lines == [] then []
    else
      var e := EdgeDigits(lines[|lines| - 1]);
      CalibrationValues(lines[..|lines| - 1]) + (if e.Some? then [10 * e.value.0 + e.value.1] else [])
  }

  /** Every collected value is a two-digit number. */
  lemma {:induction false} CalibrationValuesBounded(lines: seq<string>)
    ensures forall k :: 0 <= k < |CalibrationValues(lines)| ==> CalibrationValues(lines)[k] <= 99
  {
    if lines != [] {
      CalibrationValuesBounded(lines[..|lines| - 1]);
      var ds := DigitValues(lines[|lines| - 1]);
      if ds != [] {
        assert ds[0] in ds && ds[|ds| - 1] in ds;
        DigitValuesBounded(lines[|lines| - 1]);
      }
    }
  }

  lemma {:induction false} DigitValuesBounded(line: string)
    ensures forall d :: d in DigitValues(line) ==> d <= 9
  {
    if line != [] {
      DigitValuesBounded(line[..|line| - 1]);
    }
  }

  /** Lines contribute independently and in order. */
  lemma {:induction false} CalibrationValuesConcat(a: seq<string>, b: seq<string>)
    ensures CalibrationValues(a + b) == CalibrationValues(a) + CalibrationValues(b)
    decreases |b|
  {
    if b == [] {
      assert a + b == a;
    } else {
      var b', last := b[..|b| - 1], b[|b| - 1];
      assert a + b == (a + b') + [last];
      assert b == b' + [last];
      calc {
        CalibrationValues(a + b);
        { CalibrationValuesSnoc(a + b', last); }
        CalibrationValues(a + b') + CalibrationValues([last]);
        { CalibrationValuesConcat(a, b'); }
        (CalibrationValues(a) + CalibrationValues(b')) + CalibrationValues([last]);
        CalibrationValues(a) + (CalibrationValues(b') + CalibrationValues([last]));
        { CalibrationValuesSnoc(b', last); }
        CalibrationValues(a) + CalibrationValues(b);
      }
    }
  }

  /** A line read after others contributes its own values after theirs. */
  lemma CalibrationValuesSnoc(lines: seq<string>, line: string)
    ensures CalibrationValues(lines + [line]) == CalibrationValues(lines) + CalibrationValues([line])
  {
    assert (lines + [line])[..|lines|] == lines;
    assert [line][..0] == [];
  }

  /** One line contributes one value iff it holds a digit, and nothing otherwise. */
  lemma CalibrationValueOfLine(line: string)
    ensures |CalibrationValues([line])| == (if EdgeDigits(line).Some? then 1 else 0)
  {
    assert [line][..0] == [];
  }

  /** The per-line loop of `get_line_numbers`, over lines already read. */
  method GetLineNumbers(lines: seq<string>) returns (numbers: seq<nat>)
    ensures numbers == CalibrationValues(lines)
  {
    numbers := [];
    for i := 0 to |lines|
      invariant numbers == CalibrationValues(lines[..i])
    {
      assert lines[..i + 1][..i] == lines[..i];
      var e := GetEdgeDigits(lines[i]);
      match e {
        case Some((l, r)) => numbers := numbers + [l * 10 + r];
        case None =>
      }
    }
    assert lines[..|lines|] == lines;
  }
}
