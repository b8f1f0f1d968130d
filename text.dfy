/** `str::split` on one character and `str::trim`, as the record parsers use them. */
module Text {

  /** The characters with the Unicode White_Space property, the table `char::is_whitespace`
      looks up. */
  const WhitespaceTable: seq<char> := [
    '\U{9}', '\U{A}', '\U{B}', '\U{C}', '\U{D}', ' ', '\U{85}', '\U{A0}', '\U{1680}',
    '\U{2000}', '\U{2001}', '\U{2002}', '\U{2003}', '\U{2004}', '\U{2005}', '\U{2006}',
    '\U{2007}', '\U{2008}', '\U{2009}', '\U{200A}', '\U{2028}', '\U{2029}', '\U{202F}',
    '\U{205F}', '\U{3000}'
  ]

  /** `c` is one of the table entries from index `i` on. */
  predicate InTableFrom(c: char, i: nat)
    decreases |WhitespaceTable| - i
  {
    i < |WhitespaceTable| && (WhitespaceTable[i] == c || InTableFrom(c, i + 1))
  }

  /** `char::is_whitespace`. */
  predicate IsWhitespace(c: char) {
    InTableFrom(c, 0)
  }

  /** The pieces joined back together with `sep` between them. */
  function Join(parts: seq<string>, sep: char): string
    requires |parts| >= 1
  {
    if |parts| == 1 then parts[0] else parts[0] + [sep] + Join(parts[1..], sep)
  }

  /** `s.split(sep)`: the maximal pieces between occurrences of `sep`; the empty string is
      one empty piece, and a separator at either end gives an empty piece there. */
  function Split(s: string, sep: char): (parts: seq<string>)
    ensures |parts| >= 1
    ensures forall i :: 0 <= i < |parts| ==> sep !in parts[i]
    ensures Join(parts, sep) == s
  {
    if s == [] then [[]]
    else
      var t := Split(s[1..], sep);
      if s[0] == sep then
        [[]] + t
      else
        var parts := [[s[0]] + t[0]] + t[1..];
        assert |t| > 1 ==> t == [t[0]] + t[1..];
        assert Join(parts, sep) == [s[0]] + Join(t, sep);
        parts
  }

  /** Splitting undoes joining pieces that hold no separator. */
  lemma {:induction false} SplitJoin(parts: seq<string>, sep: char)
    requires |parts| >= 1
    requires forall i :: 0 <= i < |parts| ==> sep !in parts[i]
    ensures Split(Join(parts, sep), sep) == parts
    decreases |parts|, |parts[0]|
  {
    if |parts| == 1 {
      SplitNoSep(parts[0], sep);
    } else {
      var p := parts[0];
      var j := Join(parts, sep);
      if p == [] {
        assert j == [sep] + Join(parts[1..], sep);
        assert j[1..] == Join(parts[1..], sep);
        SplitJoin(parts[1..], sep);
        assert parts == [[]] + parts[1..];
      } else {
        var parts' := [p[1..]] + parts[1..];
        assert parts'[1..] == parts[1..];
        assert j == [p[0]] + Join(parts', sep);
        assert j[0] == p[0] && j[1..] == Join(parts', sep);
        SplitJoin(parts', sep);
        assert [p[0]] + parts'[0] == p;
        assert parts == [[p[0]] + parts'[0]] + parts'[1..];
      }
    }
  }

  lemma {:induction false} SplitNoSep(s: string, sep: char)
    requires sep !in s
    ensures Split(s, sep) == [s]
  {
    if s != [] {
      SplitNoSep(s[1..], sep);
    }
  }

  /** `trim_start`: drop leading whitespace. */
  function TrimStart(s: string): (t: string)
    ensures |t| <= |s| && t == s[|s| - |t|..]
    ensures forall k :: 0 <= k < |s| - |t| ==> IsWhitespace(s[k])
    ensures t != [] ==> !IsWhitespace(t[0])
  {
    if s != [] && IsWhitespace(s[0]) then TrimStart(s[1..]) else s
  }

  /** `trim_end`: drop trailing whitespace. */
  function TrimEnd(s: string): (t: string)
    ensures |t| <= |s| && t == s[..|t|]
    ensures t != [] ==> !IsWhitespace(t[|t| - 1])
  {
    if s != [] && IsWhitespace(s[|s| - 1]) then TrimEnd(s[..|s| - 1]) else s
  }

  /** `trim_end` drops only whitespace. */
  lemma {:induction false} TrimEndDrops(s: string, k: nat)
    requires |TrimEnd(s)| <= k < |s|
    ensures IsWhitespace(s[k])
  {
    if k < |s| - 1 {
      TrimEndDrops(s[..|s| - 1], k);
    }
  }

  /** How many leading whitespace characters `trim` drops. */
  function LeadingSpace(s: string): (n: nat)
    ensures n <= |s|
  {
    |s| - |TrimStart(s)|
  }

  /** `s.trim()`: the slice of `s` left after dropping whitespace at both ends. */
  function Trim(s: string): (t: string)
    ensures LeadingSpace(s) + |t| <= |s|
    ensures t == s[LeadingSpace(s)..LeadingSpace(s) + |t|]
    ensures t != [] ==> !IsWhitespace(t[0]) && !IsWhitespace(t[|t| - 1])
  {
    TrimEnd(TrimStart(s))
  }

  /** `trim` drops only whitespace: everything outside the slice it keeps is whitespace. */
  lemma TrimDropsWhitespace(s: string, k: nat)
    requires k < LeadingSpace(s) || LeadingSpace(s) + |Trim(s)| <= k < |s|
    ensures IsWhitespace(s[k])
  {
    var a := TrimStart(s);
    var i := LeadingSpace(s);
    if k >= i {
      assert a[k - i] == s[k];
      TrimEndDrops(a, k - i);
    }
  }
}
