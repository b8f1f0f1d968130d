/**
 * Cube-game records: parsing `Game <id>: <draw>; <draw>; ...` lines, checking a game
 * against cube limits, and the smallest limits that make a game possible
 * (src/block_game.rs). The two regular expressions are modelled as the grammars they
 * accept, over ASCII digits.
 */
module BlockGame {
  import opened Wrappers
  import opened Chars
  import opened Text

  /** One draw: how many cubes of each colour were shown. */
  datatype Draw = Draw(numRed: nat, numBlue: nat, numGreen: nat)

  /** A game: its id and its draws, in order. */
  datatype Game = Game(gameId: nat, draws: seq<Draw>)

  datatype Colour = Red | Blue | Green

  /** The failures the parsers report: the line or a draw does not match its pattern,
      or a number does not fit in a `u64`. */
  datatype ParseError = MalformedLine | MalformedDraw | NumberTooLarge

  /** 2^64: `str::parse::<u64>` fails from here on. */
  const U64Limit: nat := 0x1_0000_0000_0000_0000

  function ColourName(c: Colour): string {
    match c
    case Red => "red"
    case Blue => "blue"
    case Green => "green"
  }

  /** The number of cubes of colour `c` in a draw. */
  function Count(d: Draw, c: Colour): nat {
    match c
    case Red => d.numRed
    case Blue => d.numBlue
    case Green => d.numGreen
  }

  /** `digits.parse::<u64>()` for a string of ASCII digits: every numeral of up to 19
      digits fits, and one of 21 or more significant digits, or of 20 starting with 2
      or more, does not. */
  function ParseU64(digits: string): (r: Result<nat, ParseError>)
    requires AllDigits(digits)
    ensures r.Ok? ==> r.value == DecValue(digits) < U64Limit
    ensures r.Err? ==> r.error == NumberTooLarge && DecValue(digits) >= U64Limit
    ensures |digits| <= 19 ==> r.Ok?
    ensures |digits| > 20 && digits[0] != '0' ==> r == Err(NumberTooLarge)
    ensures |digits| == 20 && DigitValue(digits[0]) >= 2 ==> r == Err(NumberTooLarge)
  {
    U64Digits(digits);
    var v := DecValue(digits);
    if v < U64Limit then Ok(v) else Err(NumberTooLarge)
  }

  /** Where 2^64 falls among the powers of ten: 10^19 < 2^64 < 2 * 10^19. */
  lemma U64Digits(digits: string)
    requires AllDigits(digits)
    ensures |digits| <= 19 ==> DecValue(digits) < U64Limit
    ensures |digits| > 20 && digits[0] != '0' ==> DecValue(digits) >= U64Limit
    ensures |digits| == 20 && DigitValue(digits[0]) >= 2 ==> DecValue(digits) >= U64Limit
  {
    assert Pow10(10) == 10_000_000_000;
    assert Pow10(19) == 10_000_000_000_000_000_000;
    DecValueBelow(digits);
    if |digits| <= 19 {
      Pow10Monotone(|digits|, 19);
    } else {
      DecValueFirst(digits);
      Pow10Monotone(19, |digits| - 1);
      if digits[0] != '0' {
        assert DigitValue(digits[0]) >= 1;
      }
    }
  }

  /** The colour a word names, if any. */
  function ColourOf(name: string): (r: Option<Colour>)
    ensures r.Some? ==> ColourName(r.value) == name
  {
    if name == "red" then Some(Red)
    else if name == "blue" then Some(Blue)
    else if name == "green" then Some(Green)
    else None
  }

  /** One trimmed segment against `^(\d+) ((blue)|(red)|(green))$`, then the count parsed as a `u64`. */
  /** An accepted segment is `<digits> <colour>`, its count the digits' value, below 2^64. */
  function ParsePair(seg: string): (r: Result<(nat, Colour), ParseError>)
    ensures r.Ok? ==> var k := DigitRun(seg);
      && 0 < k
      && seg == seg[..k] + " " + ColourName(r.value.1)
      && r.value.0 == DecValue(seg[..k]) < U64Limit
  {
    var k := DigitRun(seg);
    if k == 0 || k == |seg| || seg[k] != ' ' then Err(MalformedDraw)
    else
      var colour := ColourOf(seg[k + 1..]);
      if colour.None? then Err(MalformedDraw)
      else
        var count := ParseU64(seg[..k]);
        assert seg == seg[..k] + [seg[k]] + seg[k + 1..];
        if count.Err? then Err(count.error) else Ok((count.value, colour.value))
  }

  lemma {:induction false} DigitRunStopsAtSpace(digits: string, tail: string)
    requires AllDigits(digits)
    ensures DigitRun(digits + " " + tail) == |digits|
    decreases |digits|
  {
    var s := digits + " " + tail;
    if digits != [] {
      assert s[1..] == digits[1..] + " " + tail;
      DigitRunStopsAtSpace(digits[1..], tail);
    }
  }

  /** Every well-formed segment is accepted with its count and colour. */
  lemma ParsePairAccepts(digits: string, c: Colour)
    requires digits != [] && AllDigits(digits) && DecValue(digits) < U64Limit
    ensures ParsePair(digits + " " + ColourName(c)) == Ok((DecValue(digits), c))
  {
    var seg := digits + " " + ColourName(c);
    DigitRunStopsAtSpace(digits, ColourName(c));
    assert seg[..|digits|] == digits;
    assert seg[|digits|..][1..] == ColourName(c);
  }

  /** `.collect::<Result<Vec<_>>>()` over `xs.map(f)`: all the values when every element
      parses, otherwise the error of the first element that fails. */
  function Collect<T>(xs: seq<string>, f: string -> Result<T, ParseError>): (r: Result<seq<T>, ParseError>)
    ensures r.Ok? ==> |r.value| == |xs|
  {
    if xs == [] then Ok([])
    else
      match Collect(xs[..|xs| - 1], f)
      case Err(e) => Err(e)
      case Ok(ys) =>
        match f(xs[|xs| - 1])
        case Err(e) => Err(e)
        case Ok(y) => Ok(ys + [y])
  }

  /** `collect` succeeds exactly when every element parses, and then holds their values in
      order; otherwise it holds the error of the first element that fails. */
  lemma {:induction false} CollectSpec<T>(xs: seq<string>, f: string -> Result<T, ParseError>)
    ensures Collect(xs, f).Ok? <==> forall i :: 0 <= i < |xs| ==> f(xs[i]).Ok?
    ensures Collect(xs, f).Ok? ==> forall i :: 0 <= i < |xs| ==> Ok(Collect(xs, f).value[i]) == f(xs[i])
    ensures Collect(xs, f).Err? ==>
      exists i :: 0 <= i < |xs| && f(xs[i]).Err? && Collect(xs, f).error == f(xs[i]).error
        && (forall k :: 0 <= k < i ==> f(xs[k]).Ok?)
  {
    if xs != [] {
      var init := xs[..|xs| - 1];
      CollectSpec(init, f);
      assert forall i :: 0 <= i < |init| ==> init[i] == xs[i];
    }
  }

  /** Collecting one more element: stop at its failure, or append its value. */
  lemma CollectSnoc<T>(xs: seq<string>, f: string -> Result<T, ParseError>, i: nat)
    requires i < |xs| && Collect(xs[..i], f).Ok?
    ensures f(xs[i]).Err? ==> Collect(xs, f) == Err(f(xs[i]).error)
    ensures f(xs[i]).Ok? ==> Collect(xs[..i + 1], f) == Ok(Collect(xs[..i], f).value + [f(xs[i]).value])
  {
    assert xs[..i + 1][..i] == xs[..i];
    CollectSpec(xs[..i], f);
    CollectSpec(xs, f);
    if f(xs[i]).Err? {
      assert forall k :: 0 <= k < i ==> xs[..i][k] == xs[k];
    }
  }

  /** One comma-separated segment of a draw: trimmed, then matched. */
  function SegmentPair(segment: string): (r: Result<(nat, Colour), ParseError>)
    ensures (forall k :: 0 <= k < |segment| ==> IsWhitespace(segment[k])) ==> r.Err?
    ensures r.Ok? ==> r.value.0 < U64Limit
  {
    ParsePair(Trim(segment))
  }

  /** The count of the last pair naming colour `c`, or 0 when none does. */
  function LastCount(pairs: seq<(nat, Colour)>, c: Colour): nat {
    if pairs == [] then 0
    else if pairs[|pairs| - 1].1 == c then pairs[|pairs| - 1].0
    else LastCount(pairs[..|pairs| - 1], c)
  }

  /** One more pair sets the count of its own colour and leaves the others alone. */
  lemma LastCountSnoc(pairs: seq<(nat, Colour)>, p: (nat, Colour))
    ensures forall c :: LastCount(pairs + [p], c) == if c == p.1 then p.0 else LastCount(pairs, c)
  {
    assert (pairs + [p])[..|pairs|] == pairs;
  }

  /** A colour never named counts 0. */
  lemma {:induction false} LastCountMissing(pairs: seq<(nat, Colour)>, c: Colour)
    requires forall i :: 0 <= i < |pairs| ==> pairs[i].1 != c
    ensures LastCount(pairs, c) == 0
  {
    if pairs != [] {
      LastCountMissing(pairs[..|pairs| - 1], c);
    }
  }

  /** A colour named several times takes its last count. */
  lemma {:induction false} LastCountLast(pairs: seq<(nat, Colour)>, c: Colour, i: nat)
    requires i < |pairs| && pairs[i].1 == c
    requires forall k :: i < k < |pairs| ==> pairs[k].1 != c
    ensures LastCount(pairs, c) == pairs[i].0
  {
    if i < |pairs| - 1 {
      LastCountLast(pairs[..|pairs| - 1], c, i);
    }
  }

  /** The result of `Draw::parse(s)`: it fails exactly when some comma-separated segment,
      trimmed, is not `<digits> <colour>`. */
  function DrawOf(s: string): (r: Result<Draw, ParseError>)
    ensures r.Ok? ==> forall i :: 0 <= i < |Split(s, ',')| ==> SegmentPair(Split(s, ',')[i]).Ok?
    ensures r.Err? ==> exists i :: 0 <= i < |Split(s, ',')| && SegmentPair(Split(s, ',')[i]).Err?
  {
    var segs := Split(s, ',');
    var pairs := Collect(segs, SegmentPair);
    CollectSpec(segs, SegmentPair);
    if pairs.Err? then
      Err(pairs.error)
    else
      var ps := pairs.value;
      Ok(Draw(LastCount(ps, Red), LastCount(ps, Blue), LastCount(ps, Green)))
  }

  /** A colour no segment names is 0. */
  lemma DrawOfMissingColour(s: string, c: Colour)
    requires DrawOf(s).Ok?
    requires forall i :: 0 <= i < |Split(s, ',')| ==> SegmentPair(Split(s, ',')[i]).value.1 != c
    ensures Count(DrawOf(s).value, c) == 0
  {
    var segs := Split(s, ',');
    var r := Collect(segs, SegmentPair);
    CollectSpec(segs, SegmentPair);
    assert r.Ok?;
    var ps := r.value;
    assert forall i :: 0 <= i < |ps| ==> Ok(ps[i]) == SegmentPair(segs[i]);
    LastCountMissing(ps, c);
    assert DrawOf(s).value == Draw(LastCount(ps, Red), LastCount(ps, Blue), LastCount(ps, Green));
  }

  /** A colour named in several segments takes the count of the last one. */
  lemma DrawOfLastWins(s: string, c: Colour, i: nat)
    requires DrawOf(s).Ok?
    requires i < |Split(s, ',')| && SegmentPair(Split(s, ',')[i]).value.1 == c
    requires forall k :: i < k < |Split(s, ',')| ==> SegmentPair(Split(s, ',')[k]).value.1 != c
    ensures Count(DrawOf(s).value, c) == SegmentPair(Split(s, ',')[i]).value.0
  {
    var segs := Split(s, ',');
    var r := Collect(segs, SegmentPair);
    CollectSpec(segs, SegmentPair);
    assert r.Ok?;
    var ps := r.value;
    assert forall k :: 0 <= k < |ps| ==> Ok(ps[k]) == SegmentPair(segs[k]);
    LastCountLast(ps, c, i);
    assert DrawOf(s).value == Draw(LastCount(ps, Red), LastCount(ps, Blue), LastCount(ps, Green));
  }

  /** `Draw::parse`: each comma-separated segment, trimmed, sets the count of its colour. */
  method ParseDraw(s: string) returns (r: Result<Draw, ParseError>)
    ensures r == DrawOf(s)
  {
    var segments := Split(s, ',');
    var numRed, numBlue, numGreen := 0, 0, 0;
    ghost var pairs: seq<(nat, Colour)> := [];
    for i := 0 to |segments|
      invariant Collect(segments[..i], SegmentPair) == Ok(pairs)
      invariant numRed == LastCount(pairs, Red)
      invariant numBlue == LastCount(pairs, Blue)
      invariant numGreen == LastCount(pairs, Green)
    {
      CollectSnoc(segments, SegmentPair, i);
      var segment := Trim(segments[i]);
      var pair := ParsePair(segment);
      assert pair == SegmentPair(segments[i]);
      if pair.Err? {
        return Err(pair.error);
      }
      var (val, colour) := pair.value;
      LastCountSnoc(pairs, (val, colour));
      pairs := pairs + [(val, colour)];
      match colour
      case Red => numRed := val;
      case Blue => numBlue := val;
      case Green => numGreen := val;
    }
    assert segments[..|segments|] == segments;
    r := Ok(Draw(numRed, numBlue, numGreen));
  }

  /** What `(.*)` captures: everything up to the first newline. */
  function ToLineEnd(s: string): (t: string)
    ensures '\n' !in t
    ensures |t| <= |s| && t == s[..|t|]
    ensures |t| < |s| ==> s[|t|] == '\n'
  {
    if s == [] || s[0] == '\n' then [] else [s[0]] + ToLineEnd(s[1..])
  }

  /** The number of id digits when the line starts with `Game <digits>: `, and 0 otherwise. */
  function HeaderDigits(line: string): (k: nat)
    ensures k > 0 ==>
      7 + k <= |line| && line[..5] == "Game " && AllDigits(line[5..5 + k]) && line[5 + k] == ':' && line[6 + k] == ' '
  {
    if |line| < 5 || line[..5] != "Game " then 0
    else
      var k := DigitRun(line[5..]);
      if k == 0 || |line| < 7 + k || line[5 + k] != ':' || line[6 + k] != ' ' then 0
      else
        assert line[5..][..k] == line[5..5 + k];
        k
  }

  /** `Game::parse(line)`: `^Game (\d+): (.*)`, the id parsed as a `u64`, then `Draw::parse`
      on every `;`-separated piece of the rest of the line. */
  function ParseGame(line: string): (r: Result<Game, ParseError>)
    ensures r.Ok? ==> var k := HeaderDigits(line);
      && 0 < k && 7 + k <= |line|
      && line[..5] == "Game " && line[5 + k] == ':' && line[6 + k] == ' '
      && r.value.gameId == DecValue(line[5..5 + k])
  {
    var k := HeaderDigits(line);
    if k == 0 then Err(MalformedLine)
    else
      var id := ParseU64(line[5..5 + k]);
      if id.Err? then Err(id.error) else GameBody(id.value, line[7 + k..])
  }

  /** The game with id `id` whose draws come from `rest` up to the first newline: the
      draws of its `;`-pieces, in order. */
  function GameBody(id: nat, rest: string): (r: Result<Game, ParseError>)
    ensures r.Ok? ==> var pieces := Split(ToLineEnd(rest), ';');
      && r.value.gameId == id
      && |r.value.draws| == |pieces|
      && forall i :: 0 <= i < |pieces| ==> DrawOf(pieces[i]) == Ok(r.value.draws[i])
  {
    var pieces := Split(ToLineEnd(rest), ';');
    var draws := Collect(pieces, DrawOf);
    CollectSpec(pieces, DrawOf);
    if draws.Err? then Err(draws.error) else Ok(Game(id, draws.value))
  }

  /** The draws of a parsed game are those of the `;`-pieces of the rest of its line, in order. */
  lemma ParseGameDraws(line: string)
    requires ParseGame(line).Ok?
    ensures var pieces := Split(ToLineEnd(line[7 + HeaderDigits(line)..]), ';');
      && |ParseGame(line).value.draws| == |pieces|
      && forall i :: 0 <= i < |pieces| ==> DrawOf(pieces[i]) == Ok(ParseGame(line).value.draws[i])
  {
    var k := HeaderDigits(line);
    assert ParseGame(line) == GameBody(ParseU64(line[5..5 + k]).value, line[7 + k..]);
  }

  /** The header of `Game <digits>: <body>` is recognised, with the id digits and the body where they belong. */
  lemma HeaderOfGameLine(digits: string, body: string)
    requires digits != [] && AllDigits(digits)
    ensures var line := "Game " + digits + ": " + body;
      && HeaderDigits(line) == |digits|
      && line[5..5 + |digits|] == digits
      && line[7 + |digits|..] == body
  {
    var line := "Game " + digits + ": " + body;
    var k := |digits|;
    assert line[..5] == "Game ";
    assert line[5..] == digits + ": " + body;
    DigitRunAtColon(digits, body);
    assert line[5..5 + k] == digits;
    assert line[7 + k..] == body;
  }

  /** Every line `Game <digits>: <body>` whose id fits in a `u64` parses exactly when every
      `;`-piece of the body is a well-formed draw: one bad draw fails the whole line. */
  lemma ParseGameAccepts(line: string, digits: string, body: string)
    requires line == "Game " + digits + ": " + body
    requires digits != [] && AllDigits(digits) && DecValue(digits) < U64Limit
    requires '\n' !in body
    ensures var draws := Collect(Split(body, ';'), DrawOf);
      ParseGame(line) == if draws.Ok? then Ok(Game(DecValue(digits), draws.value)) else Err(draws.error)
  {
    HeaderOfGameLine(digits, body);
    assert ParseGame(line) == GameBody(DecValue(digits), body);
    ToLineEndNoNewline(body);
  }

  /** A game line parses exactly when every one of its draws does. */
  lemma ParseGameNeedsEveryDraw(line: string, digits: string, body: string)
    requires line == "Game " + digits + ": " + body
    requires digits != [] && AllDigits(digits) && DecValue(digits) < U64Limit
    requires '\n' !in body
    ensures var pieces := Split(body, ';');
      ParseGame(line).Ok? <==> forall i :: 0 <= i < |pieces| ==> DrawOf(pieces[i]).Ok?
  {
    ParseGameAccepts(line, digits, body);
    CollectSpec(Split(body, ';'), DrawOf);
  }

  lemma {:induction false} DigitRunAtColon(digits: string, body: string)
    requires AllDigits(digits)
    ensures DigitRun(digits + ": " + body) == |digits|
    decreases |digits|
  {
    if digits != [] {
      assert (digits + ": " + body)[1..] == digits[1..] + ": " + body;
      DigitRunAtColon(digits[1..], body);
    }
  }

  lemma {:induction false} ToLineEndNoNewline(s: string)
    requires '\n' !in s
    ensures ToLineEnd(s) == s
  {
    if s != [] {
      ToLineEndNoNewline(s[1..]);
    }
  }

  /** The limit for colour `c` among the arguments `(red, green, blue)` of `possible`. */
  function Limit(c: Colour, red: nat, green: nat, blue: nat): nat {
    match c
    case Red => red
    case Green => green
    case Blue => blue
  }

  /** `Draw::possible(red, green, blue)`: the arguments come in the order red, green, blue,
      the fields in the order red, blue, green; each colour is held to its own limit. */
  predicate DrawPossible(d: Draw, red: nat, green: nat, blue: nat)
    ensures DrawPossible(d, red, green, blue) <==> forall c: Colour :: Count(d, c) <= Limit(c, red, green, blue)
  {
    assert Count(d, Red) == d.numRed && Count(d, Green) == d.numGreen && Count(d, Blue) == d.numBlue;
    d.numRed <= red && d.numBlue <= blue && d.numGreen <= green
  }

  /** `Game::possible(red, green, blue)`: every draw is possible, so a game without draws is
      possible and a single draw over a limit makes it impossible. */
  predicate GamePossible(g: Game, red: nat, green: nat, blue: nat)
    ensures GamePossible(g, red, green, blue) <==>
      forall i, c: Colour :: 0 <= i < |g.draws| ==> Count(g.draws[i], c) <= Limit(c, red, green, blue)
  {
    forall i :: 0 <= i < |g.draws| ==> DrawPossible(g.draws[i], red, green, blue)
  }

  /** Raising a limit never makes a possible game impossible. */
  lemma GamePossibleMonotone(g: Game, red: nat, green: nat, blue: nat, red': nat, green': nat, blue': nat)
    requires GamePossible(g, red, green, blue)
    requires red <= red' && green <= green' && blue <= blue'
    ensures GamePossible(g, red', green', blue')
  {
  }

  /** `Game::min_cubes`: each colour's maximum over all draws, 0 when there are none;
      these are the least limits under which the game is possible. */
  method MinCubes(g: Game) returns (m: Draw)
    ensures forall i :: 0 <= i < |g.draws| ==>
      g.draws[i].numRed <= m.numRed && g.draws[i].numBlue <= m.numBlue && g.draws[i].numGreen <= m.numGreen
    ensures m.numRed == 0 || exists i :: 0 <= i < |g.draws| && g.draws[i].numRed == m.numRed
    ensures m.numBlue == 0 || exists i :: 0 <= i < |g.draws| && g.draws[i].numBlue == m.numBlue
    ensures m.numGreen == 0 || exists i :: 0 <= i < |g.draws| && g.draws[i].numGreen == m.numGreen
    ensures GamePossible(g, m.numRed, m.numGreen, m.numBlue)
    ensures forall red: nat, green: nat, blue: nat :: GamePossible(g, red, green, blue) <==>
      m.numRed <= red && m.numGreen <= green && m.numBlue <= blue
  {
    m := Draw(0, 0, 0);
    for k := 0 to |g.draws|
      invariant forall i :: 0 <= i < k ==>
        g.draws[i].numRed <= m.numRed && g.draws[i].numBlue <= m.numBlue && g.draws[i].numGreen <= m.numGreen
      invariant m.numRed == 0 || exists i :: 0 <= i < k && g.draws[i].numRed == m.numRed
      invariant m.numBlue == 0 || exists i :: 0 <= i < k && g.draws[i].numBlue == m.numBlue
      invariant m.numGreen == 0 || exists i :: 0 <= i < k && g.draws[i].numGreen == m.numGreen
    {
      var draw := g.draws[k];
      if draw.numRed > m.numRed {
        m := m.(numRed := draw.numRed);
      }
      if draw.numBlue > m.numBlue {
        m := m.(numBlue := draw.numBlue);
      }
      if draw.numGreen > m.numGreen {
        m := m.(numGreen := draw.numGreen);
      }
    }
  }
}
