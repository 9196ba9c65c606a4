/** Day 2, "Cube Conundrum": games of draws of red, green and blue cubes. */
module Day02 {
  import opened Wrappers
  import Seqs
  import Text
  import Numbers

  /** One draw: how many cubes of each colour were shown (the `Game` struct). */
  datatype Draw = Draw(red: int, blue: int, green: int)

  /** One "<count> <colour>" mention inside a draw, already split and parsed. */
  datatype Mention = Mention(count: int, color: string)

  predicate KnownColor(c: string) {
    c == "red" || c == "blue" || c == "green"
  }

  /** The count of the last mention of colour `c`, or 0 when it is never mentioned. */
  function LastCount(ms: seq<Mention>, c: string): int {
    if ms == [] then 0
    else if ms[|ms| - 1].color == c then ms[|ms| - 1].count
    else LastCount(ms[..|ms| - 1], c)
  }

  /** `parse_game`: a left fold over the mentions starting from the all-zero
      draw, each mention overwriting its colour; an unknown colour panics. */
  function ParseGame(ms: seq<Mention>): (r: Result<Draw>)
    ensures r.Ok? <==> forall i | 0 <= i < |ms| :: KnownColor(ms[i].color)
    ensures r.Ok? ==> r.value == Draw(LastCount(ms, "red"), LastCount(ms, "blue"), LastCount(ms, "green"))
    decreases |ms|
  {
    if ms == [] then Ok(Draw(0, 0, 0))
    else
      match ParseGame(ms[..|ms| - 1])
      case Err(e) => Err(e)
      case Ok(g) =>
        var m := ms[|ms| - 1];
        if m.color == "red" then Ok(g.(red := m.count))
        else if m.color == "blue" then Ok(g.(blue := m.count))
        else if m.color == "green" then Ok(g.(green := m.count))
        else Err("Unknown color " + m.color)
  }

  /** The bound of the `i64` counts and game ids. */
  const I64: nat := 0x8000_0000_0000_0000

  predicate InI64(v: int) {
    -(I64 as int) <= v < I64
  }

  /** One "<count> <colour>" piece of a draw: `split_once(' ').unwrap()`
      and the count's `i64` `parse().unwrap()`; None is either panic. */
  function ParseMention(s: string): (r: Option<Mention>)
    ensures ' ' !in s ==> r.None?
    ensures r.Some? ==> InI64(r.value.count)
    ensures r.Some? ==> |r.value.color| < |s| && s[|s| - |r.value.color|..] == r.value.color
  {
    match Text.SplitOnce(s, ' ')
    case None => None
    case Some((count, color)) =>
      assert s[|s| - |color|..] == color;
      match Numbers.ParseSigned(count, I64)
      case None => None
      case Some(n) => Some(Mention(n, color))
  }

  /** `parse_game` on the text of one draw: the pieces between ", " are
      parsed and folded by ParseGame; None is the panic of a malformed
      piece or an unknown colour. */
  function ParseDraw(s: string): Option<Draw> {
    var ms := Seqs.Collect(Text.SplitStr(s, ", "), ParseMention);
    if ms.None? then None
    else
      var g := ParseGame(ms.value);
      if g.Err? then None else Some(g.value)
  }

  /** One line of `parse_input`: `split_once(": ")`, `strip_prefix("Game ")`
      and the id's `i64` parse, then the draws between "; ". Every failing
      `unwrap` and every panic of `parse_game` is None. */
  function ParseLine(line: string): (r: Option<Game>)
    ensures (forall i: nat :: !Text.At(line, ": ", i)) ==> r.None?
    ensures (|line| < 5 || line[..5] != "Game ") ==> r.None?
    ensures r.Some? ==> InI64(r.value.0) && r.value.1 != []
  {
    match Text.SplitOnceStr(line, ": ")
    case None => None
    case Some((gamenum, gamesstr)) =>
      if |gamenum| < 5 || gamenum[..5] != "Game " then None
      else
        assert line[..5] == gamenum[..5];
        match Numbers.ParseSigned(gamenum[5..], I64)
        case None => None
        case Some(id) =>
          var draws := Seqs.Collect(Text.SplitStr(gamesstr, "; "), ParseDraw);
          if draws.None? then None else Some((id, draws.value))
  }

  /** `parse_input` on the lines of the file: one game per line, or the
      panic of the first line that does not parse. */
  function ParseInput(lines: seq<string>): (r: Option<seq<Game>>)
    ensures r.Some? <==> forall i | 0 <= i < |lines| :: ParseLine(lines[i]).Some?
    ensures r.Some? ==> |r.value| == |lines| && forall i | 0 <= i < |lines| :: ParseLine(lines[i]) == Some(r.value[i])
  {
    Seqs.Collect(lines, ParseLine)
  }

  /** A mention written as the input writes it. */
  function MentionText(m: Mention): string {
    Numbers.SignedDigits(m.count) + " " + m.color
  }

  /** A draw written as its mentions joined by ", ". */
  function DrawText(ms: seq<Mention>): string {
    if ms == [] then [] else Text.JoinStr(Seqs.Map(ms, MentionText), ", ")
  }

  /** A game line: "Game <id>: " and its draws joined by "; ". */
  function GameText(id: int, draws: seq<seq<Mention>>): string {
    "Game " + Numbers.SignedDigits(id) + ": " + (if draws == [] then [] else Text.JoinStr(Seqs.Map(draws, DrawText), "; "))
  }

  /** The draw ParseGame folds from mentions of known colours. */
  function Folded(ms: seq<Mention>): Draw {
    Draw(LastCount(ms, "red"), LastCount(ms, "blue"), LastCount(ms, "green"))
  }

  lemma SignedDigitsPlain(v: int)
    ensures ' ' !in Numbers.SignedDigits(v) && ',' !in Numbers.SignedDigits(v)
    ensures ';' !in Numbers.SignedDigits(v) && ':' !in Numbers.SignedDigits(v)
  {
    Numbers.SignedDigitsChars(v);
  }

  /** A mention with an `i64` count reads back from its text. */
  lemma MentionRoundTrip(m: Mention)
    requires InI64(m.count)
    ensures ParseMention(MentionText(m)) == Some(m)
  {
    SignedDigitsPlain(m.count);
    Text.SplitOnceAt(Numbers.SignedDigits(m.count), ' ', m.color);
    Numbers.ParseSignedDigits(m.count, I64);
  }

  /** A draw written from mentions with `i64` counts and colours without a
      comma parses as ParseGame folds the mentions: to their draw when every
      colour is known, to the panic otherwise. */
  lemma DrawRoundTrip(ms: seq<Mention>)
    requires ms != []
    requires forall i | 0 <= i < |ms| :: InI64(ms[i].count) && ',' !in ms[i].color
    ensures ParseDraw(DrawText(ms)) == (var g := ParseGame(ms); if g.Err? then None else Some(g.value))
  {
    var pieces := Seqs.Map(ms, MentionText);
    forall i | 0 <= i < |pieces| ensures ',' !in pieces[i] && ParseMention(pieces[i]) == Some(ms[i]) {
      SignedDigitsPlain(ms[i].count);
      MentionRoundTrip(ms[i]);
    }
    Text.SplitJoinStr(pieces, ", ");
    var c := Seqs.Collect(pieces, ParseMention);
    assert c.value == ms;
  }

  /** The draws of a game, written with known colours and `i64` counts,
      read back as the folded draws. */
  lemma DrawsRoundTrip(draws: seq<seq<Mention>>)
    requires draws != []
    requires forall i | 0 <= i < |draws| :: draws[i] != []
    requires forall i, j | 0 <= i < |draws| && 0 <= j < |draws[i]| :: InI64(draws[i][j].count) && KnownColor(draws[i][j].color)
    ensures Seqs.Collect(Text.SplitStr(Text.JoinStr(Seqs.Map(draws, DrawText), "; "), "; "), ParseDraw) == Some(Seqs.Map(draws, Folded))
  {
    var pieces := Seqs.Map(draws, DrawText);
    forall i | 0 <= i < |pieces| ensures ';' !in pieces[i] && ParseDraw(pieces[i]) == Some(Folded(draws[i])) {
      DrawRoundTrip(draws[i]);
      DrawTextPlain(draws[i]);
    }
    Text.SplitJoinStr(pieces, "; ");
    var c := Seqs.Collect(pieces, ParseDraw);
    assert c.value == Seqs.Map(draws, Folded);
  }

  /** A game line written from draws of known colours and `i64` numbers
      reads back as the game of the folded draws. */
  lemma GameRoundTrip(id: int, draws: seq<seq<Mention>>)
    requires InI64(id) && draws != []
    requires forall i | 0 <= i < |draws| :: draws[i] != []
    requires forall i, j | 0 <= i < |draws| && 0 <= j < |draws[i]| :: InI64(draws[i][j].count) && KnownColor(draws[i][j].color)
    ensures ParseLine(GameText(id, draws)) == Some((id, Seqs.Map(draws, Folded)))
  {
    var body := Text.JoinStr(Seqs.Map(draws, DrawText), "; ");
    var head := "Game " + Numbers.SignedDigits(id);
    SignedDigitsPlain(id);
    assert GameText(id, draws) == head + ": " + body;
    Text.SplitOnceStrAt(head, ": ", body);
    assert head[..5] == "Game " && head[5..] == Numbers.SignedDigits(id);
    Numbers.ParseSignedDigits(id, I64);
    DrawsRoundTrip(draws);
  }

  /** A draw of known colours is written without a semicolon. */
  lemma DrawTextPlain(ms: seq<Mention>)
    requires forall j | 0 <= j < |ms| :: KnownColor(ms[j].color)
    ensures ';' !in DrawText(ms)
  {
    if ms != [] {
      JoinPlain(Seqs.Map(ms, MentionText));
    }
  }

  lemma {:induction false} JoinPlain(parts: seq<string>)
    requires parts != []
    requires forall i | 0 <= i < |parts| :: ';' !in parts[i]
    ensures ';' !in Text.JoinStr(parts, ", ")
    decreases |parts|
  {
    if |parts| > 1 {
      JoinPlain(parts[1..]);
    }
  }

  /** The bag of 12 red, 13 green and 14 blue cubes of the first puzzle. */
  const Limit := Draw(12, 14, 13)

  predicate Within(d: Draw) {
    d.red <= Limit.red && d.green <= Limit.green && d.blue <= Limit.blue
  }

  predicate Possible(draws: seq<Draw>) {
    forall i | 0 <= i < |draws| :: Within(draws[i])
  }

  /** A game: its id and its draws. */
  type Game = (int, seq<Draw>)

  /** The contribution of one game to the first answer. */
  function IdIfPossible(g: Game): int {
    if Possible(g.1) then g.0 else 0
  }

  /** `puzzle1`: the sum of the ids of the possible games, folded left to right. */
  function Puzzle1(games: seq<Game>): (r: int)
    ensures (forall i | 0 <= i < |games| :: !Possible(games[i].1)) ==> r == 0
    ensures (forall i | 0 <= i < |games| :: games[i].0 >= 0) ==> 0 <= r
    decreases |games|
  {
    if games == [] then 0 else Puzzle1(games[..|games| - 1]) + IdIfPossible(games[|games| - 1])
  }

  /** The first answer only depends on the possible games: dropping an
      impossible game changes nothing and appending a possible one adds its id. */
  lemma {:induction false} Puzzle1Split(a: seq<Game>, b: seq<Game>)
    ensures Puzzle1(a + b) == Puzzle1(a) + Puzzle1(b)
    decreases |b|
  {
    if b == [] {
      assert a + b == a;
    } else {
      assert (a + b)[..|a + b| - 1] == a + b[..|b| - 1];
      Puzzle1Split(a, b[..|b| - 1]);
    }
  }

  function Max(a: int, b: int): int {
    if a < b then b else a
  }

  /** The per-colour maxima of `puzzle2`, each starting at 0. */
  function MaxDraw(draws: seq<Draw>): (m: Draw)
    ensures forall i | 0 <= i < |draws| ::
      draws[i].red <= m.red && draws[i].green <= m.green && draws[i].blue <= m.blue
    ensures m.red == 0 || exists i | 0 <= i < |draws| :: draws[i].red == m.red
    ensures m.green == 0 || exists i | 0 <= i < |draws| :: draws[i].green == m.green
    ensures m.blue == 0 || exists i | 0 <= i < |draws| :: draws[i].blue == m.blue
    ensures m.red >= 0 && m.green >= 0 && m.blue >= 0
    decreases |draws|
  {
    if draws == [] then Draw(0, 0, 0)
    else
      var m := MaxDraw(draws[..|draws| - 1]);
      var d := draws[|draws| - 1];
      Draw(Max(m.red, d.red), Max(m.blue, d.blue), Max(m.green, d.green))
  }

  /** The power of a game: the product of the per-colour maxima. */
  function Power(draws: seq<Draw>): (p: int)
    ensures p >= 0
  {
    var m := MaxDraw(draws);
    m.red * m.green * m.blue
  }

  /** The smallest bag the game is possible with has exactly the maxima:
      every draw fits in the bag `MaxDraw`, and a bag with fewer cubes of some
      colour than that colour's maximum misses some draw of the game. */
  lemma MaxDrawIsLeast(draws: seq<Draw>, bag: Draw)
    requires forall i | 0 <= i < |draws| ::
      draws[i].red <= bag.red && draws[i].green <= bag.green && draws[i].blue <= bag.blue
    requires bag.red >= 0 && bag.green >= 0 && bag.blue >= 0
    ensures MaxDraw(draws).red <= bag.red
    ensures MaxDraw(draws).green <= bag.green
    ensures MaxDraw(draws).blue <= bag.blue
    ensures 0 <= Power(draws) <= bag.red * bag.green * bag.blue
  {
    var m := MaxDraw(draws);
    if m.red != 0 {
      var i :| 0 <= i < |draws| && draws[i].red == m.red;
    }
    if m.green != 0 {
      var i :| 0 <= i < |draws| && draws[i].green == m.green;
    }
    if m.blue != 0 {
      var i :| 0 <= i < |draws| && draws[i].blue == m.blue;
    }
    MulMono(m.red, m.green, bag.red, bag.green);
    MulMono(m.red * m.green, m.blue, bag.red * bag.green, bag.blue);
  }

  lemma MulMono(a: int, b: int, c: int, d: int)
    requires 0 <= a <= c && 0 <= b <= d
    ensures 0 <= a * b <= c * d
  {
    assert a * b <= c * b;
    assert c * b <= c * d;
  }

  /** `puzzle2`: the sum of the powers of all games. */
  function Puzzle2(games: seq<Game>): (r: int)
    ensures r >= 0
    decreases |games|
  {
    if games == [] then 0 else Puzzle2(games[..|games| - 1]) + Power(games[|games| - 1].1)
  }

  /** The example of the puzzle statement: games 1, 2 and 5 are possible,
      and the powers sum to 2286. */
  const Example: seq<Game> := [
    (1, [Draw(4, 3, 0), Draw(1, 6, 2), Draw(0, 0, 2)]),
    (2, [Draw(0, 1, 2), Draw(1, 4, 3), Draw(0, 1, 1)]),
    (3, [Draw(20, 6, 8), Draw(4, 5, 13), Draw(1, 0, 5)]),
    (4, [Draw(3, 6, 1), Draw(6, 0, 3), Draw(14, 15, 3)]),
    (5, [Draw(6, 1, 3), Draw(1, 2, 2)])
  ]

  lemma ExamplePuzzle1()
    ensures Puzzle1(Example) == 8
  {
    var e := Example;
    assert !Possible(e[2].1) by { assert !Within(e[2].1[0]); }
    assert !Possible(e[3].1) by { assert !Within(e[3].1[2]); }
    assert Possible(e[0].1) && Possible(e[1].1) && Possible(e[4].1);
    assert e[..1][..0] == [];
    assert Puzzle1(e[..1]) == 1;
    assert e[..2][..1] == e[..1];
    assert Puzzle1(e[..2]) == 3;
    assert e[..3][..2] == e[..2];
    assert Puzzle1(e[..3]) == 3;
    assert e[..4][..3] == e[..3];
    assert Puzzle1(e[..4]) == 3;
    assert e[..4] == e[..|e| - 1];
  }

  lemma ExamplePower0()
    ensures Power(Example[0].1) == 48
  {
    MaxDrawUnique(Example[0].1, Draw(4, 6, 2), 0, 1, 1);
  }

  lemma ExamplePower1()
    ensures Power(Example[1].1) == 12
  {
    MaxDrawUnique(Example[1].1, Draw(1, 4, 3), 1, 1, 1);
  }

  lemma ExamplePower2()
    ensures Power(Example[2].1) == 1560
  {
    MaxDrawUnique(Example[2].1, Draw(20, 6, 13), 0, 1, 0);
  }

  lemma ExamplePower3()
    ensures Power(Example[3].1) == 630
  {
    MaxDrawUnique(Example[3].1, Draw(14, 15, 3), 2, 1, 2);
  }

  lemma ExamplePower4()
    ensures Power(Example[4].1) == 36
  {
    MaxDrawUnique(Example[4].1, Draw(6, 2, 3), 0, 0, 1);
  }

  /** The maxima are determined by three facts: they bound every draw, they
      are not negative, and each is 0 or attained by some draw (here the draws
      `i`, `j` and `k`). */
  lemma MaxDrawUnique(draws: seq<Draw>, m: Draw, i: nat, j: nat, k: nat)
    requires forall n | 0 <= n < |draws| ::
      draws[n].red <= m.red && draws[n].green <= m.green && draws[n].blue <= m.blue
    requires m.red >= 0 && m.green >= 0 && m.blue >= 0
    requires m.red == 0 || (i < |draws| && draws[i].red == m.red)
    requires m.green == 0 || (j < |draws| && draws[j].green == m.green)
    requires m.blue == 0 || (k < |draws| && draws[k].blue == m.blue)
    ensures MaxDraw(draws) == m
  {
    var r := MaxDraw(draws);
    if r.red != 0 {
      var n :| 0 <= n < |draws| && draws[n].red == r.red;
    }
    if r.green != 0 {
      var n :| 0 <= n < |draws| && draws[n].green == r.green;
    }
    if r.blue != 0 {
      var n :| 0 <= n < |draws| && draws[n].blue == r.blue;
    }
  }

  lemma ExamplePuzzle2()
    ensures Puzzle2(Example) == 2286
  {
    var e := Example;
    ExamplePower0(); ExamplePower1(); ExamplePower2(); ExamplePower3(); ExamplePower4();
    assert e[..1][..0] == [];
    assert Puzzle2(e[..1]) == 48;
    assert e[..2][..1] == e[..1];
    assert Puzzle2(e[..2]) == 60;
    assert e[..3][..2] == e[..2];
    assert Puzzle2(e[..3]) == 1620;
    assert e[..4][..3] == e[..3];
    assert Puzzle2(e[..4]) == 2250;
    assert e[..4] == e[..|e| - 1];
  }
}
