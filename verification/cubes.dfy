/** Day 2: a game record reads `Game <id>: <round>; <round>; ...`, where
    each round is a comma-separated list of `<count> <colour>` pairs drawn
    from red, green and blue. Any malformed part makes the whole record fail. */
module Cubes {
  import opened Wrappers
  import opened Text

  datatype Colour = Red | Green | Blue

  /** The name of a colour as it is written in a record. */
  function Name(c: Colour): string {
    match c
    case Red => "red"
    case Green => "green"
    case Blue => "blue"
  }

  /** The colour a name denotes; names are matched exactly, case included. */
  function ColourOf(name: string): (r: Option<Colour>)
    ensures r.Some? ==> Name(r.value) == name
    ensures r.None? ==> forall c :: Name(c) != name
  {
    if name == "red" then Some(Red)
    else if name == "green" then Some(Green)
    else if name == "blue" then Some(Blue)
    else None
  }

  /** The cubes of each colour shown in one round. */
  datatype Round = Round(red: U16, green: U16, blue: U16) {

    function Count(c: Colour): U16 {
      match c
      case Red => red
      case Green => green
      case Blue => blue
    }

    /** The round with the count of colour `c` replaced by `n`. */
    function With(c: Colour, n: U16): (r: Round)
      ensures r.Count(c) == n
      ensures forall d :: d != c ==> r.Count(d) == Count(d)
    {
      match c
      case Red => this.(red := n)
      case Green => this.(green := n)
      case Blue => this.(blue := n)
    }
  }

  /** `Round::default()`: no cubes of any colour. */
  const NoCubes := Round(0, 0, 0)

  datatype Game = Game(id: nat, rounds: seq<Round>)

  /** What can go wrong reading a record. */
  datatype ParseError =
    | MissingColon      // no ':' between header and rounds
    | HeaderTooShort    // header shorter than "Game " (a slicing panic in the source)
    | MissingGameLabel  // header does not start with "Game "
    | BadId             // the id is not a number
    | MissingSpace      // a count/colour pair without a space
    | BadCount          // the count is not a number or exceeds a u16
    | UnknownColour     // the colour is not red, green or blue
    | ReadFailed        // the line could not be read

  const GameLabel: string := "Game "

  /** The errors a header can produce. */
  predicate IdError(e: ParseError) {
    e == HeaderTooShort || e == MissingGameLabel || e == BadId
  }

  /** The errors a round can produce. */
  predicate RoundError(e: ParseError) {
    e == MissingSpace || e == UnknownColour || e == BadCount
  }

  /** One comma-separated piece of a round: trimmed, then split at its first
      space into a count (a `u16`) and a colour name. The colour is checked
      before the count is parsed. */
  function ParsePiece(piece: string): (r: Result<(Colour, U16), ParseError>)
    ensures r == Err(MissingSpace) <==> ' ' !in Trim(piece)
    ensures r.Err? ==> RoundError(r.error)
    ensures r.Ok? ==> exists count :: (' ' !in count && Trim(piece) == count + [' '] + Name(r.value.0)
      && ParseNat(count) == Some(r.value.1))
  {
    match SplitOnce(Trim(piece), ' ')
    case None => Err(MissingSpace)
    case Some((count, name)) =>
      match ColourOf(name)
      case None => Err(UnknownColour)
      case Some(c) =>
        match ParseBounded(count, U16Max)
        case None => Err(BadCount)
        case Some(n) =>
          var count: U16 := n;
          Ok((c, count))
  }

  /** The comma-separated pieces of a round. */
  function Pieces(segment: string): seq<string> {
    Split(segment, ',')
  }

  /** The semicolon-separated rounds of a game. */
  function Segments(body: string): seq<string> {
    Split(body, ';')
  }

  /** The pair at index `i` is the last one naming its colour. */
  predicate LastOfColour(pairs: seq<(Colour, U16)>, i: nat)
    requires i < |pairs|
  {
    forall j :: i < j < |pairs| ==> pairs[j].0 != pairs[i].0
  }

  /** The assignments of the loop over a round's pieces, in order: a colour
      not mentioned keeps its count from `acc`, and a colour mentioned more
      than once ends with the count of its last mention. */
  function Assign(acc: Round, pairs: seq<(Colour, U16)>): (r: Round)
    ensures forall c :: (forall i :: 0 <= i < |pairs| ==> pairs[i].0 != c) ==> r.Count(c) == acc.Count(c)
    ensures forall i :: 0 <= i < |pairs| && LastOfColour(pairs, i) ==> r.Count(pairs[i].0) == pairs[i].1
    decreases |pairs|
  {
    if |pairs| == 0 then acc
    else
      var r := Assign(acc.With(pairs[0].0, pairs[0].1), pairs[1..]);
      assert forall i :: 1 <= i < |pairs| && LastOfColour(pairs, i) ==> LastOfColour(pairs[1..], i - 1);
      r
  }

  /** The last assignment is applied last. */
  lemma {:induction false} AssignSnoc(acc: Round, pairs: seq<(Colour, U16)>, last: (Colour, U16))
    ensures Assign(acc, pairs + [last]) == Assign(acc, pairs).With(last.0, last.1)
    decreases |pairs|
  {
    if |pairs| > 0 {
      assert (pairs + [last])[1..] == pairs[1..] + [last];
      AssignSnoc(acc.With(pairs[0].0, pairs[0].1), pairs[1..], last);
    }
  }

  /** Each piece of a round, parsed on its own. */
  function ParsedPieces(segment: string): (r: seq<Result<(Colour, U16), ParseError>>)
    ensures |r| == |Pieces(segment)|
    ensures forall k :: 0 <= k < |r| ==> r[k] == ParsePiece(Pieces(segment)[k])
  {
    seq(|Pieces(segment)|, k requires 0 <= k < |Pieces(segment)| => ParsePiece(Pieces(segment)[k]))
  }

  /** Reference definition, reading the parsed pieces from the end: the
      count of a colour is that of the last well-formed piece naming it, or 0. */
  function LastCount(parsed: seq<Result<(Colour, U16), ParseError>>, c: Colour): nat {
    if |parsed| == 0 then 0
    else
      var p := parsed[|parsed| - 1];
      if p.Ok? && p.value.0 == c then p.value.1 else LastCount(parsed[..|parsed| - 1], c)
  }

  /** Assigning the parsed pieces in order gives, colour by colour, the
      count of the last piece naming that colour. */
  lemma {:induction false} AssignIsLastCount(parsed: seq<Result<(Colour, U16), ParseError>>, pairs: seq<(Colour, U16)>)
    requires |pairs| == |parsed|
    requires forall k :: 0 <= k < |parsed| ==> parsed[k] == Ok(pairs[k])
    ensures forall c :: Assign(NoCubes, pairs).Count(c) == LastCount(parsed, c)
    decreases |parsed|
  {
    if |parsed| > 0 {
      var n := |parsed| - 1;
      AssignIsLastCount(parsed[..n], pairs[..n]);
      assert pairs == pairs[..n] + [pairs[n]];
      AssignSnoc(NoCubes, pairs[..n], pairs[n]);
    }
  }

  /** `Round::try_from`: every comma-separated piece must parse; the round
      starts from no cubes and each piece sets its colour's count, so a
      colour ends with the count of the last piece naming it, or 0. */
  function ParseRound(segment: string): (r: Result<Round, ParseError>)
    ensures r.Ok? <==> forall k :: 0 <= k < |Pieces(segment)| ==> ParsePiece(Pieces(segment)[k]).Ok?
    ensures r.Err? ==> RoundError(r.error)
    ensures r.Ok? ==> forall c :: r.value.Count(c) == LastCount(ParsedPieces(segment), c)
    ensures r.Err? ==> exists k :: (0 <= k < |Pieces(segment)| && ParsePiece(Pieces(segment)[k]) == Err(r.error)
      && forall j :: 0 <= j < k ==> ParsePiece(Pieces(segment)[j]).Ok?)
  {
    var pairs :- Traverse(Pieces(segment), ParsePiece);
    AssignIsLastCount(ParsedPieces(segment), pairs);
    Ok(Assign(NoCubes, pairs))
  }

  /** `Game::get_game_id`: the header must start with "Game " and the rest
      must be a number. */
  function ParseGameId(header: string): (r: Result<nat, ParseError>)
    ensures |header| < |GameLabel| <==> r == Err(HeaderTooShort)
    ensures r == Err(MissingGameLabel) <==> |header| >= |GameLabel| && header[..|GameLabel|] != GameLabel
    ensures r == Err(BadId) <==>
      |header| >= |GameLabel| && header[..|GameLabel|] == GameLabel && ParseNat(header[|GameLabel|..]).None?
    ensures r.Err? ==> IdError(r.error)
    ensures r.Ok? ==> header == GameLabel + header[|GameLabel|..] && ParseNat(header[|GameLabel|..]) == Some(r.value)
  {
    if |header| < |GameLabel| then Err(HeaderTooShort)
    else if header[..|GameLabel|] != GameLabel then Err(MissingGameLabel)
    else match ParseNat(header[|GameLabel|..])
      case None => Err(BadId)
      case Some(id) => Ok(id)
  }

  /** A header made of the label and a number parses to that number; made
      of the label and anything else, it fails with `BadId`. */
  lemma LabelledId(rest: string)
    ensures ParseNat(rest).Some? ==> ParseGameId(GameLabel + rest) == Ok(ParseNat(rest).value)
    ensures ParseNat(rest).None? ==> ParseGameId(GameLabel + rest) == Err(BadId)
  {
    var header := GameLabel + rest;
    assert header[..|GameLabel|] == GameLabel;
    assert header[|GameLabel|..] == rest;
  }

  /** `Game::get_rounds`: one round per ';'-separated segment, in order, or
      the error of the first segment that fails. */
  function GetRounds(body: string): (r: Result<seq<Round>, ParseError>)
    ensures r.Ok? <==> forall k :: 0 <= k < |Segments(body)| ==> ParseRound(Segments(body)[k]).Ok?
    ensures r.Err? ==> RoundError(r.error)
    ensures r.Ok? ==> |r.value| == |Segments(body)|
    ensures r.Ok? ==> forall k :: 0 <= k < |r.value| ==> ParseRound(Segments(body)[k]) == Ok(r.value[k])
    ensures r.Err? ==> exists k :: (0 <= k < |Segments(body)| && ParseRound(Segments(body)[k]) == Err(r.error)
      && forall j :: 0 <= j < k ==> ParseRound(Segments(body)[j]).Ok?)
  {
    Traverse(Segments(body), ParseRound)
  }

  /** `Game::try_from`: split at the first ':' into a header and the rounds. */
  function ParseGame(line: string): (r: Result<Game, ParseError>)
    ensures r == Err(MissingColon) <==> ':' !in line
    ensures r.Err? ==> r.error == MissingColon || IdError(r.error) || RoundError(r.error)
    ensures r.Ok? ==> exists header, body :: (SplitsAt(line, header, body)
      && ParseGameId(header) == Ok(r.value.id) && GetRounds(body) == Ok(r.value.rounds))
  {
    match SplitOnce(line, ':')
    case None => Err(MissingColon)
    case Some((header, body)) =>
      assert ':' in line by { assert line[|header|] == ':'; }
      assert SplitsAt(line, header, body);
      var g := GameOf(header, body);
      assert g.Err? ==> IdError(g.error) || RoundError(g.error);
      assert g != Err(MissingColon);
      g
  }

  /** The game of a header and a body: the header's error, else the
      rounds' error, else the game. */
  function GameOf(header: string, body: string): (r: Result<Game, ParseError>)
    ensures r.Err? ==> IdError(r.error) || RoundError(r.error)
    ensures r.Ok? ==> ParseGameId(header) == Ok(r.value.id) && GetRounds(body) == Ok(r.value.rounds)
  {
    match ParseGameId(header)
    case Err(e) => Err(e)
    case Ok(id) =>
      match GetRounds(body)
      case Err(e) => assert RoundError(e); Err(e)
      case Ok(rounds) => Ok(Game(id, rounds))
  }

  /** Whatever the split of a record at its first ':', the record fails with
      the header's error, else with the rounds' error, else it is the game
      of the header's id and the body's rounds. */
  lemma ParseGameAt(line: string, header: string, body: string)
    requires SplitsAt(line, header, body)
    ensures ParseGameId(header).Err? ==> ParseGame(line) == Err(ParseGameId(header).error)
    ensures ParseGameId(header).Ok? && GetRounds(body).Err? ==> ParseGame(line) == Err(GetRounds(body).error)
    ensures ParseGameId(header).Ok? && GetRounds(body).Ok? ==>
      ParseGame(line) == Ok(Game(ParseGameId(header).value, GetRounds(body).value))
  {
    SplitOnceAt(header, ':', body);
  }

  /** `line` is `header`, a ':', and `body`, with no ':' in `header`. */
  predicate SplitsAt(line: string, header: string, body: string) {
    ':' !in header && line == header + [':'] + body
  }

  /** One line of the input, which may have failed to read. */
  function ParseLine(line: Result<string, IoError>): (r: Result<Game, ParseError>)
    ensures r == Err(ReadFailed) <==> line.Err?
    ensures line.Ok? ==> r == ParseGame(line.value)
  {
    match line
    case Err(_) => Err(ReadFailed)
    case Ok(l) =>
      var g := ParseGame(l);
      assert g.Err? ==> g.error == MissingColon || IdError(g.error) || RoundError(g.error);
      assert g != Err(ReadFailed);
      g
  }

  /** `get_games`: every line parsed in order; the first unreadable or
      malformed line makes the whole result that line's error. */
  function GetGames(lines: seq<Result<string, IoError>>): (r: Result<seq<Game>, ParseError>)
    ensures r.Ok? <==> forall k :: 0 <= k < |lines| ==> ParseLine(lines[k]).Ok?
    ensures r.Ok? <==> forall k :: 0 <= k < |lines| ==> lines[k].Ok? && ParseGame(lines[k].value).Ok?
    ensures r.Ok? ==> |r.value| == |lines| && forall k :: 0 <= k < |lines| ==> ParseLine(lines[k]) == Ok(r.value[k])
    ensures r.Err? ==> exists k :: (0 <= k < |lines| && ParseLine(lines[k]) == Err(r.error)
      && forall j :: 0 <= j < k ==> ParseLine(lines[j]).Ok?)
  {
    Traverse(lines, ParseLine)
  }

  // Rendering records, the partner of parsing.

  /** `" <count> <colour>"`, a piece as it follows a ':', ';' or ','. */
  function ShowPiece(pair: (Colour, U16)): string {
    [' '] + Show(pair.1) + [' '] + Name(pair.0)
  }

  function ShowRound(pairs: seq<(Colour, U16)>): string {
    Join(seq(|pairs|, j requires 0 <= j < |pairs| => ShowPiece(pairs[j])), ',')
  }

  /** A record with the given id whose rounds list the given pieces. */
  function ShowGame(id: nat, rounds: seq<seq<(Colour, U16)>>): string {
    GameLabel + Show(id) + [':'] + Join(seq(|rounds|, k requires 0 <= k < |rounds| => ShowRound(rounds[k])), ';')
  }

  /** A rendered piece has no separator in it. */
  lemma ShowPieceClean(pair: (Colour, U16))
    ensures ',' !in ShowPiece(pair) && ';' !in ShowPiece(pair)
  {
    var digits := Show(pair.1);
    assert forall k :: 0 <= k < |digits| ==> IsAsciiDigit(digits[k]);
  }

  /** A colour name is a non-empty run of lower-case letters. */
  lemma NameShape(c: Colour)
    ensures |Name(c)| >= 1 && forall k :: 0 <= k < |Name(c)| ==> 'a' <= Name(c)[k] <= 'z'
  {
  }

  /** Trimming a rendered piece drops exactly its leading space. */
  lemma TrimPiece(pair: (Colour, U16))
    ensures Trim(ShowPiece(pair)) == Show(pair.1) + [' '] + Name(pair.0)
  {
    NameShape(pair.0);
    TrimPadded(Show(pair.1), Name(pair.0));
  }

  /** A space, digits, a space and a word trim to the digits, the space and the word. */
  lemma TrimPadded(digits: string, name: string)
    requires |digits| >= 1 && IsAsciiDigit(digits[0])
    requires |name| >= 1 && 'a' <= name[|name| - 1] <= 'z'
    ensures Trim([' '] + digits + [' '] + name) == digits + [' '] + name
  {
    var t := PaddedShape(digits, name);
    TrimSpaced(t);
  }

  /** The unpadded piece starts and ends with a character that is not whitespace. */
  lemma PaddedShape(digits: string, name: string) returns (t: string)
    requires |digits| >= 1 && IsAsciiDigit(digits[0])
    requires |name| >= 1 && 'a' <= name[|name| - 1] <= 'z'
    ensures t == digits + [' '] + name && [' '] + digits + [' '] + name == [' '] + t
    ensures !IsWhitespace(t[0]) && !IsWhitespace(t[|t| - 1])
  {
    t := digits + [' '] + name;
    assert t[0] == digits[0];
    assert t[|t| - 1] == name[|name| - 1];
  }

  /** A rendered piece parses back to the pair it shows. */
  lemma PieceRoundTrip(pair: (Colour, U16))
    ensures ParsePiece(ShowPiece(pair)) == Ok(pair)
  {
    var digits, name := Show(pair.1), Name(pair.0);
    TrimPiece(pair);
    assert ' ' !in digits by {
      assert forall k :: 0 <= k < |digits| ==> IsAsciiDigit(digits[k]);
    }
    ParseShow(pair.1);
    assert ColourOf(name) == Some(pair.0);
    ParsedPiece(ShowPiece(pair), digits, name, pair.0, pair.1);
  }

  /** A piece that trims to a count without spaces, a space and a colour
      name parses to that colour and count. */
  lemma ParsedPiece(piece: string, digits: string, name: string, c: Colour, n: U16)
    requires Trim(piece) == digits + [' '] + name && ' ' !in digits
    requires ColourOf(name) == Some(c) && ParseNat(digits) == Some(n)
    ensures ParsePiece(piece) == Ok((c, n))
  {
    SplitOnceAt(digits, ' ', name);
  }

  /** A piece that trims to a count without spaces, a space and a name fails
      with `UnknownColour` when the name is no colour, whatever the count;
      with a colour name, it fails with `BadCount` when the count is not a
      number up to 65535. */
  lemma PieceErrors(piece: string, count: string, name: string)
    requires Trim(piece) == count + [' '] + name && ' ' !in count
    ensures ColourOf(name).None? ==> ParsePiece(piece) == Err(UnknownColour)
    ensures ColourOf(name).Some? && ParseBounded(count, U16Max).None? ==> ParsePiece(piece) == Err(BadCount)
  {
    SplitOnceAt(count, ' ', name);
  }

  /** Every element mapped to `Ok`: the traversal is `Ok` of exactly those values. */
  lemma TraverseAllOk<A, B, E>(xs: seq<A>, f: A -> Result<B, E>, ys: seq<B>)
    requires |ys| == |xs|
    requires forall k :: 0 <= k < |xs| ==> f(xs[k]).Ok? && f(xs[k]).value == ys[k]
    ensures Traverse(xs, f) == Ok(ys)
  {
    assert Traverse(xs, f).value == ys;
  }

  /** A round rendered from at least one piece parses back to the counts
      its pieces assign. */
  lemma RoundRoundTrip(pairs: seq<(Colour, U16)>)
    requires |pairs| >= 1
    ensures ParseRound(ShowRound(pairs)) == Ok(Assign(NoCubes, pairs))
  {
    var shown := seq(|pairs|, j requires 0 <= j < |pairs| => ShowPiece(pairs[j]));
    forall j | 0 <= j < |pairs|
      ensures ',' !in shown[j] && ParsePiece(shown[j]) == Ok(pairs[j])
    {
      ShowPieceClean(pairs[j]);
      PieceRoundTrip(pairs[j]);
    }
    SplitJoin(shown, ',');
    TraverseAllOk(shown, ParsePiece, pairs);
  }

  /** A rendered round contains no ';'. */
  lemma ShowRoundClean(pairs: seq<(Colour, U16)>)
    ensures ';' !in ShowRound(pairs)
  {
    var shown := seq(|pairs|, j requires 0 <= j < |pairs| => ShowPiece(pairs[j]));
    forall j | 0 <= j < |pairs|
      ensures ';' !in shown[j]
    {
      ShowPieceClean(pairs[j]);
    }
    JoinClean(shown, ',', ';');
  }

  /** Joining pieces free of `x` with a separator other than `x` gives text free of `x`. */
  lemma {:induction false} JoinClean(pieces: seq<string>, sep: char, x: char)
    requires sep != x
    requires forall k :: 0 <= k < |pieces| ==> x !in pieces[k]
    ensures x !in Join(pieces, sep)
    decreases |pieces|
  {
    if |pieces| > 1 {
      JoinClean(pieces[1..], sep, x);
    }
  }

  /** The rendered header parses back to its id. */
  lemma HeaderRoundTrip(id: nat)
    ensures ':' !in GameLabel + Show(id)
    ensures ParseGameId(GameLabel + Show(id)) == Ok(id)
  {
    var header, digits := GameLabel + Show(id), Show(id);
    assert forall k :: 0 <= k < |digits| ==> IsAsciiDigit(digits[k]);
    assert header[|GameLabel|..] == digits;
    assert header[..|GameLabel|] == GameLabel;
    ParseShow(id);
  }

  /** The rendered rounds parse back, round by round, to the counts their
      pieces assign. */
  lemma RoundsRoundTrip(rounds: seq<seq<(Colour, U16)>>)
    requires |rounds| >= 1
    requires forall k :: 0 <= k < |rounds| ==> |rounds[k]| >= 1
    ensures GetRounds(Join(seq(|rounds|, k requires 0 <= k < |rounds| => ShowRound(rounds[k])), ';'))
      == Ok(seq(|rounds|, k requires 0 <= k < |rounds| => Assign(NoCubes, rounds[k])))
  {
    var shown := seq(|rounds|, k requires 0 <= k < |rounds| => ShowRound(rounds[k]));
    var tallies := seq(|rounds|, k requires 0 <= k < |rounds| => Assign(NoCubes, rounds[k]));
    forall k | 0 <= k < |rounds|
      ensures ';' !in shown[k] && ParseRound(shown[k]) == Ok(tallies[k])
    {
      ShowRoundClean(rounds[k]);
      RoundRoundTrip(rounds[k]);
    }
    SplitJoin(shown, ';');
    TraverseAllOk(shown, ParseRound, tallies);
  }

  /** A record rendered with at least one round, each of at least one piece,
      parses back to its id and, round by round, the counts its pieces assign. */
  lemma GameRoundTrip(id: nat, rounds: seq<seq<(Colour, U16)>>)
    requires |rounds| >= 1
    requires forall k :: 0 <= k < |rounds| ==> |rounds[k]| >= 1
    ensures ParseGame(ShowGame(id, rounds))
      == Ok(Game(id, seq(|rounds|, k requires 0 <= k < |rounds| => Assign(NoCubes, rounds[k]))))
  {
    var header := GameLabel + Show(id);
    var body := Join(seq(|rounds|, k requires 0 <= k < |rounds| => ShowRound(rounds[k])), ';');
    HeaderRoundTrip(id);
    RoundsRoundTrip(rounds);
    assert ShowGame(id, rounds) == header + [':'] + body;
    SplitOnceAt(header, ':', body);
  }

  /** The record of the unit test: game 1 with rounds (red, green, blue)
      = (4, 0, 3), (1, 2, 6) and (0, 2, 0). */
  lemma GameExample()
    ensures ParseGame("Game 1: 3 blue, 4 red; 1 red, 2 green, 6 blue; 2 green")
      == Ok(Game(1, [Round(4, 0, 3), Round(1, 2, 6), Round(0, 2, 0)]))
  {
    var rounds: seq<seq<(Colour, U16)>> := [[(Blue, 3), (Red, 4)], [(Red, 1), (Green, 2), (Blue, 6)], [(Green, 2)]];
    GameRoundTrip(1, rounds);
    ExampleText("Game 1: 3 blue, 4 red; 1 red, 2 green, 6 blue; 2 green", rounds);
    ExampleTallies(rounds);
  }

  /** The example record is the rendering of its pieces. */
  lemma ExampleText(line: string, rounds: seq<seq<(Colour, U16)>>)
    requires line == "Game 1: 3 blue, 4 red; 1 red, 2 green, 6 blue; 2 green"
    requires rounds == [[(Blue, 3), (Red, 4)], [(Red, 1), (Green, 2), (Blue, 6)], [(Green, 2)]]
    ensures line == ShowGame(1, rounds)
  {
    var r0, r1, r2 := ExampleRounds(rounds);
    var shown := seq(|rounds|, k requires 0 <= k < |rounds| => ShowRound(rounds[k]));
    assert shown == [r0, r1, r2];
    JoinTriple(r0, r1, r2, ';');
    assert GameLabel + Show(1) + [':'] == "Game 1:";
    ExampleLine(line);
  }

  /** The example's rounds, rendered one by one. */
  lemma ExampleRounds(rounds: seq<seq<(Colour, U16)>>) returns (r0: string, r1: string, r2: string)
    requires rounds == [[(Blue, 3), (Red, 4)], [(Red, 1), (Green, 2), (Blue, 6)], [(Green, 2)]]
    ensures r0 == ShowRound(rounds[0]) && r0 == " 3 blue, 4 red"
    ensures r1 == ShowRound(rounds[1]) && r1 == " 1 red, 2 green, 6 blue"
    ensures r2 == ShowRound(rounds[2]) && r2 == " 2 green"
  {
    r0, r1, r2 := ShowRound(rounds[0]), ShowRound(rounds[1]), ShowRound(rounds[2]);
    ExampleRound0(rounds[0]);
    ExampleRound1(rounds[1]);
    ExampleRound2(rounds[2]);
  }

  lemma ExampleRound0(pairs: seq<(Colour, U16)>)
    requires pairs == [(Blue, 3), (Red, 4)]
    ensures ShowRound(pairs) == " 3 blue, 4 red"
  {
    ShowTwo((Blue, 3), (Red, 4));
    DigitPiece(Blue, 3);
    DigitPiece(Red, 4);
  }

  lemma ExampleRound1(pairs: seq<(Colour, U16)>)
    requires pairs == [(Red, 1), (Green, 2), (Blue, 6)]
    ensures ShowRound(pairs) == " 1 red, 2 green, 6 blue"
  {
    ShowThree((Red, 1), (Green, 2), (Blue, 6));
    assert ShowPiece((Red, 1)) == " 1 red" by { DigitPiece(Red, 1); }
    assert ShowPiece((Green, 2)) == " 2 green" by { DigitPiece(Green, 2); }
    assert ShowPiece((Blue, 6)) == " 6 blue" by { DigitPiece(Blue, 6); }
    Round1Text(ShowPiece((Red, 1)), ShowPiece((Green, 2)), ShowPiece((Blue, 6)));
  }

  lemma Round1Text(x: string, y: string, z: string)
    requires x == " 1 red" && y == " 2 green" && z == " 6 blue"
    ensures x + [','] + y + [','] + z == " 1 red, 2 green, 6 blue"
  {
  }

  lemma ExampleRound2(pairs: seq<(Colour, U16)>)
    requires pairs == [(Green, 2)]
    ensures ShowRound(pairs) == " 2 green"
  {
    assert pairs[0] == (Green, 2);
    ShowOne(pairs[0]);
    DigitPiece(Green, 2);
  }

  /** A piece with a one-digit count. */
  lemma DigitPiece(c: Colour, n: U16)
    requires n < 10
    ensures ShowPiece((c, n)) == [' ', DigitChar(n), ' '] + Name(c)
  {
    assert Show(n) == [DigitChar(n)];
  }

  lemma ShowOne(a: (Colour, U16))
    ensures ShowRound([a]) == ShowPiece(a)
  {
    assert seq(1, j requires 0 <= j < 1 => ShowPiece([a][j])) == [ShowPiece(a)];
  }

  lemma ShowTwo(a: (Colour, U16), b: (Colour, U16))
    ensures ShowRound([a, b]) == ShowPiece(a) + [','] + ShowPiece(b)
  {
    assert seq(2, j requires 0 <= j < 2 => ShowPiece([a, b][j])) == [ShowPiece(a), ShowPiece(b)];
    JoinPair(ShowPiece(a), ShowPiece(b), ',');
  }

  lemma ShowThree(a: (Colour, U16), b: (Colour, U16), c: (Colour, U16))
    ensures ShowRound([a, b, c]) == ShowPiece(a) + [','] + ShowPiece(b) + [','] + ShowPiece(c)
  {
    assert seq(3, j requires 0 <= j < 3 => ShowPiece([a, b, c][j])) == [ShowPiece(a), ShowPiece(b), ShowPiece(c)];
    JoinTriple(ShowPiece(a), ShowPiece(b), ShowPiece(c), ',');
  }

  /** The example record, cut at its separators. */
  lemma ExampleLine(line: string)
    requires line == "Game 1: 3 blue, 4 red; 1 red, 2 green, 6 blue; 2 green"
    ensures line == "Game 1:" + (" 3 blue, 4 red" + [';'] + " 1 red, 2 green, 6 blue" + [';'] + " 2 green")
  {
    ExampleHalves(line);
    ExampleHead("Game 1: 3 blue, 4 red;");
    ExampleTail(" 1 red, 2 green, 6 blue; 2 green");
    Regroup(line, "Game 1: 3 blue, 4 red;", " 1 red, 2 green, 6 blue; 2 green",
      "Game 1:", " 3 blue, 4 red", " 1 red, 2 green, 6 blue", " 2 green", ';');
  }

  lemma ExampleHalves(line: string)
    requires line == "Game 1: 3 blue, 4 red; 1 red, 2 green, 6 blue; 2 green"
    ensures line == "Game 1: 3 blue, 4 red;" + " 1 red, 2 green, 6 blue; 2 green"
  {
  }

  lemma ExampleHead(s: string)
    requires s == "Game 1: 3 blue, 4 red;"
    ensures s == "Game 1:" + " 3 blue, 4 red" + [';']
  {
    assert s == "Game 1:" + " 3 blue, 4 red;";
    assert " 3 blue, 4 red;" == " 3 blue, 4 red" + [';'];
  }

  lemma ExampleTail(s: string)
    requires s == " 1 red, 2 green, 6 blue; 2 green"
    ensures s == " 1 red, 2 green, 6 blue" + [';'] + " 2 green"
  {
    assert s == " 1 red, 2 green, 6 blue;" + " 2 green";
    assert " 1 red, 2 green, 6 blue;" == " 1 red, 2 green, 6 blue" + [';'];
  }

  lemma Regroup(line: string, p: string, q: string, g: string, a: string, b: string, c: string, sep: char)
    requires line == p + q && p == g + a + [sep] && q == b + [sep] + c
    ensures line == g + (a + [sep] + b + [sep] + c)
  {
  }

  lemma JoinPair(a: string, b: string, sep: char)
    ensures Join([a, b], sep) == a + [sep] + b
  {
    assert [a, b][1..] == [b];
  }

  lemma JoinTriple(a: string, b: string, c: string, sep: char)
    ensures Join([a, b, c], sep) == a + [sep] + b + [sep] + c
  {
    assert [a, b, c][1..] == [b, c];
    JoinPair(b, c, sep);
  }

  /** The counts the example's pieces assign. */
  lemma ExampleTallies(rounds: seq<seq<(Colour, U16)>>)
    requires rounds == [[(Blue, 3), (Red, 4)], [(Red, 1), (Green, 2), (Blue, 6)], [(Green, 2)]]
    ensures seq(|rounds|, k requires 0 <= k < |rounds| => Assign(NoCubes, rounds[k]))
      == [Round(4, 0, 3), Round(1, 2, 6), Round(0, 2, 0)]
  {
    assert Assign(NoCubes, rounds[0]) == Round(4, 0, 3) by {
      AssignTwo(NoCubes, (Blue, 3), (Red, 4));
    }
    assert Assign(NoCubes, rounds[1]) == Round(1, 2, 6) by {
      AssignThree(NoCubes, (Red, 1), (Green, 2), (Blue, 6));
    }
    assert Assign(NoCubes, rounds[2]) == Round(0, 2, 0) by {
      AssignOne(NoCubes, (Green, 2));
    }
  }

  lemma AssignOne(acc: Round, a: (Colour, U16))
    ensures Assign(acc, [a]) == acc.With(a.0, a.1)
  {
    assert [a][1..] == [];
  }

  lemma AssignTwo(acc: Round, a: (Colour, U16), b: (Colour, U16))
    ensures Assign(acc, [a, b]) == acc.With(a.0, a.1).With(b.0, b.1)
  {
    assert [a, b][1..] == [b];
    AssignOne(acc.With(a.0, a.1), b);
  }

  lemma AssignThree(acc: Round, a: (Colour, U16), b: (Colour, U16), c: (Colour, U16))
    ensures Assign(acc, [a, b, c]) == acc.With(a.0, a.1).With(b.0, b.1).With(c.0, c.1)
  {
    assert [a, b, c][1..] == [b, c];
    AssignTwo(acc.With(a.0, a.1), b, c);
  }
}
