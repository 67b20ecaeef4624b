/**
 * The two text serialisers of the notation read back: the board description
 * parses into the board it describes, and the numbered move list, with the
 * move numbers dropped, gives back the SAN of each move.
 */
module SerialProofs {
  import opened Types
  import opened Boards
  import opened Moves
  import opened Game
  import opened Text
  import opened Notation
  import opened SanProofs

  // ---------------------------------------------------------------------
  // Board description
  // ---------------------------------------------------------------------

  /** The eight lines of a description, rank 8 first. */
  function DescriptionLines(b: Board): (lines: seq<string>)
    ensures |lines| == 8
  {
    seq(8, r requires 0 <= r < 8 => RankLine(b, r))
  }

  /** The one-character cells of a row. */
  function RowCells(b: Board, row: int): (cells: seq<string>)
    requires 0 <= row < 8
    ensures |cells| == 8
  {
    seq(8, c requires 0 <= c < 8 => [PieceChar(b[row][c])])
  }

  /**
   * A line reads: the rank digit, a colon, a space, then the eight square
   * characters at every other position, separated by spaces.
   */
  lemma RankLineLayout(b: Board, row: int)
    requires 0 <= row < 8
    ensures |RankLine(b, row)| == 18
    ensures RankLine(b, row)[0] == RankChar(row) && RankLine(b, row)[1] == ':' && RankLine(b, row)[2] == ' '
    ensures forall c | 0 <= c < 8 :: RankLine(b, row)[3 + 2 * c] == PieceChar(b[row][c])
    ensures forall c | 0 <= c < 7 :: RankLine(b, row)[4 + 2 * c] == ' '
  {
    var cells := RowCells(b, row);
    assert RankLine(b, row) == [RankChar(row), ':', ' '] + Join(cells, [' ']);
    JoinWidthLength(cells, ' ', 1);
    OffsetIsProduct(8, 1);
    forall c | 0 <= c < 8
      ensures RankLine(b, row)[3 + 2 * c] == PieceChar(b[row][c])
    {
      JoinCharAt(cells, ' ', 1, c, 0);
      OffsetIsProduct(c, 1);
    }
    forall c | 0 <= c < 7
      ensures RankLine(b, row)[4 + 2 * c] == ' '
    {
      JoinCharAt(cells, ' ', 1, c, 1);
      OffsetIsProduct(c, 1);
    }
  }

  /** No line of a description contains a line break. */
  lemma RankLineHasNoBreak(b: Board, row: int)
    requires 0 <= row < 8
    ensures '\n' !in RankLine(b, row)
  {
    var line := RankLine(b, row);
    RankLineLayout(b, row);
    forall k | 0 <= k < |line|
      ensures line[k] != '\n'
    {
      if k >= 3 && k % 2 == 1 {
        var c := (k - 3) / 2;
        assert line[3 + 2 * c] == PieceChar(b[row][c]);
      } else if k >= 4 {
        var c := (k - 4) / 2;
        assert line[4 + 2 * c] == ' ';
      }
    }
  }

  /**
   * The board a description stands for: eight lines of eighteen characters,
   * the square characters at positions 3, 5, ..., 17 of each line.
   */
  function ReadDescription(text: string): Option<Board>
  {
    var lines := Split(text, '\n');
    if |lines| == 8 && forall r | 0 <= r < 8 :: |lines[r]| == 18 then Some(BoardOfLines(lines)) else None
  }

  /** The squares of eight description lines. */
  function BoardOfLines(lines: seq<string>): Board
    requires |lines| == 8 && forall r | 0 <= r < 8 :: |lines[r]| == 18
  {
    seq(8, r requires 0 <= r < 8 => seq(8, c requires 0 <= c < 8 => CellOfChar(lines[r][3 + 2 * c])))
  }

  /** A description splits into its eight rank lines. */
  lemma DescriptionSplits(b: Board)
    ensures Split(BoardToDescription(b), '\n') == DescriptionLines(b)
  {
    var lines := DescriptionLines(b);
    forall r | 0 <= r < 8
      ensures '\n' !in lines[r]
    {
      RankLineHasNoBreak(b, r);
    }
    assert BoardToDescription(b) == Join(lines, ['\n']);
    SplitJoin(lines, '\n');
  }

  /** Reading the description of a board gives the board back. */
  lemma DescriptionRoundTrip(b: Board)
    ensures ReadDescription(BoardToDescription(b)) == Some(b)
  {
    var lines := DescriptionLines(b);
    DescriptionSplits(b);
    forall r | 0 <= r < 8
      ensures |lines[r]| == 18
    {
      RankLineLayout(b, r);
    }
    var read := BoardOfLines(lines);
    forall r | 0 <= r < 8
      ensures read[r] == b[r]
    {
      assert lines[r] == RankLine(b, r);
      RankLineLayout(b, r);
      forall c | 0 <= c < 8
        ensures read[r][c] == b[r][c]
      {
        CellOfPieceChar(b[r][c]);
      }
    }
    assert read == b;
  }

  // ---------------------------------------------------------------------
  // Move list
  // ---------------------------------------------------------------------

  /** The words of the entry for the pair at i: number and dot, white's SAN, black's SAN when there is one. */
  function PairWords(sans: seq<string>, i: nat): seq<string>
    requires i < |sans|
  {
    [NatToString(i / 2 + 1) + "."] + [sans[i]] + (if i + 1 < |sans| && sans[i + 1] != [] then [sans[i + 1]] else [])
  }

  /** The words of the entries for the pairs at i, i + 2, ... */
  function Words(sans: seq<string>, i: nat): seq<string>
    requires i % 2 == 0
    decreases |sans| - i
  {
    if i >= |sans| then [] else PairWords(sans, i) + Words(sans, i + 2)
  }

  lemma PairTextWords(sans: seq<string>, i: nat)
    requires i < |sans|
    ensures PairText(sans, i) == Join(PairWords(sans, i), " ")
  {
    var n := NatToString(i / 2 + 1) + ".";
    if i + 1 < |sans| && sans[i + 1] != [] {
      JoinCons(sans[i], [sans[i + 1]], " ");
      JoinCons(n, [sans[i]] + [sans[i + 1]], " ");
      assert PairWords(sans, i) == [n] + ([sans[i]] + [sans[i + 1]]);
    } else {
      JoinCons(n, [sans[i]], " ");
    }
  }

  /** The entries joined with spaces are the words joined with spaces. */
  lemma {:induction false} PairTextsWords(sans: seq<string>, i: nat)
    requires i % 2 == 0 && i < |sans|
    decreases |sans| - i
    ensures |Words(sans, i)| >= 1
    ensures Join(PairTexts(sans, i), " ") == Join(Words(sans, i), " ")
  {
    PairTextWords(sans, i);
    if i + 2 >= |sans| {
      assert PairTexts(sans, i) == [PairText(sans, i)];
      assert Words(sans, i) == PairWords(sans, i);
    } else {
      PairTextsWords(sans, i + 2);
      JoinCons(PairText(sans, i), PairTexts(sans, i + 2), " ");
      JoinAppend(PairWords(sans, i), Words(sans, i + 2), " ");
    }
  }

  /** Every character of `w` is a SAN character. */
  predicate AllSanChars(w: string)
  {
    forall k | 0 <= k < |w| :: SanChar(w[k])
  }

  lemma AllSanConcat(a: string, b: string)
    requires AllSanChars(a) && AllSanChars(b)
    ensures AllSanChars(a + b)
  {
  }

  lemma PieceLetterChars(k: PieceType)
    ensures AllSanChars(PieceLetter(k))
  {
  }

  lemma SquareNameChars(row: int, col: int)
    requires InBounds(row, col)
    ensures AllSanChars(SquareName(row, col))
  {
  }

  /** A rendered SAN text is a non-empty word of SAN characters. */
  lemma RenderChars(shape: SanShape, mark: Mark)
    requires WellFormed(shape)
    ensures |Render(shape, mark)| > 0 && AllSanChars(Render(shape, mark))
  {
    BodyEnd(shape);
    var body := BodyText(shape);
    match shape
    case Castle(_) =>
    case PawnSan(f, r, c, p) =>
      var head: string := if f.Some? then [FileChar(f.value), 'x'] else [];
      var promo: string := if p.Some? then "=" + PieceLetter(p.value) else "";
      SquareNameChars(r, c);
      if p.Some? {
        PieceLetterChars(p.value);
        AllSanConcat("=", PieceLetter(p.value));
      }
      AllSanConcat(head, SquareName(r, c));
      AllSanConcat(head + SquareName(r, c), promo);
    case PieceSan(k, q, cap, r, c) =>
      var qt := QualifierText(q);
      var x: string := if cap then "x" else "";
      PieceLetterChars(k);
      SquareNameChars(r, c);
      match q
      case Unqualified =>
      case ByFile(_) =>
      case ByRank(_) =>
      case BySquare(qr, qc) => SquareNameChars(qr, qc);
      AllSanConcat(PieceLetter(k), qt);
      AllSanConcat(PieceLetter(k) + qt, x);
      AllSanConcat(PieceLetter(k) + qt + x, SquareName(r, c));
    AllSanConcat(body, MarkText(mark));
  }

  lemma MoveToSanWord(s: GameState, m: Move)
    requires ValidEp(s.ep) && CanMake(s, m)
    ensures |MoveToSan(s, m)| > 0 && AllSanChars(MoveToSan(s, m))
  {
    MoveToSanRenders(s, m);
    RenderChars(Shape(s, m), MarkOf(s, m));
  }

  /** Every SAN text the move list replays is a non-empty word of SAN characters. */
  lemma {:induction false} ReplayWords(s: GameState, ms: seq<Move>)
    requires ValidEp(s.ep) && ReplaySans(s, ms).Some?
    decreases |ms|
    ensures forall k | 0 <= k < |ReplaySans(s, ms).value| :: |ReplaySans(s, ms).value[k]| > 0
                                                             && AllSanChars(ReplaySans(s, ms).value[k])
  {
    if ms != [] {
      var next := MakeMove(s, Submitted(ms[0]));
      var san := MoveToSan(s, ms[0]);
      ReplayWords(next, ms[1..]);
      var rest := ReplaySans(next, ms[1..]).value;
      var r := ReplaySans(s, ms).value;
      assert r == [san] + rest;
      MoveToSanWord(s, ms[0]);
      ConsWords(san, rest);
    }
  }

  /** A SAN word in front of SAN words. */
  lemma ConsWords(san: string, rest: seq<string>)
    requires |san| > 0 && AllSanChars(san)
    requires forall k | 0 <= k < |rest| :: |rest[k]| > 0 && AllSanChars(rest[k])
    ensures forall k | 0 <= k < |[san] + rest| :: |([san] + rest)[k]| > 0 && AllSanChars(([san] + rest)[k])
  {
    var r := [san] + rest;
    forall k | 0 <= k < |r|
      ensures |r[k]| > 0 && AllSanChars(r[k])
    {
      if k > 0 {
        assert r[k] == rest[k - 1];
      }
    }
  }

  /** A move number word: the digits of the number and a dot. */
  lemma NumberWord(n: nat)
    ensures ' ' !in NatToString(n) + "." && |NatToString(n) + "."| > 0
    ensures (NatToString(n) + ".")[|NatToString(n) + "."| - 1] == '.'
  {
  }

  /** No word of the move list contains a space. */
  lemma {:induction false} WordsHaveNoSpace(sans: seq<string>, i: nat)
    requires i % 2 == 0
    requires forall k | 0 <= k < |sans| :: AllSanChars(sans[k])
    decreases |sans| - i
    ensures forall k | 0 <= k < |Words(sans, i)| :: ' ' !in Words(sans, i)[k]
  {
    if i < |sans| {
      WordsHaveNoSpace(sans, i + 2);
      NumberWord(i / 2 + 1);
      assert ' ' !in sans[i];
      assert i + 1 < |sans| ==> ' ' !in sans[i + 1];
    }
  }

  /** The words other than move numbers: the non-empty ones that do not end in a dot. */
  function DropNumbers(words: seq<string>): seq<string>
  {
    if words == [] then []
    else
      Kept(words[0]) + DropNumbers(words[1..])
  }

  /** A word on its own if it is kept, nothing otherwise. */
  function Kept(w: string): seq<string>
  {
    if w != [] && w[|w| - 1] != '.' then [w] else []
  }

  lemma {:induction false} DropNumbersAppend(a: seq<string>, b: seq<string>)
    ensures DropNumbers(a + b) == DropNumbers(a) + DropNumbers(b)
  {
    if a == [] {
      assert a + b == b;
    } else {
      DropNumbersCons(a, b);
      DropNumbersAppend(a[1..], b);
      assert DropNumbers(a) == Kept(a[0]) + DropNumbers(a[1..]);
    }
  }

  /** Dropping from a concatenation starts with the first word of its left part. */
  lemma DropNumbersCons(a: seq<string>, b: seq<string>)
    requires a != []
    ensures DropNumbers(a + b) == Kept(a[0]) + DropNumbers(a[1..] + b)
  {
    assert (a + b)[0] == a[0];
    assert (a + b)[1..] == a[1..] + b;
  }

  /** A single word is kept exactly when it is non-empty and does not end in a dot. */
  lemma DropNumbersOne(w: string)
    ensures DropNumbers([w]) == if w != [] && w[|w| - 1] != '.' then [w] else []
  {
    assert [w][1..] == [];
  }

  /** A SAN word is kept. */
  lemma KeepsSanWord(w: string)
    requires |w| > 0 && AllSanChars(w)
    ensures DropNumbers([w]) == [w]
  {
    DropNumbersOne(w);
    assert SanChar(w[|w| - 1]);
  }

  /** Dropping the number from the words of one entry leaves its SAN texts. */
  lemma DropNumbersOfPair(sans: seq<string>, i: nat)
    requires i < |sans| && |sans[i]| > 0 && AllSanChars(sans[i])
    requires i + 1 < |sans| ==> |sans[i + 1]| > 0 && AllSanChars(sans[i + 1])
    ensures DropNumbers(PairWords(sans, i)) == if i + 1 < |sans| then [sans[i], sans[i + 1]] else [sans[i]]
  {
    NumberWord(i / 2 + 1);
    var n := NatToString(i / 2 + 1) + ".";
    var tail: seq<string> := if i + 1 < |sans| then [sans[i + 1]] else [];
    assert PairWords(sans, i) == [n] + [sans[i]] + tail;
    DropNumbersAppend([n] + [sans[i]], tail);
    DropNumbersAppend([n], [sans[i]]);
    DropNumbersOne(n);
    KeepsSanWord(sans[i]);
    if i + 1 < |sans| {
      KeepsSanWord(sans[i + 1]);
    } else {
      assert DropNumbers(tail) == [];
    }
  }

  /** Dropping the move numbers from the words leaves the SAN texts. */
  lemma {:induction false} DropNumbersOfWords(sans: seq<string>, i: nat)
    requires i % 2 == 0
    requires forall k | 0 <= k < |sans| :: |sans[k]| > 0 && AllSanChars(sans[k])
    decreases |sans| - i
    ensures DropNumbers(Words(sans, i)) == if i < |sans| then sans[i..] else []
  {
    if i < |sans| {
      DropNumbersOfWords(sans, i + 2);
      DropNumbersOfPair(sans, i);
      DropNumbersAppend(PairWords(sans, i), Words(sans, i + 2));
      if i + 2 < |sans| {
        assert sans[i..] == [sans[i], sans[i + 1]] + sans[i + 2..];
      } else if i + 1 < |sans| {
        assert sans[i..] == [sans[i], sans[i + 1]];
      } else {
        assert sans[i..] == [sans[i]];
      }
    }
  }

  /** The move list as the reader sees it: its words other than the move numbers. */
  function ReadHistory(text: string): seq<string>
  {
    DropNumbers(Split(text, ' '))
  }

  /**
   * The move list, split on spaces, is the sequence of words of its entries:
   * each move number with its dot, white's SAN, then black's SAN.
   */
  lemma HistoryWords(s: GameState)
    requires MoveHistoryToString(s).Some? && s.moveHistory != []
    ensures ReplaySans(InitialState(), s.moveHistory).Some?
    ensures Split(MoveHistoryToString(s).value, ' ') == Words(ReplaySans(InitialState(), s.moveHistory).value, 0)
  {
    var sans := ReplaySans(InitialState(), s.moveHistory).value;
    ReplayWords(InitialState(), s.moveHistory);
    PairTextsWords(sans, 0);
    WordsHaveNoSpace(sans, 0);
    SplitJoin(Words(sans, 0), ' ');
  }

  /** Reading the move list back, without the move numbers, gives the SAN of every move in order. */
  lemma HistoryReadsBack(s: GameState)
    requires MoveHistoryToString(s).Some?
    ensures ReplaySans(InitialState(), s.moveHistory).Some?
    ensures ReadHistory(MoveHistoryToString(s).value) == ReplaySans(InitialState(), s.moveHistory).value
  {
    if s.moveHistory == [] {
      var none: seq<string> := [[]];
      assert Split([], ' ') == none;
      assert DropNumbers(none) == [] by {
        assert none[1..] == [];
      }
    } else {
      var sans := ReplaySans(InitialState(), s.moveHistory).value;
      HistoryWords(s);
      ReplayWords(InitialState(), s.moveHistory);
      DropNumbersOfWords(sans, 0);
    }
  }
}
