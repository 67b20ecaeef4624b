/**
 * The text exchanged with the language-model opponent: the three message
 * templates sent to it and the parser that splits its reply into the move
 * line and the comment.
 */
module Prompt {
  import opened Types
  import opened Text

  // ---------------------------------------------------------------------
  // Messages
  // ---------------------------------------------------------------------

  const UserMovePrefix := "My move: "
  const FirstMovePrefix := "The game just started. My first move: "
  const FirstMoveSuffix := ". Your turn."
  const IllegalMovePrefix := "\""
  const IllegalMoveSuffix := "\" is not a legal move. Please pick a different move. Remember: first line is your move in SAN, then a blank line, then a short comment."

  function UserMoveMessage(san: string): string
  {
    UserMovePrefix + san
  }

  function FirstMoveMessage(san: string): string
  {
    FirstMovePrefix + san + FirstMoveSuffix
  }

  function IllegalMoveMessage(attempted: string): string
  {
    IllegalMovePrefix + attempted + IllegalMoveSuffix
  }

  /** The text between a fixed prefix and a fixed suffix, if `t` has both. */
  function Unwrap(prefix: string, suffix: string, t: string): (r: Option<string>)
    ensures r.Some? ==> prefix + r.value + suffix == t
  {
    if |t| >= |prefix| + |suffix| && t[..|prefix|] == prefix && t[|t| - |suffix|..] == suffix then
      var r := t[|prefix|..|t| - |suffix|];
      assert t == t[..|prefix|] + r + t[|t| - |suffix|..];
      Some(r)
    else None
  }

  /** Text wrapped in a prefix and a suffix unwraps to itself. */
  lemma UnwrapWrapped(prefix: string, x: string, suffix: string)
    ensures Unwrap(prefix, suffix, prefix + x + suffix) == Some(x)
  {
    var t := prefix + x + suffix;
    assert t[..|prefix|] == prefix;
    assert t[|t| - |suffix|..] == suffix;
    assert t[|prefix|..|t| - |suffix|] == x;
  }

  /** Each message embeds its argument verbatim between its fixed texts. */
  lemma MessagesEmbed(x: string)
    ensures Unwrap(UserMovePrefix, [], UserMoveMessage(x)) == Some(x)
    ensures Unwrap(FirstMovePrefix, FirstMoveSuffix, FirstMoveMessage(x)) == Some(x)
    ensures Unwrap(IllegalMovePrefix, IllegalMoveSuffix, IllegalMoveMessage(x)) == Some(x)
  {
    UnwrapWrapped(UserMovePrefix, x, []);
    assert UserMovePrefix + x + [] == UserMoveMessage(x);
    UnwrapWrapped(FirstMovePrefix, x, FirstMoveSuffix);
    UnwrapWrapped(IllegalMovePrefix, x, IllegalMoveSuffix);
  }

  // ---------------------------------------------------------------------
  // Reply parser
  // ---------------------------------------------------------------------

  /** A parsed reply: the move line (absent when there was no text) and the comment. */
  datatype Reply = Reply(move: Option<string>, comment: string)

  /** A line that trims to nothing. */
  predicate Blank(line: string)
  {
    AllSpace(line)
  }

  /** A line is blank exactly when trimming it leaves nothing. */
  lemma BlankIsTrimEmpty(line: string)
    ensures Blank(line) <==> Trim(line) == []
  {
    var r := Trim(line);
    var i, j :| 0 <= i <= j <= |line| && r == line[i..j] && AllSpace(line[..i]) && AllSpace(line[j..]);
    assert i < j ==> r[0] == line[i];
    if r == [] {
      assert forall k | 0 <= k < |line| :: (k < i && line[k] == line[..i][k]) || (k >= j && line[k] == line[j..][k - j]);
    }
  }

  /**
   * Where the comment starts: just after the first blank line at index i or
   * later, or at line 1 when there is none.
   */
  function CommentStart(lines: seq<string>, i: nat): (k: nat)
    requires 1 <= i <= |lines|
    decreases |lines| - i
    ensures 1 <= k <= |lines|
  {
    if i == |lines| then 1
    else if Blank(lines[i]) then i + 1
    else CommentStart(lines, i + 1)
  }

  /**
   * The comment starts at line 1 exactly when no line from i on is blank,
   * and otherwise just after the first blank line from i on.
   */
  lemma {:induction false} CommentStartFindsFirstBlank(lines: seq<string>, i: nat)
    requires 1 <= i <= |lines|
    decreases |lines| - i
    ensures CommentStart(lines, i) == 1 <==> forall j | i <= j < |lines| :: !Blank(lines[j])
    ensures CommentStart(lines, i) > 1 ==>
      var k := CommentStart(lines, i);
      i < k && Blank(lines[k - 1]) && forall j | i <= j < k - 1 :: !Blank(lines[j])
  {
    if i < |lines| && !Blank(lines[i]) {
      CommentStartFindsFirstBlank(lines, i + 1);
    }
  }

  /** Text that neither starts nor ends with whitespace. */
  predicate Tight(s: string)
  {
    s == [] || (!IsSpace(s[0]) && !IsSpace(s[|s| - 1]))
  }

  /** The lines of a reply once surrounding whitespace is trimmed. */
  function ReplyLines(text: string): seq<string>
  {
    Split(Trim(text), '\n')
  }

  /**
   * Split a reply: no text gives no move and an empty comment; otherwise
   * the move is the first line of the trimmed text, trimmed, and the comment
   * is everything after the first blank line from the second line on (after
   * the first line when there is none), trimmed.
   */
  function ParseReply(text: Option<string>): (r: Reply)
    ensures r.move.None? <==> text.None? || text.value == []
    ensures r.move.None? ==> r.comment == []
    ensures r.move.Some? ==> '\n' !in r.move.value && Tight(r.move.value)
    ensures Tight(r.comment)
  {
    if text.None? || text.value == [] then Reply(None, [])
    else
      var lines := Split(Trim(text.value), '\n');
      var start := CommentStart(lines, 1);
      Reply(Some(Trim(lines[0])), Trim(Join(lines[start..], "\n")))
  }

  /**
   * The move of a non-empty reply is its first line, up to the first line
   * break of the trimmed text (or all of it), itself trimmed.
   */
  lemma ReplyMove(text: string)
    requires text != []
    ensures var t := Trim(text);
            exists k | 0 <= k <= |t| :: '\n' !in t[..k] && (k == |t| || t[k] == '\n')
                                      && ParseReply(Some(text)).move == Some(Trim(t[..k]))
  {
    var t := Trim(text);
    SplitHead(t, '\n');
    var k := |ReplyLines(text)[0]|;
    assert ParseReply(Some(text)).move == Some(Trim(ReplyLines(text)[0]));
    assert '\n' !in t[..k] && (k == |t| || t[k] == '\n') && ParseReply(Some(text)).move == Some(Trim(t[..k]));
  }

  /**
   * Line `s` is where the comment starts: just after the first blank line
   * from the second line on, or the second line when none is blank.
   */
  predicate StartsComment(lines: seq<string>, s: int)
  {
    && 1 <= s <= |lines|
    && (s == 1 <==> forall j | 1 <= j < |lines| :: !Blank(lines[j]))
    && (s > 1 ==> Blank(lines[s - 1]) && forall j | 1 <= j < s - 1 :: !Blank(lines[j]))
  }

  /** The comment of a non-empty reply, from the line where it starts. */
  lemma CommentOfReply(text: string)
    requires text != []
    ensures ParseReply(Some(text)).comment == Trim(Join(ReplyLines(text)[CommentStart(ReplyLines(text), 1)..], "\n"))
  {
  }

  /**
   * The comment of a reply is the lines after the first blank line from the
   * second line on, or after the first line when none is blank, joined and
   * trimmed.
   */
  lemma ReplyCommentLines(text: string)
    requires text != []
    ensures exists s | StartsComment(ReplyLines(text), s) ::
              ParseReply(Some(text)).comment == Trim(Join(ReplyLines(text)[s..], "\n"))
  {
    CommentStartSpec(ReplyLines(text));
    CommentOfReply(text);
  }

  /** The line the parser starts the comment at is the one `StartsComment` describes. */
  lemma CommentStartSpec(lines: seq<string>)
    requires |lines| >= 1
    ensures StartsComment(lines, CommentStart(lines, 1))
  {
    CommentStartFindsFirstBlank(lines, 1);
  }

  /** A reply of one line has no comment. */
  lemma OneLineReply(text: string)
    requires text != [] && '\n' !in Trim(text)
    ensures ParseReply(Some(text)).comment == []
  {
    SplitFree(Trim(text), '\n');
    assert ReplyLines(text)[CommentStart(ReplyLines(text), 1)..] == [];
    CommentOfReply(text);
  }

  /** As text, a non-empty comment is the trimmed rest of the reply after some line break. */
  lemma ReplyCommentSuffix(text: string)
    requires text != []
    ensures var t := Trim(text);
            var c := ParseReply(Some(text)).comment;
            c != [] ==> exists p | 0 < p <= |t| && t[p - 1] == '\n' :: c == Trim(t[p..])
  {
    var t := Trim(text);
    var lines := ReplyLines(text);
    var start := CommentStart(lines, 1);
    CommentOfReply(text);
    if start < |lines| {
      var p := SplitTail(t, '\n', start);
      assert ParseReply(Some(text)).comment == Trim(t[p..]);
      assert 0 < p <= |t| && t[p - 1] == '\n';
    } else {
      assert lines[start..] == [];
      TrimNoop([]);
    }
  }

  /** The reply layout the opponent is asked for: the move, a blank line, the comment. */
  function FormatReply(move: string, comment: string): string
  {
    move + "\n\n" + comment
  }

  /**
   * A reply in the requested layout parses into its move and comment: a
   * one-line move with no surrounding whitespace, then a blank line, then a
   * comment with no surrounding whitespace.
   */
  lemma ParseFormattedReply(move: string, comment: string)
    requires move != [] && '\n' !in move && Tight(move)
    requires comment != [] && Tight(comment)
    ensures ParseReply(Some(FormatReply(move, comment))) == Reply(Some(move), comment)
  {
    FormattedLines(move, comment);
    ParseReplyOfLines(FormatReply(move, comment), move, comment);
  }

  /** A text whose lines are a tight move, an empty line and the lines of a tight comment. */
  lemma ParseReplyOfLines(text: string, move: string, comment: string)
    requires text != [] && Tight(move) && Tight(comment)
    requires Split(Trim(text), '\n') == [move, []] + Split(comment, '\n')
    ensures ParseReply(Some(text)) == Reply(Some(move), comment)
  {
    var lines := Split(Trim(text), '\n');
    FirstLineIsMove(lines, move, comment);
    SecondLineIsBlank(lines, move, comment);
    RestIsComment(lines, move, comment);
  }

  lemma FirstLineIsMove(lines: seq<string>, move: string, comment: string)
    requires Tight(move) && lines == [move, []] + Split(comment, '\n')
    ensures Trim(lines[0]) == move
  {
    TrimNoop(move);
  }

  lemma SecondLineIsBlank(lines: seq<string>, move: string, comment: string)
    requires lines == [move, []] + Split(comment, '\n')
    ensures CommentStart(lines, 1) == 2
  {
    assert lines[1] == [];
  }

  lemma RestIsComment(lines: seq<string>, move: string, comment: string)
    requires Tight(comment) && lines == [move, []] + Split(comment, '\n')
    ensures Trim(Join(lines[2..], "\n")) == comment
  {
    assert lines[2..] == Split(comment, '\n');
    JoinSplit(comment, '\n');
    TrimNoop(comment);
  }

  /** The move of a non-empty reply, from its first line. */
  lemma MoveOfReply(text: string)
    requires text != []
    ensures ParseReply(Some(text)).move == Some(Trim(ReplyLines(text)[0]))
  {
  }

  /**
   * A reply whose comment follows the move line directly, with no blank line
   * anywhere, still parses into that move and comment: with no blank line
   * the comment is everything after the first line.
   */
  lemma ParseUnspacedReply(move: string, comment: string)
    requires move != [] && '\n' !in move && Tight(move)
    requires comment != [] && Tight(comment)
    requires forall j | 0 <= j < |Split(comment, '\n')| :: !Blank(Split(comment, '\n')[j])
    ensures ParseReply(Some(move + "\n" + comment)) == Reply(Some(move), comment)
  {
    var text := move + "\n" + comment;
    UnspacedLines(move, comment);
    var lines := ReplyLines(text);
    NoBlankAfterFirst(lines, comment);
    assert lines[1..] == Split(comment, '\n');
    JoinSplit(comment, '\n');
    TrimNoop(comment);
    TrimNoop(move);
    CommentOfReply(text);
    MoveOfReply(text);
  }

  /** The lines of a reply made of a tight one-line move, a line break and a tight comment. */
  lemma UnspacedLines(move: string, comment: string)
    requires move != [] && '\n' !in move && Tight(move)
    requires comment != [] && Tight(comment)
    ensures ReplyLines(move + "\n" + comment) == [move] + Split(comment, '\n')
  {
    var text := move + "\n" + comment;
    assert text[0] == move[0];
    assert text[|text| - 1] == comment[|comment| - 1];
    TrimNoop(text);
    SplitPrefix(move, comment, '\n');
  }

  /** With no blank line after the first, the comment starts at line 1. */
  lemma NoBlankAfterFirst(lines: seq<string>, comment: string)
    requires |lines| >= 1 && lines[1..] == Split(comment, '\n')
    requires forall j | 0 <= j < |Split(comment, '\n')| :: !Blank(Split(comment, '\n')[j])
    ensures CommentStart(lines, 1) == 1
  {
    assert forall j | 1 <= j < |lines| :: lines[j] == lines[1..][j - 1];
    CommentStartFindsFirstBlank(lines, 1);
  }

  /** The lines of a trimmed reply in the requested layout. */
  lemma FormattedLines(move: string, comment: string)
    requires move != [] && '\n' !in move && Tight(move)
    requires comment != [] && Tight(comment)
    ensures Split(Trim(FormatReply(move, comment)), '\n') == [move, []] + Split(comment, '\n')
  {
    var text := FormatReply(move, comment);
    assert text[0] == move[0];
    assert text[|text| - 1] == comment[|comment| - 1];
    TrimNoop(text);
    SplitBlankLine(move, comment);
  }

  /** A line, an empty line and the rest split into the line, the empty line and the rest's lines. */
  lemma SplitBlankLine(line: string, rest: string)
    requires '\n' !in line
    ensures Split(FormatReply(line, rest), '\n') == [line, []] + Split(rest, '\n')
  {
    var second := [] + ['\n'] + rest;
    SplitPrefix([], rest, '\n');
    assert Split(second, '\n') == [[]] + Split(rest, '\n');
    assert FormatReply(line, rest) == line + ['\n'] + second;
    SplitPrefix(line, second, '\n');
  }
}
