# Chess engine core, modelled in Dafny

This project models the rules-and-search engine of a browser chess game in
which a human plays white against a computer or language-model opponent. It
also models the small text protocol used with the language model. The
engine is a set of pure functions over an 8×8 board:

- board primitives;
- the starting layout and the scoring tables;
- attack detection and move generation, including the promotion,
  en-passant and castling tags;
- the move applier;
- the game manager, which keeps the history, the repetition keys and the
  status;
- standard algebraic notation (SAN): rendering, reading, and the text forms
  of the board and the move list;
- the computer opponent, a depth-three alpha-beta search with captures
  tried first.

Every transition builds a new value, so the model follows the engine one
function at a time. Board, move and game record are immutable datatypes
(`Types`). Each source file has a module of the same shape: `Boards`,
`Constants`, `Moves`, `SpecialMoves`, `Game`, `Notation`, `Evaluation` and
`Ai`, plus `Prompt` for the reply parser. `Text` holds the string helpers
that JavaScript provides built in.

Each operation is paired with an independent reference definition or an
inverse, and an all-inputs lemma connects the two. These lemmas live in
proof modules:

- `MoveSpec` and `MoveGenSpec`: attack and move generation against a
  geometric description of the rules.
- `Legality`: the legality filter's simulation agrees with the applier.
- `GameProofs`: the repetition key, insufficient material, mate and
  stalemate, and whole games.
- `SanProofs` and `SerialProofs`: SAN round trips and the text serialisers.
- `AlphaBeta`: the search over an abstract game tree, compared with plain
  minimax.

Row 0 is rank 8 and column 0 is file a, as in the engine.

## Model

| member | source | states |
|---|---|---|
| Boards.GetPiece | src/engine/board.js:7-14 | Any coordinate off the 8×8 board reads as an empty square; an on-board one reads the board; a piece is only ever found on the board |
| Boards.CloneBoard | src/engine/board.js:1-5 | The copy agrees with the original on every square (and is equal to it as a value) |
| Boards.FindKing | src/engine/board.js:16-26 | A found square holds a king of the colour and no earlier square in row-major order does; nothing is found exactly when no square holds such a king |
| Boards.FindKingFrom | src/engine/board.js:17-25 | The scan from a given square finds the first king of the colour at or after it, and finds nothing exactly when there is none from there on |
| Constants.PieceValue | src/engine/constants.js:30-37 | Every piece value is positive and the king's is strictly the largest |
| Constants.PieceSquareTable | src/engine/constants.js:41-102 | Every positional table has 8 rows of 8 entries, each within ±50 |
| Constants.InitialBoard | src/engine/constants.js:105-118 | Row 0 is the black back rank R N B Q K B N R, row 1 black pawns, rows 2–5 empty, row 6 white pawns, row 7 the white back rank |
| GameProofs.InitialKings | src/engine/constants.js:105-118 | On the starting board each colour has exactly one king, on column 4 of its home row, and the king search finds it there |
| GameProofs.InitialPieceCount | src/engine/constants.js:105-118 | Each colour starts with fifteen pieces besides its king |
| GameProofs.InitialNonKing | src/engine/constants.js:105-118 | On the starting board a colour's non-king pieces are exactly its pawn row and its home row except the king's column |
| MoveSpec.PawnAttackIff | src/engine/moves.js:9-15 | The pawn test reports an attack exactly when a pawn of the attacker stands one row behind the square, seen from the attacker, on an adjacent file |
| MoveSpec.OffsetAttackGeometry | src/engine/moves.js:17-31 | The knight and king tests report an attack exactly when a knight (king) of the attacker stands one knight's (king's) step away |
| MoveSpec.StepOffsetsExact | src/engine/moves.js:18 | The offset lists hold exactly the eight knight displacements and the eight king displacements |
| MoveSpec.RayAttackIff | src/engine/moves.js:33-58 | A ray scan reports an attack exactly when, at some distance, the matching slider stands on the board with every nearer square on the ray empty |
| MoveSpec.FirstOccupiedDecides | src/engine/moves.js:36-44 | Only the first occupied square on a ray decides; a slider behind a blocker never counts |
| MoveSpec.LineAttackGeometry | src/engine/moves.js:33-58 | Diagonal and straight scans report an attack exactly when a matching slider sees the square along one of the listed directions over empty squares |
| MoveSpec.IsSquareAttackedIff | src/engine/moves.js:7-61 | A square is attacked exactly when a pawn, knight, king or slider of the attacker attacks it by the geometric rules |
| MoveGenSpec.PawnPushesIff | src/engine/moves.js:84-98 | A push goes to the empty square ahead (promotion-tagged on the last rank); a double push only from the start row with both squares ahead empty |
| MoveGenSpec.PawnCapturesIff | src/engine/moves.js:100-112 | A diagonal capture goes exactly onto an on-board enemy piece one row ahead, promotion-tagged on the last rank |
| MoveGenSpec.PawnMovesIff | src/engine/moves.js:79-121 | The pawn's targets are exactly the pushes, the diagonal captures and an en-passant capture onto the tracked square diagonally ahead |
| MoveGenSpec.StepMovesIff | src/engine/moves.js:124-135 | Knight (and king) steps are exactly the on-board step destinations that are empty or hold an enemy piece |
| MoveGenSpec.RayMovesIff | src/engine/moves.js:196-210 | One ray yields exactly the squares reached over empty squares that are empty or hold an enemy, and nothing beyond the first piece |
| MoveGenSpec.SlidingMovesIff | src/engine/moves.js:137-150 | A slider's targets are exactly the squares one of its directions reaches by those rules |
| MoveGenSpec.QueenIsBishopPlusRook | src/engine/moves.js:137-150 | The queen's moves are exactly the bishop's moves together with the rook's |
| MoveGenSpec.PathUnattackedIff | src/engine/moves.js:171-184 | The engine's three attack tests are exactly "start, transit and landing square not attacked" |
| MoveGenSpec.CastlingMovesIff | src/engine/moves.js:165-188 | A castling target exists exactly with the flag, the king on its home row at column 4, empty squares between, and the three squares unattacked; no rook is required |
| MoveGenSpec.RawMovesIff | src/engine/moves.js:70-194 | The pseudo-legal targets of a square are exactly those the piece standing there may reach by the rules of its type; an empty square has none |
| MoveGenSpec.DoublePushOnlyFromStart | src/engine/moves.js:93-97 | A double push comes only from a pawn on its start row, two rows ahead on the same file, over two empty squares |
| MoveGenSpec.PromotionTagExact | src/engine/moves.js:82-111 | A pawn move landing on the last rank is never plain, and the promotion tag appears exactly on such non-en-passant moves |
| MoveGenSpec.CastleRequirements | src/engine/moves.js:165-188 | A castling-tagged target is a king's, with all castling conditions met |
| MoveGenSpec.LegalMovesIff | src/engine/moves.js:212-249 | A square's legal targets are exactly its pseudo-legal targets after which the mover's king is not attacked on the replayed board |
| MoveGenSpec.AllLegalIff | src/engine/moves.js:251-265 | A move is collected for a colour exactly when its origin holds a piece of that colour and its target is legal for that piece |
| MoveGenSpec.AllLegalInBounds | src/engine/moves.js:251-265 | Every collected move has an on-board origin holding a piece of the requested colour and an on-board destination |
| Moves.FilterLegal | src/engine/moves.js:213-241 | The filter keeps exactly the targets after which the king is safe, dropping nothing else |
| Moves.LegalMoves | src/engine/moves.js:243-249 | An empty or off-board origin has no legal targets; every legal target is on the board |
| Moves.RawReplayable | src/engine/moves.js:70-194 | Every pseudo-legal target can be replayed on a copy of the board without leaving it |
| Legality.SafeIffAppliedSafe | src/engine/moves.js:213-241 | For a non-king mover, the legality filter's replay is safe exactly when the king is not in check after the real applier makes the move |
| Legality.LegalMoveLeavesKingSafe | src/engine/moves.js:213-249 | Every legal target, made by the applier, leaves the mover's king unattacked |
| Legality.InCheckSame | src/engine/moves.js:63-67 | The check test depends only on the colour's kings and on occupancy and the attacker's pieces |
| Legality.LegalCanMake | src/engine/moves.js:251-265 | Every collected legal move, with any non-king promotion choice, can be handed to the game manager |
| Legality.DoublePushTargetWellFormed | src/engine/specialMoves.js:16-19 | A double push sets the en-passant target to the skipped square, which is on the board and empty afterwards |
| SpecialMoves.SimulateIsApply | src/engine/moves.js:213-237 | For every non-promotion target, the filter's replay produces the same board as the applier |
| SpecialMoves.ApplyMove | src/engine/specialMoves.js:5-81 | The destination receives the mover (or the promoted piece, queen by default) and the origin empties; en passant empties the square behind; castling moves the rook 7→5 or 0→3; nothing else changes; the target is set exactly on a double push; the rights are those `NextRights` leaves (a king move clears both of its side's flags, a rook leaving a corner or any move landing on a corner clears that corner's flag, nothing else changes them); the clock restarts on a pawn move or capture and otherwise counts on; the captured report is an enemy pawn for en passant and otherwise the destination's old contents |
| SpecialMoves.ApplyBoard | src/engine/specialMoves.js:6-38 | Squares the move does not name are unchanged, and a promotion leaves the promoted piece on the destination |
| SpecialMoves.NextRights | src/engine/specialMoves.js:40-65 | A flag stays set exactly when it was set, the mover is not that side's king, no rook left that corner, and nothing landed on that corner |
| Game.InitialState | src/engine/gameState.js:6-24 | White to move, all four rights, no en-passant target, clock 0, empty histories and capture lists, status playing |
| Game.HashBoard | src/engine/gameState.js:27-36 | The key records the side to move and, for every occupied square, its row, column, type letter and colour letter |
| GameProofs.HashBoardIff | src/engine/gameState.js:27-36 | Two keys are equal exactly when the sides to move agree and every square shows the same type letter and colour letter |
| GameProofs.KnightKingShareKey | src/engine/gameState.js:32 | Two different boards, a lone knight versus a lone king on one square, share a key: the key is not injective |
| GameProofs.InsufficientMaterialIff | src/engine/gameState.js:38-75 | Insufficient material holds exactly for bare kings, a lone knight or bishop against a bare king, or one bishop each on squares of the same colour |
| GameProofs.BishopCaseIff | src/engine/gameState.js:58-72 | The engine's bishop clause holds exactly when each side has a single bishop and the two stand on squares of the same colour |
| Game.GameStatus | src/engine/gameState.js:112-135 | No legal move is mate in check and stalemate otherwise, before any draw rule; then the clock, repetition and material draws; then check or playing |
| GameProofs.MateIff | src/engine/gameState.js:112-119 | Checkmate is check with no legal target for any piece of the side to move; stalemate is no legal target without check |
| Game.MakeMove | src/engine/gameState.js:77-110 | The turn flips; the board, target, rights and clock are the applier's; the move and the new key are appended; a captured piece joins its own colour's list and the other list is unchanged; the stored status is the status of the new record |
| GameProofs.MakeMoveClock | src/engine/specialMoves.js:67-70 | After the manager makes a move, the clock is zero exactly after a pawn move, a capture or en passant, and otherwise one more than before |
| GameProofs.PlayQuietClock | src/engine/gameState.js:122-123 | Over any run of moves that are neither pawn moves nor captures, the clock the fifty-move draw reads grows by exactly the number of moves played |
| GameProofs.PlayKeepsRights | src/engine/specialMoves.js:40-65 | Over any sequence of moves the manager accepts, no castling right comes back |
| GameProofs.PlayRecordsMoves | src/engine/gameState.js:99 | After a sequence of moves, the move history is the old one followed by exactly those moves |
| GameProofs.PlayKeepsKeys | src/engine/gameState.js:100 | After a sequence of moves, the earlier repetition keys are still in place at the front |
| GameProofs.PlayCountsKeys | src/engine/gameState.js:100 | One repetition key is recorded per move played |
| GameProofs.PlayAlternates | src/engine/gameState.js:79 | The side to move alternates with every move played |
| Notation.SquareNameRoundTrip | src/engine/notation.js:14-22 | Reading a square's name gives the square back |
| Notation.SquareNameOfCoordinates | src/engine/notation.js:14-22 | Every file letter followed by a rank digit names an on-board square whose name it is |
| Notation.FromSquareName | src/engine/notation.js:18-22 | The column is between −1 (an unknown letter) and 7; a row is read exactly when the second character is a digit |
| Notation.ParseRender | src/engine/notation.js:30-75 | A SAN text read back gives the castle, pawn or piece move it describes and its check or mate mark |
| Notation.MoveToSan | src/engine/notation.js:24-27 | The SAN is empty exactly when the origin is empty |
| Notation.MoveToSanReadsBack | src/engine/notation.js:24-83 | The SAN of a move from an occupied square reads back as the move's shape (castle side; pawn capture file, destination and promotion, queen by default; piece letter, disambiguation, capture and destination) and mark |
| SanProofs.MoveToSanMark | src/engine/notation.js:77-83 | The SAN ends in '#' exactly when the resulting status is checkmate and in '+' exactly when it is check |
| SanProofs.SanToMoveSound | src/engine/notation.js:85-131 | Empty input reads as nothing; otherwise the result is nothing or a promotion-expanded legal move of the side to move whose SAN is the cleaned text, or which the coordinate text selects |
| SanProofs.SanInjective | src/engine/notation.js:24-75 | In a record whose en-passant square (if any) is empty, two candidates the reader tries with the same SAN are the same move |
| SanProofs.SanRoundTrip | src/engine/notation.js:85-107 | Reading the SAN of a legal move of the side to move, promotion choice included, gives that move back |
| SanProofs.CleanSan | src/engine/notation.js:87 | Trimming and stripping '?'/'!' leaves a generated SAN unchanged |
| Notation.StripAnnotations | src/engine/notation.js:87 | Exactly the trailing run of '?' and '!' is removed |
| Notation.FirstByCoordinates | src/engine/notation.js:117-127 | The coordinate reading finds the first candidate with that origin and destination (carrying the wanted piece if it promotes), and nothing exactly when there is none |
| Notation.ExpandIff | src/engine/notation.js:91-101 | The candidates are exactly the legal moves with each promotion replaced by its four choices |
| SerialProofs.DescriptionRoundTrip | src/engine/notation.js:133-150 | Reading the description of a board gives the board back |
| SerialProofs.RankLineLayout | src/engine/notation.js:136-147 | Each line is the rank digit, a colon and a space, then the eight square characters separated by single spaces |
| Notation.CellOfPieceChar | src/engine/notation.js:9-12 | The square character (upper case for white, '.' for empty) determines the square's contents |
| SerialProofs.HistoryReadsBack | src/engine/notation.js:152-174 | The move list, read without its move numbers, is the SAN of every move of the history, in order, each written in the position it was played from |
| SerialProofs.HistoryWords | src/engine/notation.js:166-173 | The move list splits on spaces into the move numbers with their dots and the SAN texts |
| Evaluation.PieceSquareValue | src/engine/ai.js:7-13 | A positional bonus lies within ±50 |
| Evaluation.Evaluate | src/engine/ai.js:15-29 | The row-by-row scan computes the sum over all 64 squares of each piece's value plus bonus, signed by colour |
| Evaluation.ScoreBound | src/engine/ai.js:15-29 | Every evaluation lies within 64 × (king value + 50) of zero |
| Evaluation.MirrorNegates | src/engine/ai.js:10-29 | Swapping colours and flipping rows negates the evaluation |
| Evaluation.InitialScoreZero | src/engine/ai.js:15-29 | The starting position evaluates to zero |
| Ai.OrderIsStableSort | src/engine/ai.js:46-50 | The search order is a permutation with no quiet move before a capture, keeping the relative order of the captures and of the quiet moves |
| Ai.OrderCaptures | src/engine/ai.js:46-50 | The ordered moves are a permutation of the generated moves |
| Ai.SearchMoves | src/engine/ai.js:42-50 | Every searched move is a legal move of the searching colour, and there are none exactly when that colour has none |
| Ai.LeafScoreWithin | src/engine/ai.js:32-40 | Every leaf score, mate scores included, lies strictly inside the infinity sentinel |
| Ai.KidsOfGameTree | src/engine/ai.js:32-80 | The search expands a position exactly when depth remains and the stored status is not final, with one child per searched move |
| Ai.Minimax | src/engine/ai.js:31-81 | A reported move exists only when depth remains and the status is not final, and is a legal move of the searching colour |
| Ai.BestScoreIsMinimax | src/engine/ai.js:83-86 | The computer's full-window search scores the depth-three tree at its minimax value |
| Ai.BestMoveIsOptimal | src/engine/ai.js:83-86 | The computer moves exactly when the game is not over and black has a legal move; the move is legal for black and leads to the minimax value of the whole search |
| AlphaBeta.SearchFailSoft | src/engine/ai.js:31-81 | For every window, a score inside it is the exact minimax value, and one at or beyond a bound is a bound on that value on the same side |
| AlphaBeta.FullWindowIsMinimax | src/engine/ai.js:31-81 | With the full window, alpha-beta returns the unpruned minimax value |
| AlphaBeta.MinimizerChoiceIsOptimal | src/engine/ai.js:67-80 | A full-window minimiser at a node with children chooses a child whose minimax value is the node's |
| AlphaBeta.SearchWithin | src/engine/ai.js:31-81 | A search score never leaves [−Inf, Inf] |
| Prompt.MessagesEmbed | src/services/llm/prompt.js:34-44 | Stripping each message's fixed prefix and suffix gives back exactly the move text it was built from |
| Prompt.ParseReply | src/services/llm/prompt.js:46-63 | Absent or empty text gives no move and an empty comment; any other text gives a move; the move has no line break, and move and comment neither start nor end with whitespace (what the move and comment are is stated by `Prompt.ReplyMove` and `Prompt.ReplyCommentLines`) |
| Prompt.ReplyMove | src/services/llm/prompt.js:49-50 | The move of a non-empty reply is the text of the trimmed reply up to its first line break (or all of it), trimmed |
| Prompt.ReplyCommentLines | src/services/llm/prompt.js:52-60 | The comment is the lines after the first blank line from the second line on, or after the first line when none is blank, joined with line breaks and trimmed |
| Prompt.ReplyCommentSuffix | src/services/llm/prompt.js:49-60 | A non-empty comment is the trimmed rest of the reply after one of its line breaks |
| Prompt.OneLineReply | src/services/llm/prompt.js:53-60 | A reply with no line break after trimming has an empty comment |
| Prompt.ParseUnspacedReply | src/services/llm/prompt.js:46-63 | A one-line move followed on the next line by a comment, both without surrounding whitespace and with no blank line anywhere, parses into that move and that comment |
| Prompt.CommentStartFindsFirstBlank | src/services/llm/prompt.js:53-59 | The comment starts right after the first blank line from line 2 on, or at line 2 when there is none |
| Prompt.ParseFormattedReply | src/services/llm/prompt.js:46-63 | A reply in the requested layout (move, blank line, comment) parses into that move and comment |
| Prompt.BlankIsTrimEmpty | src/services/llm/prompt.js:55 | A line is blank exactly when trimming it leaves nothing |
| Text.JoinSplit | src/services/llm/prompt.js:49-60 | Joining the lines of a split with the separator restores the text |
| Text.NatToStringRoundTrip | src/engine/notation.js:168-171 | Reading back a written move number gives the number |

## Left out

- User interface, network and storage: the React components, the retry loop
  around the language model, the provider request and the key store are
  outside the engine and are not modelled.
- The system prompt is a constant text with no behaviour; only the three
  message builders and the reply parser are modelled.
- Coordinates are unbounded integers. Operations that would index the board
  off its edges require well-formed input instead; every caller in the
  program passes only generated or legal moves, so these preconditions
  exclude nothing that happens in play. Precondition by precondition:
  - `GetPiece` accepts any coordinate.
  - The applier (`SpecialMoves.ApplyMove`) requires an on-board origin
    holding a piece, an on-board destination and an on-board en-passant
    victim square. The source throws on an empty origin.
  - Move generation requires the tracked en-passant square to be on the
    board (`ValidEp`), which every reachable record satisfies.
- Game.MakeMove: requires `CanMake`, meaning the applier's requirements and,
  for a double push, an on-board en-passant square. Callers pass only
  generated or legal moves, which always meet it. Two behaviours of the
  source on moves outside that set are not modelled, because no caller
  produces such moves:
  - A destination column of 8 on a valid row: the source does not throw.
    It writes the piece into a ninth array slot, which copies and the
    8-column scans then ignore, so the piece silently disappears.
  - A double-push-tagged move onto the last rank: the source records an
    en-passant row of 8 or −1 and carries on. It fails later only if an
    enemy pawn stands beside that target when moves are generated.
- Moves.AllLegalMoves: concrete facts about particular positions are not
  proved. These include white having exactly 20 legal moves in the starting
  position, and Scholar's mate (1.e4 e5 2.Bc4 Nc6 3.Qh5 Nf6 4.Qxf7#) ending
  in checkmate. Each would mean evaluating the whole generator and legality
  filter on a concrete board, which is beyond what the verifier can unfold.
  The generator is proved, for every position, to agree with its reference
  definition (`MoveGenSpec.AllLegalIff`, `MoveGenSpec.RawMovesIff`) instead.
- Legality.LegalMoveLeavesKingSafe: proved for every promotion choice except
  a king. No caller chooses a king.
- SanProofs.SanRoundTrip: assumes that any tracked en-passant square is
  empty (`EpSquareEmpty`); so does `SanProofs.SanInjective`. The starting
  record satisfies this, and every
  move the manager makes preserves it (`SanProofs.InitialEpSquareEmpty`,
  `SanProofs.MakeMoveKeepsEpSquareEmpty`). Without it, a pawn push and an
  en-passant capture could render alike.
- `Notation.MoveToSan` requires the move to be one the manager can make
  (`SanReady`). The source calls it only on generated moves and on recorded
  history.
- Unrecorded history: `MoveHistoryToString` returns nothing when a recorded
  move can no longer be made. The source would throw there.
- Infinity: JavaScript's ±Infinity in the search window is the sentinel
  `AlphaBeta.Inf` = 10⁹. Every evaluation is bounded by `Evaluation.ScoreBound`
  and depths are limited by `Ai.MaxDepth`, so every real score lies strictly
  inside the sentinel.
- Ai.Minimax: depth is limited to `Ai.MaxDepth` (10⁹ − 10⁵ − 1) so that mate
  scores stay below the sentinel. The engine only searches to depth 3.
- Lazy subtrees: the engine builds children as it searches them. The model
  builds the tree of visited positions first (`Ai.GameTree`) and then runs
  alpha-beta over it. For pure functions the two are the same.
- Search side: the search plays white when maximising and black when
  minimising, whichever side is to move. The root always minimises (black).
  A root whose stored status is already final, a draw with moves left
  included, yields no move. All of this is modelled as written.
- The `if (!table) return 0` branch of the positional lookup is dead code:
  every piece type has a table. It is not modelled.
- String formatting: the JavaScript `trim` whitespace set is modelled as an
  explicit character set (`Text.IsSpace`). `parseInt` is modelled as reading
  one decimal digit.
