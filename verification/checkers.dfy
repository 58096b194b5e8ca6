/** The checkers rule engine of `server/checkersGame.js`: joining, starting,
    move classification with mandatory and backward captures, capture chains,
    promotion, game-over detection, turn switching and abandonment. Every
    operation is a pure function from the old game to the new one. */
module Checkers {
  import opened Common
  import opened CheckersBoard

  datatype Player = Player(id: string, name: string, color: Color)

  datatype Status = Waiting | Playing | Finished

  /** The piece that must keep capturing, and the square it stopped on. */
  datatype Chain = Chain(pieceId: PieceId, row: Coord, col: Coord)

  datatype Game = Game(
    id: string,
    board: Board,
    players: seq<Player>,
    pieces: map<string, seq<Piece>>,   // player id -> that player's pieces still in play
    current: Option<string>,
    winner: Option<string>,
    status: Status,
    chain: Option<Chain>)

  datatype Move = Move(fromRow: Coord, fromCol: Coord, toRow: Coord, toCol: Coord)

  /** A move as a client submits it: `{from: [row, col], to: [row, col]}`
      with integers that nothing bounds. */
  datatype ClientMove = ClientMove(fromRow: int, fromCol: int, toRow: int, toCol: int)

  datatype MoveType = Simple | Capture | Invalid

  datatype MoveError = NotPlaying | NotYourTurn | InvalidPiece | InvalidMove | MustContinueChain

  /** `{valid:false, error}`, `{valid:true, continueCapture:true}`,
      `{valid:true, gameOver:true, winner}` and `{valid:true}`; `Crashed` is
      a TypeError thrown by indexing a row that does not exist. */
  datatype Outcome = Rejected(error: MoveError) | ContinueCapture | GameOver(winner: string) | Moved | Crashed

  datatype MoveResult = MoveResult(game: Game, outcome: Outcome)

  datatype AddError = GameFull

  datatype StartError = NeedTwoPlayers | NoWhitePlayer

  /** `startGame` may throw after it has already set the status, so the
      resulting game is reported together with the error, if any. */
  datatype StartResult = StartResult(game: Game, error: Option<StartError>)

  /** The constructor: a waiting game on an empty board. */
  function NewGame(id: string): (g: Game)
    ensures g.id == id && g.status == Waiting && g.players == [] && g.pieces == map[]
    ensures g.current == None && g.winner == None && g.chain == None
    ensures forall r: Coord, c: Coord :: At(g.board, r, c).None?
  {
    Game(id, EmptyBoard(), [], map[], None, None, Waiting, None)
  }

  /** `addPlayer`: a third player is refused; otherwise the player joins with
      twelve fresh men placed on their start squares. */
  function AddPlayer(g: Game, p: Player): (r: Result<Game, AddError>)
    ensures r.Err? <==> |g.players| >= 2
    ensures r.Ok? ==>
      var g' := r.value;
      var ps := InitialPieces(p.id, p.color);
      && g'.players == g.players + [p]
      && g'.pieces == g.pieces[p.id := ps]
      && (forall i :: 0 <= i < 12 ==> At(g'.board, ps[i].row, ps[i].col) == Some(ps[i]))
      && (forall r: Coord, c: Coord :: !(StartRow(p.color) <= r < StartRow(p.color) + 3 && IsDark(r, c)) ==>
            At(g'.board, r, c) == At(g.board, r, c))
      && g'.status == g.status && g'.current == g.current && g'.winner == g.winner && g'.chain == g.chain
  {
    if |g.players| >= 2 then Err(GameFull)
    else
      var ps := InitialPieces(p.id, p.color);
      InitialPiecesDistinct(p.id, p.color);
      InitialPiecesOnDarkStartRows(p.id, p.color);
      Ok(g.(players := g.players + [p], pieces := g.pieces[p.id := ps], board := PlacePieces(g.board, ps)))
  }

  /** `players.find(p => p.color === 'white')?.id`. */
  function FirstWhite(ps: seq<Player>): (r: Option<string>)
    ensures r.None? <==> forall i :: 0 <= i < |ps| ==> ps[i].color != White
    ensures r.Some? ==> exists i :: 0 <= i < |ps| && ps[i].color == White && ps[i].id == r.value &&
                                    forall j :: 0 <= j < i ==> ps[j].color != White
  {
    if ps == [] then None
    else if ps[0].color == White then Some(ps[0].id)
    else
      var r := FirstWhite(ps[1..]);
      assert forall i :: 1 <= i < |ps| ==> ps[i] == ps[1..][i - 1];
      r
  }

  /** `startGame`: needs exactly two players, then plays with white to move.
      The source sets the status before looking up white, so a pair without a
      white player leaves a playing game and a thrown error. */
  function StartGame(g: Game): (r: StartResult)
    ensures r.error == Some(NeedTwoPlayers) <==> |g.players| != 2
    ensures |g.players| != 2 ==> r.game == g
    ensures |g.players| == 2 ==>
      && r.game.status == Playing
      && r.game.board == g.board && r.game.players == g.players && r.game.pieces == g.pieces
      && r.game.chain == g.chain && r.game.winner == g.winner
    ensures |g.players| == 2 && r.error.None? ==>
      exists i :: 0 <= i < 2 && g.players[i].color == White && r.game.current == Some(g.players[i].id) &&
        forall j :: 0 <= j < i ==> g.players[j].color != White
    ensures r.error == Some(NoWhitePlayer) <==> |g.players| == 2 && forall i :: 0 <= i < 2 ==> g.players[i].color != White
    ensures r.error == Some(NoWhitePlayer) ==> r.game.current == g.current
  {
    if |g.players| != 2 then StartResult(g, Some(NeedTwoPlayers))
    else
      var g1 := g.(status := Playing);
      match FirstWhite(g.players)
      case None => StartResult(g1, Some(NoWhitePlayer))
      case Some(w) => StartResult(g1.(current := Some(w)), None)
  }

  /** `getPlayerColor`: the colour of the first player with that id, if any. */
  function PlayerColor(ps: seq<Player>, id: string): (r: Option<Color>)
    ensures r.None? <==> forall i :: 0 <= i < |ps| ==> ps[i].id != id
    ensures r.Some? ==> exists i :: 0 <= i < |ps| && ps[i].id == id && ps[i].color == r.value &&
                                    forall j :: 0 <= j < i ==> ps[j].id != id
  {
    if ps == [] then None
    else if ps[0].id == id then Some(ps[0].color)
    else
      var r := PlayerColor(ps[1..], id);
      assert forall i :: 1 <= i < |ps| ==> ps[i] == ps[1..][i - 1];
      r
  }

  /** The source compares the colour with 'white'; an unknown player counts as black. */
  predicate IsWhite(g: Game, id: string)
  {
    PlayerColor(g.players, id) == Some(White)
  }

  /** A man moves up the board (row decreasing) if white, down otherwise. */
  predicate Forward(g: Game, owner: string, dr: int)
  {
    if IsWhite(g, owner) then dr < 0 else dr > 0
  }

  /** `getCapturedPosition` in one dimension: the midpoint of a two-square
      jump, always a whole square because the jump spans exactly two. */
  function Midpoint(a: Coord, b: Coord): (m: Coord)
    requires Abs(b - a) == 2
    ensures 2 * m == a + b
  {
    a + (b - a) / 2
  }

  /** The two-square branch of `getMoveType` (lines 198-211): a capture iff the
      jumped square holds a piece of another player, in any direction and
      for men as well as kings. */
  function JumpType(g: Game, fr: Coord, fc: Coord, tr: Coord, tc: Coord, p: Piece): MoveType
    requires Abs(tr - fr) == 2 && Abs(tc - fc) == 2
  {
    var mid := At(g.board, Midpoint(fr, tr), Midpoint(fc, tc));
    if mid.None? || mid.value.owner == p.owner then Invalid else Capture
  }

  /** `getMoveType` as reached from `getPossibleCaptures`, where the target is
      always two squares away diagonally. */
  function JumpMoveType(g: Game, fr: Coord, fc: Coord, tr: Coord, tc: Coord, p: Piece): MoveType
    requires Abs(tr - fr) == 2 && Abs(tc - fc) == 2
  {
    if At(g.board, tr, tc).Some? then Invalid else JumpType(g, fr, fc, tr, tc, p)
  }

  /** The capture target two squares away along (dr, dc), if it is on the board
      and a capture. */
  function CaptureToward(g: Game, p: Piece, dr: int, dc: int): (sq: seq<(Coord, Coord)>)
    requires Abs(dr) == 2 && Abs(dc) == 2
    ensures forall tr: Coord, tc: Coord :: (tr, tc) in sq <==>
      tr == p.row + dr && tc == p.col + dc && JumpMoveType(g, p.row, p.col, tr, tc, p) == Capture
  {
    var tr := p.row + dr;
    var tc := p.col + dc;
    if 0 <= tr < 8 && 0 <= tc < 8 && JumpMoveType(g, p.row, p.col, tr, tc, p) == Capture
    then [(tr as Coord, tc as Coord)]
    else []
  }

  /** `getPossibleCaptures`: the capture targets of a piece, in the order
      up-left, up-right, down-left, down-right. */
  function GetPossibleCaptures(g: Game, p: Piece): (sq: seq<(Coord, Coord)>)
    ensures forall tr: Coord, tc: Coord :: (tr, tc) in sq <==>
      Abs(tr - p.row) == 2 && Abs(tc - p.col) == 2 && JumpMoveType(g, p.row, p.col, tr, tc, p) == Capture
  {
    CaptureToward(g, p, -2, -2) + CaptureToward(g, p, -2, 2) + CaptureToward(g, p, 2, -2) + CaptureToward(g, p, 2, 2)
  }

  /** `hasCaptures`: some piece in the player's list can capture. */
  predicate HasCaptures(g: Game, id: string)
    requires id in g.pieces
  {
    exists i :: 0 <= i < |g.pieces[id]| && |GetPossibleCaptures(g, g.pieces[id][i])| > 0
  }

  /** Piece `p` can jump two squares diagonally onto the empty square
      (tr, tc) over a piece of another player. */
  predicate CanJump(g: Game, p: Piece, tr: Coord, tc: Coord)
  {
    && Abs(tr - p.row) == 2 && Abs(tc - p.col) == 2
    && At(g.board, tr, tc).None?
    && At(g.board, Midpoint(p.row, tr), Midpoint(p.col, tc)).Some?
    && At(g.board, Midpoint(p.row, tr), Midpoint(p.col, tc)).value.owner != p.owner
  }

  /** Piece `p` can step one square diagonally onto the empty square
      (tr, tc): in any direction if it is a king, forward otherwise. */
  predicate CanStep(g: Game, p: Piece, tr: Coord, tc: Coord)
  {
    && Abs(tr - p.row) == 1 && Abs(tc - p.col) == 1
    && At(g.board, tr, tc).None?
    && (p.isKing || Forward(g, p.owner, tr - p.row))
  }

  /** `hasCaptures` holds exactly when some piece in the player's list has a
      jump available on the board. */
  lemma HasCapturesMeansAJump(g: Game, id: string)
    requires id in g.pieces
    ensures HasCaptures(g, id) <==>
      exists i, tr: Coord, tc: Coord :: 0 <= i < |g.pieces[id]| && CanJump(g, g.pieces[id][i], tr, tc)
  {
    var ps := g.pieces[id];
    if HasCaptures(g, id) {
      var i :| 0 <= i < |ps| && |GetPossibleCaptures(g, ps[i])| > 0;
      var t := GetPossibleCaptures(g, ps[i])[0];
      assert (t.0, t.1) in GetPossibleCaptures(g, ps[i]);
      assert CanJump(g, ps[i], t.0, t.1);
    }
    if exists i, tr: Coord, tc: Coord :: 0 <= i < |ps| && CanJump(g, ps[i], tr, tc) {
      var i, tr: Coord, tc: Coord :| 0 <= i < |ps| && CanJump(g, ps[i], tr, tc);
      assert (tr, tc) in GetPossibleCaptures(g, ps[i]);
    }
  }

  /** `getMoveType`: classifies a move of piece `p` from (fr, fc) to (tr, tc)
      by geometry. */
  function GetMoveType(g: Game, fr: Coord, fc: Coord, tr: Coord, tc: Coord, p: Piece): (t: MoveType)
    requires p.owner in g.pieces
    ensures t == Simple <==>
      && Abs(tr - fr) == 1 && Abs(tc - fc) == 1
      && At(g.board, tr, tc).None?
      && (p.isKing || Forward(g, p.owner, tr - fr))
      && !HasCaptures(g, p.owner)
    ensures t == Capture <==>
      && Abs(tr - fr) == 2 && Abs(tc - fc) == 2
      && At(g.board, tr, tc).None?
      && At(g.board, Midpoint(fr, tr), Midpoint(fc, tc)).Some?
      && At(g.board, Midpoint(fr, tr), Midpoint(fc, tc)).value.owner != p.owner
    ensures Abs(tr - fr) == 2 && Abs(tc - fc) == 2 ==> t == JumpMoveType(g, fr, fc, tr, tc, p)
  {
    var dr := tr - fr;
    if Abs(dr) != Abs(tc - fc) then Invalid
    else if At(g.board, tr, tc).Some? then Invalid
    else if Abs(dr) == 1 then
      if !p.isKing && !Forward(g, p.owner, dr) then Invalid
      else if HasCaptures(g, p.owner) then Invalid
      else Simple
    else if Abs(dr) == 2 then JumpType(g, fr, fc, tr, tc, p)
    else Invalid
  }

  /** The empty on-board square one step away along (dr, dc), if any. */
  function StepToward(g: Game, p: Piece, dr: int, dc: int): (sq: seq<(Coord, Coord)>)
    requires Abs(dr) == 1 && Abs(dc) == 1
    ensures forall tr: Coord, tc: Coord :: (tr, tc) in sq <==>
      tr == p.row + dr && tc == p.col + dc && At(g.board, tr, tc).None?
  {
    var tr := p.row + dr;
    var tc := p.col + dc;
    if 0 <= tr < 8 && 0 <= tc < 8 && At(g.board, tr, tc).None? then [(tr as Coord, tc as Coord)] else []
  }

  /** `getPossibleMoves`: the captures of a piece if it has any, otherwise its
      steps to empty squares (all four diagonals for a king, forward ones for a man). */
  function GetPossibleMoves(g: Game, p: Piece): (ms: seq<(Coord, Coord)>)
    ensures |GetPossibleCaptures(g, p)| > 0 ==> ms == GetPossibleCaptures(g, p)
    ensures |GetPossibleCaptures(g, p)| == 0 ==> forall tr: Coord, tc: Coord :: (tr, tc) in ms <==> CanStep(g, p, tr, tc)
  {
    var captures := GetPossibleCaptures(g, p);
    if |captures| > 0 then captures
    else if p.isKing then StepToward(g, p, -1, -1) + StepToward(g, p, -1, 1) + StepToward(g, p, 1, -1) + StepToward(g, p, 1, 1)
    else if IsWhite(g, p.owner) then StepToward(g, p, -1, -1) + StepToward(g, p, -1, 1)
    else StepToward(g, p, 1, -1) + StepToward(g, p, 1, 1)
  }

  /** `hasValidMoves`: some piece in the player's list has a possible move. */
  predicate HasValidMoves(g: Game, id: string)
    requires id in g.pieces
  {
    exists i :: 0 <= i < |g.pieces[id]| && |GetPossibleMoves(g, g.pieces[id][i])| > 0
  }

  /** `hasValidMoves` holds exactly when some piece in the player's list can
      jump or step somewhere. */
  lemma HasValidMovesMeansAMove(g: Game, id: string)
    requires id in g.pieces
    ensures HasValidMoves(g, id) <==>
      exists i, tr: Coord, tc: Coord :: 0 <= i < |g.pieces[id]| &&
        (CanJump(g, g.pieces[id][i], tr, tc) || CanStep(g, g.pieces[id][i], tr, tc))
  {
    var ps := g.pieces[id];
    if HasValidMoves(g, id) {
      var i :| 0 <= i < |ps| && |GetPossibleMoves(g, ps[i])| > 0;
      var t := GetPossibleMoves(g, ps[i])[0];
      assert (t.0, t.1) in GetPossibleMoves(g, ps[i]);
      if |GetPossibleCaptures(g, ps[i])| > 0 {
        assert CanJump(g, ps[i], t.0, t.1);
      } else {
        assert CanStep(g, ps[i], t.0, t.1);
      }
    }
    if exists i, tr: Coord, tc: Coord :: 0 <= i < |ps| && (CanJump(g, ps[i], tr, tc) || CanStep(g, ps[i], tr, tc)) {
      var i, tr: Coord, tc: Coord :| 0 <= i < |ps| && (CanJump(g, ps[i], tr, tc) || CanStep(g, ps[i], tr, tc));
      if CanJump(g, ps[i], tr, tc) {
        assert (tr, tc) in GetPossibleCaptures(g, ps[i]);
      } else if |GetPossibleCaptures(g, ps[i])| == 0 {
        assert (tr, tc) in GetPossibleMoves(g, ps[i]);
      }
    }
  }

  /** Whether a player can move depends only on the board, the players and
      the piece lists, not on whose turn it is or on the status. */
  lemma MovesIgnoreTurn(g: Game, h: Game, id: string)
    requires h.board == g.board && h.players == g.players && h.pieces == g.pieces && id in g.pieces
    ensures HasValidMoves(h, id) == HasValidMoves(g, id)
  {
    forall p: Piece
      ensures GetPossibleMoves(h, p) == GetPossibleMoves(g, p)
    {
      PieceMovesIgnoreTurn(g, h, p);
    }
  }

  lemma PieceMovesIgnoreTurn(g: Game, h: Game, p: Piece)
    requires h.board == g.board && h.players == g.players
    ensures GetPossibleMoves(h, p) == GetPossibleMoves(g, p)
  {
    assert CaptureToward(h, p, -2, -2) == CaptureToward(g, p, -2, -2);
    assert CaptureToward(h, p, -2, 2) == CaptureToward(g, p, -2, 2);
    assert CaptureToward(h, p, 2, -2) == CaptureToward(g, p, 2, -2);
    assert CaptureToward(h, p, 2, 2) == CaptureToward(g, p, 2, 2);
    assert IsWhite(h, p.owner) == IsWhite(g, p.owner);
  }

  /** `getPossibleCaptures` and `getPossibleMoves` offer exactly the targets
      that `getMoveType` accepts: a piece's capture list holds precisely its
      capturing moves, and when its owner has no capture anywhere its move
      list holds precisely its simple moves. */
  lemma PossibleMovesMatchMoveType(g: Game, p: Piece)
    requires p.owner in g.pieces && p in g.pieces[p.owner]
    ensures forall tr: Coord, tc: Coord ::
      (tr, tc) in GetPossibleCaptures(g, p) <==> GetMoveType(g, p.row, p.col, tr, tc, p) == Capture
    ensures !HasCaptures(g, p.owner) ==> forall tr: Coord, tc: Coord ::
      (tr, tc) in GetPossibleMoves(g, p) <==> GetMoveType(g, p.row, p.col, tr, tc, p) == Simple
  {
    if !HasCaptures(g, p.owner) {
      var k :| 0 <= k < |g.pieces[p.owner]| && g.pieces[p.owner][k] == p;
      assert |GetPossibleCaptures(g, g.pieces[p.owner][k])| == 0;
      forall tr: Coord, tc: Coord
        ensures (tr, tc) in GetPossibleMoves(g, p) <==> GetMoveType(g, p.row, p.col, tr, tc, p) == Simple
      {
        if (tr, tc) in GetPossibleMoves(g, p) {
          assert Abs(tr - p.row) == 1 && Abs(tc - p.col) == 1;
        }
      }
    }
  }

  /** `shouldPromoteToKing`: a man on the far row (row 0 for white, row 7 otherwise). */
  predicate ShouldPromote(g: Game, p: Piece)
  {
    !p.isKing && (if IsWhite(g, p.owner) then p.row == 0 else p.row == 7)
  }

  /** Crowning happens once, exactly on the far row: after promotion the
      piece on the square is a king iff it was one or a man reached row 0
      (white) or row 7 (otherwise), and promoting it again changes nothing. */
  lemma PromoteOnce(g: Game, moved: Piece)
    requires moved.owner in g.pieces && At(g.board, moved.row, moved.col) == Some(moved)
    ensures var g1 := Promote(g, moved);
      && At(g1.board, moved.row, moved.col).Some?
      && (At(g1.board, moved.row, moved.col).value.isKing <==>
          moved.isKing || moved.row == (if IsWhite(g, moved.owner) then 0 else 7))
      && !ShouldPromote(g1, At(g1.board, moved.row, moved.col).value)
      && Promote(g1, At(g1.board, moved.row, moved.col).value) == g1
  {
  }

  /** `findIndex(p => p.id === id)` on a piece list. */
  function FindPiece(ps: seq<Piece>, id: PieceId): (k: int)
    ensures -1 <= k < |ps|
    ensures k >= 0 ==> ps[k].id == id && forall j :: 0 <= j < k ==> ps[j].id != id
    ensures k == -1 ==> forall j :: 0 <= j < |ps| ==> ps[j].id != id
  {
    if ps == [] then -1
    else if ps[0].id == id then 0
    else
      var k := FindPiece(ps[1..], id);
      assert forall j :: 1 <= j < |ps| ==> ps[j] == ps[1..][j - 1];
      if k == -1 then -1 else k + 1
  }

  /** `removePiece` on one list: splices out the first piece with that id. */
  function RemovePieceFrom(ps: seq<Piece>, id: PieceId): (r: seq<Piece>)
    ensures (forall j :: 0 <= j < |ps| ==> ps[j].id != id) ==> r == ps
    ensures forall k :: 0 <= k < |ps| && ps[k].id == id && (forall j :: 0 <= j < k ==> ps[j].id != id) ==>
      r == ps[..k] + ps[k + 1..]
  {
    var k := FindPiece(ps, id);
    if k == -1 then ps else ps[..k] + ps[k + 1..]
  }

  /** Writes the new state of a piece into its owner's list (the source's
      board cell and list entry are one shared object). */
  function ReplacePiece(ps: seq<Piece>, q: Piece): (r: seq<Piece>)
    ensures |r| == |ps|
    ensures forall i :: 0 <= i < |ps| ==> r[i] == (if ps[i].id == q.id then q else ps[i])
  {
    seq(|ps|, i requires 0 <= i < |ps| => if ps[i].id == q.id then q else ps[i])
  }

  /** Writing two states of the same piece in turn leaves only the second. */
  lemma ReplaceTwice(ps: seq<Piece>, q: Piece, q': Piece)
    requires q.id == q'.id
    ensures ReplacePiece(ReplacePiece(ps, q), q') == ReplacePiece(ps, q')
  {
  }

  /** Every square other than the move's origin, its target and, for a
      two-square diagonal jump, the jumped square holds what it held before. */
  predicate OnlyMoveSquaresChange(before: Board, after: Board, m: Move)
  {
    forall r: Coord, c: Coord ::
      && (r != m.fromRow || c != m.fromCol) && (r != m.toRow || c != m.toCol)
      && !(Abs(m.toRow - m.fromRow) == 2 && Abs(m.toCol - m.fromCol) == 2 &&
           2 * r == m.fromRow + m.toRow && 2 * c == m.fromCol + m.toCol)
      ==> At(after, r, c) == At(before, r, c)
  }

  /** Two players with distinct ids and piece lists, and every piece on the
      board belongs to a player with a list. In such a game no step of
      `makeMove` dereferences a missing object. */
  predicate Ready(g: Game)
  {
    && |g.players| == 2
    && g.players[0].id != g.players[1].id
    && g.players[0].id in g.pieces && g.players[1].id in g.pieces
    && OwnersKnown(g)
  }

  /** Every piece on the board belongs to a player who has a piece list. */
  predicate OwnersKnown(g: Game)
  {
    forall r: Coord, c: Coord :: At(g.board, r, c).Some? ==> At(g.board, r, c).value.owner in g.pieces
  }

  /** Joining keeps every piece on the board attributable: the newcomer's men
      land only on their own start squares and get a piece list. */
  lemma AddPlayerKeepsOwnersKnown(g: Game, p: Player)
    requires OwnersKnown(g) && |g.players| < 2
    ensures OwnersKnown(AddPlayer(g, p).value)
  {
    var g' := AddPlayer(g, p).value;
    var ps := InitialPieces(p.id, p.color);
    InitialPiecesCoverStartRows(p.id, p.color);
    InitialPiecesOnDarkStartRows(p.id, p.color);
    forall r: Coord, c: Coord | At(g'.board, r, c).Some?
      ensures At(g'.board, r, c).value.owner in g'.pieces
    {
      if StartRow(p.color) <= r < StartRow(p.color) + 3 && IsDark(r, c) {
        var i :| 0 <= i < 12 && ps[i].row == r && ps[i].col == c;
        assert At(g'.board, r, c) == Some(ps[i]);
      } else {
        assert At(g'.board, r, c) == At(g.board, r, c);
      }
    }
  }
  /** Two players with different ids joining a new game leave it ready to
      play once started. */
  lemma TwoJoinsMakeReady(id: string, a: Player, b: Player)
    requires a.id != b.id
    ensures var g := AddPlayer(AddPlayer(NewGame(id), a).value, b).value;
      g.players == [a, b] && Ready(g)
  {
    var g0 := NewGame(id);
    var g1 := AddPlayer(g0, a).value;
    AddPlayerKeepsOwnersKnown(g0, a);
    AddPlayerKeepsOwnersKnown(g1, b);
  }


  /** The opponent of `id` in a two-player game. */
  function Other(g: Game, id: string): string
    requires |g.players| == 2
  {
    if g.players[0].id == id then g.players[1].id else g.players[0].id
  }

  /** `players.find(p => p.id !== id)?.id`. */
  function FirstOther(ps: seq<Player>, id: string): (r: Option<string>)
    ensures |ps| == 2 && ps[0].id != ps[1].id ==> r == Some(if ps[0].id == id then ps[1].id else ps[0].id)
  {
    if ps == [] then None
    else if ps[0].id != id then Some(ps[0].id)
    else FirstOther(ps[1..], id)
  }

  /** Lines 119-121 and 135-137: empty the origin, put the piece on the
      target, and record its new square. */
  function Relocate(g: Game, m: Move, p: Piece): (g': Game)
    requires p.owner in g.pieces
    ensures g'.players == g.players && g'.pieces.Keys == g.pieces.Keys
    ensures g'.current == g.current && g'.status == g.status && g'.chain == g.chain && g'.winner == g.winner
    ensures (m.fromRow != m.toRow || m.fromCol != m.toCol) ==> At(g'.board, m.fromRow, m.fromCol).None?
    ensures At(g'.board, m.toRow, m.toCol) == Some(p.(row := m.toRow, col := m.toCol))
    ensures forall r: Coord, c: Coord :: (r != m.fromRow || c != m.fromCol) && (r != m.toRow || c != m.toCol) ==>
      At(g'.board, r, c) == At(g.board, r, c)
    ensures forall id :: id in g.pieces && id != p.owner ==> g'.pieces[id] == g.pieces[id]
    ensures g'.pieces[p.owner] == ReplacePiece(g.pieces[p.owner], p.(row := m.toRow, col := m.toCol))
    ensures Ready(g) ==> Ready(g')
  {
    var moved := p.(row := m.toRow, col := m.toCol);
    g.(board := Set(Set(g.board, m.fromRow, m.fromCol, None), m.toRow, m.toCol, Some(moved)),
       pieces := g.pieces[p.owner := ReplacePiece(g.pieces[p.owner], moved)])
  }

  /** Lines 111-121: clear the jumped square, drop the jumped piece from its
      owner's list, then relocate the mover. */
  function ApplyCapture(g: Game, m: Move, p: Piece): (g': Game)
    requires Ready(g) && p.owner in g.pieces
    requires Abs(m.toRow - m.fromRow) == 2 && Abs(m.toCol - m.fromCol) == 2
    requires At(g.board, Midpoint(m.fromRow, m.toRow), Midpoint(m.fromCol, m.toCol)).Some?
    requires At(g.board, Midpoint(m.fromRow, m.toRow), Midpoint(m.fromCol, m.toCol)).value.owner != p.owner
    ensures Ready(g')
    ensures var mr := Midpoint(m.fromRow, m.toRow);
      var mc := Midpoint(m.fromCol, m.toCol);
      var c := At(g.board, mr, mc).value;
      && At(g'.board, mr, mc).None?
      && c.owner in g.pieces && c.owner in g'.pieces
      && g'.pieces[c.owner] == RemovePieceFrom(g.pieces[c.owner], c.id)
      && forall id :: id in g.pieces && id != p.owner && id != c.owner ==> id in g'.pieces && g'.pieces[id] == g.pieces[id]
    ensures g'.players == g.players && g'.pieces.Keys == g.pieces.Keys
    ensures g'.current == g.current && g'.status == g.status && g'.chain == g.chain && g'.winner == g.winner
    ensures At(g'.board, m.fromRow, m.fromCol).None?
    ensures At(g'.board, m.toRow, m.toCol) == Some(p.(row := m.toRow, col := m.toCol))
    ensures OnlyMoveSquaresChange(g.board, g'.board, m)
    ensures g'.pieces[p.owner] == ReplacePiece(g.pieces[p.owner], p.(row := m.toRow, col := m.toCol))
  {
    var mr := Midpoint(m.fromRow, m.toRow);
    var mc := Midpoint(m.fromCol, m.toCol);
    var c := At(g.board, mr, mc).value;
    var g1 := g.(board := Set(g.board, mr, mc, None),
                 pieces := g.pieces[c.owner := RemovePieceFrom(g.pieces[c.owner], c.id)]);
    Relocate(g1, m, p)
  }

  /** Lines 141-143: a man that ends on its far row is crowned, on the board
      and in its owner's list. */
  function Promote(g: Game, moved: Piece): (g': Game)
    requires moved.owner in g.pieces
    ensures g'.players == g.players && g'.pieces.Keys == g.pieces.Keys
    ensures g'.current == g.current && g'.status == g.status && g'.chain == g.chain && g'.winner == g.winner
    ensures At(g'.board, moved.row, moved.col) ==
      (if ShouldPromote(g, moved) then Some(moved.(isKing := true)) else At(g.board, moved.row, moved.col))
    ensures forall r: Coord, c: Coord :: (r != moved.row || c != moved.col) ==> At(g'.board, r, c) == At(g.board, r, c)
    ensures forall id :: id in g.pieces && id != moved.owner ==> g'.pieces[id] == g.pieces[id]
    ensures g'.pieces[moved.owner] ==
      (if ShouldPromote(g, moved) then ReplacePiece(g.pieces[moved.owner], moved.(isKing := true)) else g.pieces[moved.owner])
    ensures Ready(g) ==> Ready(g')
  {
    if ShouldPromote(g, moved) then
      var king := moved.(isKing := true);
      g.(board := Set(g.board, moved.row, moved.col, Some(king)),
         pieces := g.pieces[moved.owner := ReplacePiece(g.pieces[moved.owner], king)])
    else g
  }

  /** `checkGameOver`: a player without pieces loses (the first such player in
      join order); otherwise the player still to move loses if none of their
      pieces can move. The result is the winner. */
  function CheckGameOver(g: Game): (w: Option<string>)
    requires Ready(g) && g.current.Some? && g.current.value in g.pieces
    ensures w.Some? ==> w.value in {g.players[0].id, g.players[1].id}
    ensures w.None? <==>
      && |g.pieces[g.players[0].id]| > 0 && |g.pieces[g.players[1].id]| > 0
      && HasValidMoves(g, g.current.value)
    ensures |g.pieces[g.players[0].id]| == 0 ==> w == Some(g.players[1].id)
    ensures |g.pieces[g.players[0].id]| > 0 && |g.pieces[g.players[1].id]| == 0 ==> w == Some(g.players[0].id)
    ensures |g.pieces[g.players[0].id]| > 0 && |g.pieces[g.players[1].id]| > 0 && !HasValidMoves(g, g.current.value) ==>
      w == Some(Other(g, g.current.value))
  {
    var p0 := g.players[0];
    var p1 := g.players[1];
    if |g.pieces[p0.id]| == 0 then FirstOther(g.players, p0.id)
    else if |g.pieces[p1.id]| == 0 then FirstOther(g.players, p1.id)
    else if !HasValidMoves(g, g.current.value) then FirstOther(g.players, g.current.value)
    else None
  }

  /** `findIndex(p => p.id === id)` on the player list; -1 when absent. */
  function PlayerIndex(ps: seq<Player>, id: Option<string>): (k: int)
    ensures -1 <= k < |ps|
    ensures k >= 0 ==> id == Some(ps[k].id) && forall j :: 0 <= j < k ==> id != Some(ps[j].id)
    ensures k == -1 ==> forall j :: 0 <= j < |ps| ==> id != Some(ps[j].id)
  {
    if ps == [] then -1
    else if id == Some(ps[0].id) then 0
    else
      var k := PlayerIndex(ps[1..], id);
      assert forall j :: 1 <= j < |ps| ==> ps[j] == ps[1..][j - 1];
      if k == -1 then -1 else k + 1
  }

  /** `switchPlayer`: the player after the current one, modulo two (the first
      player when the current one is unknown). */
  function SwitchPlayer(g: Game): (g': Game)
    requires |g.players| >= 2
    ensures g' == g.(current := g'.current)
    ensures |g.players| == 2 && g.current.Some? ==> g'.current == Some(Other(g, g.current.value))
  {
    var next := (PlayerIndex(g.players, g.current) + 1) % 2;
    g.(current := Some(g.players[next].id))
  }

  /** The game-over rule of lines 146-155 read off the position `a` that a
      move by `mover` produced: a player left without pieces loses (the first
      such player in join order); otherwise the mover loses if none of their
      pieces can move; otherwise play goes on. */
  predicate EndRule(a: Game, mover: string, o: Outcome)
    requires |a.players| == 2 && a.players[0].id in a.pieces && a.players[1].id in a.pieces && mover in a.pieces
  {
    var n0 := |a.pieces[a.players[0].id]|;
    var n1 := |a.pieces[a.players[1].id]|;
    && (n0 == 0 ==> o == GameOver(a.players[1].id))
    && (n0 > 0 && n1 == 0 ==> o == GameOver(a.players[0].id))
    && (n0 > 0 && n1 > 0 && !HasValidMoves(a, mover) ==> o == GameOver(Other(a, mover)))
    && (n0 > 0 && n1 > 0 && HasValidMoves(a, mover) ==> o == Moved)
  }

  /** Lines 140-158: promotion, then the game-over check, then the turn
      switch unless a capture chain is pending. */
  function Conclude(g: Game, moved: Piece): (r: MoveResult)
    requires Ready(g) && moved.owner in g.pieces
    requires g.current == Some(moved.owner)
    requires At(g.board, moved.row, moved.col) == Some(moved)
    ensures r.outcome == Moved || r.outcome.GameOver?
    // the board and piece lists are those after promotion
    ensures var g1 := Promote(g, moved);
      r.game == g1.(current := r.game.current, status := r.game.status, winner := r.game.winner)
    ensures r.game.chain == g.chain
    ensures r.outcome == Moved ==>
      && r.game.status == g.status && r.game.winner == g.winner
      && r.game.current == (if g.chain.None? then Some(Other(g, moved.owner)) else g.current)
    ensures r.outcome.GameOver? ==>
      && r.game.status == Finished && r.game.winner == Some(r.outcome.winner) && r.game.current == g.current
      && r.outcome.winner in {g.players[0].id, g.players[1].id}
    // the game ends exactly when `checkGameOver` names a winner after promotion
    ensures var w := CheckGameOver(Promote(g, moved));
      && (r.outcome.GameOver? <==> w.Some?)
      && (w.Some? ==> r.outcome == GameOver(w.value))
    ensures Ready(r.game) && EndRule(r.game, moved.owner, r.outcome)
  {
    var g1 := Promote(g, moved);
    var r := match CheckGameOver(g1)
      case Some(w) => MoveResult(g1.(status := Finished, winner := Some(w)), GameOver(w))
      case None => MoveResult(if g1.chain.None? then SwitchPlayer(g1) else g1, Moved);
    MovesIgnoreTurn(g1, r.game, moved.owner);
    r
  }

  /** The checks of `makeMove` (lines 79-107), in the source's order. On
      success the result is the piece standing on the origin. */
  function Validate(g: Game, playerId: string, m: Move): (v: Result<Piece, MoveError>)
    requires g.status == Playing ==> Ready(g)
    ensures v == Err(NotPlaying) <==> g.status != Playing
    ensures g.status == Playing && g.current != Some(playerId) ==> v == Err(NotYourTurn)
    ensures (&& g.status == Playing && g.current == Some(playerId)
             && (At(g.board, m.fromRow, m.fromCol).None? || At(g.board, m.fromRow, m.fromCol).value.owner != playerId))
      ==> v == Err(InvalidPiece)
    ensures (&& g.chain.Some? && At(g.board, m.fromRow, m.fromCol).Some?
             && At(g.board, m.fromRow, m.fromCol).value.id != g.chain.value.pieceId)
      ==> v.Err?
    // an own piece is refused for an illegal move first, then for breaking a chain
    ensures (&& g.status == Playing && g.current == Some(playerId)
             && At(g.board, m.fromRow, m.fromCol).Some? && At(g.board, m.fromRow, m.fromCol).value.owner == playerId)
      ==> var p := At(g.board, m.fromRow, m.fromCol).value;
          var t := GetMoveType(g, m.fromRow, m.fromCol, m.toRow, m.toCol, p);
          && (t == Invalid ==> v == Err(InvalidMove))
          && (t != Invalid && g.chain.Some? && g.chain.value.pieceId != p.id ==> v == Err(MustContinueChain))
    ensures v.Ok? ==>
      && g.status == Playing && g.current == Some(playerId)
      && At(g.board, m.fromRow, m.fromCol) == Some(v.value) && v.value.owner == playerId
      && GetMoveType(g, m.fromRow, m.fromCol, m.toRow, m.toCol, v.value) != Invalid
      && (g.chain.None? || g.chain.value.pieceId == v.value.id)
  {
    if g.status != Playing then Err(NotPlaying)
    else if g.current != Some(playerId) then Err(NotYourTurn)
    else
      var cell := At(g.board, m.fromRow, m.fromCol);
      if cell.None? || cell.value.owner != playerId then Err(InvalidPiece)
      else
        var p := cell.value;
        if GetMoveType(g, m.fromRow, m.fromCol, m.toRow, m.toCol, p) == Invalid then Err(InvalidMove)
        else if g.chain.Some? && g.chain.value.pieceId != p.id then Err(MustContinueChain)
        else Ok(p)
  }

  /** Lines 123-132 followed by the common tail, once the jumped piece is
      gone and the capturer stands on its target: another capture from there
      keeps the chain going and the turn; otherwise the chain ends and the
      move concludes. Only the capturer's square changes on the board. */
  function AfterCapture(g: Game, moved: Piece): (r: MoveResult)
    requires Ready(g) && moved.owner in g.pieces && g.current == Some(moved.owner)
    requires At(g.board, moved.row, moved.col) == Some(moved)
    ensures !r.outcome.Rejected?
    ensures r.game.players == g.players
    ensures forall id :: id in g.pieces && id != moved.owner ==> id in r.game.pieces && r.game.pieces[id] == g.pieces[id]
    ensures forall rr: Coord, cc: Coord :: (rr != moved.row || cc != moved.col) ==> At(r.game.board, rr, cc) == At(g.board, rr, cc)
    ensures r.outcome == ContinueCapture ==>
      && r.game.chain == Some(Chain(moved.id, moved.row, moved.col))
      && r.game.current == g.current && r.game.status == g.status
      && At(r.game.board, moved.row, moved.col) == Some(moved)
      && |GetPossibleCaptures(r.game, moved)| > 0
    ensures r.outcome != ContinueCapture ==>
      && r.game.chain.None?
      && At(r.game.board, moved.row, moved.col) == Some(moved.(isKing := moved.isKing || ShouldPromote(g, moved)))
    ensures r.outcome == Moved ==> r.game.status == g.status && r.game.current == Some(Other(g, moved.owner))
    ensures r.outcome.GameOver? ==>
      && r.game.status == Finished && r.game.winner == Some(r.outcome.winner)
      && r.outcome.winner in {g.players[0].id, g.players[1].id}
    ensures Ready(r.game) && r.game.pieces.Keys == g.pieces.Keys
    ensures r.game.pieces[moved.owner] ==
      (if r.outcome != ContinueCapture && ShouldPromote(g, moved)
       then ReplacePiece(g.pieces[moved.owner], moved.(isKing := true)) else g.pieces[moved.owner])
    ensures r.outcome != ContinueCapture ==> EndRule(r.game, moved.owner, r.outcome)
  {
    if |GetPossibleCaptures(g, moved)| > 0 then
      MoveResult(g.(chain := Some(Chain(moved.id, moved.row, moved.col))), ContinueCapture)
    else
      var g2 := g.(chain := None);
      assert PlayerColor(g2.players, moved.owner) == PlayerColor(g.players, moved.owner);
      Conclude(g2, moved)
  }

  /** Lines 110-132 followed by the common tail: a validated capture. */
  function PerformCapture(g: Game, m: Move, p: Piece): (r: MoveResult)
    requires Ready(g) && p.owner in g.pieces && g.current == Some(p.owner)
    requires GetMoveType(g, m.fromRow, m.fromCol, m.toRow, m.toCol, p) == Capture
    ensures !r.outcome.Rejected?
    ensures r.game.players == g.players
    ensures At(r.game.board, m.fromRow, m.fromCol).None?
    ensures var mr := Midpoint(m.fromRow, m.toRow);
      var mc := Midpoint(m.fromCol, m.toCol);
      var c := At(g.board, mr, mc).value;
      && At(r.game.board, mr, mc).None?
      && c.owner in g.pieces && c.owner in r.game.pieces
      && r.game.pieces[c.owner] == RemovePieceFrom(g.pieces[c.owner], c.id)
    ensures r.outcome == ContinueCapture ==>
      && r.game.chain == Some(Chain(p.id, m.toRow, m.toCol))
      && r.game.current == g.current && r.game.status == g.status
      && At(r.game.board, m.toRow, m.toCol) == Some(p.(row := m.toRow, col := m.toCol))
      && |GetPossibleCaptures(r.game, At(r.game.board, m.toRow, m.toCol).value)| > 0
    ensures r.outcome != ContinueCapture ==>
      && r.game.chain.None?
      && (var moved := p.(row := m.toRow, col := m.toCol);
          At(r.game.board, m.toRow, m.toCol) == Some(moved.(isKing := p.isKing || ShouldPromote(g, moved))))
    ensures r.outcome == Moved ==> r.game.status == g.status && r.game.current == Some(Other(g, p.owner))
    ensures r.outcome.GameOver? ==>
      && r.game.status == Finished && r.game.winner == Some(r.outcome.winner)
      && r.outcome.winner in {g.players[0].id, g.players[1].id}
    ensures Ready(r.game) && r.game.pieces.Keys == g.pieces.Keys
    ensures r.outcome != ContinueCapture ==> EndRule(r.game, p.owner, r.outcome)
  {
    var moved := p.(row := m.toRow, col := m.toCol);
    var g1 := ApplyCapture(g, m, p);
    assert ShouldPromote(g1, moved) == ShouldPromote(g, moved);
    AfterCapture(g1, moved)
  }

  /** Nothing else changes in a capture: the board outside the three
      squares, and every list but the capturer's, which holds the piece's new
      state, and the captured player's. */
  lemma CaptureFrame(g: Game, m: Move, p: Piece)
    requires Ready(g) && p.owner in g.pieces && g.current == Some(p.owner)
    requires GetMoveType(g, m.fromRow, m.fromCol, m.toRow, m.toCol, p) == Capture
    ensures var r := PerformCapture(g, m, p);
      && OnlyMoveSquaresChange(g.board, r.game.board, m)
      && r.game.pieces[p.owner] == ReplacePiece(g.pieces[p.owner], At(r.game.board, m.toRow, m.toCol).value)
      && var c := At(g.board, Midpoint(m.fromRow, m.toRow), Midpoint(m.fromCol, m.toCol)).value;
         forall id :: id in g.pieces && id != p.owner && id != c.owner ==> r.game.pieces[id] == g.pieces[id]
  {
    var moved := p.(row := m.toRow, col := m.toCol);
    var g1 := ApplyCapture(g, m, p);
    assert ShouldPromote(g1, moved) == ShouldPromote(g, moved);
    ReplaceTwice(g.pieces[p.owner], moved, moved.(isKing := true));
  }

  /** Lines 133-138 followed by the common tail: a validated one-step move. */
  function PerformSimple(g: Game, m: Move, p: Piece): (r: MoveResult)
    requires Ready(g) && p.owner in g.pieces && g.current == Some(p.owner)
    requires GetMoveType(g, m.fromRow, m.fromCol, m.toRow, m.toCol, p) == Simple
    ensures r.outcome == Moved || r.outcome.GameOver?
    ensures r.game.players == g.players && r.game.chain == g.chain
    ensures forall id :: id in g.pieces ==> id in r.game.pieces
    ensures At(r.game.board, m.fromRow, m.fromCol).None?
    ensures var moved := p.(row := m.toRow, col := m.toCol);
      At(r.game.board, m.toRow, m.toCol) == Some(moved.(isKing := p.isKing || ShouldPromote(g, moved)))
    ensures r.outcome == Moved ==>
      && r.game.status == g.status
      && r.game.current == (if g.chain.None? then Some(Other(g, p.owner)) else g.current)
    ensures r.outcome.GameOver? ==>
      && r.game.status == Finished && r.game.winner == Some(r.outcome.winner)
      && r.outcome.winner in {g.players[0].id, g.players[1].id}
    // nothing else changes: the board outside the two squares, the other lists
    ensures Ready(r.game) && r.game.pieces.Keys == g.pieces.Keys
    ensures OnlyMoveSquaresChange(g.board, r.game.board, m)
    ensures r.game.pieces[p.owner] == ReplacePiece(g.pieces[p.owner], At(r.game.board, m.toRow, m.toCol).value)
    ensures forall id :: id in g.pieces && id != p.owner ==> r.game.pieces[id] == g.pieces[id]
    ensures EndRule(r.game, p.owner, r.outcome)
  {
    var moved := p.(row := m.toRow, col := m.toCol);
    var g1 := Relocate(g, m, p);
    assert ShouldPromote(g1, moved) == ShouldPromote(g, moved);
    ReplaceTwice(g.pieces[p.owner], moved, moved.(isKing := true));
    Conclude(g1, moved)
  }

  /** Lines 108-158: a move of piece `p` that passed every check of
      `makeMove`, a capture if it spans two rows and a step otherwise. */
  function Play(g: Game, m: Move, p: Piece): (r: MoveResult)
    requires Ready(g) && g.status == Playing && g.current == Some(p.owner)
    requires At(g.board, m.fromRow, m.fromCol) == Some(p)
    requires GetMoveType(g, m.fromRow, m.fromCol, m.toRow, m.toCol, p) != Invalid
    ensures !r.outcome.Rejected?
    ensures Ready(r.game) && r.game.players == g.players && r.game.pieces.Keys == g.pieces.Keys
    // the piece leaves its origin and ends on the target, crowned at most
    ensures At(r.game.board, m.fromRow, m.fromCol).None?
    ensures At(r.game.board, m.toRow, m.toCol).Some?
    ensures At(r.game.board, m.toRow, m.toCol).value.(isKing := p.isKing) == p.(row := m.toRow, col := m.toCol)
    ensures p.isKing ==> At(r.game.board, m.toRow, m.toCol).value.isKing
    // nothing else changes: the board outside the move's squares, and every
    // list but the mover's, which holds the piece's new state, and the captured player's
    ensures OnlyMoveSquaresChange(g.board, r.game.board, m)
    ensures r.game.pieces[p.owner] == ReplacePiece(g.pieces[p.owner], At(r.game.board, m.toRow, m.toCol).value)
    ensures Abs(m.toRow - m.fromRow) == 1 ==>
      forall id :: id in g.pieces && id != p.owner ==> r.game.pieces[id] == g.pieces[id]
    // a capture clears the jumped square and drops the jumped piece from its owner's list
    ensures Abs(m.toRow - m.fromRow) == 2 ==>
      var mr := Midpoint(m.fromRow, m.toRow);
      var mc := Midpoint(m.fromCol, m.toCol);
      var c := At(g.board, mr, mc).value;
      && At(r.game.board, mr, mc).None?
      && c.owner != p.owner
      && r.game.pieces[c.owner] == RemovePieceFrom(g.pieces[c.owner], c.id)
      && forall id :: id in g.pieces && id != p.owner && id != c.owner ==> r.game.pieces[id] == g.pieces[id]
    // a capture with a further capture available keeps the turn and records the chain, unpromoted
    ensures r.outcome == ContinueCapture ==>
      && Abs(m.toRow - m.fromRow) == 2
      && r.game.chain == Some(Chain(p.id, m.toRow, m.toCol))
      && r.game.current == g.current && r.game.status == Playing
      && At(r.game.board, m.toRow, m.toCol).value.isKing == p.isKing
      && |GetPossibleCaptures(r.game, At(r.game.board, m.toRow, m.toCol).value)| > 0
    // a completed move crowns a man on its far row
    ensures r.outcome == Moved || r.outcome.GameOver? ==>
      At(r.game.board, m.toRow, m.toCol).value.isKing ==
        (p.isKing || (if IsWhite(g, p.owner) then m.toRow == 0 else m.toRow == 7))
    // a completed move ends the game exactly as the game-over rule reads the new position
    ensures r.outcome == Moved || r.outcome.GameOver? ==> EndRule(r.game, p.owner, r.outcome)
    // the turn passes exactly when no chain is pending
    ensures r.outcome == Moved ==>
      && r.game.status == Playing
      && (r.game.chain.None? ==> r.game.current == Some(Other(g, p.owner)))
      && (r.game.chain.Some? ==> r.game.current == g.current)
    ensures r.outcome.GameOver? ==>
      && r.game.status == Finished && r.game.winner == Some(r.outcome.winner)
      && r.outcome.winner in {g.players[0].id, g.players[1].id}
  {
    if Abs(m.toRow - m.fromRow) == 2 then CaptureFrame(g, m, p); PerformCapture(g, m, p) else PerformSimple(g, m, p)
  }

  /** `makeMove`: the checks of lines 79-107, then the move itself. Every
      refusal is decided before anything changes. */
  function MakeMove(g: Game, playerId: string, m: Move): (r: MoveResult)
    requires g.status == Playing ==> Ready(g)
    // refusals leave the game exactly as it was
    ensures r.outcome.Rejected? ==> r.game == g
    ensures r.outcome == Rejected(NotPlaying) <==> g.status != Playing
    ensures g.status == Playing && g.current != Some(playerId) ==> r.outcome == Rejected(NotYourTurn)
    ensures (&& g.status == Playing && g.current == Some(playerId)
             && (At(g.board, m.fromRow, m.fromCol).None? || At(g.board, m.fromRow, m.fromCol).value.owner != playerId))
      ==> r.outcome == Rejected(InvalidPiece)
    // an own piece is refused for an illegal move first, then for breaking a chain
    ensures (&& g.status == Playing && g.current == Some(playerId)
             && At(g.board, m.fromRow, m.fromCol).Some? && At(g.board, m.fromRow, m.fromCol).value.owner == playerId)
      ==> var p := At(g.board, m.fromRow, m.fromCol).value;
          var t := GetMoveType(g, m.fromRow, m.fromCol, m.toRow, m.toCol, p);
          && (t == Invalid ==> r.outcome == Rejected(InvalidMove))
          && (t != Invalid && g.chain.Some? && g.chain.value.pieceId != p.id ==> r.outcome == Rejected(MustContinueChain))
    // during a chain only the chained piece may move
    ensures (&& g.chain.Some? && At(g.board, m.fromRow, m.fromCol).Some?
             && At(g.board, m.fromRow, m.fromCol).value.id != g.chain.value.pieceId)
      ==> r.outcome.Rejected?
    ensures g.status == Playing ==> Ready(r.game)
    // an accepted move is a legal one of the player's own piece, played out as above
    ensures !r.outcome.Rejected? ==>
      && g.status == Playing && g.current == Some(playerId)
      && At(g.board, m.fromRow, m.fromCol).Some? && At(g.board, m.fromRow, m.fromCol).value.owner == playerId
      && GetMoveType(g, m.fromRow, m.fromCol, m.toRow, m.toCol, At(g.board, m.fromRow, m.fromCol).value) != Invalid
      && (g.chain.None? || g.chain.value.pieceId == At(g.board, m.fromRow, m.fromCol).value.id)
      && r == Play(g, m, At(g.board, m.fromRow, m.fromCol).value)
  {
    match Validate(g, playerId, m)
    case Err(e) => MoveResult(g, Rejected(e))
    case Ok(p) => Play(g, m, p)
  }

  predicate OnBoard(x: int)
  {
    0 <= x < 8
  }

  /** `makeMove` on a move as a client submits it. Off the board, the source
      reads `board[row]` as `undefined`: indexing into it throws a TypeError
      (origin row at line 92, target row at line 173), while an off-board
      column reads `undefined`, which the piece check (line 93) or the
      empty-target check (line 173) refuses. The diagonal test of line 168
      needs no square, so it comes first among the target checks. Nothing is
      changed before any of these. */
  function SubmitMove(g: Game, playerId: string, cm: ClientMove): (r: MoveResult)
    requires g.status == Playing ==> Ready(g)
    // a move on the board is the engine's move
    ensures OnBoard(cm.fromRow) && OnBoard(cm.fromCol) && OnBoard(cm.toRow) && OnBoard(cm.toCol) ==>
      r == MakeMove(g, playerId, Move(cm.fromRow, cm.fromCol, cm.toRow, cm.toCol))
    // a move off the board is never played, whatever the checks say
    ensures !(OnBoard(cm.fromRow) && OnBoard(cm.fromCol) && OnBoard(cm.toRow) && OnBoard(cm.toCol)) ==>
      && r.game == g && (r.outcome.Rejected? || r.outcome == Crashed)
    ensures r.outcome == Rejected(NotPlaying) <==> g.status != Playing
    ensures g.status == Playing && g.current != Some(playerId) ==> r.outcome == Rejected(NotYourTurn)
    // the throws: a missing origin row, or a missing target row on a diagonal from an own piece
    ensures r.outcome == Crashed <==>
      && g.status == Playing && g.current == Some(playerId)
      && (|| !OnBoard(cm.fromRow)
          || (&& OnBoard(cm.fromCol)
              && At(g.board, cm.fromRow, cm.fromCol).Some? && At(g.board, cm.fromRow, cm.fromCol).value.owner == playerId
              && Abs(cm.toRow - cm.fromRow) == Abs(cm.toCol - cm.fromCol)
              && !OnBoard(cm.toRow)))
    ensures (&& g.status == Playing && g.current == Some(playerId)
             && OnBoard(cm.fromRow) && !OnBoard(cm.fromCol))
      ==> r.outcome == Rejected(InvalidPiece)
    ensures (&& g.status == Playing && g.current == Some(playerId)
             && OnBoard(cm.fromRow) && OnBoard(cm.fromCol)
             && At(g.board, cm.fromRow, cm.fromCol).Some? && At(g.board, cm.fromRow, cm.fromCol).value.owner == playerId
             && (Abs(cm.toRow - cm.fromRow) != Abs(cm.toCol - cm.fromCol) || (OnBoard(cm.toRow) && !OnBoard(cm.toCol))))
      ==> r.outcome == Rejected(InvalidMove)
  {
    if OnBoard(cm.fromRow) && OnBoard(cm.fromCol) && OnBoard(cm.toRow) && OnBoard(cm.toCol) then
      MakeMove(g, playerId, Move(cm.fromRow, cm.fromCol, cm.toRow, cm.toCol))
    else if g.status != Playing then MoveResult(g, Rejected(NotPlaying))
    else if g.current != Some(playerId) then MoveResult(g, Rejected(NotYourTurn))
    else if !OnBoard(cm.fromRow) then MoveResult(g, Crashed)
    else if !OnBoard(cm.fromCol) then MoveResult(g, Rejected(InvalidPiece))
    else
      var cell := At(g.board, cm.fromRow, cm.fromCol);
      if cell.None? || cell.value.owner != playerId then MoveResult(g, Rejected(InvalidPiece))
      else if Abs(cm.toRow - cm.fromRow) != Abs(cm.toCol - cm.fromCol) then MoveResult(g, Rejected(InvalidMove))
      else if !OnBoard(cm.toRow) then MoveResult(g, Crashed)
      else MoveResult(g, Rejected(InvalidMove))
  }

  /** `removePlayer`: an unknown id changes nothing; otherwise the player and
      their piece list go (their men stay on the board), and a playing game
      left with one player is won by that player. */
  function RemovePlayer(g: Game, playerId: string): (g': Game)
    ensures (forall i :: 0 <= i < |g.players| ==> g.players[i].id != playerId) ==> g' == g
    // otherwise the first entry with that id is spliced out, the others keep their order
    ensures var k := PlayerIndex(g.players, Some(playerId));
      k >= 0 ==>
        && g'.players == g.players[..k] + g.players[k + 1..]
        && |g'.players| == |g.players| - 1
        && playerId !in g'.pieces
        && g'.pieces == g.pieces - {playerId}
        && g'.board == g.board && g'.current == g.current && g'.chain == g.chain
        && (g.status == Playing && |g'.players| == 1 ==> g'.status == Finished && g'.winner == Some(g'.players[0].id))
        && (!(g.status == Playing && |g'.players| == 1) ==> g'.status == g.status && g'.winner == g.winner)
  {
    var k := PlayerIndex(g.players, Some(playerId));
    if k == -1 then g
    else
      var rest := g.players[..k] + g.players[k + 1..];
      var g1 := g.(players := rest, pieces := g.pieces - {playerId});
      if g.status == Playing && |rest| == 1 then g1.(winner := Some(rest[0].id), status := Finished) else g1
  }

  /** A player leaving a game in play against one opponent with another id
      hands that opponent the win. */
  lemma LeaverLoses(g: Game, i: nat)
    requires g.status == Playing && |g.players| == 2 && i < 2 && g.players[0].id != g.players[1].id
    ensures var g' := RemovePlayer(g, g.players[i].id);
      && g'.players == [g.players[1 - i]]
      && g'.status == Finished && g'.winner == Some(g.players[1 - i].id)
      && g.players[i].id !in g'.pieces
  {
    assert PlayerIndex(g.players, Some(g.players[i].id)) == i;
  }

  /** Jumping the opponent's last listed piece wins the game for the mover,
      unless a further capture keeps the chain going. */
  lemma LastCaptureWins(g: Game, playerId: string, m: Move)
    requires g.status == Playing && Ready(g)
    requires playerId == g.players[0].id || playerId == g.players[1].id
    requires |g.pieces[playerId]| > 0
    requires Abs(m.toRow - m.fromRow) == 2 && Abs(m.toCol - m.fromCol) == 2
    requires |g.pieces[Other(g, playerId)]| == 1
    requires var c := g.pieces[Other(g, playerId)][0];
      c.owner == Other(g, playerId) && At(g.board, Midpoint(m.fromRow, m.toRow), Midpoint(m.fromCol, m.toCol)) == Some(c)
    requires !MakeMove(g, playerId, m).outcome.Rejected?
    ensures MakeMove(g, playerId, m).outcome in {ContinueCapture, GameOver(playerId)}
  {
  }
}
