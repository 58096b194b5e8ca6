/** The Ludo engine of `server/ludoGame.js`.

    Several names the file calls are never defined in it: `nextTurn`,
    `switchPlayer`, `isPlayerTurn`, `getGameState` and `isBackward`. Passing
    the turn is treated as an abstract step: an operation reports that the
    source passes the turn at that point and returns the state before that
    step. The state snapshots built by `getGameState` are not modelled.

    `calculateNewPosition` is defined twice; the later, index-based
    definition is the one JavaScript keeps, so it is the one every call site
    reaches. Both are modelled (`AdvanceByDistance`, `AdvanceByIndex`), and
    the move generator takes the rule as a parameter. */
module Ludo {
  import opened Common

  datatype Color = Red | Blue | Yellow | Green

  /** `'base'`, a main-track number, `'home-k'`, or `'finished'`. */
  datatype Pos = Base | Track(n: int) | Home(k: int) | Finished

  /** The piece id `${color}-${index}`. */
  datatype PieceId = PieceId(color: Color, index: nat)

  /** The source's pieces carry no owner; `distance` is `distanceTraveled`. */
  datatype Piece = Piece(id: PieceId, color: Color, pos: Pos, isInPlay: bool, distance: int)

  datatype Player = Player(id: string, name: string, color: Color, pieces: seq<Piece>, finishedPieces: int, isActive: bool)

  /** `'waiting'`, `'playing'`, `'finished'`. */
  datatype Status = Waiting | Playing | GameFinished

  datatype MoveKind = StartMove | NormalMove | HomeMove | FinishMove | CaptureMove

  /** An entry of `possibleMoves`. */
  datatype MoveOption = MoveOption(pieceId: PieceId, from: Pos, to: Pos, kind: MoveKind, backward: bool)

  /** The engine's fields. `gameStatus` is the status the constructor and
      `addPlayer` maintain; `status` is the distinct field that `makeMove`
      reads and writes, which nothing else ever sets. */
  datatype Game = Game(
    players: seq<Player>,
    currentPlayerIndex: int,
    diceValue: Option<int>,
    consecutiveSixes: int,
    winner: Option<string>,
    gameStatus: Status,
    status: Option<Status>,
    canRollDice: bool,
    mustMoveAfterDice: bool,
    possibleMoves: seq<MoveOption>)

  /** The constructor. */
  function NewGame(): (g: Game)
    ensures g.players == [] && g.currentPlayerIndex == 0 && g.diceValue == None && g.consecutiveSixes == 0
    ensures g.winner == None && g.gameStatus == Waiting && g.status == None
    ensures g.canRollDice && !g.mustMoveAfterDice && g.possibleMoves == []
  {
    Game([], 0, None, 0, None, Waiting, None, true, false, [])
  }

  // ----- constants -----

  /** Cells on which no capture happens, as the capture logic lists them. */
  const SafeCells: set<int> := {1, 9, 14, 22, 27, 35, 40, 48}

  /** `board.startPositions[color]`: where a piece leaving base lands in the
      move list. */
  function StartSquare(c: Color): int
  {
    match c
    case Red => 0
    case Blue => 13
    case Yellow => 26
    case Green => 39
  }

  /** The index of a player in join order, or -1 when `findIndex` finds none. */
  type OwnerIndex = i: int | -1 <= i < 4

  /** `getStartPosition`: `[1, 14, 27, 40][index]`, undefined for -1. */
  function StartPosition(i: OwnerIndex): (r: Option<int>)
    ensures r.None? <==> i == -1
    // thirteen squares apart, each one a safe cell
    ensures r.Some? ==> r.value == 1 + 13 * i && r.value in SafeCells
  {
    if i == -1 then None else Some([1, 14, 27, 40][i])
  }

  /** `getMaxPosition`: 52 plus six home cells per earlier player. */
  function MaxPosition(i: OwnerIndex): int
  {
    52 + 6 * i
  }

  // ----- joining -----

  /** `colors[players.length]`. */
  function DefaultColor(k: int): Color
    requires 0 <= k < 4
  {
    [Red, Blue, Yellow, Green][k]
  }

  /** The four pieces `initializePieces` creates for a colour. */
  function InitialPieces(c: Color): (ps: seq<Piece>)
    ensures |ps| == 4
    ensures forall i :: 0 <= i < 4 ==> ps[i] == Piece(PieceId(c, i), c, Base, false, 0)
  {
    seq(4, i requires 0 <= i < 4 => Piece(PieceId(c, i), c, Base, false, 0))
  }

  /** `initializePieces`: the counting loop of the source. */
  method InitializePieces(c: Color) returns (ps: seq<Piece>)
    ensures ps == InitialPieces(c)
  {
    ps := [];
    var i := 0;
    while i < 4
      invariant 0 <= i <= 4 && |ps| == i
      invariant forall k :: 0 <= k < i ==> ps[k] == Piece(PieceId(c, k), c, Base, false, 0)
    {
      ps := ps + [Piece(PieceId(c, i), c, Base, false, 0)];
      i := i + 1;
    }
  }

  /** The `{ error }` results of the engine. `StartUndefined` stands for a
      piece leaving base for an owner `findIndex` does not find, which the
      source accepts with an undefined new position. */
  datatype Error =
    | GameFull | NotYourTurn | MustMoveFirst
    | NotInProgress | MustRollFirst | InvalidPiece | BackwardNotAllowed | NeedSix | MoveImpossible | NoCapture
    | StartUndefined

  /** `addPlayer`: a fifth player is refused; otherwise the player joins with
      the given colour or the next default one, and the game starts when the
      second player arrives. */
  function AddPlayer(g: Game, id: string, name: string, color: Option<Color>): (r: Result<Game, Error>)
    ensures r.Err? <==> |g.players| >= 4
    ensures r.Ok? ==>
      var c := if color.Some? then color.value else DefaultColor(|g.players|);
      && r.value.players == g.players + [Player(id, name, c, InitialPieces(c), 0, true)]
      && r.value.gameStatus == (if |g.players| == 1 then Playing else g.gameStatus)
      && r.value == g.(players := r.value.players, gameStatus := r.value.gameStatus)
  {
    if |g.players| >= 4 then Err(GameFull)
    else
      var c := if color.Some? then color.value else DefaultColor(|g.players|);
      var players := g.players + [Player(id, name, c, InitialPieces(c), 0, true)];
      Ok(g.(players := players, gameStatus := if |players| == 2 then Playing else g.gameStatus))
  }

  // ----- the two position rules -----

  /** The first `calculateNewPosition` (lines 216-256), driven by the
      distance a piece has travelled. Its colour argument only feeds two
      locals that are never read, so it is omitted here. On the track the
      square is `(pos + steps) % 52` with JavaScript's remainder; past 50
      travelled steps the piece enters its home column at `home-(d+steps-52)`,
      which is `home--1` when exactly 51 steps have been travelled. Reading
      a home cell back, `parseInt` of the text between the first two dashes
      is `NaN` for `home--1` (the text is empty), so such a piece has no
      further position. */
  function AdvanceByDistance(pos: Pos, distance: int, steps: int): (r: Option<Pos>)
    ensures pos.Base? || pos.Finished? ==> r.None?
    ensures pos.Track? && distance + steps <= 50 ==>
      r.Some? && r.value.Track? && r.value.n == JsRem(pos.n + steps, 52)
    ensures pos.Track? && distance + steps > 50 ==>
      (r.Some? <==> distance + steps <= 57) &&
      (r.Some? ==> r.value == Home(distance + steps - 52) && -1 <= r.value.k <= 5)
    ensures pos.Home? && pos.k < 0 ==> r.None?
    ensures pos.Home? && pos.k >= 0 ==>
      && (r == Some(Finished) <==> pos.k + steps == 5)
      && (r.Some? && r.value.Home? <==> pos.k + steps < 5)
      && (r.Some? && r.value.Home? ==> r.value.k == pos.k + steps)
      && (r.None? <==> pos.k + steps > 5)
  {
    match pos
    case Base => None
    case Finished => None
    case Track(p) =>
      if distance + steps > 50 then
        var stepsInHome := distance + steps - 51;
        if stepsInHome <= 6 then Some(Home(stepsInHome - 1)) else None
      else Some(Track(JsRem(p + steps, 52)))
    case Home(k) =>
      if k < 0 then None
      else
        var n := k + steps;
        if n == 5 then Some(Finished) else if n < 5 then Some(Home(n)) else None
  }

  /** Whether `getStartPosition` forbids a raw square: below the start
      square but within a lap of it. Never for an undefined start. */
  predicate BeforeStart(raw: int, i: OwnerIndex)
  {
    StartPosition(i).Some? && raw < StartPosition(i).value && raw + 52 > StartPosition(i).value
  }

  /** The second `calculateNewPosition` (lines 308-334), the live one. It adds
      the die when `direction` is `'forward'` and subtracts it otherwise. On a
      square in the home column or `'finished'` the source computes with a
      string (giving `NaN` or a concatenated string); the model returns no
      position there. */
  function AdvanceByIndex(pos: Pos, steps: int, forward: bool, i: OwnerIndex): (r: Option<Pos>)
    ensures r.Some? ==> pos.Track?
    ensures pos.Track? ==>
      var raw := if forward then pos.n + steps else pos.n - steps;
      && (raw < 1 || BeforeStart(raw, i) || raw > MaxPosition(i) ==> r.None?)
      && (r == Some(Finished) <==> !BeforeStart(raw, i) && raw == MaxPosition(i))
      && (r.Some? && r.value.Track? ==>
            && 1 <= r.value.n <= 52 && r.value.n < MaxPosition(i)
            && r.value.n == (if raw > 52 then raw - 52 else raw))
      && (r.Some? ==> r.value.Track? || r.value.Finished?)
      && (1 <= raw < MaxPosition(i) && !BeforeStart(raw, i) ==> r.Some? && r.value.Track?)
  {
    match pos
    case Track(p) =>
      var raw := if forward then p + steps else p - steps;
      if raw < 1 || BeforeStart(raw, i) then None
      else if raw > MaxPosition(i) then None
      else if raw == MaxPosition(i) then Some(Finished)
      else if raw > 52 then Some(Track(raw - 52))
      // the source's further wrap for squares below 1 cannot be reached
      else Some(Track(raw))
    case _ => None
  }

  /** Which definition of `calculateNewPosition` a call reaches, with the
      direction and owner it is called with. */
  datatype Rule = ByDistance | ByIndex(forward: bool, owner: OwnerIndex)

  /** The rule every call in `calculatePossibleMoves` reaches: the index-based
      definition, handed a colour where it expects `'forward'` (so it
      subtracts), for a piece whose undefined `playerId` is found at no index. */
  const LiveRule: Rule := ByIndex(false, -1)

  function Advance(rule: Rule, p: Piece, steps: int): Option<Pos>
  {
    match rule
    case ByDistance => AdvanceByDistance(p.pos, p.distance, steps)
    case ByIndex(forward, i) => AdvanceByIndex(p.pos, steps, forward, i)
  }

  /** `getMoveType`. */
  function MoveKindOf(from: Pos, to: Pos): (k: MoveKind)
    ensures k == StartMove <==> from.Base?
    ensures k == FinishMove <==> !from.Base? && to.Finished?
    ensures k == HomeMove <==> !from.Base? && to.Home?
    ensures k != CaptureMove
  {
    if from.Base? then StartMove
    else if to.Finished? then FinishMove
    else if to.Home? then HomeMove
    else NormalMove
  }

  // ----- captures -----

  /** Whether a player is skipped as the owner of a piece: `player.id ===
      piece.playerId`. `None` is an undefined `playerId`, which skips nobody. */
  predicate IsOwner(p: Player, owner: Option<string>)
  {
    owner == Some(p.id)
  }

  /** Whether some piece of a non-skipped player stands on `pos`. */
  predicate Occupied(players: seq<Player>, pos: Pos, owner: Option<string>)
  {
    exists i, j :: 0 <= i < |players| && !IsOwner(players[i], owner) &&
      0 <= j < |players[i].pieces| && players[i].pieces[j].pos == pos
  }

  /** `canCaptureBackward`: from a track square, the square `steps` behind
      (wrapping at 52) holds a piece of another player and is not safe. */
  predicate CanCaptureBackward(players: seq<Player>, p: Piece, steps: int, owner: Option<string>)
  {
    p.pos.Track? &&
    var back := JsRem(p.pos.n - steps + 52, 52);
    back !in SafeCells && Occupied(players, Track(back), owner)
  }

  /** `canCaptureBackward` and `checkCaptures` agree on the square behind: a
      piece may move back exactly when a capture check there would send a
      piece to base, and only a piece on the track can. */
  lemma BackwardCaptureAgrees(players: seq<Player>, p: Piece, steps: int, owner: Option<string>)
    ensures !p.pos.Track? ==> !CanCaptureBackward(players, p, steps, owner)
    ensures p.pos.Track? ==>
      (CanCaptureBackward(players, p, steps, owner) <==>
       CheckCaptures(players, Track(JsRem(p.pos.n - steps + 52, 52)), owner).1)
  {
  }

  /** Whether `checkCaptures` sends pieces on `pos` back to base at all. */
  predicate Capturable(pos: Pos)
  {
    !pos.Base? && !pos.Finished? && !(pos.Track? && pos.n in SafeCells)
  }

  /** Every piece on `pos` goes back to base. */
  function SendBack(ps: seq<Piece>, pos: Pos): (r: seq<Piece>)
    ensures |r| == |ps|
    ensures forall j :: 0 <= j < |ps| ==> r[j] == (if ps[j].pos == pos then ps[j].(pos := Base) else ps[j])
  {
    seq(|ps|, j requires 0 <= j < |ps| => if ps[j].pos == pos then ps[j].(pos := Base) else ps[j])
  }

  /** `checkCaptures`: unless `pos` is base, finished or a safe cell, every
      piece of every non-skipped player standing on `pos` goes back to base
      (only its position changes); the flag says whether any did. */
  function CheckCaptures(players: seq<Player>, pos: Pos, owner: Option<string>): (r: (seq<Player>, bool))
    ensures !Capturable(pos) ==> r == (players, false)
    ensures r.1 <==> Capturable(pos) && Occupied(players, pos, owner)
    ensures |r.0| == |players|
    ensures forall i :: 0 <= i < |players| ==>
      && r.0[i] == players[i].(pieces := r.0[i].pieces)
      && |r.0[i].pieces| == |players[i].pieces|
      && forall j :: 0 <= j < |players[i].pieces| ==>
           r.0[i].pieces[j] ==
             (if Capturable(pos) && !IsOwner(players[i], owner) && players[i].pieces[j].pos == pos
              then players[i].pieces[j].(pos := Base) else players[i].pieces[j])
  {
    if !Capturable(pos) then (players, false)
    else
      var players' := seq(|players|, i requires 0 <= i < |players| =>
        if IsOwner(players[i], owner) then players[i] else players[i].(pieces := SendBack(players[i].pieces, pos)));
      (players', Occupied(players, pos, owner))
  }

  // ----- winning -----

  /** `pieces.filter(p => p.position === 'finished').length`. */
  function FinishedCount(ps: seq<Piece>): (n: nat)
    ensures n <= |ps|
  {
    if ps == [] then 0 else (if ps[0].pos.Finished? then 1 else 0) + FinishedCount(ps[1..])
  }

  /** `checkWinCondition`: the first player, in join order, with exactly four
      finished pieces. */
  function CheckWinCondition(players: seq<Player>): (w: Option<string>)
    ensures w.None? <==> forall i :: 0 <= i < |players| ==> FinishedCount(players[i].pieces) != 4
    ensures w.Some? ==> exists i ::
      && 0 <= i < |players| && players[i].id == w.value
      && FinishedCount(players[i].pieces) == 4
      && (forall k :: 0 <= k < i ==> FinishedCount(players[k].pieces) != 4)
  {
    if players == [] then None
    else if FinishedCount(players[0].pieces) == 4 then Some(players[0].id)
    else
      var w := CheckWinCondition(players[1..]);
      assert forall i :: 1 <= i < |players| ==> players[i] == players[1..][i - 1];
      w
  }

  // ----- move generation -----

  /** The moves `calculatePossibleMoves` lists for one piece: none when
      finished; from base, the start move iff the die is 6; otherwise the
      forward move if the rule gives a square, then the backward capture if
      one is possible and the rule gives a square for the negated die. */
  function MovesFor(players: seq<Player>, c: Color, p: Piece, die: int, rule: Rule, owner: Option<string>): (ms: seq<MoveOption>)
    ensures forall m :: m in ms ==> m.pieceId == p.id && m.from == p.pos
    ensures p.pos.Finished? ==> ms == []
    ensures p.pos.Base? ==> ms == (if die == 6 then [MoveOption(p.id, Base, Track(StartSquare(c)), StartMove, false)] else [])
    ensures !p.pos.Base? && !p.pos.Finished? ==>
      && ((exists m :: m in ms && !m.backward) <==> Advance(rule, p, die).Some?)
      && (forall m :: m in ms && !m.backward ==> Advance(rule, p, die) == Some(m.to) && m.kind == MoveKindOf(p.pos, m.to))
      && ((exists m :: m in ms && m.backward) <==> CanCaptureBackward(players, p, die, owner) && Advance(rule, p, -die).Some?)
      && (forall m :: m in ms && m.backward ==> Advance(rule, p, -die) == Some(m.to) && m.kind == CaptureMove)
  {
    if p.pos.Finished? then []
    else if p.pos.Base? then
      if die == 6 then [MoveOption(p.id, Base, Track(StartSquare(c)), StartMove, false)] else []
    else
      var fwd := match Advance(rule, p, die)
        case None => []
        case Some(to) => [MoveOption(p.id, p.pos, to, MoveKindOf(p.pos, to), false)];
      var bwd := if !CanCaptureBackward(players, p, die, owner) then [] else
        match Advance(rule, p, -die)
        case None => []
        case Some(to) => [MoveOption(p.id, p.pos, to, CaptureMove, true)];
      fwd + bwd
  }

  /** The moves of a list of pieces, in list order. */
  function MovesOf(players: seq<Player>, c: Color, ps: seq<Piece>, die: int, rule: Rule, owner: Option<string>): (ms: seq<MoveOption>)
    ensures forall m :: m in ms <==> exists i :: 0 <= i < |ps| && m in MovesFor(players, c, ps[i], die, rule, owner)
  {
    if ps == [] then []
    else
      var rest := MovesOf(players, c, ps[1..], die, rule, owner);
      assert forall i :: 1 <= i < |ps| ==> ps[i] == ps[1..][i - 1];
      MovesFor(players, c, ps[0], die, rule, owner) + rest
  }

  /** What the moves of a piece list promise: each comes from a listed piece
      that is not finished, and start moves are exactly those of pieces in
      base on a six, going to the colour's start square. */
  lemma MovesOfFacts(players: seq<Player>, c: Color, ps: seq<Piece>, die: int, rule: Rule, owner: Option<string>)
    ensures var ms := MovesOf(players, c, ps, die, rule, owner);
      && (forall m :: m in ms ==> exists i :: 0 <= i < |ps| && ps[i].id == m.pieceId && ps[i].pos == m.from)
      && (forall m :: m in ms ==> !m.from.Finished?)
      && ((exists m :: m in ms && m.kind == StartMove) <==> die == 6 && exists i :: 0 <= i < |ps| && ps[i].pos.Base?)
      && (forall m :: m in ms && m.kind == StartMove ==> m.from.Base? && m.to == Track(StartSquare(c)))
  {
    var ms := MovesOf(players, c, ps, die, rule, owner);
    forall m | m in ms
      ensures exists i :: 0 <= i < |ps| && ps[i].id == m.pieceId && ps[i].pos == m.from
      ensures !m.from.Finished?
      ensures m.kind == StartMove ==> m.from.Base? && m.to == Track(StartSquare(c)) && die == 6
    {
      var i :| 0 <= i < |ps| && m in MovesFor(players, c, ps[i], die, rule, owner);
      assert ps[i].id == m.pieceId && ps[i].pos == m.from;
    }
    if die == 6 && exists i :: 0 <= i < |ps| && ps[i].pos.Base? {
      var i :| 0 <= i < |ps| && ps[i].pos.Base?;
      assert MoveOption(ps[i].id, Base, Track(StartSquare(c)), StartMove, false) in MovesFor(players, c, ps[i], die, rule, owner);
    }
  }

  /** `calculatePossibleMoves` for a player and a die, under a position rule
      and with the owner its backward-capture test skips. The engine itself
      calls it with `LiveRule` and an undefined owner (`None`). */
  function CalculatePossibleMoves(players: seq<Player>, player: Player, die: int, rule: Rule, owner: Option<string>): (ms: seq<MoveOption>)
    ensures forall m :: m in ms ==>
      exists i :: 0 <= i < |player.pieces| && player.pieces[i].id == m.pieceId && player.pieces[i].pos == m.from
    // a finished piece is never offered a move
    ensures forall m :: m in ms ==> !m.from.Finished?
    // a start move exists iff the die is 6 and some piece is in base; it goes to the colour's start square
    ensures (exists m :: m in ms && m.kind == StartMove) <==>
      die == 6 && exists i :: 0 <= i < |player.pieces| && player.pieces[i].pos.Base?
    ensures forall m :: m in ms && m.kind == StartMove ==> m.from.Base? && m.to == Track(StartSquare(player.color))
  {
    MovesOfFacts(players, player.color, player.pieces, die, rule, owner);
    MovesOf(players, player.color, player.pieces, die, rule, owner)
  }

  // ----- rolling -----

  /** The caller is the player at `currentPlayerIndex`. */
  predicate IsTurnOf(g: Game, playerId: string)
  {
    0 <= g.currentPlayerIndex < |g.players| && g.players[g.currentPlayerIndex].id == playerId
  }

  /** A successful roll reports whether it ended on a third six or without any
      possible move; in both cases the source passes the turn. */
  datatype RollOutcome = RollRejected(error: Error) | Rolled(threeSixes: bool, noMoves: bool)

  datatype RollResult = RollResult(game: Game, outcome: RollOutcome)

  predicate PassesTurn(o: RollOutcome)
  {
    o.Rolled? && (o.threeSixes || o.noMoves)
  }

  /** `rollDice`, with the die supplied in place of `Math.random`. */
  function RollDice(g: Game, playerId: string, die: int): (r: RollResult)
    requires 1 <= die <= 6
    // refusals change nothing
    ensures r.outcome.RollRejected? ==> r.game == g
    ensures r.outcome == RollRejected(NotYourTurn) <==> !IsTurnOf(g, playerId)
    ensures r.outcome == RollRejected(MustMoveFirst) <==> IsTurnOf(g, playerId) && !g.canRollDice
    ensures r.outcome.Rolled? ==>
      var moves := CalculatePossibleMoves(g.players, g.players[g.currentPlayerIndex], die, LiveRule, None);
      && r.game == g.(diceValue := Some(die), canRollDice := false, mustMoveAfterDice := true,
                      possibleMoves := moves, consecutiveSixes := r.game.consecutiveSixes)
      // a third six in a row resets the count and passes the turn; other sixes count up
      && (r.outcome.threeSixes <==> die == 6 && g.consecutiveSixes + 1 >= 3)
      && (r.outcome.threeSixes ==> r.game.consecutiveSixes == 0)
      && (die == 6 && !r.outcome.threeSixes ==> r.game.consecutiveSixes == g.consecutiveSixes + 1)
      // any other roll leaves the count as it was
      && (die != 6 ==> r.game.consecutiveSixes == g.consecutiveSixes)
      && (r.outcome.noMoves <==> !r.outcome.threeSixes && |moves| == 0)
  {
    if !IsTurnOf(g, playerId) then RollResult(g, RollRejected(NotYourTurn))
    else if !g.canRollDice then RollResult(g, RollRejected(MustMoveFirst))
    else
      var player := g.players[g.currentPlayerIndex];
      var moves := CalculatePossibleMoves(g.players, player, die, LiveRule, None);
      var g1 := g.(diceValue := Some(die), canRollDice := false, mustMoveAfterDice := true, possibleMoves := moves);
      if die == 6 && g.consecutiveSixes + 1 >= 3 then
        RollResult(g1.(consecutiveSixes := 0), Rolled(true, false))
      else
        var g2 := if die == 6 then g1.(consecutiveSixes := g.consecutiveSixes + 1) else g1;
        RollResult(g2, Rolled(false, |moves| == 0))
  }

  // ----- moving -----

  /** `findPiece`: the first player, in join order, holding a piece with that
      id, and the first such piece of theirs. */
  function FindPiece(players: seq<Player>, id: PieceId): (r: Option<(nat, nat)>)
    ensures r.Some? ==>
      && r.value.0 < |players| && r.value.1 < |players[r.value.0].pieces|
      && players[r.value.0].pieces[r.value.1].id == id
      && (forall i, j :: 0 <= i < r.value.0 && 0 <= j < |players[i].pieces| ==> players[i].pieces[j].id != id)
      && (forall j :: 0 <= j < r.value.1 ==> players[r.value.0].pieces[j].id != id)
    ensures r.None? <==> forall i, j :: 0 <= i < |players| && 0 <= j < |players[i].pieces| ==> players[i].pieces[j].id != id
  {
    if players == [] then None
    else
      var j := FirstIndex(PieceIds(players[0].pieces), id);
      if j >= 0 then Some((0, j))
      else
        var r := FindPiece(players[1..], id);
        assert forall i :: 1 <= i < |players| ==> players[i] == players[1..][i - 1];
        if r.None? then None else Some((r.value.0 + 1, r.value.1))
  }

  /** The ids of a player's pieces, in order; `pieces.find(p => p.id === id)`
      is the first of them equal to `id`. */
  function PieceIds(ps: seq<Piece>): (ids: seq<PieceId>)
    ensures |ids| == |ps| && forall k :: 0 <= k < |ps| ==> ids[k] == ps[k].id
  {
    seq(|ps|, k requires 0 <= k < |ps| => ps[k].id)
  }

  /** The players' ids in join order; `players.findIndex(p => p.id === id)`
      is the first of them equal to `id`. */
  function PlayerIds(players: seq<Player>): (ids: seq<string>)
    ensures |ids| == |players| && forall i :: 0 <= i < |players| ==> ids[i] == players[i].id
  {
    seq(|players|, i requires 0 <= i < |players| => players[i].id)
  }

  /** `movePiece`: one piece's position changes. */
  function SetPos(players: seq<Player>, i: nat, j: nat, pos: Pos): (r: seq<Player>)
    requires i < |players| && j < |players[i].pieces|
    ensures |r| == |players|
    ensures forall k :: 0 <= k < |players| && k != i ==> r[k] == players[k]
    ensures r[i] == players[i].(pieces := r[i].pieces) && |r[i].pieces| == |players[i].pieces|
    ensures r[i].pieces[j] == players[i].pieces[j].(pos := pos)
    ensures forall k :: 0 <= k < |players[i].pieces| && k != j ==> r[i].pieces[k] == players[i].pieces[k]
  {
    players[i := players[i].(pieces := players[i].pieces[j := players[i].pieces[j].(pos := pos)])]
  }

  /** `direction === 'backward'`: the one text that asks for a backward
      capture. The position rule instead adds the die only for `'forward'`,
      so any other text subtracts it without that check. */
  predicate IsBackward(direction: string)
  {
    direction == "backward"
  }

  /** `validateAndMovePiece` with the live position rule, for the player at
      index `i` (-1 when no player is found): a piece in base needs a die of
      exactly 6 and goes to the owner's start position, which is undefined
      for -1; any other piece moves by the rule, adding the steps when the
      direction is `'forward'` and subtracting them otherwise. */
  function ValidateMove(p: Piece, steps: int, direction: string, i: OwnerIndex): (r: Result<Pos, Error>)
    ensures p.pos.Base? ==> (r.Ok? <==> steps == 6 && i >= 0) && (r.Ok? ==> r.value == Track(1 + 13 * i))
    ensures !p.pos.Base? ==> (r.Ok? <==> AdvanceByIndex(p.pos, steps, direction == "forward", i).Some?)
    ensures !p.pos.Base? && r.Ok? ==> AdvanceByIndex(p.pos, steps, direction == "forward", i) == Some(r.value)
    ensures r.Err? ==> r.error == (if !p.pos.Base? then MoveImpossible else if steps != 6 then NeedSix else StartUndefined)
  {
    if p.pos.Base? then
      if steps != 6 then Err(NeedSix)
      else match StartPosition(i)
        case None => Err(StartUndefined)
        case Some(s) => Ok(Track(s))
    else
      match AdvanceByIndex(p.pos, steps, direction == "forward", i)
      case None => Err(MoveImpossible)
      case Some(q) => Ok(q)
  }

  /** A finished piece is refused by the live rule. The source instead
      computes `'finished' + 6` for a forward move and stores the text
      `finished6` as the piece's position. */
  lemma FinishedPieceIsRefused(p: Piece, steps: int, direction: string, i: OwnerIndex)
    requires p.pos.Finished?
    ensures ValidateMove(p, steps, direction, i) == Err(MoveImpossible)
  {
  }

  /** `{valid:false, error}`; the source throwing because it calls an
      undefined method; `{valid:true, gameOver:true, winner}`; and
      `{valid:true, rollAgain, captured}`, after which the source passes the
      turn iff `rollAgain` is false. */
  datatype Outcome = Rejected(error: Error) | Crashed | GameOver(winner: string) | Moved(rollAgain: bool, captured: bool)

  datatype MoveResult = MoveResult(game: Game, outcome: Outcome)

  /** The end of a move that stands: a winner ends the game; any other move
      clears the die and re-enables rolling, with another roll after a six or
      a capture. The winner is checked for truthiness, so an empty id does not
      win. */
  function Settle(g: Game, after: seq<Player>, captured: bool, die: int): (r: MoveResult)
    ensures r.game.players == after
    ensures r.game.currentPlayerIndex == g.currentPlayerIndex && r.game.status == g.status
    ensures r.game.consecutiveSixes == g.consecutiveSixes && r.game.possibleMoves == g.possibleMoves
    ensures r.outcome.GameOver? || r.outcome.Moved?
    // beyond the players, a win touches only the status and winner, and any
    // other move only the die and the roll flag
    ensures r.outcome.GameOver? ==> r.game == g.(players := after, gameStatus := GameFinished, winner := Some(r.outcome.winner))
    ensures r.outcome.Moved? ==> r.game == g.(players := after, diceValue := None, canRollDice := true)
    ensures r.outcome.GameOver? ==>
      && r.game.gameStatus == GameFinished && r.game.winner == Some(r.outcome.winner)
      && CheckWinCondition(after) == Some(r.outcome.winner) && r.outcome.winner != ""
    ensures r.outcome.Moved? ==>
      && (CheckWinCondition(after).None? || CheckWinCondition(after) == Some(""))
      && r.outcome.captured == captured
      && (r.outcome.rollAgain <==> die == 6 || captured)
      && r.game.diceValue.None? && r.game.canRollDice
      && r.game.gameStatus == g.gameStatus && r.game.winner == g.winner
  {
    var g2 := g.(players := after);
    var w := CheckWinCondition(after);
    if w.Some? && w.value != "" then MoveResult(g2.(gameStatus := GameFinished, winner := w), GameOver(w.value))
    else MoveResult(g2.(diceValue := None, canRollDice := true), Moved(die == 6 || captured, captured))
  }

  /** Moving a piece away and back, with nothing captured in between, leaves
      every player as before. */
  lemma UndoneMoveRestores(players: seq<Player>, i: nat, j: nat, newPos: Pos, owner: Option<string>)
    requires i < |players| && j < |players[i].pieces|
    requires !CheckCaptures(SetPos(players, i, j, newPos), newPos, owner).1
    ensures SetPos(CheckCaptures(SetPos(players, i, j, newPos), newPos, owner).0, i, j, players[i].pieces[j].pos) == players
  {
    var moved := SetPos(players, i, j, newPos);
    NothingCapturedNothingChanged(moved, newPos, owner);
    var restored := SetPos(moved, i, j, players[i].pieces[j].pos);
    assert forall k :: 0 <= k < |players| && k != i ==> restored[k] == players[k];
    assert restored[i].pieces == players[i].pieces;
  }

  /** The resolution tail of `makeMove` (lines 417-451) for piece `j` of player
      `i` going to `newPos`, where `owner` is the `playerId` the capture check
      compares with. A backward move that captured nothing is undone and
      refused; otherwise a winner ends the game, and any other move clears the
      die and re-enables rolling, with another roll after a six or a capture.
      The winner is checked for truthiness, so an empty id does not win. The
      game-over branch writes `gameStatus`, as the corrected engine does. */
  function ResolveMove(g: Game, i: nat, j: nat, newPos: Pos, backward: bool, die: int, owner: Option<string>): (r: MoveResult)
    requires i < |g.players| && j < |g.players[i].pieces|
    ensures var moved := SetPos(g.players, i, j, newPos);
      var (after, captured) := CheckCaptures(moved, newPos, owner);
      && (r.outcome == Rejected(NoCapture) <==> backward && !captured)
      && (r.outcome.Rejected? ==> r.game == g)
      && (!r.outcome.Rejected? ==>
            && r.game.players == after
            && r.game.currentPlayerIndex == g.currentPlayerIndex && r.game.status == g.status
            && r.game.consecutiveSixes == g.consecutiveSixes && r.game.possibleMoves == g.possibleMoves)
      && (r.outcome.GameOver? ==>
            && r.game == g.(players := after, gameStatus := GameFinished, winner := Some(r.outcome.winner))
            && CheckWinCondition(after) == Some(r.outcome.winner) && r.outcome.winner != "")
      && (r.outcome.Moved? ==>
            && r.game == g.(players := after, diceValue := None, canRollDice := true)
            && (CheckWinCondition(after).None? || CheckWinCondition(after) == Some(""))
            && r.outcome.captured == captured
            && (r.outcome.rollAgain <==> die == 6 || captured)
            && r.game.diceValue.None? && r.game.canRollDice
            && r.game.gameStatus == g.gameStatus && r.game.winner == g.winner)
    ensures r.outcome.Rejected? || r.outcome.GameOver? || r.outcome.Moved?
    ensures |r.game.players| == |g.players|
    ensures forall k :: 0 <= k < |g.players| ==> |r.game.players[k].pieces| == |g.players[k].pieces|
    // when the capture check skips the mover's own player, the piece stays where it moved
    ensures owner == Some(g.players[i].id) && !r.outcome.Rejected? ==> r.game.players[i].pieces[j].pos == newPos
  {
    var moved := SetPos(g.players, i, j, newPos);
    var (after, captured) := CheckCaptures(moved, newPos, owner);
    if backward && !captured then
      UndoneMoveRestores(g.players, i, j, newPos, owner);
      MoveResult(g.(players := SetPos(after, i, j, g.players[i].pieces[j].pos)), Rejected(NoCapture))
    else Settle(g, after, captured, die)
  }

  /** A capture check that reports nothing leaves every piece where it was. */
  lemma NothingCapturedNothingChanged(players: seq<Player>, pos: Pos, owner: Option<string>)
    requires !CheckCaptures(players, pos, owner).1
    ensures CheckCaptures(players, pos, owner).0 == players
  {
    var after := CheckCaptures(players, pos, owner).0;
    forall i | 0 <= i < |players|
      ensures after[i] == players[i]
    {
      forall j | 0 <= j < |players[i].pieces|
        ensures after[i].pieces[j] == players[i].pieces[j]
      {
        assert !(Capturable(pos) && !IsOwner(players[i], owner) && players[i].pieces[j].pos == pos);
      }
    }
  }

  /** `makeMove` as written. Its first check reads `this.status`, which
      nothing but `makeMove` itself ever assigns; every other check calls
      the undefined `isPlayerTurn`. */
  function MakeMove(g: Game, playerId: string, pieceId: PieceId, direction: string): (r: MoveResult)
    ensures r.game == g
    ensures r.outcome == Rejected(NotInProgress) <==> g.status != Some(Playing)
    ensures r.outcome == Crashed <==> g.status == Some(Playing)
  {
    if g.status != Some(Playing) then MoveResult(g, Rejected(NotInProgress))
    else MoveResult(g, Crashed)
  }

  /** `piece.playerId` as written: `initializePieces` (lines 66-78) never
      sets it, so it is undefined for every piece. */
  function PieceOwnerAsWritten(p: Piece): Option<string>
  {
    None
  }

  /** The owner test of `makeMove` as written (lines 393-402): a piece whose
      `playerId` is not the caller's is refused, and one that passes reaches
      line 402, which reads the undeclared `isBackward` and throws. */
  function CheckOwnerAsWritten(owner: Option<string>, playerId: string): (r: Outcome)
    ensures r == Rejected(InvalidPiece) <==> owner != Some(playerId)
    ensures r == Crashed <==> owner == Some(playerId)
  {
    if owner != Some(playerId) then Rejected(InvalidPiece) else Crashed
  }

  /** As written, the caller's own piece fails the owner test, since it
      carries no owner; the corrected checks, which take the owner from the
      list holding the piece, let it through. */
  lemma UnownedPieceIsRefused(players: seq<Player>, i: nat, j: nat, playerId: string, die: int, direction: string)
    requires i < |players| && j < |players[i].pieces| && |players| <= 4
    requires players[i].id == playerId
    ensures CheckOwnerAsWritten(PieceOwnerAsWritten(players[i].pieces[j]), playerId) == Rejected(InvalidPiece)
    ensures CheckPiece(players, i, j, playerId, die, direction) != Err(InvalidPiece)
  {
  }

  /** The checks of the intended `makeMove` on the piece found (lines
      395-415): it must belong to the caller, a backward move must have a
      capture to make, and the position rule must accept the move. */
  function CheckPiece(players: seq<Player>, i: nat, j: nat, playerId: string, die: int, direction: string): (r: Result<Pos, Error>)
    requires i < |players| && j < |players[i].pieces| && |players| <= 4
    ensures players[i].id != playerId ==> r == Err(InvalidPiece)
    ensures players[i].id == playerId && IsBackward(direction) && !CanCaptureBackward(players, players[i].pieces[j], die, Some(playerId)) ==>
      r == Err(BackwardNotAllowed)
    // past those two checks the position rule decides: `NeedSix` for a piece
    // in base, `MoveImpossible` for any other piece it cannot move
    ensures players[i].id == playerId && (IsBackward(direction) ==> CanCaptureBackward(players, players[i].pieces[j], die, Some(playerId))) ==>
      var v := ValidateMove(players[i].pieces[j], if IsBackward(direction) then -die else die, direction, FirstIndex(PlayerIds(players), playerId));
      v.Err? ==> r == Err(v.error)
    ensures r.Ok? ==>
      && players[i].id == playerId
      && (IsBackward(direction) ==> CanCaptureBackward(players, players[i].pieces[j], die, Some(playerId)))
      && ValidateMove(players[i].pieces[j], if IsBackward(direction) then -die else die, direction, FirstIndex(PlayerIds(players), playerId)) == Ok(r.value)
  {
    if players[i].id != playerId then Err(InvalidPiece)
    else
      var p := players[i].pieces[j];
      if IsBackward(direction) && !CanCaptureBackward(players, p, die, Some(playerId)) then Err(BackwardNotAllowed)
      else ValidateMove(p, if IsBackward(direction) then -die else die, direction, FirstIndex(PlayerIds(players), playerId))
  }

  /** The checks of the intended `makeMove` (lines 381-415), in order. On
      success: the player and piece index of the moving piece and the square
      it goes to. */
  function CheckMove(g: Game, playerId: string, pieceId: PieceId, direction: string): (r: Result<(nat, nat, Pos), Error>)
    requires |g.players| <= 4
    ensures r == Err(NotInProgress) <==> g.gameStatus != Playing
    ensures r == Err(NotYourTurn) <==> g.gameStatus == Playing && !IsTurnOf(g, playerId)
    ensures r == Err(MustRollFirst) <==> g.gameStatus == Playing && IsTurnOf(g, playerId) && g.diceValue.None?
    ensures (&& g.gameStatus == Playing && IsTurnOf(g, playerId) && g.diceValue.Some?
             && (FindPiece(g.players, pieceId).None? || g.players[FindPiece(g.players, pieceId).value.0].id != playerId))
      ==> r == Err(InvalidPiece)
    // then a backward move needs a capture, then the position rule decides
    ensures (&& g.gameStatus == Playing && IsTurnOf(g, playerId) && g.diceValue.Some?
             && FindPiece(g.players, pieceId).Some? && g.players[FindPiece(g.players, pieceId).value.0].id == playerId)
      ==> var (i, j) := FindPiece(g.players, pieceId).value;
          var die := g.diceValue.value;
          var p := g.players[i].pieces[j];
          var v := ValidateMove(p, if IsBackward(direction) then -die else die, direction, FirstIndex(PlayerIds(g.players), playerId));
          && (IsBackward(direction) && !CanCaptureBackward(g.players, p, die, Some(playerId)) ==> r == Err(BackwardNotAllowed))
          && ((IsBackward(direction) ==> CanCaptureBackward(g.players, p, die, Some(playerId))) && v.Err? ==> r == Err(v.error))
    ensures r.Ok? ==>
      && g.gameStatus == Playing && IsTurnOf(g, playerId) && g.diceValue.Some?
      && FindPiece(g.players, pieceId) == Some((r.value.0, r.value.1))
      && var (i, j, dest) := r.value;
         var die := g.diceValue.value;
         && g.players[i].id == playerId
         && (IsBackward(direction) ==> CanCaptureBackward(g.players, g.players[i].pieces[j], die, Some(playerId)))
         && ValidateMove(g.players[i].pieces[j], if IsBackward(direction) then -die else die, direction, FirstIndex(PlayerIds(g.players), playerId)) == Ok(dest)
  {
    if g.gameStatus != Playing then Err(NotInProgress)
    else if !IsTurnOf(g, playerId) then Err(NotYourTurn)
    else if g.diceValue.None? then Err(MustRollFirst)
    else
      match FindPiece(g.players, pieceId)
      case None => Err(InvalidPiece)
      case Some((i, j)) =>
        match CheckPiece(g.players, i, j, playerId, g.diceValue.value, direction)
        case Err(e) => Err(e)
        case Ok(newPos) => Ok((i, j, newPos))
  }

  /** `makeMove` as evidently intended: the guard reads `gameStatus`, the turn
      test is the one `rollDice` uses, `isBackward` is `isBackwardCapture`,
      and a piece's owner is the player whose list holds it. */
  function MakeMoveIntended(g: Game, playerId: string, pieceId: PieceId, direction: string): (r: MoveResult)
    requires |g.players| <= 4
    // every refusal leaves the game exactly as it was
    ensures r.outcome.Rejected? ==> r.game == g
    ensures !r.outcome.Crashed?
    ensures |r.game.players| == |g.players|
    ensures forall i :: 0 <= i < |g.players| ==> |r.game.players[i].pieces| == |g.players[i].pieces|
    // the checks refuse first; only a backward move that captured nothing is refused afterwards
    ensures var c := CheckMove(g, playerId, pieceId, direction);
      && (c.Err? ==> r.outcome == Rejected(c.error))
      && (c.Ok? ==> (r.outcome.Rejected? <==> r.outcome == Rejected(NoCapture)) && (r.outcome == Rejected(NoCapture) ==> IsBackward(direction)))
    // an accepted move is of the caller's own piece, which ends on the square the rule gives
    ensures var c := CheckMove(g, playerId, pieceId, direction);
      !r.outcome.Rejected? ==>
        && c.Ok?
        && var (i, j, dest) := c.value;
           && g.players[i].id == playerId
           && r.game.players[i].pieces[j].pos == dest
           && (r.outcome.Moved? ==> (r.outcome.rollAgain <==> g.diceValue == Some(6) || r.outcome.captured))
           && (r.outcome.Moved? && IsBackward(direction) ==> r.outcome.captured)
    // past the checks, the move resolves as the tail of `makeMove` states:
    // captures, the win check, and the die reset
    ensures var c := CheckMove(g, playerId, pieceId, direction);
      c.Ok? ==> r == ResolveMove(g, c.value.0, c.value.1, c.value.2, IsBackward(direction), g.diceValue.value, Some(playerId))
  {
    match CheckMove(g, playerId, pieceId, direction)
    case Err(e) => MoveResult(g, Rejected(e))
    case Ok((i, j, newPos)) => ResolveMove(g, i, j, newPos, IsBackward(direction), g.diceValue.value, Some(playerId))
  }

  // ----- properties -----

  /** `gameStatus` is `'playing'` exactly when at least two players have
      joined, in every game built by `addPlayer` from the constructor. */
  predicate StatusMatchesCount(g: Game)
  {
    g.gameStatus == (if |g.players| >= 2 then Playing else Waiting)
  }

  lemma AddPlayerKeepsStatusMatchingCount(g: Game, id: string, name: string, color: Option<Color>)
    requires StatusMatchesCount(g)
    ensures AddPlayer(g, id, name, color).Ok? ==> StatusMatchesCount(AddPlayer(g, id, name, color).value)
  {
  }

  /** The count of consecutive sixes never reaches three. */
  lemma RollKeepsSixesBelowThree(g: Game, playerId: string, die: int)
    requires 1 <= die <= 6 && 0 <= g.consecutiveSixes < 3
    ensures 0 <= RollDice(g, playerId, die).game.consecutiveSixes < 3
  {
  }

  /** A six rolled after two sixes passes the turn and restarts the count. */
  lemma ThirdSixPassesTurn(g: Game, playerId: string)
    requires IsTurnOf(g, playerId) && g.canRollDice && g.consecutiveSixes == 2
    ensures var r := RollDice(g, playerId, 6);
      PassesTurn(r.outcome) && r.outcome.threeSixes && r.game.consecutiveSixes == 0 && r.game.diceValue == Some(6)
  {
  }

  /** No part of the engine but `makeMove` writes `status`, so it stays unset. */
  lemma StatusStaysUnset(g: Game, playerId: string, die: int, id: string, name: string, color: Option<Color>)
    requires g.status.None? && 1 <= die <= 6
    ensures NewGame().status.None?
    ensures AddPlayer(g, id, name, color).Ok? ==> AddPlayer(g, id, name, color).value.status.None?
    ensures RollDice(g, playerId, die).game.status.None?
  {
  }

  /** Hence `makeMove` as written refuses every call on every such game. */
  lemma MakeMoveNeverProceeds(g: Game, playerId: string, pieceId: PieceId, direction: string)
    requires g.status.None?
    ensures MakeMove(g, playerId, pieceId, direction) == MoveResult(g, Rejected(NotInProgress))
  {
  }

  /** As intended, a player to move with a six brings a piece out of base to
      their start position; start positions are safe, so nothing is captured
      and the six earns another roll. */
  lemma IntendedSixBringsPieceOut(g: Game, playerId: string, pieceId: PieceId)
    requires |g.players| <= 4
    requires g.gameStatus == Playing && IsTurnOf(g, playerId) && g.diceValue == Some(6)
    requires FindPiece(g.players, pieceId).Some?
    requires var (i, j) := FindPiece(g.players, pieceId).value;
      g.players[i].id == playerId && g.players[i].pieces[j].pos.Base?
    ensures var (i, j) := FindPiece(g.players, pieceId).value;
      var r := MakeMoveIntended(g, playerId, pieceId, "forward");
      && !r.outcome.Rejected?
      && r.game.players[i].pieces[j].pos == Track(StartPosition(FirstIndex(PlayerIds(g.players), playerId)).value)
      && (r.outcome.Moved? ==> r.outcome.rollAgain && !r.outcome.captured)
  {
    var (i, j) := FindPiece(g.players, pieceId).value;
    var k := FirstIndex(PlayerIds(g.players), playerId);
    assert k >= 0;
    var dest := Track(StartPosition(k).value);
    assert CheckMove(g, playerId, pieceId, "forward") == Ok((i, j, dest));
    assert !Capturable(dest);
  }

  /** Two players join and the first rolls a six: the game is under way and
      it is the roller's move, yet `makeMove` refuses to move their piece,
      while the intended version brings it out to start position 1. */
  lemma StartedGameRefusesMoves()
    ensures var g1 := AddPlayer(NewGame(), "a", "A", None).value;
      var g2 := AddPlayer(g1, "b", "B", None).value;
      var g3 := RollDice(g2, "a", 6).game;
      && g3.gameStatus == Playing && IsTurnOf(g3, "a") && g3.diceValue == Some(6)
      && MakeMove(g3, "a", PieceId(Red, 0), "forward").outcome == Rejected(NotInProgress)
      && MakeMoveIntended(g3, "a", PieceId(Red, 0), "forward").game.players[0].pieces[0].pos == Track(1)
  {
    var g1 := AddPlayer(NewGame(), "a", "A", None).value;
    var g2 := AddPlayer(g1, "b", "B", None).value;
    var g3 := RollDice(g2, "a", 6).game;
    assert g3.players == g2.players;
    assert g3.players[0].pieces == InitialPieces(Red);
    assert FindPiece(g3.players, PieceId(Red, 0)) == Some((0, 0));
    assert FirstIndex(PlayerIds(g3.players), "a") == 0;
    IntendedSixBringsPieceOut(g3, "a", PieceId(Red, 0));
  }

  /** Under the live rule every "forward" move the engine offers from the
      track lands behind the piece: the die is subtracted. */
  lemma LiveForwardMovesGoBack(players: seq<Player>, player: Player, die: int, m: MoveOption)
    requires 1 <= die <= 6
    requires m in CalculatePossibleMoves(players, player, die, LiveRule, None)
    requires !m.backward && m.from.Track? && m.to.Track?
    ensures m.to.n == m.from.n - die
  {
    var i :| 0 <= i < |player.pieces| && m in MovesFor(players, player.color, player.pieces[i], die, LiveRule, None);
  }

  /** A raw square past 52 wraps once round the board. */
  function Wrap(raw: int): int
  {
    if raw > 52 then raw - 52 else raw
  }

  /** A backward capture checks the square `die` behind the piece, but
      `makeMove` hands the position rule the negated die with the direction
      `'backward'`, and the rule subtracts it: an accepted backward move
      lands `die` squares ahead (or finishes). */
  lemma BackwardCaptureLandsAhead(g: Game, playerId: string, pieceId: PieceId, i: nat, j: nat, dest: Pos, d: int)
    requires |g.players| <= 4
    requires g.diceValue == Some(d)
    requires CheckMove(g, playerId, pieceId, "backward") == Ok((i, j, dest))
    ensures g.players[i].pieces[j].pos.Track?
    // past the checks it is refused only when nothing is taken where it lands
    ensures var r := MakeMoveIntended(g, playerId, pieceId, "backward");
      if r.outcome.Rejected? then r.outcome == Rejected(NoCapture) else r.game.players[i].pieces[j].pos == dest
    ensures var n := g.players[i].pieces[j].pos.n;
      dest == Finished || dest == Track(Wrap(n + d))
  {
    BackwardCheckLandsAhead(g, playerId, pieceId, i, j, dest, d);
  }

  /** The square the checks give a backward move lies ahead of the piece. */
  lemma BackwardCheckLandsAhead(g: Game, playerId: string, pieceId: PieceId, i: nat, j: nat, dest: Pos, d: int)
    requires |g.players| <= 4
    requires g.diceValue == Some(d)
    requires CheckMove(g, playerId, pieceId, "backward") == Ok((i, j, dest))
    ensures i < |g.players| && j < |g.players[i].pieces| && g.players[i].pieces[j].pos.Track?
    ensures dest == Finished || dest == Track(Wrap(g.players[i].pieces[j].pos.n + d))
  {
    assert IsBackward("backward");
    BackwardMoveLands(g.players, g.players[i].pieces[j], d, Some(playerId), FirstIndex(PlayerIds(g.players), playerId), dest);
  }

  /** The capture an accepted backward move asks for is looked for `die`
      squares behind the piece. */
  lemma BackwardCaptureLooksBehind(g: Game, playerId: string, pieceId: PieceId, i: nat, j: nat, dest: Pos, d: int)
    requires |g.players| <= 4
    requires g.diceValue == Some(d)
    requires CheckMove(g, playerId, pieceId, "backward") == Ok((i, j, dest))
    ensures i < |g.players| && j < |g.players[i].pieces|
    ensures PieceBehind(g.players, g.players[i].pieces[j], d, Some(playerId))
  {
    assert IsBackward("backward");
    BackwardMoveLands(g.players, g.players[i].pieces[j], d, Some(playerId), FirstIndex(PlayerIds(g.players), playerId), dest);
  }

  /** The piece is on the track and, `die` squares behind it, an unsafe
      square holds a piece that another player owns. */
  predicate PieceBehind(players: seq<Player>, p: Piece, die: int, owner: Option<string>)
  {
    && p.pos.Track?
    && var back := JsRem(p.pos.n - die + 52, 52);
       back !in SafeCells && Occupied(players, Track(back), owner)
  }

  /** A backward move the checks accept: the square behind holds a piece to
      take, and the negated die puts the piece ahead. */
  lemma BackwardMoveLands(players: seq<Player>, p: Piece, d: int, owner: Option<string>, k: OwnerIndex, dest: Pos)
    requires CanCaptureBackward(players, p, d, owner)
    requires ValidateMove(p, -d, "backward", k) == Ok(dest)
    ensures PieceBehind(players, p, d, owner)
    ensures p.pos.Track?
    ensures dest == Finished || dest == Track(Wrap(p.pos.n + d))
  {
    TrackMoveLands(p, -d, "backward", k, dest);
  }

  /** From the track, the live rule lands on the square `steps` ahead for
      `'forward'` and `steps` behind for any other text, wrapped once, or
      finishes. */
  lemma TrackMoveLands(p: Piece, steps: int, direction: string, k: OwnerIndex, dest: Pos)
    requires p.pos.Track?
    requires ValidateMove(p, steps, direction, k) == Ok(dest)
    ensures dest == Finished || dest == Track(Wrap(if direction == "forward" then p.pos.n + steps else p.pos.n - steps))
  {
    assert AdvanceByIndex(p.pos, steps, direction == "forward", k) == Some(dest);
  }

  /** Any direction text other than `'forward'` and `'backward'` skips the
      backward-capture test, so it is never refused for lacking a capture. */
  lemma OtherDirectionNeedsNoCapture(g: Game, playerId: string, pieceId: PieceId, direction: string)
    requires |g.players| <= 4
    requires direction != "forward" && direction != "backward"
    ensures var r := MakeMoveIntended(g, playerId, pieceId, direction);
      r.outcome != Rejected(BackwardNotAllowed) && r.outcome != Rejected(NoCapture)
  {
    assert !IsBackward(direction);
  }

  /** ... yet the die is still subtracted: once the checks pass, the move is
      made, and the piece goes back by the die. */
  lemma OtherDirectionMovesBack(g: Game, playerId: string, pieceId: PieceId, direction: string, i: nat, j: nat, dest: Pos, d: int)
    requires |g.players| <= 4
    requires direction != "forward" && direction != "backward"
    requires g.diceValue == Some(d)
    requires CheckMove(g, playerId, pieceId, direction) == Ok((i, j, dest))
    ensures var r := MakeMoveIntended(g, playerId, pieceId, direction);
      !r.outcome.Rejected? && r.game.players[i].pieces[j].pos == dest
    ensures g.players[i].pieces[j].pos.Track? ==>
      var n := g.players[i].pieces[j].pos.n;
      dest == Finished || dest == Track(Wrap(n - d))
  {
    assert !IsBackward(direction);
    OtherDirectionCheckGoesBack(g, playerId, pieceId, direction, i, j, dest, d);
  }

  /** The square the checks give such a move lies behind the piece. */
  lemma OtherDirectionCheckGoesBack(g: Game, playerId: string, pieceId: PieceId, direction: string, i: nat, j: nat, dest: Pos, d: int)
    requires |g.players| <= 4
    requires direction != "forward" && direction != "backward"
    requires g.diceValue == Some(d)
    requires CheckMove(g, playerId, pieceId, direction) == Ok((i, j, dest))
    ensures i < |g.players| && j < |g.players[i].pieces|
    ensures g.players[i].pieces[j].pos.Track? ==>
      dest == Finished || dest == Track(Wrap(g.players[i].pieces[j].pos.n - d))
  {
    assert !IsBackward(direction);
    if g.players[i].pieces[j].pos.Track? {
      TrackMoveLands(g.players[i].pieces[j], d, direction, FirstIndex(PlayerIds(g.players), playerId), dest);
    }
  }

  /** The distance rule can name the home cell `home--1`: with 45 steps
      travelled, a six enters the home column one cell before its first, and
      from there no roll moves the piece again. */
  lemma DistanceRuleReachesHomeMinusOne(n: int, d: int, s: int)
    ensures AdvanceByDistance(Track(n), 45, 6) == Some(Home(-1))
    ensures AdvanceByDistance(Home(-1), d, s).None?
  {
  }

  /** Inside the home column, two moves add up. */
  lemma HomeMovesCompose(k: int, d: int, a: int, b: int)
    requires 0 <= k && 0 <= k + a < 5
    ensures AdvanceByDistance(Home(k), d, a) == Some(Home(k + a))
    ensures AdvanceByDistance(Home(k + a), d, b) == AdvanceByDistance(Home(k), d, a + b)
  {
  }

  /** After a capture check no piece of a non-skipped player is left on the
      square, so a second check captures nothing and changes nothing. */
  lemma {:induction false} CheckCapturesIdempotent(players: seq<Player>, pos: Pos, owner: Option<string>)
    ensures var after := CheckCaptures(players, pos, owner).0;
      CheckCaptures(after, pos, owner) == (after, false)
  {
    var after := CheckCaptures(players, pos, owner).0;
    if Capturable(pos) {
      assert !Occupied(after, pos, owner) by {
        forall i, j | 0 <= i < |after| && !IsOwner(after[i], owner) && 0 <= j < |after[i].pieces|
          ensures after[i].pieces[j].pos != pos
        {
          assert after[i].id == players[i].id;
        }
      }
      NothingCapturedNothingChanged(after, pos, owner);
    }
  }

  /** With the owner undefined, as every piece of the source has it, the
      capture check after a move to a capturable square sends the mover
      itself back to base and reports a capture. */
  lemma UndefinedOwnerCapturesMover(players: seq<Player>, i: nat, j: nat, pos: Pos)
    requires i < |players| && j < |players[i].pieces| && Capturable(pos)
    ensures var r := CheckCaptures(SetPos(players, i, j, pos), pos, None);
      r.1 && r.0[i].pieces[j].pos == Base
  {
    var moved := SetPos(players, i, j, pos);
    assert moved[i].pieces[j].pos == pos;
    assert Occupied(moved, pos, None);
  }

  /** Naming the mover's player as owner keeps the mover on its square, and
      it reports a capture only if another player's piece was there. */
  lemma OwnedMoverStays(players: seq<Player>, i: nat, j: nat, pos: Pos)
    requires i < |players| && j < |players[i].pieces|
    ensures var r := CheckCaptures(SetPos(players, i, j, pos), pos, Some(players[i].id));
      r.0[i].pieces[j].pos == pos
    ensures CheckCaptures(SetPos(players, i, j, pos), pos, Some(players[i].id)).1 <==>
      Capturable(pos) && Occupied(players, pos, Some(players[i].id))
  {
    var moved := SetPos(players, i, j, pos);
    var owner := Some(players[i].id);
    if Occupied(moved, pos, owner) {
      var k, l :| 0 <= k < |moved| && !IsOwner(moved[k], owner) && 0 <= l < |moved[k].pieces| && moved[k].pieces[l].pos == pos;
      assert players[k].pieces[l].pos == pos;
    }
    if Occupied(players, pos, owner) {
      var k, l :| 0 <= k < |players| && !IsOwner(players[k], owner) && 0 <= l < |players[k].pieces| && players[k].pieces[l].pos == pos;
      assert moved[k].pieces[l].pos == pos;
    }
  }
}