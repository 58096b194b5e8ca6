/** The client-side Ludo state of `src/store/gameSlice.ts`: a Redux slice
    whose reducers are modelled as pure functions from the old state (and the
    action's payload) to the new state. Piece and player fields that no
    reducer reads or writes are omitted. */
module GameSlice {
  import opened Common

  datatype Color = Red | Blue | Yellow | Green

  /** A piece's position: a square number, `'home'`, `'start'` or `'end'`. */
  datatype Spot = Square(n: int) | AtHome | AtStart | AtEnd

  datatype Piece = Piece(
    id: string,
    playerId: string,
    position: Spot,
    isAtHome: bool,
    isAtStart: bool,
    isSafe: bool,
    stepCount: int)

  datatype Player = Player(id: string, name: string, color: Color, score: int, pieces: seq<Piece>)

  datatype Status = Waiting | Playing | Finished

  datatype State = State(
    players: seq<Player>,
    currentPlayerId: Option<string>,
    diceValue: Option<int>,
    gameStatus: Status,
    winner: Option<Player>,
    selectedPieceId: Option<string>,
    possibleMoves: seq<string>,
    canRollDice: bool)

  /** `initialState`: nobody playing, nothing rolled or selected, waiting. */
  function InitialState(): (s: State)
    ensures s.players == [] && s.currentPlayerId.None? && s.diceValue.None?
    ensures s.gameStatus == Waiting && s.winner.None? && s.selectedPieceId.None?
    ensures s.possibleMoves == [] && s.canRollDice
  {
    State([], None, None, Waiting, None, None, [], true)
  }

  /** `id || null`: the empty string counts as no id. */
  function IdOrNull(id: string): (r: Option<string>)
    ensures r.None? <==> id == ""
    ensures r.Some? ==> r.value == id
  {
    if id == "" then None else Some(id)
  }

  /** `startGame`: installs the players, the first of whom is to move. */
  function StartGame(s: State, players: seq<Player>): (r: State)
    ensures r.players == players
    ensures |players| > 0 && players[0].id != "" ==> r.currentPlayerId == Some(players[0].id)
    ensures |players| == 0 || players[0].id == "" ==> r.currentPlayerId.None?
    ensures r.gameStatus == Playing && r.canRollDice
    ensures r == s.(players := players, currentPlayerId := r.currentPlayerId, gameStatus := Playing, canRollDice := true)
  {
    var first := if |players| > 0 then IdOrNull(players[0].id) else None;
    s.(players := players, currentPlayerId := first, gameStatus := Playing, canRollDice := true)
  }

  /** `rollDice`: only the current player may roll; the roll blocks further
      rolls until the turn ends. */
  function RollDice(s: State, playerId: string, value: int): (r: State)
    ensures s.currentPlayerId != Some(playerId) ==> r == s
    ensures s.currentPlayerId == Some(playerId) ==>
      r.diceValue == Some(value) && !r.canRollDice && r == s.(diceValue := Some(value), canRollDice := false)
  {
    if s.currentPlayerId != Some(playerId) then s
    else s.(diceValue := Some(value), canRollDice := false)
  }

  /** `selectPiece`: records the selection, or clears it. */
  function SelectPiece(s: State, pieceId: Option<string>): (r: State)
    ensures r.selectedPieceId == pieceId
    ensures r.(selectedPieceId := s.selectedPieceId) == s
  {
    s.(selectedPieceId := pieceId)
  }

  /** `setWinner`: records the winner and finishes the game. */
  function SetWinner(s: State, p: Player): (r: State)
    ensures r.winner == Some(p) && r.gameStatus == Finished
    ensures r.(winner := s.winner, gameStatus := s.gameStatus) == s
  {
    s.(winner := Some(p), gameStatus := Finished)
  }

  // ----- ending a turn -----

  /** `players.findIndex(p => p.id === id)`; -1 when absent. */
  function IndexOf(players: seq<Player>, id: string): (k: int)
    ensures -1 <= k < |players|
    ensures k >= 0 ==> players[k].id == id && forall i :: 0 <= i < k ==> players[i].id != id
    ensures k == -1 ==> forall i :: 0 <= i < |players| ==> players[i].id != id
  {
    var ids := seq(|players|, i requires 0 <= i < |players| => players[i].id);
    assert forall i :: 0 <= i < |players| ==> ids[i] == players[i].id;
    FirstIndex(ids, id)
  }

  /** `endTurn`: without a current player nothing happens; otherwise the turn
      goes to the next player in list order, wrapping around (to the first
      player when the current one is not listed, to nobody when the list is
      empty), and the die is cleared for a new roll. */
  function EndTurn(s: State): (r: State)
    ensures s.currentPlayerId.None? || s.currentPlayerId == Some("") ==> r == s
    ensures s.currentPlayerId.Some? && s.currentPlayerId != Some("") ==>
      && r == s.(currentPlayerId := r.currentPlayerId, diceValue := None, canRollDice := true)
      && (|s.players| == 0 ==> r.currentPlayerId.None?)
      && (|s.players| > 0 ==>
            var k := IndexOf(s.players, s.currentPlayerId.value);
            r.currentPlayerId == IdOrNull(s.players[(k + 1) % |s.players|].id))
  {
    if s.currentPlayerId.None? || s.currentPlayerId.value == "" then s
    else
      var k := IndexOf(s.players, s.currentPlayerId.value);
      var next := if |s.players| == 0 then None else IdOrNull(s.players[(k + 1) % |s.players|].id);
      s.(currentPlayerId := next, diceValue := None, canRollDice := true)
  }

  /** Player ids that are present and pairwise distinct. */
  predicate DistinctIds(players: seq<Player>)
  {
    (forall i :: 0 <= i < |players| ==> players[i].id != "") &&
    forall i, j :: 0 <= i < j < |players| ==> players[i].id != players[j].id
  }

  /** `endTurn` applied `k` times. */
  function EndTurns(s: State, k: nat): State
    decreases k
  {
    if k == 0 then s else EndTurns(EndTurn(s), k - 1)
  }

  /** With distinct ids, one `endTurn` hands the move to the next player,
      wrapping from the last to the first. */
  lemma EndTurnAdvances(s: State, i: nat)
    requires DistinctIds(s.players) && i < |s.players|
    requires s.currentPlayerId == Some(s.players[i].id)
    ensures EndTurn(s).players == s.players
    ensures EndTurn(s).currentPlayerId == Some(s.players[if i + 1 < |s.players| then i + 1 else 0].id)
  {
    IndexOfDistinct(s.players, i);
    NextSeat(i, |s.players|);
  }

  /** With distinct ids, a listed player's id is found at its own place. */
  lemma IndexOfDistinct(players: seq<Player>, i: nat)
    requires DistinctIds(players) && i < |players|
    ensures IndexOf(players, players[i].id) == i
  {
  }

  /** The seat after `i` at a table of `n`, as the source computes it. */
  lemma NextSeat(i: nat, n: nat)
    requires i < n
    ensures (i + 1) % n == if i + 1 < n then i + 1 else 0
  {
  }

  /** The seat `k` places after seat `i` at a table of `n`, for `k` at most one round. */
  function Ahead(i: nat, k: nat, n: nat): (r: nat)
    requires i < n && k <= n
    ensures r < n && (r == i + k || r == i + k - n)
  {
    if i + k < n then i + k else i + k - n
  }

  /** With distinct ids, ending `k` turns (at most one round) hands the move
      `k` places further round the table, wrapping past the last player. */
  lemma {:induction false} EndTurnsCycle(s: State, i: nat, k: nat)
    requires DistinctIds(s.players) && i < |s.players| && k <= |s.players|
    requires s.currentPlayerId == Some(s.players[i].id)
    decreases k
    ensures EndTurns(s, k).players == s.players
    ensures EndTurns(s, k).currentPlayerId == Some(s.players[Ahead(i, k, |s.players|)].id)
  {
    if k > 0 {
      var n := |s.players|;
      var s1 := EndTurn(s);
      EndTurnAdvances(s, i);
      var i1 := if i + 1 < n then i + 1 else 0;
      assert s1.players == s.players && s1.currentPlayerId == Some(s.players[i1].id);
      EndTurnsCycle(s1, i1, k - 1);
      assert Ahead(i1, k - 1, n) == Ahead(i, k, n);
      assert EndTurns(s, k) == EndTurns(s1, k - 1);
    }
  }

  /** After a full round the player who started is to move again. */
  lemma FullRoundReturns(s: State, i: nat)
    requires DistinctIds(s.players) && i < |s.players|
    requires s.currentPlayerId == Some(s.players[i].id)
    ensures EndTurns(s, |s.players|).currentPlayerId == s.currentPlayerId
  {
    EndTurnsCycle(s, i, |s.players|);
  }

  // ----- moving and capturing -----

  /** `players.flatMap(p => p.pieces).find(p => p.id === pieceId)`, as the
      player and piece index of the first match. */
  function Locate(players: seq<Player>, pieceId: string): (r: Option<(nat, nat)>)
    ensures r.Some? ==>
      && r.value.0 < |players| && r.value.1 < |players[r.value.0].pieces|
      && players[r.value.0].pieces[r.value.1].id == pieceId
      && (forall i, j :: 0 <= i < r.value.0 && 0 <= j < |players[i].pieces| ==> players[i].pieces[j].id != pieceId)
      && (forall j :: 0 <= j < r.value.1 ==> players[r.value.0].pieces[j].id != pieceId)
    ensures r.None? <==>
      forall i, j :: 0 <= i < |players| && 0 <= j < |players[i].pieces| ==> players[i].pieces[j].id != pieceId
  {
    if players == [] then None
    else
      var j := PieceIndex(players[0].pieces, pieceId);
      if j >= 0 then Some((0, j))
      else
        var r := Locate(players[1..], pieceId);
        assert forall i :: 1 <= i < |players| ==> players[i] == players[1..][i - 1];
        if r.None? then None else Some((r.value.0 + 1, r.value.1))
  }

  function PieceIndex(ps: seq<Piece>, id: string): (j: int)
    ensures -1 <= j < |ps|
    ensures j >= 0 ==> ps[j].id == id && forall k :: 0 <= k < j ==> ps[k].id != id
    ensures j == -1 ==> forall k :: 0 <= k < |ps| ==> ps[k].id != id
  {
    var ids := seq(|ps|, k requires 0 <= k < |ps| => ps[k].id);
    assert forall k :: 0 <= k < |ps| ==> ids[k] == ps[k].id;
    FirstIndex(ids, id)
  }

  /** An opponent's piece is taken when it stands on the numbered target
      square and is not marked safe. */
  predicate Hit(p: Piece, to: Spot)
  {
    to.Square? && p.position == to && !p.isSafe
  }

  /** A taken piece goes home. */
  function SentHome(p: Piece): Piece
  {
    p.(position := AtHome, isAtHome := true, isAtStart := false, stepCount := 0)
  }

  /** The capture pass of `movePiece`: every hit piece of every player other
      than `owner` goes home. */
  function CaptureAll(players: seq<Player>, owner: string, to: Spot): (r: seq<Player>)
    ensures |r| == |players|
    ensures forall k :: 0 <= k < |players| ==>
      && r[k] == players[k].(pieces := r[k].pieces)
      && |r[k].pieces| == |players[k].pieces|
      && forall l :: 0 <= l < |players[k].pieces| ==>
           r[k].pieces[l] ==
             (if players[k].id != owner && Hit(players[k].pieces[l], to) then SentHome(players[k].pieces[l])
              else players[k].pieces[l])
  {
    seq(|players|, k requires 0 <= k < |players| =>
      if players[k].id == owner then players[k]
      else players[k].(pieces := seq(|players[k].pieces|, l requires 0 <= l < |players[k].pieces| =>
        if Hit(players[k].pieces[l], to) then SentHome(players[k].pieces[l]) else players[k].pieces[l])))
  }

  /** How many pieces of a list are hit. */
  function HitCount(ps: seq<Piece>, to: Spot): nat
  {
    if ps == [] then 0 else (if Hit(ps[0], to) then 1 else 0) + HitCount(ps[1..], to)
  }

  /** How many pieces of players other than `owner` are hit: the points the
      capture earns. */
  function CaptureCount(players: seq<Player>, owner: string, to: Spot): nat
  {
    if players == [] then 0
    else (if players[0].id == owner then 0 else HitCount(players[0].pieces, to)) + CaptureCount(players[1..], owner, to)
  }

  lemma {:induction false} HitCountZero(ps: seq<Piece>, to: Spot)
    ensures HitCount(ps, to) == 0 <==> forall l :: 0 <= l < |ps| ==> !Hit(ps[l], to)
  {
    if ps != [] {
      HitCountZero(ps[1..], to);
      assert forall l :: 1 <= l < |ps| ==> ps[l] == ps[1..][l - 1];
    }
  }

  /** A capture scores nothing exactly when no opponent piece is hit. */
  lemma {:induction false} CaptureCountZero(players: seq<Player>, owner: string, to: Spot)
    ensures CaptureCount(players, owner, to) == 0 <==>
      forall k, l :: 0 <= k < |players| && players[k].id != owner && 0 <= l < |players[k].pieces| ==>
        !Hit(players[k].pieces[l], to)
  {
    if players != [] {
      HitCountZero(players[0].pieces, to);
      CaptureCountZero(players[1..], owner, to);
      assert forall k :: 1 <= k < |players| ==> players[k] == players[1..][k - 1];
    }
  }

  /** The moving piece takes its target: it is home or at start exactly when
      the target says so, and its step count follows a numbered target. */
  function Moved(p: Piece, to: Spot): (q: Piece)
    ensures q.position == to && q.isAtHome == (to == AtHome) && q.isAtStart == (to == AtStart)
    ensures q.stepCount == (if to.Square? then to.n else p.stepCount)
    ensures q.id == p.id && q.playerId == p.playerId && q.isSafe == p.isSafe
  {
    p.(position := to, isAtHome := to == AtHome, isAtStart := to == AtStart,
       stepCount := if to.Square? then to.n else p.stepCount)
  }

  /** The owner's score after the capture pass: one point per piece taken. */
  function Award(players: seq<Player>, c: nat, points: nat): (r: seq<Player>)
    requires c < |players|
    ensures |r| == |players|
    ensures r[c] == players[c].(score := players[c].score + points)
    ensures forall k :: 0 <= k < |players| && k != c ==> r[k] == players[k]
  {
    players[c := players[c].(score := players[c].score + points)]
  }

  /** The moving piece, read after the capture pass, set on its target. */
  function Place(players: seq<Player>, i: nat, j: nat, to: Spot): (r: seq<Player>)
    requires i < |players| && j < |players[i].pieces|
    ensures |r| == |players|
    ensures r[i] == players[i].(pieces := r[i].pieces)
    ensures |r[i].pieces| == |players[i].pieces|
    ensures r[i].pieces[j] == Moved(players[i].pieces[j], to)
    ensures forall l :: 0 <= l < |players[i].pieces| && l != j ==> r[i].pieces[l] == players[i].pieces[l]
    ensures forall k :: 0 <= k < |players| && k != i ==> r[k] == players[k]
  {
    players[i := players[i].(pieces := players[i].pieces[j := Moved(players[i].pieces[j], to)])]
  }

  /** The body of `movePiece` once the moving piece (player `i`, piece `j`)
      and its owner (player `c`) are found: every opponent piece hit on a
      numbered target goes home and scores a point for the owner, the piece
      moves, and the selection and possible moves are cleared. */
  function MoveFound(s: State, i: nat, j: nat, c: nat, to: Spot): (r: State)
    requires i < |s.players| && j < |s.players[i].pieces| && c < |s.players|
    requires s.players[c].id == s.players[i].pieces[j].playerId
    ensures |r.players| == |s.players|
    ensures r == s.(players := r.players, selectedPieceId := None, possibleMoves := [])
    ensures var owner := s.players[c].id;
      var captured := CaptureAll(s.players, owner, to);
      // the owner scores one point per piece taken; nobody else's score moves
      && r.players[c].score == s.players[c].score + CaptureCount(s.players, owner, to)
      && (forall k :: 0 <= k < |s.players| && k != c ==> r.players[k].score == s.players[k].score)
      // players keep their id, name and colour, and the length of their list
      && (forall k :: 0 <= k < |s.players| ==>
            && r.players[k] == s.players[k].(score := r.players[k].score, pieces := r.players[k].pieces)
            && |r.players[k].pieces| == |s.players[k].pieces|)
      // the moving piece ends on the target
      && |r.players[i].pieces| == |s.players[i].pieces|
      && r.players[i].pieces[j] == Moved(captured[i].pieces[j], to)
      // every other piece is the one the capture pass left
      && (forall k, l :: 0 <= k < |s.players| && 0 <= l < |s.players[k].pieces| && (k, l) != (i, j) ==>
            |r.players[k].pieces| == |s.players[k].pieces| && r.players[k].pieces[l] == captured[k].pieces[l])
  {
    var owner := s.players[c].id;
    var captured := CaptureAll(s.players, owner, to);
    var scored := Award(captured, c, CaptureCount(s.players, owner, to));
    s.(players := Place(scored, i, j, to), selectedPieceId := None, possibleMoves := [])
  }

  /** `movePiece`: an unknown piece, or a piece whose owner is not among the
      players, changes nothing; otherwise the move of `MoveFound` happens, for
      the first piece with that id and the first player owning it. */
  function MovePiece(s: State, pieceId: string, to: Spot): (r: State)
    ensures Locate(s.players, pieceId).None? ==> r == s
    ensures Locate(s.players, pieceId).Some? ==>
      var (i, j) := Locate(s.players, pieceId).value;
      var c := IndexOf(s.players, s.players[i].pieces[j].playerId);
      && (c == -1 ==> r == s)
      && (c >= 0 ==> r == MoveFound(s, i, j, c, to))
  {
    match Locate(s.players, pieceId)
    case None => s
    case Some((i, j)) =>
      var c := IndexOf(s.players, s.players[i].pieces[j].playerId);
      if c == -1 then s else MoveFound(s, i, j, c, to)
  }

  /** A move leaves no opponent piece to take on its target, so repeating the
      capture pass would score nothing (for a piece in its own owner's list). */
  lemma MoveLeavesNothingToTake(s: State, i: nat, j: nat, c: nat, to: Spot)
    requires i < |s.players| && j < |s.players[i].pieces| && c < |s.players|
    requires s.players[c].id == s.players[i].pieces[j].playerId
    requires s.players[i].id == s.players[c].id
    ensures CaptureCount(MoveFound(s, i, j, c, to).players, s.players[c].id, to) == 0
  {
    var owner := s.players[c].id;
    var r := MoveFound(s, i, j, c, to);
    var captured := CaptureAll(s.players, owner, to);
    forall k, l | 0 <= k < |r.players| && r.players[k].id != owner && 0 <= l < |r.players[k].pieces|
      ensures !Hit(r.players[k].pieces[l], to)
    {
      assert (k, l) != (i, j);
      assert r.players[k].pieces[l] == captured[k].pieces[l];
    }
    CaptureCountZero(r.players, owner, to);
  }

  /** When every opponent piece on the target is marked safe, the move takes
      nothing: no score changes and every piece but the mover stays put. */
  lemma SafeTargetTakesNothing(s: State, i: nat, j: nat, c: nat, to: Spot)
    requires i < |s.players| && j < |s.players[i].pieces| && c < |s.players|
    requires s.players[c].id == s.players[i].pieces[j].playerId
    requires forall k, l ::
      (0 <= k < |s.players| && 0 <= l < |s.players[k].pieces| &&
       s.players[k].id != s.players[c].id && s.players[k].pieces[l].position == to) ==> s.players[k].pieces[l].isSafe
    ensures var r := MoveFound(s, i, j, c, to);
      && (forall k :: 0 <= k < |s.players| ==> r.players[k].score == s.players[k].score)
      && (forall k, l :: 0 <= k < |s.players| && 0 <= l < |s.players[k].pieces| && (k, l) != (i, j) ==>
            r.players[k].pieces[l] == s.players[k].pieces[l])
  {
    CaptureCountZero(s.players, s.players[c].id, to);
  }

  /** On a target marked as no square (`'home'`, `'start'`, `'end'`) nothing
      is taken and nobody scores. */
  lemma NoCaptureOffTheTrack(players: seq<Player>, owner: string, to: Spot)
    requires !to.Square?
    ensures CaptureAll(players, owner, to) == players
    ensures CaptureCount(players, owner, to) == 0
  {
    CaptureCountZero(players, owner, to);
    var r := CaptureAll(players, owner, to);
    forall k | 0 <= k < |players|
      ensures r[k] == players[k]
    {
      assert r[k].pieces == players[k].pieces;
    }
  }
}
