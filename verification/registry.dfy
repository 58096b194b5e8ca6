/** The game registry of `server/gameManager.js`: the checkers games by id,
    the game each player last entered, and each player's record. A call
    returns the new registry together with its result or the error it throws;
    a thrown error does not undo the updates made before it. */
module Registry {
  import opened Common
  import opened CheckersBoard
  import Checkers

  datatype Registry = Registry(
    games: map<string, Checkers.Game>,
    playerGames: map<string, string>,        // player id -> game id
    players: map<string, Checkers.Player>)   // player id -> player record

  /** `Crashed` is the engine's TypeError on an off-board row, passed on. */
  datatype Error = GameNotFound | GameFull | NotYourTurn | Refused(reason: Checkers.MoveError) | NoWhitePlayer | Crashed

  datatype Reply<+T> = Reply(reg: Registry, result: Result<T, Error>)

  /** The constructor. */
  function EmptyRegistry(): (r: Registry)
    ensures r.games == map[] && r.playerGames == map[] && r.players == map[]
  {
    Registry(map[], map[], map[])
  }

  /** Every registered game has one or two players: created games start with
      one, joining stops at two, and a game left empty is dropped. */
  predicate Valid(reg: Registry)
  {
    forall id :: id in reg.games ==> 1 <= |reg.games[id].players| <= 2
  }

  /** The id given to a new game; the uuid is supplied by the caller. */
  function GameId(uuid: string): string
  {
    "game_" + uuid
  }

  /** `createGame`: a waiting game holding its creator as white, registered
      under a fresh id that is returned. */
  function CreateGame(reg: Registry, uuid: string, playerId: string, playerName: string): (r: (Registry, string))
    ensures r.1 == GameId(uuid)
    ensures r.0.games.Keys == reg.games.Keys + {r.1}
    ensures var player := Checkers.Player(playerId, playerName, White);
      var g := r.0.games[r.1];
      && (forall id :: id in reg.games && id != r.1 ==> r.0.games[id] == reg.games[id])
      && g.id == r.1 && g.status == Checkers.Waiting && g.players == [player]
      && g.pieces == map[playerId := InitialPieces(playerId, White)]
      && g.current == None && g.winner == None && g.chain == None
      && r.0.playerGames == reg.playerGames[playerId := r.1]
      && r.0.players == reg.players[playerId := player]
    // the creator's twelve men stand on their start squares and nothing else is on the board
    ensures var g := r.0.games[r.1];
      var ps := InitialPieces(playerId, White);
      && (forall i :: 0 <= i < 12 ==> At(g.board, ps[i].row, ps[i].col) == Some(ps[i]))
      && (forall row: Coord, col: Coord :: !(StartRow(White) <= row < StartRow(White) + 3 && IsDark(row, col)) ==>
            At(g.board, row, col).None?)
    ensures Valid(reg) ==> Valid(r.0)
  {
    var gameId := GameId(uuid);
    var player := Checkers.Player(playerId, playerName, White);
    var g := Checkers.AddPlayer(Checkers.NewGame(gameId), player).value;
    (Registry(reg.games[gameId := g], reg.playerGames[playerId := gameId], reg.players[playerId := player]), gameId)
  }

  /** `joinGame`: the player enters a known game that is not full, as black;
      the second arrival starts the game. */
  function JoinGame(reg: Registry, gameId: string, playerId: string, playerName: string): (r: Reply<Checkers.Game>)
    ensures r.result == Err(GameNotFound) <==> gameId !in reg.games
    ensures r.result == Err(GameFull) <==> gameId in reg.games && |reg.games[gameId].players| >= 2
    ensures r.result in {Err(GameNotFound), Err(GameFull)} ==> r.reg == reg
    ensures !(r.result in {Err(GameNotFound), Err(GameFull)}) ==>
      var player := Checkers.Player(playerId, playerName, Black);
      var g := reg.games[gameId];
      && r.reg.games.Keys == reg.games.Keys
      && var g' := r.reg.games[gameId];
      && (forall id :: id in reg.games && id != gameId ==> r.reg.games[id] == reg.games[id])
      && r.reg.playerGames == reg.playerGames[playerId := gameId]
      && r.reg.players == reg.players[playerId := player]
      && g'.players == g.players + [player]
      && g'.pieces == g.pieces[playerId := InitialPieces(playerId, Black)]
      && (r.result.Ok? ==> r.result.value == g')
      && (|g.players| == 0 ==> r.result.Ok? && g'.status == g.status)
      && (|g.players| == 1 ==>
            && g'.status == Checkers.Playing
            && (r.result == Err(NoWhitePlayer) <==> g.players[0].color != White)
            && (r.result.Ok? ==> g'.current == Some(g.players[0].id)))
    // the joiner's twelve men stand on their start squares, the rest of the
    // board is as it was, and no winner or capture chain appears
    ensures !(r.result in {Err(GameNotFound), Err(GameFull)}) ==>
      var g := reg.games[gameId];
      var g' := r.reg.games[gameId];
      var ps := InitialPieces(playerId, Black);
      && (forall i :: 0 <= i < 12 ==> At(g'.board, ps[i].row, ps[i].col) == Some(ps[i]))
      && (forall row: Coord, col: Coord :: !(StartRow(Black) <= row < StartRow(Black) + 3 && IsDark(row, col)) ==>
            At(g'.board, row, col) == At(g.board, row, col))
      && g'.winner == g.winner && g'.chain == g.chain
    ensures Valid(reg) ==> Valid(r.reg)
  {
    if gameId !in reg.games then Reply(reg, Err(GameNotFound))
    else
      var g := reg.games[gameId];
      if |g.players| >= 2 then Reply(reg, Err(GameFull))
      else Admit(reg, gameId, playerId, playerName)
  }

  /** The part of `joinGame` past its two refusals: the player is added as
      black and recorded, and a second player starts the game. */
  function Admit(reg: Registry, gameId: string, playerId: string, playerName: string): (r: Reply<Checkers.Game>)
    requires gameId in reg.games && |reg.games[gameId].players| < 2
    ensures gameId in r.reg.games
    ensures var g := reg.games[gameId];
      var ps := InitialPieces(playerId, Black);
      var g' := r.reg.games[gameId];
      && (forall i :: 0 <= i < 12 ==> At(g'.board, ps[i].row, ps[i].col) == Some(ps[i]))
      && (forall row: Coord, col: Coord :: !(StartRow(Black) <= row < StartRow(Black) + 3 && IsDark(row, col)) ==>
            At(g'.board, row, col) == At(g.board, row, col))
      && g'.winner == g.winner && g'.chain == g.chain
      && g'.players == g.players + [Checkers.Player(playerId, playerName, Black)]
      && g'.pieces == g.pieces[playerId := ps]
    ensures r.reg == Registry(reg.games[gameId := r.reg.games[gameId]], reg.playerGames[playerId := gameId],
                              reg.players[playerId := Checkers.Player(playerId, playerName, Black)])
  {
    var player := Checkers.Player(playerId, playerName, Black);
    var g1 := Checkers.AddPlayer(reg.games[gameId], player).value;
    var reg1 := Registry(reg.games[gameId := g1], reg.playerGames[playerId := gameId], reg.players[playerId := player]);
    if |g1.players| == 2 then
      var s := Checkers.StartGame(g1);
      var reg2 := reg1.(games := reg1.games[gameId := s.game]);
      if s.error.Some? then Reply(reg2, Err(NoWhitePlayer)) else Reply(reg2, Ok(s.game))
    else Reply(reg1, Ok(g1))
  }

  /** `makeMove`: the game must exist and the caller must be its current
      player; the move is passed on as the client sent it, and the engine's
      refusal or throw comes back as an error. */
  function MakeMove(reg: Registry, gameId: string, playerId: string, m: Checkers.ClientMove): (r: Reply<Checkers.Game>)
    requires gameId in reg.games && reg.games[gameId].status == Checkers.Playing ==> Checkers.Ready(reg.games[gameId])
    ensures r.result == Err(GameNotFound) <==> gameId !in reg.games
    ensures r.result == Err(NotYourTurn) <==> gameId in reg.games && reg.games[gameId].current != Some(playerId)
    // the registry's own turn check runs first, so the engine never refuses on turn
    ensures r.result != Err(Refused(Checkers.NotYourTurn))
    ensures r.result.Err? ==> r.reg == reg
    ensures gameId in reg.games && reg.games[gameId].current == Some(playerId) ==>
      var res := Checkers.SubmitMove(reg.games[gameId], playerId, m);
      && (res.outcome.Rejected? ==> r.result == Err(Refused(res.outcome.error)))
      && (res.outcome == Checkers.Crashed ==> r.result == Err(Crashed))
    ensures r.result.Ok? ==>
      var res := Checkers.SubmitMove(reg.games[gameId], playerId, m);
      && !res.outcome.Rejected? && res.outcome != Checkers.Crashed
      && r.reg == reg.(games := reg.games[gameId := res.game])
      && r.result.value == res.game
      && res.game.players == reg.games[gameId].players
    ensures Valid(reg) ==> Valid(r.reg)
    // a move reaching off the board is an error and changes nothing
    ensures !(Checkers.OnBoard(m.fromRow) && Checkers.OnBoard(m.fromCol) && Checkers.OnBoard(m.toRow) && Checkers.OnBoard(m.toCol)) ==>
      r.result.Err? && r.reg == reg
  {
    if gameId !in reg.games then Reply(reg, Err(GameNotFound))
    else
      var g := reg.games[gameId];
      if g.current != Some(playerId) then Reply(reg, Err(NotYourTurn))
      else
        var res := Checkers.SubmitMove(g, playerId, m);
        if res.outcome.Rejected? then Reply(reg, Err(Refused(res.outcome.error)))
        else if res.outcome == Checkers.Crashed then Reply(reg, Err(Crashed))
        else Reply(reg.(games := reg.games[gameId := res.game]), Ok(res.game))
  }

  /** `getGameState`. */
  function GetGameState(reg: Registry, gameId: string): (r: Result<Checkers.Game, Error>)
    ensures r.Ok? <==> gameId in reg.games
    ensures r.Ok? ==> r.value == reg.games[gameId]
    ensures r.Err? ==> r.error == GameNotFound
  {
    if gameId in reg.games then Ok(reg.games[gameId]) else Err(GameNotFound)
  }

  /** An entry of the lobby list. */
  datatype Listing = Listing(hostName: string, playersCount: nat)

  /** `players[0]?.name || 'Inconnu'`: an empty name is falsy too. */
  function HostName(g: Checkers.Game): (s: string)
    ensures |g.players| > 0 && g.players[0].name != "" ==> s == g.players[0].name
    ensures (|g.players| == 0 || g.players[0].name == "") ==> s == "Inconnu"
  {
    if |g.players| > 0 && g.players[0].name != "" then g.players[0].name else "Inconnu"
  }

  /** A game appears in the lobby while it waits for its second player. */
  predicate Open(g: Checkers.Game)
  {
    |g.players| < 2 && g.status == Checkers.Waiting
  }

  /** `getAvailableGames`, keyed by game id. */
  function GetAvailableGames(reg: Registry): (r: map<string, Listing>)
    ensures forall id :: id in r <==> id in reg.games && Open(reg.games[id])
    ensures forall id :: id in r ==> r[id] == Listing(HostName(reg.games[id]), |reg.games[id].players|)
  {
    map id | id in reg.games && Open(reg.games[id]) :: Listing(HostName(reg.games[id]), |reg.games[id].players|)
  }

  /** `getPlayerGame`: the game the player last created or joined. */
  function GetPlayerGame(reg: Registry, playerId: string): (r: Option<string>)
    ensures r.Some? <==> playerId in reg.playerGames
    ensures r.Some? ==> r.value == reg.playerGames[playerId]
  {
    if playerId in reg.playerGames then Some(reg.playerGames[playerId]) else None
  }

  /** `getPlayer`. */
  function GetPlayer(reg: Registry, playerId: string): (r: Option<Checkers.Player>)
    ensures r.Some? <==> playerId in reg.players
    ensures r.Some? ==> r.value == reg.players[playerId]
  {
    if playerId in reg.players then Some(reg.players[playerId]) else None
  }

  /** `removePlayer`: the player leaves the named game, which is dropped once
      empty; the player's own records go in every case. */
  function RemovePlayer(reg: Registry, gameId: string, playerId: string): (r: Registry)
    ensures r.playerGames == reg.playerGames - {playerId}
    ensures r.players == reg.players - {playerId}
    ensures forall id :: id in reg.games && id != gameId ==> id in r.games && r.games[id] == reg.games[id]
    ensures forall id :: id in r.games ==> id in reg.games
    ensures gameId in r.games <==>
      gameId in reg.games && |Checkers.RemovePlayer(reg.games[gameId], playerId).players| > 0
    ensures gameId in r.games ==> r.games[gameId] == Checkers.RemovePlayer(reg.games[gameId], playerId)
    ensures Valid(reg) ==> Valid(r)
  {
    var games :=
      if gameId in reg.games then
        var g' := Checkers.RemovePlayer(reg.games[gameId], playerId);
        assert |g'.players| <= |reg.games[gameId].players|;
        if |g'.players| == 0 then reg.games - {gameId} else reg.games[gameId := g']
      else reg.games;
    Registry(games, reg.playerGames - {playerId}, reg.players - {playerId})
  }

  /** A newly created game is listed under its creator's name with one player. */
  lemma CreatedGameIsListed(reg: Registry, uuid: string, playerId: string, playerName: string)
    requires playerName != ""
    ensures var (reg', id) := CreateGame(reg, uuid, playerId, playerName);
      var lobby := GetAvailableGames(reg');
      id in lobby && lobby[id] == Listing(playerName, 1)
  {
  }

  /** Joining a listed game takes it off the lobby, and the joiner's game
      is then the one they joined. */
  lemma JoinedGameIsUnlisted(reg: Registry, gameId: string, playerId: string, playerName: string)
    requires Valid(reg)
    requires gameId in GetAvailableGames(reg)
    ensures var r := JoinGame(reg, gameId, playerId, playerName);
      && gameId !in GetAvailableGames(r.reg)
      && GetPlayerGame(r.reg, playerId) == Some(gameId)
  {
  }

  /** Creating a game and having a second, distinct player join it yields a
      started game, ready for moves, with the creator (white) to move. */
  lemma CreateThenJoinStarts(reg: Registry, uuid: string, host: string, hostName: string, guest: string, guestName: string)
    requires host != guest
    ensures var (reg1, id) := CreateGame(reg, uuid, host, hostName);
      var j := JoinGame(reg1, id, guest, guestName);
      && j.result.Ok?
      && j.result.value == j.reg.games[id]
      && j.result.value.status == Checkers.Playing
      && j.result.value.current == Some(host)
      && Checkers.Ready(j.result.value)
  {
    var (reg1, id) := CreateGame(reg, uuid, host, hostName);
    var hostP := Checkers.Player(host, hostName, White);
    var guestP := Checkers.Player(guest, guestName, Black);
    var g1 := Checkers.AddPlayer(Checkers.NewGame(id), hostP).value;
    assert reg1.games[id] == g1;
    Checkers.TwoJoinsMakeReady(id, hostP, guestP);
  }

  /** Nothing stops a player from joining their own game: it starts with the
      creator listed twice and a single piece list (the second overwrites
      the first), so it is playing but not ready. */
  lemma SelfJoinStartsUnready(reg: Registry, uuid: string, host: string, hostName: string, secondName: string)
    ensures var (reg1, id) := CreateGame(reg, uuid, host, hostName);
      var j := JoinGame(reg1, id, host, secondName);
      && j.result.Ok?
      && j.result.value.status == Checkers.Playing
      && |j.result.value.players| == 2
      && j.result.value.players[0].id == host && j.result.value.players[1].id == host
      && j.result.value.pieces == map[host := InitialPieces(host, Black)]
      && !Checkers.Ready(j.result.value)
  {
    var (reg1, id) := CreateGame(reg, uuid, host, hostName);
    JoinOwnGame(reg1, id, host, hostName, secondName);
  }

  lemma JoinOwnGame(reg: Registry, id: string, host: string, hostName: string, secondName: string)
    requires id in reg.games
    requires reg.games[id].players == [Checkers.Player(host, hostName, White)]
    requires reg.games[id].pieces == map[host := InitialPieces(host, White)]
    ensures var j := JoinGame(reg, id, host, secondName);
      && j.result.Ok?
      && j.result.value.status == Checkers.Playing
      && |j.result.value.players| == 2
      && j.result.value.players[0].id == host && j.result.value.players[1].id == host
      && j.result.value.pieces == map[host := InitialPieces(host, Black)]
      && !Checkers.Ready(j.result.value)
  {
    var g := reg.games[id];
    var second := Checkers.Player(host, secondName, Black);
    var g1 := Checkers.AddPlayer(g, second).value;
    assert g1.players == [Checkers.Player(host, hostName, White), second];
    assert g1.pieces == map[host := InitialPieces(host, Black)];
    var s := Checkers.StartGame(g1);
    assert Checkers.FirstWhite(g1.players) == Some(host);
    assert s.error.None? && s.game.status == Checkers.Playing;
    assert s.game.players == g1.players && s.game.pieces == g1.pieces;
    assert JoinGame(reg, id, host, secondName).result == Ok(s.game);
  }
}
