# Board-game rules and state, modelled in Dafny

This project models the rule and state core of a small multiplayer board-game
server and its web client. It covers five parts:

- **Checkers engine** (`server/checkersGame.js`, modules `CheckersBoard` and `Checkers`):
  - the 8×8 board and the twelve men each player starts with;
  - joining and starting a game;
  - move classification by geometry, with mandatory capture and the house rule that men may capture backwards;
  - capture chains, promotion, game-over detection, turn switching and a player leaving.
- **Game registry** (`server/gameManager.js`, module `Registry`): checkers games by id, the game each player is in, and each player's record. It supports create, join, move, lookup, lobby listing and removal.
- **Ludo engine** (`server/ludoGame.js`, module `Ludo`): joining, rolling, both position rules, move generation, captures, the win check, and `makeMove`. `makeMove` is modelled both as written and as evidently intended (see Findings).
- **Client Ludo reducer** (`src/store/gameSlice.ts`, module `GameSlice`): start, roll, select, move with capture and scoring, end of turn, and winner.
- **Settings reducer** (`src/store/settingsSlice.ts`, module `Settings`): the defaults, a partial update and a reset.

Every operation is a pure function from the old state (and the call's arguments) to the new state.

- Where the source throws after it has already changed something, the model returns the changed state. For checkers `startGame` it adds the error. For Ludo `makeMove` it reports `Crashed`. The other Ludo throws after an update are listed under "Left out".
- `Math.random` (the die) and `uuidv4` (the game id) are replaced by parameters.
- `common.dfy` holds `Option`, `Result`, and the JavaScript meanings of `Math.abs` and `%`.

Where the project's own documentation and the code differ, the model follows the code:

- The Ludo board data lists the safe cells as 0, 8, 13, 21, 26, 34, 39, 47 (`server/ludoGame.js:24`). Captures use 1, 9, 14, 22, 27, 35, 40, 48 (lines 155 and 349), and the model uses those.
- Ludo start squares are 0/13/26/39 in the move generator (lines 28-33 and 177). After a six, `validateAndMovePiece` places a piece on 1/14/27/40 (line 304).
- In Ludo, `distanceTraveled` and `finishedPieces` are never updated, and `consecutiveSixes` is not reset by a roll other than a six.
- The live `calculateNewPosition` is the second definition. It adds the die only when its `direction` is the text `'forward'` and subtracts it for any other text.
  - `rollDice`'s move generator (lines 185 and 198) passes the player's colour there, so every forward move it lists subtracts the die (`Ludo.LiveForwardMovesGoBack`).
  - `validateAndMovePiece` (line 283) passes on the direction `makeMove` was given, so a forward move made through `makeMove` adds the die.
- A backward move is checked `die` squares behind the piece (`canCaptureBackward`, line 142). `makeMove` then negates the die (line 409) and passes the direction `'backward'` (line 410), so the position rule subtracts the negated die (line 312). An accepted backward capture therefore lands `die` squares ahead of the piece, or finishes (`Ludo.BackwardCaptureLandsAhead`).
- Only the text `'backward'` asks for the capture check (line 399). Any other text that is not `'forward'` skips that check and still moves the piece back by the die (`Ludo.OtherDirectionNeedsNoCapture`, `Ludo.OtherDirectionMovesBack`).
- The first (distance) rule can produce the position `home--1`. Read back, that position parses as `NaN`, so the piece never moves again under that rule (`Ludo.DistanceRuleReachesHomeMinusOne`).
- In the Ludo game-over branch the source writes `status` (line 433). The corrected engine writes `gameStatus`, the field every other operation reads.
- In checkers, the game-over test after a move looks at the player who just moved, because the turn has not switched yet (`server/checkersGame.js:146` and `:302`).

## Model

| member | source | states |
|---|---|---|
| CheckersBoard.EmptyBoard | server/checkersGame.js:13-16 | the board starts with every one of the 64 cells empty |
| CheckersBoard.CreatePieces | server/checkersGame.js:32-53 | the nested row/column loop produces exactly the twelve pieces of the closed-form layout, in creation order |
| CheckersBoard.InitialPiecesOnDarkStartRows | server/checkersGame.js:32-53 | every initial piece is an uncrowned man of its owner, numbered by position, on a dark square of the colour's three start rows (5-7 for white, 0-2 otherwise) |
| CheckersBoard.InitialPiecesDistinct | server/checkersGame.js:32-53 | no two initial pieces share a square |
| CheckersBoard.InitialPiecesCoverStartRows | server/checkersGame.js:32-53 | every dark square of the three start rows receives a piece |
| CheckersBoard.PlacePieces | server/checkersGame.js:55-62 | each piece lands on its own square; squares no piece names keep their content |
| Checkers.NewGame | server/checkersGame.js:2-11 | a new game is waiting, with no players, no pieces, no current player, no winner, no chain and an empty board |
| Checkers.AddPlayer | server/checkersGame.js:18-30 | a third player is refused; otherwise the player is appended with twelve fresh men, which stand on their squares, and nothing else on the board or in the status changes |
| Checkers.AddPlayerKeepsOwnersKnown | server/checkersGame.js:18-30 | after a join, every piece on the board still belongs to a player who has a piece list |
| Checkers.StartGame | server/checkersGame.js:64-72 | fewer or more than two players is an error with the game unchanged; with two, the game is playing and the first white player (in join order) is current; with no white player, the status has already changed when the error occurs |
| Checkers.FirstWhite | server/checkersGame.js:71 | the id of the first white player in join order, and none exactly when no player is white |
| Checkers.TwoJoinsMakeReady | server/checkersGame.js:18-30 | two players with different ids joining a new game give two piece lists and a board whose every piece has a known owner |
| Checkers.Midpoint | server/checkersGame.js:216-222 | the jumped square lies exactly halfway, and is a whole square because both distances are 2 |
| Checkers.PlayerColor | server/checkersGame.js:280-283 | the colour of the first player with that id, and none exactly when no player has it |
| Checkers.GetMoveType | server/checkersGame.js:161-214 | a move is simple iff it is one diagonal step to an empty square, forward for a man, and the owner has no capture anywhere; it is a capture iff it is a two-step diagonal to an empty square over an opponent's piece, in any direction, for men and kings alike |
| Checkers.GetPossibleCaptures | server/checkersGame.js:224-245 | lists exactly the on-board two-step diagonal targets that classify as captures |
| Checkers.HasCapturesMeansAJump | server/checkersGame.js:247-257 | `hasCaptures` holds exactly when some piece in the player's list can jump diagonally onto an empty square over another player's piece |
| Checkers.GetPossibleMoves | server/checkersGame.js:324-353 | a piece with a capture is offered exactly its captures; otherwise it is offered exactly its one-step diagonals to empty squares, in all four directions for a king and forward for a man |
| Checkers.HasValidMovesMeansAMove | server/checkersGame.js:311-322 | `hasValidMoves` holds exactly when some piece in the player's list can jump or step somewhere |
| Checkers.MovesIgnoreTurn | server/checkersGame.js:311-353 | whether a player can move depends only on the board, the players and the piece lists, not on the turn, status, winner or chain |
| Checkers.PossibleMovesMatchMoveType | server/checkersGame.js:324-353 | a piece's capture list holds exactly its capturing moves; when its owner has no capture, its move list holds exactly its simple moves |
| Checkers.RemovePieceFrom | server/checkersGame.js:259-266 | removes the first piece with the id and keeps the others in order; an absent id changes nothing |
| Checkers.ApplyCapture | server/checkersGame.js:110-122 | clears the jumped square and drops that piece from its owner's list; empties the origin and puts the capturer on the target, updating its list entry; no other square or list changes, and the game stays ready to play |
| Checkers.Relocate | server/checkersGame.js:133-138 | empties the origin, puts the piece on the target with its new square in its owner's list, and changes no other square or list |
| Checkers.Promote | server/checkersGame.js:140-143 | a man that ends on its far row (row 0 for white, row 7 otherwise) is crowned on the board and in its list; a king stays a king; no other square changes |
| Checkers.PromoteOnce | server/checkersGame.js:268-278 | after promotion the piece is a king iff it was one or a man reached row 0 (white) or row 7 (otherwise); it is never crowned a second time |
| Checkers.CheckGameOver | server/checkersGame.js:291-309 | a player with no pieces left loses to the other; otherwise the player to move loses if none of their pieces can move; otherwise there is no winner |
| Checkers.SwitchPlayer | server/checkersGame.js:285-289 | only the current player changes, and it becomes the other of the two players |
| Checkers.RemovePlayer | server/checkersGame.js:355-367 | an unknown id changes nothing; otherwise the first entry with that id is spliced out and the others keep their order, the piece list goes, the men stay on the board, and a playing game left with one player is won by that player and finishes |
| Checkers.LeaverLoses | server/checkersGame.js:355-367 | when one of two players with different ids leaves a game in play, the other is the only player left and wins |
| Checkers.Validate | server/checkersGame.js:79-107 | for a move on the board, the checks refuse in the source's order: not playing, not your turn, no own piece at the origin, then for an own piece an invalid move before a wrong piece during a chain |
| Checkers.AfterCapture | server/checkersGame.js:123-132 | a further capture keeps the turn and records the chain without promotion; otherwise the chain ends, a man on its far row is crowned on the board and in its list, and the game-over rule decides the outcome |
| Checkers.Conclude | server/checkersGame.js:140-158 | the game finishes exactly when `checkGameOver` names a winner after promotion, with that winner: a player without pieces loses (first in join order), else the mover loses if no piece of theirs can move, else play goes on and the turn passes exactly when no chain is pending |
| Checkers.PerformCapture | server/checkersGame.js:110-158 | an accepted capture removes the jumped piece from board and list, then either continues the chain or completes the move under the game-over rule; the game stays ready to play |
| Checkers.CaptureFrame | server/checkersGame.js:110-143 | a capture changes no square but the origin, the target and the jumped square, and no list but the capturer's (whose entry for the piece takes its new state) and the captured player's |
| Checkers.PerformSimple | server/checkersGame.js:133-158 | an accepted step moves the piece and crowns it on its far row; no other square and no other player's list changes; the game-over rule decides whether the game ends or the turn passes |
| Checkers.Play | server/checkersGame.js:108-158 | the piece leaves its origin and ends on the target, crowned at most; only the origin, target and jumped squares change, and only the mover's and the captured player's lists; a capture clears the jumped square and list entry; a continuing chain keeps the turn unpromoted; a completed move crowns a man on its far row and ends the game exactly as the game-over rule reads the new position; otherwise the turn passes iff no chain is pending |
| Checkers.MakeMove | server/checkersGame.js:79-158 | for a move on the board, every refusal leaves the game unchanged and comes in the source's order (not playing, not your turn, no own piece at the origin, invalid move, wrong piece during a chain); an accepted move is a legal move of the player's own piece and is played out as `Checkers.Play` states; the game stays ready to play |
| Checkers.SubmitMove | server/checkersGame.js:79-107 | a move as the client sends it, with any integer coordinates: all four on the board is `makeMove` on those squares; otherwise the game is unchanged and the outcome follows the source's order: not playing, not your turn, a `TypeError` for a row off the board at the origin, no piece for a column off the board at the origin or a square without an own piece, an invalid move for a non-diagonal, a `TypeError` for a diagonal whose target row is off the board, and an invalid move for a target column off the board |
| Checkers.LastCaptureWins | server/checkersGame.js:110-155 | jumping the opponent's last listed piece wins the game for the mover, unless a further capture continues the chain |
| Registry.EmptyRegistry | server/gameManager.js:5-9 | all three maps start empty |
| Registry.CreateGame | server/gameManager.js:11-29 | stores a waiting game under `game_` plus the fresh id, with the creator as its only (white) player, whose twelve men stand on their start squares on an otherwise empty board; records the creator in both player maps, and leaves other games alone |
| Registry.JoinGame | server/gameManager.js:31-59 | an unknown game or a full one is an error with nothing changed; otherwise the joiner is added as black and recorded, their twelve men stand on their start squares while every other square keeps its content, no winner or capture chain appears, and the game starts exactly when it reaches two players |
| Registry.Admit | server/gameManager.js:42-56 | past the two refusals, the joiner is recorded in both maps, appended as black with a fresh piece list, and their men are placed without touching any other square, the winner or the chain |
| Registry.CreateThenJoinStarts | server/gameManager.js:11-59 | creating a game and having a second player join it starts it, with the creator to move and the game ready to play |
| Registry.SelfJoinStartsUnready | server/gameManager.js:31-59 | a player who joins their own game starts it with themself listed twice and a single (black) piece list, so the game is playing but not ready to play |
| Registry.MakeMove | server/gameManager.js:61-79 | the move is handed to the engine as the client sent it; an unknown game or a caller who is not current is an error, and so is every engine refusal and the engine's `TypeError` on a row off the board; a move with a square off the board is always an error; every error leaves the registry unchanged; success stores and returns the engine's new game |
| Registry.GetGameState | server/gameManager.js:81-89 | returns the game iff its id is known, and an error otherwise |
| Registry.HostName | server/gameManager.js:91-105 | the first player's name, or `Inconnu` when there is no player or the name is empty |
| Registry.GetAvailableGames | server/gameManager.js:91-105 | lists exactly the waiting games with fewer than two players, each with its host name and player count |
| Registry.CreatedGameIsListed | server/gameManager.js:11-29 | a game just created appears in the lobby under its host's name with one player |
| Registry.JoinedGameIsUnlisted | server/gameManager.js:31-59 | a listed game that someone joins leaves the lobby, and the joiner is recorded in it |
| Registry.GetPlayerGame | server/gameManager.js:107-109 | the recorded game of a player, if any |
| Registry.GetPlayer | server/gameManager.js:111-113 | the recorded player, if any |
| Registry.RemovePlayer | server/gameManager.js:115-129 | the player's two entries always go, so neither lookup finds the player afterwards; the game goes iff it has no players left; other games are untouched |
| Ludo.NewGame | server/ludoGame.js:2-15 | a new game has no players, no die, no winner, a waiting status and rolling enabled |
| Ludo.StartPosition | server/ludoGame.js:302-306 | undefined exactly for the index -1 of a player not found; otherwise square 1 + 13 × index, always a safe cell |
| Ludo.InitializePieces | server/ludoGame.js:66-78 | produces the four pieces `color-0` to `color-3`, each in base and not in play |
| Ludo.AddPlayer | server/ludoGame.js:39-64 | a fifth player is refused; otherwise the player is appended with the given colour or the next default colour, and the status becomes playing when the second player joins |
| Ludo.AddPlayerKeepsStatusMatchingCount | server/ludoGame.js:39-64 | from the constructor on, the status is playing exactly when at least two players have joined |
| Ludo.RollDice | server/ludoGame.js:80-129 | a roll out of turn or while rolling is disabled changes nothing; otherwise it records the die and the possible moves, counts sixes, resets the count and passes the turn on a third six, and passes the turn when no move is possible |
| Ludo.RollKeepsSixesBelowThree | server/ludoGame.js:91-122 | the count of consecutive sixes stays below three |
| Ludo.ThirdSixPassesTurn | server/ludoGame.js:99-104 | a third six in a row resets the count and passes the turn |
| Ludo.AdvanceByDistance | server/ludoGame.js:216-256 | base and finished pieces cannot move; on the track within 50 steps the result is the track square modulo 52; beyond that it is a home square, or nothing past the end; a home cell below the first (`home--1`) parses as `NaN` and gives nothing; other home cells advance to `finished` at exactly 5 |
| Ludo.DistanceRuleReachesHomeMinusOne | server/ludoGame.js:229-253 | a piece 45 steps along that rolls a 6 is sent to `home--1`, a home cell below the first, and from there no roll moves it |
| Ludo.HomeMovesCompose | server/ludoGame.js:242-253 | from a home cell at or above the first, two moves along the home column equal one move by their sum |
| Ludo.AdvanceByIndex | server/ludoGame.js:308-339 | a result exists only from the track; raw positions below 1, before the owner's start, or past the owner's maximum give nothing; exactly the maximum gives `finished`; other results wrap past 52 and stay below the maximum |
| Ludo.MoveKindOf | server/ludoGame.js:258-263 | a move from base is a start move, to `finished` a finish move, to home a home move, else a normal move |
| Ludo.BackwardCaptureAgrees | server/ludoGame.js:132-164 | only a piece on the track may move back, and it may exactly when a capture check on the square behind would send a piece to base |
| Ludo.CheckCaptures | server/ludoGame.js:345-368 | on base, finished or a safe cell nothing changes; otherwise every piece of every non-skipped player on the square goes back to base, and the flag is set iff one did |
| Ludo.CheckCapturesIdempotent | server/ludoGame.js:345-368 | a second capture check on the same square takes nothing more |
| Ludo.NothingCapturedNothingChanged | server/ludoGame.js:345-368 | when the flag says nothing was captured, no piece moved |
| Ludo.SendBack | server/ludoGame.js:358-363 | every piece of the list on the square goes back to base and every other piece is untouched |
| Ludo.CheckWinCondition | server/ludoGame.js:370-378 | the winner is the first player in join order with four finished pieces, and there is none iff no player has four |
| Ludo.MovesFor | server/ludoGame.js:166-214 | a finished piece gets no move; a piece in base gets the start move iff the die is 6; a piece in play gets a forward move iff the rule gives a square, and a backward capture iff one is possible and the rule gives a square |
| Ludo.CalculatePossibleMoves | server/ludoGame.js:166-214 | every move is of one of the player's pieces from where it stands; no finished piece moves; a start move exists iff the die is 6 and a piece is in base, and it goes to the colour's start square |
| Ludo.MovesOf | server/ludoGame.js:169-211 | a move is offered iff it is offered for one of the listed pieces |
| Ludo.LiveForwardMovesGoBack | server/ludoGame.js:185 | with the live rule, a forward move along the track goes back by the die |
| Ludo.ValidateMove | server/ludoGame.js:273-300 | a piece in base needs exactly a six and goes to the start square 1 + 13 × its owner's index, and is refused when the owner index is -1 (the start square is undefined); any other piece moves by the live rule in the direction text given, or is refused |
| Ludo.FindPiece | server/ludoGame.js:265-271 | the first piece with the id, searching the players in join order, and none exactly when no player holds it |
| Ludo.TrackMoveLands | server/ludoGame.js:308-334 | from the track, the live rule lands `steps` ahead for `'forward'` and `steps` behind for any other text, wrapped once past 52, or finishes |
| Ludo.BackwardMoveLands | server/ludoGame.js:132-164 | a backward move that `canCaptureBackward` allows and the rule accepts with the negated die has an opponent's piece on an unsafe square `die` behind it, yet lands `die` ahead, or finishes |
| Ludo.BackwardCaptureLooksBehind | server/ludoGame.js:132-164 | the checks accept a backward move only from the track and only when an opponent's piece stands on an unsafe square `die` behind it |
| Ludo.BackwardCheckLandsAhead | server/ludoGame.js:283 | the square the checks give a backward move is `die` ahead of the piece, wrapped past 52, or `finished` |
| Ludo.BackwardCaptureLandsAhead | server/ludoGame.js:397-412 | a backward move that passes the checks is refused only for taking nothing where it lands; otherwise it leaves the piece `die` squares ahead of where it stood, wrapped past 52, or finished |
| Ludo.OtherDirectionNeedsNoCapture | server/ludoGame.js:398-412 | a direction that is neither `'forward'` nor `'backward'` is never refused for lacking a capture |
| Ludo.OtherDirectionCheckGoesBack | server/ludoGame.js:283 | for such a direction, the square the checks give a piece on the track is `die` behind it, wrapped, or `finished` |
| Ludo.OtherDirectionMovesBack | server/ludoGame.js:399-412 | a move in such a direction that passes the checks is made, and a piece on the track goes back by the die |
| Ludo.FinishedPieceIsRefused | server/ludoGame.js:308-334 | the live rule refuses every move of a finished piece |
| Ludo.Settle | server/ludoGame.js:431-451 | a winner ends the game and changes nothing but the players, the status and the winner; otherwise only the players, the die (cleared) and the roll flag (re-enabled) change, and the player rolls again iff the die was 6 or something was captured |
| Ludo.ResolveMove | server/ludoGame.js:417-451 | a backward move that captured nothing is undone and refused with the game unchanged; otherwise the pieces are those the capture check leaves, and a win changes only the status and winner besides, any other move only the die and roll flag |
| Ludo.UndoneMoveRestores | server/ludoGame.js:425-428 | moving a piece and moving it back, with nothing captured, restores every player |
| Ludo.MakeMove | server/ludoGame.js:380-387 | as written, a game never passes the first check unless `status` is set, and otherwise the undefined turn test throws; either way the game is unchanged |
| Ludo.MakeMoveNeverProceeds | server/ludoGame.js:381 | with `status` unset, which is every game the other operations build, every move is refused as not in progress |
| Ludo.StatusStaysUnset | server/ludoGame.js:2-129 | the constructor, `addPlayer` and `rollDice` never set `status` |
| Ludo.StartedGameRefusesMoves | server/ludoGame.js:381 | two players join, the first rolls a six, and moving a piece is refused, while the intended engine moves it onto square 1 |
| Ludo.CheckPiece | server/ludoGame.js:393-415 | the piece must be the caller's, then a move whose direction is the text `'backward'` needs a possible capture, then the position rule decides: a piece in base without a six is refused with `NeedSix`, any other rejected move with `MoveImpossible` |
| Ludo.CheckMove | server/ludoGame.js:381-415 | the checks refuse in order: not in progress, not your turn, no die, not your piece, no backward capture, then `NeedSix` or `MoveImpossible` from the position rule |
| Ludo.MakeMoveIntended | server/ludoGame.js:380-452 | refusals change nothing; a move that passes the checks resolves as `Ludo.ResolveMove` states: opponents on an unsafe landing square go to base, a player with four finished pieces wins, otherwise the die is cleared; only a backward move that captured nothing is refused after the checks; an accepted move leaves the caller's piece on the square the rule gives; another roll follows iff the die was 6 or something was captured |
| Ludo.IntendedSixBringsPieceOut | server/ludoGame.js:273-306 | with a six, a piece in base is accepted and lands on its owner's start square, and the player rolls again |
| Ludo.CheckOwnerAsWritten | server/ludoGame.js:393-402 | as written, a piece whose owner is not the caller is refused as invalid, and one that passes throws on the undeclared `isBackward` |
| Ludo.UnownedPieceIsRefused | server/ludoGame.js:393-395 | as written, the caller's own piece fails the owner test because it carries no owner, while the corrected checks never refuse it as another player's piece |
| Ludo.UndefinedOwnerCapturesMover | server/ludoGame.js:356 | as written, the capture check skips nobody, so a piece landing on a capturable square sends itself back to base |
| Ludo.OwnedMoverStays | server/ludoGame.js:356 | when the mover's player is skipped, the moved piece stays on its square, and a capture is reported exactly when another player's piece stood on that unsafe square |
| GameSlice.InitialState | src/store/gameSlice.ts:17-26 | no players, nobody current, no die, no winner, nothing selected, no possible moves, waiting, rolling enabled |
| GameSlice.StartGame | src/store/gameSlice.ts:32-37 | stores the players, makes the first player's id current (none when there are none or it is empty), and sets playing with rolling enabled; nothing else changes |
| GameSlice.RollDice | src/store/gameSlice.ts:38-46 | a roll by anyone but the current player changes nothing; otherwise the die is recorded and rolling is disabled, and nothing else changes |
| GameSlice.SelectPiece | src/store/gameSlice.ts:47-49 | only the selection changes |
| GameSlice.SetWinner | src/store/gameSlice.ts:113-116 | the winner is set and the game finishes; nothing else changes |
| GameSlice.EndTurn | src/store/gameSlice.ts:103-112 | without a current player nothing changes; otherwise the next player in list order (wrapping) becomes current, the die is cleared and rolling is enabled |
| GameSlice.EndTurnAdvances | src/store/gameSlice.ts:103-112 | with distinct ids, ending a turn hands it to the next player in list order, wrapping to the first |
| GameSlice.EndTurnsCycle | src/store/gameSlice.ts:103-112 | k turn ends move the turn k places along the list, wrapping around |
| GameSlice.FullRoundReturns | src/store/gameSlice.ts:103-112 | after as many turn ends as there are players, the same player is current again |
| GameSlice.Locate | src/store/gameSlice.ts:57-61 | finds the first piece with the id across all players' lists, or reports that there is none |
| GameSlice.CaptureAll | src/store/gameSlice.ts:68-88 | every piece of every other player standing unsafe on the numbered target goes home with zero steps; every other piece is untouched |
| GameSlice.CaptureCountZero | src/store/gameSlice.ts:68-88 | a capture scores nothing exactly when no opponent piece is hit |
| GameSlice.MoveFound | src/store/gameSlice.ts:64-101 | the owner scores one point per piece taken and nobody else's score changes; every player keeps its id, name, colour and number of pieces; the moving piece ends on the target with its home, start and step flags set from it; every other piece is as the capture pass left it; the selection and possible moves are cleared |
| GameSlice.MovePiece | src/store/gameSlice.ts:50-102 | an unknown piece, or one whose owner is not among the players, changes nothing; otherwise the found move happens |
| GameSlice.MoveLeavesNothingToTake | src/store/gameSlice.ts:68-101 | after a move no opponent piece is left to take on the target |
| GameSlice.SafeTargetTakesNothing | src/store/gameSlice.ts:75-77 | when every opponent piece on the target is safe, no score changes and only the mover moves |
| GameSlice.NoCaptureOffTheTrack | src/store/gameSlice.ts:75-77 | a move to home, start or end takes nothing and scores nothing |
| Settings.Defaults | src/store/settingsSlice.ts:8-17 | safe zones on, aligned pieces not required, two to four players, AI allowed at medium difficulty, sound and animations on |
| Settings.UpdateSettings | src/store/settingsSlice.ts:23-25 | each key the payload carries takes the payload's value; every other key keeps its value |
| Settings.EmptyUpdateIsIdentity | src/store/settingsSlice.ts:23-25 | an empty payload changes nothing |
| Settings.UpdateIdempotent | src/store/settingsSlice.ts:23-25 | applying the same payload twice equals applying it once |
| Settings.UpdatesCompose | src/store/settingsSlice.ts:23-25 | two updates equal one update with the merged payload, later keys winning |
| Settings.FullPatchReplaces | src/store/settingsSlice.ts:23-25 | a payload with every key replaces the whole record |
| Settings.ResetSettings | src/store/settingsSlice.ts:26-28 | the result is the defaults, whatever the state |
| Settings.ResetForgetsUpdates | src/store/settingsSlice.ts:26-28 | a reset after any update gives the defaults, and resetting twice is resetting once |

## Left out

- Socket transport, timers, React components, notifications and the AI player are outside the rule core. Calls into them do not appear.
- `Math.random` and `uuidv4` become parameters: the die value of `Ludo.RollDice` and the `uuid` of `Registry.CreateGame`.
- `getState` of the checkers engine and `getGameState` of the Ludo engine build snapshots for display. They are not modelled; the Ludo one is never defined.
- Ludo's `initializeBoard`, its colour-keyed `pieces` map and `lastMove` are written but never read by the rules, so they are left out. The same goes for any colour name other than the four standard ones.
- Ludo's turn advance (`nextTurn`, `switchPlayer`) is never defined. `Ludo.RollDice` reports that the turn passes (`PassesTurn`) and returns the state before that step. `Ludo.Settle` reports `rollAgain` and leaves the current player alone.
- Ludo.AddPlayer: after the player is added, the source calls the undefined `getGameState` (line 63) and throws. The model returns the updated game as a success.
- Ludo.RollDice: after the roll is recorded, the source calls the undefined `nextTurn` or `getGameState` (lines 105-127) and throws on every path. The model returns the updated game as a roll.
- Ludo.Settle: when no further roll is due, the source calls the undefined `switchPlayer` (line 441) and throws after the move. The model returns the settled game.
- Ludo.AdvanceByIndex: from `home-k` or `finished` the source does arithmetic on a string and yields `NaN` or string concatenation. The model returns no position there. The live rule never produces a home cell, but it does produce `finished`.
- Ludo.ValidateMove: a piece leaving base for an owner index of -1 is accepted by the source with an undefined new position; the model refuses it with `StartUndefined` rather than follow a piece to an undefined square. The corrected checks always pass the caller's own index, so they never meet that case.
- Ludo.MakeMoveIntended: a finished piece is found by `findPiece` and, moved forward, becomes the text `finished` followed by the die, which the source accepts as a valid move. The model refuses it with `MoveImpossible` (`Ludo.FinishedPieceIsRefused`).
- Ludo.MakeMove: when `status` is `'playing'`, the source calls the undefined `isPlayerTurn` and throws. The model reports `Crashed` with the game unchanged.
- Checkers.MakeMove: it requires a playing game to be ready: two players with different ids, each with a piece list, and every piece on the board owned by a player with a list. Two reachable games break this. A finished game that someone rejoins can hold men without a list, and the source then throws a TypeError partway through a move. A player who joins their own game gets a playing game with one id listed twice and one piece list (`Registry.SelfJoinStartsUnready`). Both sides' men then carry that one owner id, and the white men are on the board without a list. The source plays such a game on, and when `checkGameOver` would name a winner it finds no other player and throws a TypeError (lines 296 and 303) after the board has changed. The model does not follow play into such a game.
- Registry.MakeMove: it carries the engine's requirement that a playing game be ready, so a self-joined game, which the registry accepts, is not covered.
- Checkers.SubmitMove: the coordinates are integers. A client may send other JSON values (strings, fractions, a missing array), which JavaScript would coerce or index differently; those are not modelled. It carries `Checkers.MakeMove`'s requirement that a playing game be ready.
- Checkers.Game: the piece objects shared between board and lists are modelled as copies that every update writes in both places.
- Registry.GetAvailableGames: returns a map keyed by game id rather than an array in insertion order.
- Settings.UpdateSettings: a payload key explicitly set to `undefined` overwrites the setting with `undefined` in JavaScript. The model treats such a key as absent.
- GameSlice.StartGame: piece and player fields that no reducer reads (`isAtEnd`, `isMovable`, `path` and the like) are not part of the model.

## Findings

| source | as written | input that shows it | evidently intended | confidence | as-written member | corrected member |
|---|---|---|---|---|---|---|
| server/ludoGame.js:381 | `makeMove` first tests `this.status !== 'playing'`, but the constructor and `addPlayer` only ever set `gameStatus` (lines 10 and 60), so the test always refuses; past it, the turn test calls the undefined `isPlayerTurn` (line 385) | two players join, the first rolls a 6, then moves `red-0`: refused with "not in progress" | the guard reads `gameStatus` and the turn test is the one `rollDice` uses; with the owner repair of the next row, the move goes ahead and the piece leaves base for square 1 | not executed | Ludo.MakeMove, Ludo.MakeMoveNeverProceeds, Ludo.StartedGameRefusesMoves | Ludo.MakeMoveIntended, Ludo.IntendedSixBringsPieceOut |
| server/ludoGame.js:394 | pieces are created without a `playerId` (lines 69-75), so `piece.playerId !== playerId` refuses every piece; a piece that passed would reach line 402, which reads the undeclared `isBackward` and throws; the owner lookups by `piece.playerId` find index -1, so a six from base gives an undefined start square (line 279) and the track ends at 46 (lines 315 and 321) | with the guard of the row above corrected, the current player moves their own `red-0` after a six: refused with "invalid piece" | the owner is the player whose list holds the piece, the backward flag is `isBackwardCapture`, and the piece leaves base for its owner's start square | not executed | Ludo.CheckOwnerAsWritten, Ludo.UnownedPieceIsRefused, Ludo.ValidateMove | Ludo.CheckPiece, Ludo.IntendedSixBringsPieceOut |
| server/ludoGame.js:356 | pieces are created without a `playerId` (lines 69-75), so `checkCaptures` compares every player's id with `undefined` and skips nobody; the piece that just moved is sent back to base by its own capture check | any piece moved onto a non-safe track square, for example square 5 | the mover's own player is skipped, so the mover stays on its new square | not executed | Ludo.UndefinedOwnerCapturesMover | Ludo.OwnedMoverStays, Ludo.MakeMoveIntended |
