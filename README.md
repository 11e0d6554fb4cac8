# Halma over RMI: a verified model of the board and the session

This project models the two components that hold the logic of a two-player
Halma game played over Java RMI:

- **the board** (`halma/HalmaBoard.java`): an 8x8 grid of cells holding 0
  (empty), 1 or 2. Each player starts with ten pieces in a triangular base
  in opposite corners. A piece moves by a chain of hops. A hop is a step to
  an empty neighbouring cell, or a jump of two cells along a row, column or
  diagonal over an occupied midpoint. A chain is first checked on a scratch
  copy and then applied to the real board. A player wins by filling the
  opposite base.
- **the session** (`halma/HalmaServer.java`): two player seats, whose turn it
  is, whether a game is running, and one move counter per player. Remote
  calls register a player, submit a move, chat or abandon, request a
  restart, and disconnect. Callbacks to the clients are modelled as events
  appended to an outbox.

Files:

- `geometry.dfy`, module `Geometry`: points, the grid as a value
  (`seq<seq<int>>`), single-cell updates and piece counting.
- `rules.dfy`, module `Rules`: the rules as pure functions, and the lemmas
  about them:
  - the starting layout and the hop relation;
  - the list of one-hop destinations;
  - acceptance and outcome of a move sequence (with the commit order as
    written and as corrected);
  - the win condition.
- `board.dfy`, module `Board`: class `HalmaBoard`. It keeps the cells in an
  `array2<int>` and mirrors them in a ghost grid. Every method is proved
  against the functions of `Rules`.
- `server.dfy`, module `Server`: class `HalmaServer`, with the seats, the
  turn, the game flag, the counters, the board and an `Outbox` of events.
  Its invariant says:
  - the turn is 1 or 2;
  - a seated player has a name;
  - a running game has both seats taken;
  - each player has ten pieces on the board (this holds for the corrected
    commit order only; see Findings);
  - while a game runs, nobody has won.

## Model

| member | source | states |
|---|---|---|
| Rules.InitialPieceCounts | halma/HalmaBoard.java:30-46 | the starting layout holds exactly ten pieces of player 1 and ten of player 2 |
| Rules.InitialNotWon | halma/HalmaBoard.java:169-204 | on the starting layout neither player has won |
| Rules.HopIsNear | halma/HalmaBoard.java:140-167 | a hop lands on a different cell at most two columns and two rows away |
| Rules.ValidMovesExact | halma/HalmaBoard.java:57-77 | a point is among the destinations listed for (x, y) iff it is one hop from (x, y): in bounds, empty, and either a neighbour or a straight or diagonal two-cell jump over an occupied midpoint |
| Rules.ValidMovesInOrder | halma/HalmaBoard.java:59-60 | the destinations come in row-major order (by dy, then dx), each exactly once |
| Rules.ValidMovesIgnoreOrigin | halma/HalmaBoard.java:57-77 | the destinations do not depend on what the origin cell holds, so ownership of the piece is never checked |
| Rules.Rejections | halma/HalmaBoard.java:96-119 | a sequence is accepted iff it is well formed, starts on the player's piece and is a chain of hops; fewer than four or an odd number of coordinates, a start off the board or not holding the player's piece, or a bad first hop is rejected with the board unchanged |
| Rules.ChainEndInBounds | halma/HalmaBoard.java:113-131 | the last point of an accepted chain is on the board |
| Rules.ChainLandsOnEmpty | halma/HalmaBoard.java:113-131 | an accepted chain ends on its start or on a cell that was empty on the real board |
| Rules.ApplyChangesTwoCells | halma/HalmaBoard.java:129-136 | with the corrected commit order, an accepted sequence puts the player's piece on the final cell, empties the start when the two differ, leaves every other cell as it was, and leaves the board unchanged when the chain returns to its start |
| Rules.ApplyPreservesCounts | halma/HalmaBoard.java:129-136 | with the corrected commit order, no move changes the number of cells holding any value |
| Rules.ApplySequenceAsWritten | halma/HalmaBoard.java:96-137 | the same acceptance as ApplySequence; an accepted move commits like one scratch step, writing the final cell first and then emptying the start |
| Rules.AsWrittenDiffersOnlyOnReturn | halma/HalmaBoard.java:133-134 | the source's commit order agrees with the corrected one except on a chain that ends on its start, where it empties the start cell |
| Rules.AsWrittenLosesPiece | halma/HalmaBoard.java:133-134 | on a new board, player 1's accepted chain (3,0) to (4,0) and back leaves nine pieces with the source's order and ten with the corrected one |
| Rules.FreshBoardStep | halma/HalmaBoard.java:96-137 | on a new board the step (3,0) to (4,0) is accepted and moves exactly that piece |
| Rules.FreshBoardJumpOverEmpty | halma/HalmaBoard.java:159-166 | on a new board the jump (3,0) to (5,0) over the empty (4,0) is rejected |
| Rules.MoveKeepsOpponentUnwon | halma/HalmaServer.java:138-153 | a move of one player cannot complete the opponent's target base |
| Board.HalmaBoard.constructor | halma/HalmaBoard.java:25-28 | a new board has fresh storage and holds the starting layout |
| Board.HalmaBoard.InitializePieces | halma/HalmaBoard.java:30-46 | filling an all-empty grid gives the starting layout: player 1 on y < 4, x < 4 - y and player 2 on the point-mirrored cells |
| Board.HalmaBoard.Copy | halma/HalmaBoard.java:17-22 | the copy has fresh storage of its own and equals the original cell for cell |
| Board.HalmaBoard.CopyGrid | halma/HalmaBoard.java:110-111 | the scratch array is fresh and holds the board's cells |
| Board.HalmaBoard.Snapshot | halma/HalmaServer.java:264-268 | the value sent to the clients as the board is exactly the board's cells |
| Geometry.InBounds | halma/HalmaBoard.java:80-82 | a point is on the board iff 0 <= x < 8 and 0 <= y < 8 |
| Board.HalmaBoard.GetPieceAt | halma/HalmaBoard.java:52-55 | the cell's value on the board, 0 off the board |
| Board.HalmaBoard.GetCell | halma/HalmaBoard.java:88-91 | the cell's value on the board, -1 off the board |
| Board.HalmaBoard.SetCell | halma/HalmaBoard.java:84-86 | writes one cell on the board; off the board nothing changes |
| Board.HalmaBoard.GetValidMoves | halma/HalmaBoard.java:57-77 | returns exactly the one-hop destinations of the 5x5 window around (x, y) in scan order, whatever the player argument |
| Board.HalmaBoard.ScanRow | halma/HalmaBoard.java:60-75 | one pass over dx = -2..2 lists exactly that row's one-hop destinations, left to right |
| Rules.RowHopsScan | halma/HalmaBoard.java:60-75 | the hops found among the first k offsets of a row are the scan of the first k points of that row of the window |
| Rules.HopsAppend | halma/HalmaBoard.java:59-60 | scanning the rows one after another lists each row's hops in turn |
| Board.HalmaBoard.IsHop | halma/HalmaBoard.java:61-73 | the loop body's skips and accepts add (x+dx, y+dy) iff it is one hop from (x, y) |
| Board.HalmaBoard.ValidStep | halma/HalmaBoard.java:140-167 | a step is accepted iff it is one hop on the scratch board |
| Board.HalmaBoard.SimulateChain | halma/HalmaBoard.java:106-127 | walking the chain on the scratch board succeeds iff every hop is allowed with the piece moved along |
| Board.HalmaBoard.Advance | halma/HalmaBoard.java:114-126 | one round of the loop: the hop is accepted iff it is allowed on the scratch board, and then the piece is moved and the rest of the chain is judged from the new position |
| Board.HalmaBoard.ShiftPiece | halma/HalmaBoard.java:122-123 | the scratch board after moving the piece along one hop |
| Board.HalmaBoard.MoveSequence | halma/HalmaBoard.java:96-137 | result and new board are those of the move-sequence specification: unchanged on rejection, two cells changed on acceptance; storage is kept |
| Board.HalmaBoard.CommitMove | halma/HalmaBoard.java:129-134 | the accepted move empties the start and then puts the piece on the final cell |
| Board.HalmaBoard.HasWinner | halma/HalmaBoard.java:169-179 | player 1 has won iff every bottom-right base cell holds 1; any other value iff every top-left base cell holds it |
| Board.HalmaBoard.IsBaseFull | halma/HalmaBoard.java:181-204 | the count of the player's pieces in the chosen base is 10 iff all ten base cells hold the player |
| Server.Coords | halma/HalmaServer.java:131-136 | the flattened coordinates: twice as many entries, x at even and y at odd positions |
| Server.ToCoords | halma/HalmaServer.java:131-136 | the loop fills a fresh array with exactly the flattened coordinates |
| Server.TurnNoticesExclusive | halma/HalmaServer.java:255-262 | one turn notice per seated player, at most one told it is their turn, and with both seated the current player is told so |
| Server.OpeningSound | halma/HalmaServer.java:219-224 | a new board satisfies the session invariant: ten pieces each and no winner |
| Server.HalmaServer.constructor | halma/HalmaServer.java:14-26 | no seats, turn 1, no game running, counters 0, a new board, no events |
| Server.HalmaServer.Register | halma/HalmaServer.java:97-125 | fills seat 1 and returns 1 with a waiting message to that client; else fills seat 2, returns 2 and starts the game; else returns -1 with nothing changed |
| Server.HalmaServer.SubmitMove | halma/HalmaServer.java:128-166 | a no-op unless a game runs and it is the caller's turn; on an accepted move the mover's counter rises by one, the turn flips, the game stops iff the mover has won, and victory or turn, board (with the last point) and score are broadcast; on a rejected move the game state is unchanged and only the mover gets an error |
| Server.OpeningExchange | halma/HalmaServer.java:97-160 | from a new session with two registered players, a move by player 2 out of turn changes nothing, and player 1's step from (3,0) to (4,0) moves that piece, passes the turn to player 2, counts one move for player 1 and keeps the game running |
| Server.HalmaServer.AcceptMove | halma/HalmaServer.java:139-160 | the accepted-move branch: counters, turn, the game flag against the win condition, and the events in order |
| Server.HalmaServer.AnnounceMove | halma/HalmaServer.java:155-160 | board with the last point, then the score, to every seated player |
| Server.HalmaServer.RejectMove | halma/HalmaServer.java:161-165 | the error message goes only to the submitting player's seat, if taken |
| Server.HalmaServer.SendChat | halma/HalmaServer.java:169-183 | abandoning while no game runs does nothing; abandoning a running game stops it and declares the other player winner without touching board, turn or counters; any other text is broadcast as "[CHAT] name: text" |
| Server.HalmaServer.RequestRestart | halma/HalmaServer.java:186-194 | restarts only for player 1 with no game running and both seats taken; otherwise nothing changes |
| Server.HalmaServer.Disconnect | halma/HalmaServer.java:206-215 | announces the departure to the old seats, clears seat 1 for id 1 and seat 2 otherwise, stops the game and resets board, turn and counters |
| Server.HalmaServer.StartGame | halma/HalmaServer.java:219-238 | a running game with turn 1, zero counters and a new board, announced as start, message, board, turn and score |
| Server.HalmaServer.AnnounceStart | halma/HalmaServer.java:226-237 | the start notices in the source's order |
| Server.HalmaServer.ResetGame | halma/HalmaServer.java:240-253 | new board, turn 1, counters 0, game flag untouched; score, board and a waiting message are broadcast |
| Server.HalmaServer.AnnounceReset | halma/HalmaServer.java:245-252 | the reset notices in the source's order |
| Server.HalmaServer.NotifyTurn | halma/HalmaServer.java:255-262 | seat 1 is told whether the turn is 1 and seat 2 whether it is 2 |
| Server.HalmaServer.BroadcastUpdate | halma/HalmaServer.java:264-272 | the board and last move go to every seated player |
| Server.HalmaServer.NotifyVictory | halma/HalmaServer.java:274-294 | the victory message and the game-over notice go to every seated player, and the game stops with nothing else changed |
| Server.HalmaServer.BroadcastMessage | halma/HalmaServer.java:296-302 | the text goes to every seated player, seat 1 first |
| Server.HalmaServer.BroadcastScore | halma/HalmaServer.java:196-203 | both counters go to every seated player |

## Left out

- RMI transport, registry setup and address discovery (`main`, `isNumeric`, `getLocalAddress`): clients are opaque handles and callbacks are events in the outbox.
- `RemoteException` on a callback: sends never fail, so the partial broadcasts the source produces when seat 1's callback throws are not modelled.
- `synchronized` and threads: every operation is atomic and sequential.
- Server.HalmaServer.Register: the 200 ms delayed thread that starts the game is modelled as an immediate call, so nothing can happen between the registration and the start.
- Null clients, names and chat texts as arguments: handles and texts are plain values; a seat without a name prints as "null", as Java string concatenation does.
- `getSize` and the `size` field: the size is the constant 8.
- Console output (`System.out`, `System.err`) is not modelled.
- Counters and coordinates are unbounded integers; 32-bit overflow after 2^31 moves is not modelled.
- Board.HalmaBoard.MoveSequence: uses the corrected commit order (see Findings), so a chain that ends on its start keeps its piece. The source's order is modelled only by the pure function `Rules.ApplySequenceAsWritten`, which commits like one scratch step (`Rules.Shift`).
- Board.HalmaBoard.CommitMove: empties the start before writing the final cell, the reverse of the source's two assignments (see Findings).
- Server.HalmaServer.SubmitMove: inherits the corrected commit order from Board.HalmaBoard.MoveSequence, so on an accepted chain that ends on its start it keeps (and broadcasts) the board with the piece, where the source's board has lost it and the turn passes with nine pieces; the session invariant's count of ten pieces each holds only for this corrected board.
- The Swing interface, the client and the launcher (`HalmaGameUI.java`, `HalmaClient.java`, `Launcher.java`) are not part of this model. The remote interfaces in `HalmaInterfaces.java` only name the notice kinds.
- Serialisation of the board to clients is modelled as sending the board's cell values (`Board.HalmaBoard.Snapshot`).

## Findings

| source | as written | input that shows it | evidently intended | confidence | as-written member | corrected member |
|---|---|---|---|---|---|---|
| halma/HalmaBoard.java:133-134 | the final cell is written with the start cell's value, then the start cell is set to 0; when the chain ends where it began, the piece is erased | a new board, player 1, coords [3, 0, 4, 0, 3, 0] (step right and back): accepted, and player 1 is left with nine pieces | moving a piece never changes how many pieces a player has | not executed | Rules.AsWrittenLosesPiece | Rules.ApplyPreservesCounts |
