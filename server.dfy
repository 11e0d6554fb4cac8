/** The authoritative game session: two player seats, whose turn it is,
    whether a game is running, each side's move counter and the board. Every
    remote operation is a guarded transition on these fields. The callbacks
    the session makes on its peers are recorded, in order, as events appended
    to `outbox`. */
module Server {
  import opened Geometry
  import opened Rules
  import opened Board

  /** Identifies a connected peer (the remote callback object). */
  type Handle = nat

  datatype Option<T> = None | Some(value: T)

  /** One callback on a peer. */
  datatype Notice =
    | Message(text: string)                          // receberMensagem
    | BoardUpdate(board: Grid, lastMove: Option<Point>) // atualizarTabuleiro
    | TurnUpdate(yourTurn: bool)                     // definirTurno
    | ScoreUpdate(p1Moves: nat, p2Moves: nat)        // atualizarPlacar
    | GameStarted(p1Name: string, p2Name: string)    // notificarInicioJogo
    | GameOver(winner: int)                          // notificarFimDeJogo

  datatype Event = Event(to: Handle, notice: Notice)

  /** The chat text by which a player concedes. */
  const AbandonToken: string := "ABANDON_GAME"
  const WaitingForPlayer2: string := "Aguardando Jogador 2..."
  const InvalidMoveText: string := "[Erro] Movimento invalido pelo servidor."
  const StartedText: string := "JOGO INICIADO!"
  const WaitingForOpponent: string := "Esperando oponente..."

  /** A name as string concatenation renders it: a seat never filled has no
      name and prints as "null". */
  function NameText(n: Option<string>): string {
    if n.None? then "null" else n.value
  }

  function PlayerText(id: int): string
    requires id == 1 || id == 2
  {
    if id == 1 then "1" else "2"
  }

  /** The same notice to the occupant of seat 1, then to the occupant of seat 2. */
  function Broadcast(p1: Option<Handle>, p2: Option<Handle>, n: Notice): seq<Event>
  {
    (if p1.Some? then [Event(p1.value, n)] else []) +
    (if p2.Some? then [Event(p2.value, n)] else [])
  }

  /** Tells each seated peer whether it moves next. */
  function TurnNotices(p1: Option<Handle>, p2: Option<Handle>, turn: int): seq<Event>
  {
    (if p1.Some? then [Event(p1.value, TurnUpdate(turn == 1))] else []) +
    (if p2.Some? then [Event(p2.value, TurnUpdate(turn == 2))] else [])
  }

  /** One turn notice per seated peer, at most one of them saying "your
      turn", and, with both seats taken, exactly the seat whose turn it is
      hears so. */
  lemma TurnNoticesExclusive(p1: Option<Handle>, p2: Option<Handle>, turn: int)
    ensures var r := TurnNotices(p1, p2, turn);
            |r| == Indicator(p1.Some?) + Indicator(p2.Some?) &&
            (forall i | 0 <= i < |r| :: r[i].notice.TurnUpdate?) &&
            (forall i, j | 0 <= i < j < |r| :: !(r[i].notice.yourTurn && r[j].notice.yourTurn)) &&
            ((turn == 1 || turn == 2) && p1.Some? && p2.Some? ==> r[turn - 1].notice.yourTurn)
  {
  }

  /** `sent` followed by the announcement of a winner: a message, then the
      game-over callback. */
  function AfterVictory(sent: seq<Event>, p1: Option<Handle>, p2: Option<Handle>, winner: int): seq<Event>
    requires winner == 1 || winner == 2
  {
    sent +
    Broadcast(p1, p2, Message("O Jogador " + PlayerText(winner) + " venceu!")) +
    Broadcast(p1, p2, GameOver(winner))
  }

  /** `sent` followed by what the peers are told when a game starts. */
  function AfterStart(sent: seq<Event>, p1: Option<Handle>, p2: Option<Handle>, n1: Option<string>, n2: Option<string>): seq<Event>
  {
    sent +
    Broadcast(p1, p2, GameStarted(NameText(n1), NameText(n2))) +
    Broadcast(p1, p2, Message(StartedText)) +
    Broadcast(p1, p2, BoardUpdate(InitialGrid(), None)) +
    TurnNotices(p1, p2, 1) +
    Broadcast(p1, p2, ScoreUpdate(0, 0))
  }

  /** `sent` followed by what the remaining peers are told when the session is reset. */
  function AfterReset(sent: seq<Event>, p1: Option<Handle>, p2: Option<Handle>): seq<Event>
  {
    sent +
    Broadcast(p1, p2, ScoreUpdate(0, 0)) +
    Broadcast(p1, p2, BoardUpdate(InitialGrid(), None)) +
    Broadcast(p1, p2, Message(WaitingForOpponent))
  }

  /** The rejection of a move, sent to `seat` when it is the submitting seat `id`. */
  function Rejection(seat: Option<Handle>, seatId: int, id: int): seq<Event>
  {
    if id == seatId && seat.Some? then [Event(seat.value, Message(InvalidMoveText))] else []
  }

  /** The points of a submitted move flattened to [x1, y1, x2, y2, ...]. */
  function Coords(s: seq<Point>): (r: seq<int>)
    ensures |r| == 2 * |s|
    ensures forall i | 0 <= i < |s| :: r[2 * i] == s[i].x && r[2 * i + 1] == s[i].y
  {
    if s == [] then []
    else Coords(s[..|s| - 1]) + [s[|s| - 1].x, s[|s| - 1].y]
  }

  /** Fills the coordinate array of a submitted move, one point at a time. */
  method ToCoords(s: seq<Point>) returns (coords: array<int>)
    ensures fresh(coords) && coords[..] == Coords(s)
  {
    coords := new int[|s| * 2];
    for i := 0 to |s|
      invariant coords[..2 * i] == Coords(s[..i])
    {
      coords[i * 2] := s[i].x;
      coords[i * 2 + 1] := s[i].y;
      assert s[..i + 1][..i] == s[..i];
      assert coords[..2 * (i + 1)] == coords[..2 * i] + [s[i].x, s[i].y];
    }
    assert s[..|s|] == s;
    assert coords[..] == coords[..2 * |s|];
  }

  /** A board in the starting layout has ten pieces per side and no winner. */
  lemma OpeningSound(b: HalmaBoard)
    requires b.Valid() && b.cells == InitialGrid()
    ensures Count(b.cells, 1) == 10 && Count(b.cells, 2) == 10
    ensures !Won(b.cells, 1) && !Won(b.cells, 2)
  {
    InitialPieceCounts();
    InitialNotWon();
  }

  /** The peers' callbacks, in the order the session makes them. */
  class Outbox {
    var events: seq<Event>

    constructor ()
      ensures events == []
    {
      events := [];
    }

    method Send(e: seq<Event>)
      modifies this
      ensures events == old(events) + e
    {
      events := events + e;
    }
  }

  class HalmaServer {
    var player1: Option<Handle>
    var player2: Option<Handle>
    var p1Name: Option<string>
    var p2Name: Option<string>
    var board: HalmaBoard
    var currentTurn: int
    var gameActive: bool
    var p1Moves: nat
    var p2Moves: nat
    const outbox: Outbox

    /** The session invariant: it is always seat 1's or seat 2's turn, a
        running game has both seats filled and no winner yet, and each player
        has ten pieces on the board. The count holds because moves are
        committed in the corrected order (start emptied first); with the
        source's order a chain back to its start would lose a piece. */
    ghost predicate Valid()
      reads this, board, board.grid
    {
      Consistent() && (gameActive ==> !Won(board.cells, 1) && !Won(board.cells, 2))
    }

    /** Everything in Valid() but the absence of a winner. */
    ghost predicate Consistent()
      reads this, board, board.grid
    {
      board.Valid() &&
      (currentTurn == 1 || currentTurn == 2) &&
      (player1.Some? ==> p1Name.Some?) && (player2.Some? ==> p2Name.Some?) &&
      (gameActive ==> player1.Some? && player2.Some?) &&
      Count(board.cells, 1) == 10 && Count(board.cells, 2) == 10
    }

    /** The seats and the names are as they were. */
    twostate predicate SeatsKept()
      reads this
    {
      player1 == old(player1) && player2 == old(player2) &&
      p1Name == old(p1Name) && p2Name == old(p2Name)
    }

    /** The board object, the turn and the counters are as they were. */
    twostate predicate GameKept()
      reads this
    {
      board == old(board) && currentTurn == old(currentTurn) &&
      p1Moves == old(p1Moves) && p2Moves == old(p2Moves)
    }

    /** An empty session: no seats taken, no game running, a fresh board. */
    constructor ()
      ensures Valid() && fresh(board) && fresh(board.grid)
      ensures player1 == None && player2 == None && p1Name == None && p2Name == None
      ensures currentTurn == 1 && !gameActive && p1Moves == 0 && p2Moves == 0
      ensures board.cells == InitialGrid() && fresh(outbox) && outbox.events == []
    {
      player1, player2 := None, None;
      p1Name, p2Name := None, None;
      currentTurn := 1;
      gameActive := false;
      p1Moves, p2Moves := 0, 0;
      outbox := new Outbox();
      board := new HalmaBoard();
      new;
      OpeningSound(board);
    }

    method BroadcastMessage(text: string)
      modifies outbox
      ensures outbox.events == old(outbox.events) + Broadcast(player1, player2, Message(text))
    {
      outbox.Send(Broadcast(player1, player2, Message(text)));
    }

    /** Sends every seated peer the board as it now is. */
    method BroadcastUpdate(lastMove: Option<Point>)
      requires board.Valid()
      modifies outbox
      ensures outbox.events == old(outbox.events) + Broadcast(player1, player2, BoardUpdate(board.cells, lastMove))
    {
      var snapshot := board.Snapshot();
      outbox.Send(Broadcast(player1, player2, BoardUpdate(snapshot, lastMove)));
    }

    method BroadcastScore()
      modifies outbox
      ensures outbox.events == old(outbox.events) + Broadcast(player1, player2, ScoreUpdate(p1Moves, p2Moves))
    {
      outbox.Send(Broadcast(player1, player2, ScoreUpdate(p1Moves, p2Moves)));
    }

    /** Tells seat 1 whether the turn is 1 and seat 2 whether it is 2. */
    method NotifyTurn()
      modifies outbox
      ensures outbox.events == old(outbox.events) + TurnNotices(player1, player2, currentTurn)
    {
      outbox.Send(TurnNotices(player1, player2, currentTurn));
    }

    /** Announces the winner and ends the game. */
    method NotifyVictory(winner: int)
      requires Consistent() && (winner == 1 || winner == 2)
      modifies this, outbox
      ensures Valid() && SeatsKept() && GameKept() && !gameActive
      ensures outbox.events == AfterVictory(old(outbox.events), player1, player2, winner)
    {
      BroadcastMessage("O Jogador " + PlayerText(winner) + " venceu!");
      outbox.Send(Broadcast(player1, player2, GameOver(winner)));
      gameActive := false;
    }

    /** Starts a game: player 1 to move, counters zeroed, a fresh board. */
    method StartGame()
      requires Valid() && player1.Some? && player2.Some?
      modifies this, outbox
      ensures Valid() && SeatsKept() && fresh(board) && fresh(board.grid)
      ensures gameActive && currentTurn == 1 && p1Moves == 0 && p2Moves == 0
      ensures board.cells == InitialGrid()
      ensures outbox.events == AfterStart(old(outbox.events), player1, player2, p1Name, p2Name)
    {
      gameActive := true;
      currentTurn := 1;
      p1Moves, p2Moves := 0, 0;
      board := new HalmaBoard();
      OpeningSound(board);
      AnnounceStart();
    }

    /** The notices of a game start: the players' names, a message, the
        board, whose turn it is and the zeroed score. */
    method AnnounceStart()
      requires board.Valid() && board.cells == InitialGrid()
      requires currentTurn == 1 && p1Moves == 0 && p2Moves == 0
      modifies outbox
      ensures outbox.events == AfterStart(old(outbox.events), player1, player2, p1Name, p2Name)
    {
      outbox.Send(Broadcast(player1, player2, GameStarted(NameText(p1Name), NameText(p2Name))));
      BroadcastMessage(StartedText);
      BroadcastUpdate(None);
      NotifyTurn();
      BroadcastScore();
    }

    /** Puts back a fresh board with player 1 to move and both counters at
        zero; whether a game is running is left as it is. */
    method ResetGame()
      requires Valid()
      modifies this, outbox
      ensures Valid() && SeatsKept() && fresh(board) && fresh(board.grid) && gameActive == old(gameActive)
      ensures currentTurn == 1 && p1Moves == 0 && p2Moves == 0
      ensures board.cells == InitialGrid()
      ensures outbox.events == AfterReset(old(outbox.events), player1, player2)
    {
      board := new HalmaBoard();
      currentTurn := 1;
      p1Moves, p2Moves := 0, 0;
      OpeningSound(board);
      AnnounceReset();
    }

    /** The notices of a reset: the zeroed score, the board, and a request
        to wait for an opponent. */
    method AnnounceReset()
      requires board.Valid() && board.cells == InitialGrid()
      requires p1Moves == 0 && p2Moves == 0
      modifies outbox
      ensures outbox.events == AfterReset(old(outbox.events), player1, player2)
    {
      BroadcastScore();
      BroadcastUpdate(None);
      outbox.Send(Broadcast(player1, player2, Message(WaitingForOpponent)));
    }

    /** Seats a new peer: seat 1 if free, else seat 2 if free (which starts
        the game), else refuses with -1 and changes nothing. */
    method Register(client: Handle, name: string) returns (id: int)
      requires Valid()
      modifies this, outbox
      ensures Valid()
      ensures old(player1).None? ==>
                id == 1 && player1 == Some(client) && p1Name == Some(name) &&
                player2 == old(player2) && p2Name == old(p2Name) &&
                GameKept() && !gameActive &&
                outbox.events == old(outbox.events) + [Event(client, Message(WaitingForPlayer2))]
      ensures old(player1).Some? && old(player2).None? ==>
                id == 2 && player2 == Some(client) && p2Name == Some(name) &&
                player1 == old(player1) && p1Name == old(p1Name) &&
                gameActive && currentTurn == 1 && p1Moves == 0 && p2Moves == 0 &&
                fresh(board) && fresh(board.grid) && board.cells == InitialGrid() &&
                outbox.events == AfterStart(old(outbox.events), player1, player2, p1Name, p2Name)
      ensures old(player1).Some? && old(player2).Some? ==> id == -1 && unchanged(this, outbox)
    {
      id := -1;
      var startGame := false;
      if player1.None? {
        player1 := Some(client);
        p1Name := Some(name);
        id := 1;
        outbox.Send([Event(client, Message(WaitingForPlayer2))]);
      } else if player2.None? {
        player2 := Some(client);
        p2Name := Some(name);
        id := 2;
        startGame := true;
      }
      if startGame {
        StartGame();
      }
    }

    /** Plays a move for `playerId`. Outside a running game or out of turn it
        does nothing at all. Otherwise the board applies the sequence; an
        accepted move bumps the mover's counter, passes the turn, ends the
        game if the mover has won, and sends everyone the turn or the result,
        the board with the last point, and the score; a rejected move leaves
        the session as it was and tells only the mover. */
    method SubmitMove(playerId: int, sequence: seq<Point>)
      requires Valid()
      modifies this, outbox, board, board.grid
      ensures Valid() && board == old(board) && board.grid == old(board.grid)
      ensures !(old(gameActive) && playerId == old(currentTurn)) ==>
                unchanged(this, outbox) && board.cells == old(board.cells)
      ensures old(gameActive) && playerId == old(currentTurn) ==>
                var r := ApplySequence(old(board.cells), Coords(sequence), playerId);
                SeatsKept() && board == old(board) && board.cells == r.1 &&
                (r.0 ==>
                   |sequence| >= 2 &&
                   p1Moves == old(p1Moves) + (if playerId == 1 then 1 else 0) &&
                   p2Moves == old(p2Moves) + (if playerId == 1 then 0 else 1) &&
                   currentTurn == (if old(currentTurn) == 1 then 2 else 1) &&
                   (gameActive <==> !Won(r.1, playerId)) &&
                   outbox.events ==
                     (if Won(r.1, playerId) then AfterVictory(old(outbox.events), player1, player2, playerId)
                      else old(outbox.events) + TurnNotices(player1, player2, currentTurn)) +
                     Broadcast(player1, player2, BoardUpdate(r.1, Some(sequence[|sequence| - 1]))) +
                     Broadcast(player1, player2, ScoreUpdate(p1Moves, p2Moves))) &&
                (!r.0 ==>
                   GameKept() && gameActive == old(gameActive) &&
                   outbox.events == old(outbox.events) + Rejection(player1, 1, playerId) + Rejection(player2, 2, playerId))
    {
      if !gameActive || playerId != currentTurn {
        return;
      }
      var coords := ToCoords(sequence);
      ghost var before := board.cells;
      var valid := board.MoveSequence(coords[..], playerId);
      ApplyPreservesCounts(before, coords[..], playerId, 1);
      ApplyPreservesCounts(before, coords[..], playerId, 2);
      if valid {
        MoveKeepsOpponentUnwon(before, coords[..], playerId, 3 - playerId);
        AcceptMove(playerId, sequence);
      } else {
        RejectMove(playerId);
      }
    }

    /** The session's side of an accepted move, once the board holds it:
        the mover's counter goes up, the turn passes, the game ends if the
        mover has won, and the peers hear the turn or the result, then the
        board with the last point, then the score. */
    method AcceptMove(playerId: int, sequence: seq<Point>)
      requires Consistent() && gameActive && playerId == currentTurn && |sequence| > 0
      requires !Won(board.cells, 3 - playerId)
      modifies this, outbox
      ensures Valid() && SeatsKept() && board == old(board)
      ensures p1Moves == old(p1Moves) + (if playerId == 1 then 1 else 0)
      ensures p2Moves == old(p2Moves) + (if playerId == 1 then 0 else 1)
      ensures currentTurn == (if old(currentTurn) == 1 then 2 else 1)
      ensures gameActive <==> !Won(board.cells, playerId)
      ensures outbox.events ==
                (if Won(board.cells, playerId) then AfterVictory(old(outbox.events), player1, player2, playerId)
                 else old(outbox.events) + TurnNotices(player1, player2, currentTurn)) +
                Broadcast(player1, player2, BoardUpdate(board.cells, Some(sequence[|sequence| - 1]))) +
                Broadcast(player1, player2, ScoreUpdate(p1Moves, p2Moves))
    {
      if playerId == 1 {
        p1Moves := p1Moves + 1;
      } else {
        p2Moves := p2Moves + 1;
      }
      currentTurn := if currentTurn == 1 then 2 else 1;
      var won := board.HasWinner(playerId);
      if won {
        gameActive := false;
        NotifyVictory(playerId);
      } else {
        NotifyTurn();
      }
      var lastMove := sequence[|sequence| - 1];
      AnnounceMove(lastMove);
    }

    /** The notices that close every accepted move: the board with the last
        point of the move, then the score. */
    method AnnounceMove(lastMove: Point)
      requires board.Valid()
      modifies outbox
      ensures outbox.events == old(outbox.events) +
                Broadcast(player1, player2, BoardUpdate(board.cells, Some(lastMove))) +
                Broadcast(player1, player2, ScoreUpdate(p1Moves, p2Moves))
    {
      BroadcastUpdate(Some(lastMove));
      BroadcastScore();
    }

    /** A rejected move is reported to the submitting seat only. */
    method RejectMove(playerId: int)
      modifies outbox
      ensures outbox.events == old(outbox.events) + Rejection(player1, 1, playerId) + Rejection(player2, 2, playerId)
    {
      if playerId == 1 && player1.Some? {
        outbox.Send([Event(player1.value, Message(InvalidMoveText))]);
      }
      if playerId == 2 && player2.Some? {
        outbox.Send([Event(player2.value, Message(InvalidMoveText))]);
      }
    }

    /** Chat from `playerId`. The abandon token concedes a running game to
        the other seat (and is ignored when no game is running); any other
        text is relayed to both seats prefixed with the sender's name. */
    method SendChat(playerId: int, msg: string)
      requires Valid()
      modifies this, outbox
      ensures Valid()
      ensures var name := NameText(if playerId == 1 then old(p1Name) else old(p2Name));
              var winner := if playerId == 1 then 2 else 1;
              (msg == AbandonToken && !old(gameActive) ==> unchanged(this, outbox)) &&
              (msg == AbandonToken && old(gameActive) ==>
                 SeatsKept() && GameKept() && !gameActive &&
                 outbox.events ==
                   AfterVictory(old(outbox.events) +
                     Broadcast(player1, player2,
                       Message(name + " desistiu. " + NameText(if winner == 1 then p1Name else p2Name) + " venceu a partida!")),
                     player1, player2, winner)) &&
              (msg != AbandonToken ==>
                 SeatsKept() && GameKept() && gameActive == old(gameActive) &&
                 outbox.events == old(outbox.events) + Broadcast(player1, player2, Message("[CHAT] " + name + ": " + msg)))
    {
      var name := if playerId == 1 then p1Name else p2Name;
      if msg == AbandonToken {
        if !gameActive {
          return;
        }
        var winnerId := if playerId == 1 then 2 else 1;
        var winnerName := if winnerId == 1 then p1Name else p2Name;
        BroadcastMessage(NameText(name) + " desistiu. " + NameText(winnerName) + " venceu a partida!");
        NotifyVictory(winnerId);
      } else {
        BroadcastMessage("[CHAT] " + NameText(name) + ": " + msg);
      }
    }

    /** Only seat 1 may restart, only after a game has ended, and only while
        both seats are taken; otherwise nothing changes. */
    method RequestRestart(playerId: int)
      requires Valid()
      modifies this, outbox
      ensures Valid()
      ensures playerId == 1 && !old(gameActive) && old(player1).Some? && old(player2).Some? ==>
                SeatsKept() && gameActive && currentTurn == 1 && p1Moves == 0 && p2Moves == 0 &&
                fresh(board) && fresh(board.grid) && board.cells == InitialGrid() &&
                outbox.events == AfterStart(old(outbox.events), player1, player2, p1Name, p2Name)
      ensures !(playerId == 1 && !old(gameActive) && old(player1).Some? && old(player2).Some?) ==>
                unchanged(this, outbox)
    {
      if playerId == 1 && !gameActive && player1.Some? && player2.Some? {
        StartGame();
      }
    }

    /** A peer leaves: both seats hear who left, seat 1 is emptied for
        id 1 and seat 2 for any other id, the game stops and the board,
        turn and counters are reset. */
    method Disconnect(playerId: int)
      requires Valid()
      modifies this, outbox
      ensures Valid()
      ensures playerId == 1 ==> player1 == None && player2 == old(player2)
      ensures playerId != 1 ==> player2 == None && player1 == old(player1)
      ensures p1Name == old(p1Name) && p2Name == old(p2Name)
      ensures !gameActive && currentTurn == 1 && p1Moves == 0 && p2Moves == 0
      ensures fresh(board) && fresh(board.grid) && board.cells == InitialGrid()
      ensures outbox.events ==
                AfterReset(old(outbox.events) +
                  Broadcast(old(player1), old(player2),
                    Message("O jogador " + NameText(if playerId == 1 then p1Name else p2Name) + " saiu do jogo.")),
                  player1, player2)
    {
      var name := if playerId == 1 then p1Name else p2Name;
      BroadcastMessage("O jogador " + NameText(name) + " saiu do jogo.");
      if playerId == 1 {
        player1 := None;
      } else {
        player2 := None;
      }
      gameActive := false;
      ResetGame();
    }
  }

  /** A session from the start: two players register, player 2 tries to move
      out of turn and is ignored, then player 1 steps from (3, 0) to (4, 0),
      which passes the turn to player 2 and counts one move for player 1. */
  method OpeningExchange() returns (turn: int, active: bool, p1Count: nat, p2Count: nat, ghost cells: Grid)
    ensures turn == 2 && active && p1Count == 1 && p2Count == 0
    ensures cells == Set(Set(InitialGrid(), 3, 0, Empty), 4, 0, 1)
  {
    var s := new HalmaServer();
    var first := s.Register(1, "Ana");
    var second := s.Register(2, "Rui");
    s.SubmitMove(2, [Point(4, 7), Point(3, 7)]);
    assert s.currentTurn == 1 && s.board.cells == InitialGrid();
    FreshBoardStep();
    assert Coords([Point(3, 0), Point(4, 0)]) == [3, 0, 4, 0];
    s.SubmitMove(1, [Point(3, 0), Point(4, 0)]);
    turn, active, p1Count, p2Count, cells := s.currentTurn, s.gameActive, s.p1Moves, s.p2Moves, s.board.cells;
  }
}
