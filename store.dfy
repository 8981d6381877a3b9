/**
 The game-state store. Its fields are the store's state; the mutation methods
 each update one field in place; the action methods (all but `SetPhase`, which
 only commits the phase) build a new board and perform their mutations in the
 order the store commits them. Every action is proved to take the state to
 `Game.Apply` of the old state and its command.
 */
module Store {
  import opened Game

  class MillStore {
    var colorToMove: Color
    var whitePiecesRemaining: int
    var blackPiecesRemaining: int
    var piecesPlaced: int
    var phase: Phase
    var board: seq<Cell>

    /** What every action keeps: 24 points, and neither side above its starting count. */
    ghost predicate Valid()
      reads this
    {
      && |board| == BoardSize
      && whitePiecesRemaining <= StartingPieces
      && blackPiecesRemaining <= StartingPieces
      && piecesPlaced >= 0
    }

    /** The current snapshot. */
    function State(): (r: Snapshot)
      reads this
    {
      Snapshot(colorToMove, whitePiecesRemaining, blackPiecesRemaining, piecesPlaced, phase, board)
    }

    constructor ()
      ensures Valid()
      ensures State() == Initial()
      ensures colorToMove == White && whitePiecesRemaining == 9 && blackPiecesRemaining == 9
      ensures piecesPlaced == 0 && phase == Place
      ensures |board| == 24 && forall i :: 0 <= i < 24 ==> board[i] == Cell(None, false)
    {
      colorToMove := White;
      whitePiecesRemaining := StartingPieces;
      blackPiecesRemaining := StartingPieces;
      piecesPlaced := 0;
      phase := Place;
      board := seq(BoardSize, _ => EmptyCell);
    }

    // -------------------------------------------------------------------------
    // Mutations

    /** The `setPhase` mutation (the name `SetPhase` is the action's). */
    method WritePhase(p: Phase)
      modifies this
      ensures State() == old(State()).(phase := p)
    {
      phase := p;
    }

    /** The `toggleMove` mutation. */
    method ToggleMove()
      modifies this
      ensures colorToMove != old(colorToMove)
      ensures State() == old(State()).(colorToMove := Toggled(old(colorToMove)))
    {
      colorToMove := Toggled(colorToMove);
    }

    /** The `setBoard` mutation. */
    method SetBoard(newBoard: seq<Cell>)
      modifies this
      ensures State() == old(State()).(board := newBoard)
    {
      board := newBoard;
    }

    /** The `playPiece` mutation. */
    method PlayPiece()
      modifies this
      ensures State() == old(State()).(piecesPlaced := old(piecesPlaced) + 1)
    {
      piecesPlaced := piecesPlaced + 1;
    }

    /** The `removeWhitePiece` mutation. */
    method RemoveWhitePiece()
      modifies this
      ensures State() == old(State()).(whitePiecesRemaining := old(whitePiecesRemaining) - 1)
    {
      whitePiecesRemaining := whitePiecesRemaining - 1;
    }

    /** The `removeBlackPiece` mutation. */
    method RemoveBlackPiece()
      modifies this
      ensures State() == old(State()).(blackPiecesRemaining := old(blackPiecesRemaining) - 1)
    {
      blackPiecesRemaining := blackPiecesRemaining - 1;
    }

    // -------------------------------------------------------------------------
    // Actions

    /** The `setPhase` action: only the phase changes. */
    method SetPhase(p: Phase)
      requires Valid()
      modifies this
      ensures Valid()
      ensures phase == p
      ensures colorToMove == old(colorToMove) && piecesPlaced == old(piecesPlaced) && board == old(board)
      ensures whitePiecesRemaining == old(whitePiecesRemaining)
      ensures blackPiecesRemaining == old(blackPiecesRemaining)
      ensures State() == Apply(old(State()), Game.SetPhase(p))
    {
      WritePhase(p);
    }

    /** Places a piece of the side to move at `location`, counts Black's
        placements, and passes the turn. */
    method AddPiece(location: nat)
      requires Valid() && location < BoardSize
      modifies this
      ensures Valid()
      ensures board == old(board)[location := Cell(Some(old(colorToMove)), false)]
      ensures piecesPlaced == if old(colorToMove) == Black then old(piecesPlaced) + 1 else old(piecesPlaced)
      ensures colorToMove == Toggled(old(colorToMove))
      ensures whitePiecesRemaining == old(whitePiecesRemaining)
      ensures blackPiecesRemaining == old(blackPiecesRemaining)
      ensures phase == old(phase)
      ensures State() == Apply(old(State()), Game.AddPiece(location))
    {
      var newBoard := board[location := Cell(Some(colorToMove), false)];
      if colorToMove == Black {
        PlayPiece();
      }
      SetBoard(newBoard);
      ToggleMove();
    }

    /** Raises the highlight at `location`, keeping its occupant. */
    method HighlightPiece(location: nat)
      requires Valid() && location < BoardSize
      modifies this
      ensures Valid()
      ensures board == old(board)[location := Cell(old(board[location].color), true)]
      ensures colorToMove == old(colorToMove) && piecesPlaced == old(piecesPlaced) && phase == old(phase)
      ensures whitePiecesRemaining == old(whitePiecesRemaining)
      ensures blackPiecesRemaining == old(blackPiecesRemaining)
      ensures State() == Apply(old(State()), Game.HighlightPiece(location))
    {
      var newBoard := board[location := Cell(board[location].color, true)];
      SetBoard(newBoard);
    }

    /** Clears every highlight, keeping every occupant. */
    method UnhighlightAllPieces()
      requires Valid()
      modifies this
      ensures Valid()
      ensures |board| == |old(board)|
      ensures forall i :: 0 <= i < |board| ==> board[i] == Cell(old(board[i].color), false)
      ensures colorToMove == old(colorToMove) && piecesPlaced == old(piecesPlaced) && phase == old(phase)
      ensures whitePiecesRemaining == old(whitePiecesRemaining)
      ensures blackPiecesRemaining == old(blackPiecesRemaining)
      ensures State() == Apply(old(State()), Game.UnhighlightAllPieces)
    {
      var newBoard := Unhighlighted(board);
      SetBoard(newBoard);
    }

    /** Empties `location`; when `destroy` holds, takes a piece from White if White
        stood there and from Black otherwise, reading the point before it is cleared. */
    method RemovePiece(location: nat, destroy: bool)
      requires Valid() && location < BoardSize
      modifies this
      ensures Valid()
      ensures board == old(board)[location := EmptyCell]
      ensures whitePiecesRemaining ==
        if destroy && old(board[location].color) == Some(White) then old(whitePiecesRemaining) - 1
        else old(whitePiecesRemaining)
      ensures blackPiecesRemaining ==
        if destroy && old(board[location].color) != Some(White) then old(blackPiecesRemaining) - 1
        else old(blackPiecesRemaining)
      ensures colorToMove == old(colorToMove) && piecesPlaced == old(piecesPlaced) && phase == old(phase)
      ensures State() == Apply(old(State()), Game.RemovePiece(location, destroy))
    {
      var newBoard := board[location := EmptyCell];
      if destroy {
        if board[location].color == Some(White) {
          RemoveWhitePiece();
        } else {
          RemoveBlackPiece();
        }
      }
      SetBoard(newBoard);
    }
  }

  /** A short opening played through the store: White places at 0, Black at 1,
      and White's piece at 0 is captured. */
  method OpeningScenario() returns (first: Cell, second: Cell, toMove: Color, placed: int, white: int, black: int)
    ensures first == Cell(None, false) && second == Cell(Some(Black), false)
    ensures toMove == White && placed == 1
    ensures white == 8 && black == 9
  {
    var store := new MillStore();
    store.AddPiece(0);
    assert store.board[0] == Cell(Some(White), false);
    assert store.colorToMove == Black && store.piecesPlaced == 0;
    store.AddPiece(1);
    store.RemovePiece(0, true);
    first, second := store.board[0], store.board[1];
    toMove, placed := store.colorToMove, store.piecesPlaced;
    white, black := store.whitePiecesRemaining, store.blackPiecesRemaining;
  }

  /** Performs the action that `cmd` names on `store`. */
  method Dispatch(store: MillStore, cmd: Command)
    requires store.Valid() && Fits(cmd, BoardSize)
    modifies store
    ensures store.Valid()
    ensures store.State() == Apply(old(store.State()), cmd)
  {
    match cmd
    case SetPhase(p) => store.SetPhase(p);
    case AddPiece(l) => store.AddPiece(l);
    case HighlightPiece(l) => store.HighlightPiece(l);
    case UnhighlightAllPieces => store.UnhighlightAllPieces();
    case RemovePiece(l, destroy) => store.RemovePiece(l, destroy);
  }

  /** Creates a store and performs the actions `cmds` on it in order. The store
      ends in `Run(Initial(), cmds)`, so the run lemmas of module Game hold of it. */
  method PlayAll(cmds: seq<Command>) returns (store: MillStore)
    requires AllFit(cmds, BoardSize)
    ensures fresh(store) && store.Valid()
    ensures store.State() == Run(Initial(), cmds)
    ensures store.whitePiecesRemaining + store.blackPiecesRemaining <= 2 * StartingPieces
    ensures store.colorToMove == White <==> Placements(cmds) % 2 == 0
    ensures store.piecesPlaced == Placements(cmds) / 2
  {
    store := new MillStore();
    var i := 0;
    while i < |cmds|
      invariant 0 <= i <= |cmds|
      invariant AllFit(cmds[..i], BoardSize)
      invariant store.Valid()
      invariant store.State() == Run(Initial(), cmds[..i])
    {
      Dispatch(store, cmds[i]);
      assert cmds[..i + 1][..i] == cmds[..i];
      i := i + 1;
    }
    assert cmds[..i] == cmds;
    FromInitial(cmds);
  }
}
