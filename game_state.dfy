/**
 The game state of a 24-point mill board as the store keeps it: the snapshot
 record, the commands the store's actions perform, and the transition each
 command makes. The store class (module Store) is proved to follow `Apply`
 step by step, so everything proved here about `Apply` and `Run` holds of the
 store after any sequence of its actions.
 */
module Game {

  datatype Option<T> = None | Some(value: T)

  /** The two sides. */
  datatype Color = White | Black

  /** The phase tag. The store never inspects it; `Place` is the initial one,
      every other tag is the caller's. */
  datatype Phase = Place | Other(tag: string)

  /** One board point: its occupant (None for the source's `null`) and the UI highlight flag. */
  datatype Cell = Cell(color: Option<Color>, highlighted: bool)

  /** The store's whole state at one moment. */
  datatype Snapshot = Snapshot(
    colorToMove: Color,
    whitePiecesRemaining: int,
    blackPiecesRemaining: int,
    piecesPlaced: int,
    phase: Phase,
    board: seq<Cell>)

  const BoardSize: nat := 24
  const StartingPieces: int := 9
  const EmptyCell: Cell := Cell(None, false)

  /** The side that moves after `c` (the `toggleMove` mutation). */
  function Toggled(c: Color): (r: Color)
    ensures r != c
  {
    if c == White then Black else White
  }

  lemma ToggleTwice(c: Color)
    ensures Toggled(Toggled(c)) == c
  {
  }

  /** The state the store is created with. */
  function Initial(): (r: Snapshot)
  {
    Snapshot(White, StartingPieces, StartingPieces, 0, Place, seq(BoardSize, _ => EmptyCell))
  }

  lemma InitialState()
    ensures Initial().colorToMove == White && Initial().phase == Place
    ensures Initial().whitePiecesRemaining == 9 && Initial().blackPiecesRemaining == 9
    ensures Initial().piecesPlaced == 0
    ensures |Initial().board| == 24
    ensures forall i :: 0 <= i < 24 ==> Initial().board[i] == Cell(None, false)
  {
  }

  /** The board with every highlight cleared and every occupant kept. */
  function Unhighlighted(board: seq<Cell>): (r: seq<Cell>)
    ensures |r| == |board|
    ensures forall i :: 0 <= i < |r| ==> r[i].color == board[i].color && !r[i].highlighted
  {
    seq(|board|, i requires 0 <= i < |board| => Cell(board[i].color, false))
  }

  /** The commands behind the store's five actions. */
  datatype Command =
    | SetPhase(phase: Phase)
    | AddPiece(location: nat)
    | HighlightPiece(location: nat)
    | UnhighlightAllPieces
    | RemovePiece(location: nat, destroy: bool)

  /** The command addresses a point of a board of `n` points (or no point at all). */
  predicate Fits(cmd: Command, n: nat)
  {
    match cmd
    case AddPiece(l) => l < n
    case HighlightPiece(l) => l < n
    case RemovePiece(l, _) => l < n
    case _ => true
  }

  /** The state after one command. */
  function Apply(s: Snapshot, cmd: Command): (r: Snapshot)
    requires Fits(cmd, |s.board|)
    ensures |r.board| == |s.board|
  {
    match cmd
    case SetPhase(p) =>
      s.(phase := p)
    case AddPiece(l) =>
      s.(board := s.board[l := Cell(Some(s.colorToMove), false)],
         piecesPlaced := if s.colorToMove == Black then s.piecesPlaced + 1 else s.piecesPlaced,
         colorToMove := Toggled(s.colorToMove))
    case HighlightPiece(l) =>
      s.(board := s.board[l := Cell(s.board[l].color, true)])
    case UnhighlightAllPieces =>
      s.(board := Unhighlighted(s.board))
    case RemovePiece(l, destroy) =>
      var attributedToWhite := s.board[l].color == Some(White);
      s.(board := s.board[l := EmptyCell],
         whitePiecesRemaining :=
           if destroy && attributedToWhite then s.whitePiecesRemaining - 1 else s.whitePiecesRemaining,
         blackPiecesRemaining :=
           if destroy && !attributedToWhite then s.blackPiecesRemaining - 1 else s.blackPiecesRemaining)
  }

  /** Every command of `cmds` addresses a point of a board of `n` points. */
  predicate AllFit(cmds: seq<Command>, n: nat)
  {
    forall i :: 0 <= i < |cmds| ==> Fits(cmds[i], n)
  }

  /** The state after the commands `cmds`, first to last. */
  function Run(s: Snapshot, cmds: seq<Command>): (r: Snapshot)
    requires AllFit(cmds, |s.board|)
    ensures |r.board| == |s.board|
    decreases |cmds|
  {
    if cmds == [] then s
    else Apply(Run(s, cmds[..|cmds| - 1]), cmds[|cmds| - 1])
  }

  /** The number of placements (`AddPiece` commands) in `cmds`. */
  function Placements(cmds: seq<Command>): (r: nat)
    decreases |cmds|
  {
    if cmds == [] then 0
    else Placements(cmds[..|cmds| - 1]) + (if cmds[|cmds| - 1].AddPiece? then 1 else 0)
  }

  /** How many of `k` consecutive placements are Black's when `first` places first. */
  function BlackShare(first: Color, k: nat): (r: nat)
  {
    if first == White then k / 2 else (k + 1) / 2
  }

  // ---------------------------------------------------------------------------
  // One command

  /** `addPiece` writes the mover's colour, unhighlighted, at `l` and nowhere else,
      counts the placement exactly when Black placed, never touches the
      remaining-piece counters and always passes the turn. */
  lemma AddPieceEffect(s: Snapshot, l: nat)
    requires l < |s.board|
    ensures var r := Apply(s, AddPiece(l));
      && r.board[l] == Cell(Some(s.colorToMove), false)
      && (forall i :: 0 <= i < |s.board| && i != l ==> r.board[i] == s.board[i])
      && (r.piecesPlaced == s.piecesPlaced + 1 <==> s.colorToMove == Black)
      && (s.colorToMove == White ==> r.piecesPlaced == s.piecesPlaced)
      && r.whitePiecesRemaining == s.whitePiecesRemaining
      && r.blackPiecesRemaining == s.blackPiecesRemaining
      && r.colorToMove != s.colorToMove
      && r.phase == s.phase
  {
  }

  /** `highlightPiece` sets one flag and changes nothing else, the cell's occupant included. */
  lemma HighlightPieceEffect(s: Snapshot, l: nat)
    requires l < |s.board|
    ensures var r := Apply(s, HighlightPiece(l));
      && r.board[l].highlighted
      && r.board[l].color == s.board[l].color
      && (forall i :: 0 <= i < |s.board| && i != l ==> r.board[i] == s.board[i])
      && r == s.(board := r.board)
  {
  }

  /** `setPhase` replaces the phase and changes nothing else. */
  lemma SetPhaseEffect(s: Snapshot, p: Phase)
    ensures var r := Apply(s, SetPhase(p));
      && r.phase == p
      && r == s.(phase := r.phase)
  {
  }

  /** `unhighlightAllPieces` keeps every occupant, clears every highlight and
      changes nothing but the board. */
  lemma UnhighlightAllEffect(s: Snapshot)
    ensures var r := Apply(s, UnhighlightAllPieces);
      && |r.board| == |s.board|
      && (forall i :: 0 <= i < |s.board| ==> r.board[i] == Cell(s.board[i].color, false))
      && r == s.(board := r.board)
  {
  }

  /** `unhighlightAllPieces` is idempotent. */
  lemma UnhighlightIdempotent(s: Snapshot)
    ensures var once := Apply(s, UnhighlightAllPieces);
      Apply(once, UnhighlightAllPieces) == once
  {
    var once := Apply(s, UnhighlightAllPieces);
    assert Unhighlighted(once.board) == once.board;
  }

  /** `unhighlightAllPieces` erases any earlier `highlightPiece`. */
  lemma HighlightThenUnhighlight(s: Snapshot, l: nat)
    requires l < |s.board|
    ensures Apply(Apply(s, HighlightPiece(l)), UnhighlightAllPieces) == Apply(s, UnhighlightAllPieces)
  {
    var h := Apply(s, HighlightPiece(l));
    assert Unhighlighted(h.board) == Unhighlighted(s.board);
  }

  /** `removePiece` empties `l` and nowhere else and keeps the turn; a destroying
      removal takes one piece from White exactly when White stood on `l` and
      from Black otherwise (an empty point included), and the other side keeps its
      count; a plain removal takes none. */
  lemma RemovePieceEffect(s: Snapshot, l: nat, destroy: bool)
    requires l < |s.board|
    ensures var r := Apply(s, RemovePiece(l, destroy));
      && r.board[l] == EmptyCell
      && (forall i :: 0 <= i < |s.board| && i != l ==> r.board[i] == s.board[i])
      && (r.whitePiecesRemaining == s.whitePiecesRemaining - 1 <==> destroy && s.board[l].color == Some(White))
      && (r.blackPiecesRemaining == s.blackPiecesRemaining - 1 <==> destroy && s.board[l].color != Some(White))
      && (destroy ==> r.whitePiecesRemaining + r.blackPiecesRemaining == s.whitePiecesRemaining + s.blackPiecesRemaining - 1)
      && (!destroy ==> r.whitePiecesRemaining == s.whitePiecesRemaining && r.blackPiecesRemaining == s.blackPiecesRemaining)
      && r.colorToMove == s.colorToMove
      && r.piecesPlaced == s.piecesPlaced
      && r.phase == s.phase
  {
  }

  /** A placement on an empty point undone by a plain removal gives the board back,
      but not the turn. */
  lemma AddThenRemoveRestoresBoard(s: Snapshot, l: nat)
    requires l < |s.board| && s.board[l] == EmptyCell
    ensures var r := Apply(Apply(s, AddPiece(l)), RemovePiece(l, false));
      && r.board == s.board
      && r.whitePiecesRemaining == s.whitePiecesRemaining
      && r.blackPiecesRemaining == s.blackPiecesRemaining
      && r.colorToMove == Toggled(s.colorToMove)
  {
  }

  /** What any single command may do to the counters and the turn: the
      remaining-piece counters never grow, at most one of them shrinks, and by one,
      only in a destroying removal; `piecesPlaced` grows by at most one; only a
      placement passes the turn and only `setPhase` changes the phase. */
  lemma StepBounds(s: Snapshot, cmd: Command)
    requires Fits(cmd, |s.board|)
    ensures var r := Apply(s, cmd);
      && r.whitePiecesRemaining <= s.whitePiecesRemaining
      && r.blackPiecesRemaining <= s.blackPiecesRemaining
      && (s.whitePiecesRemaining - r.whitePiecesRemaining) + (s.blackPiecesRemaining - r.blackPiecesRemaining) <= 1
      && (r.whitePiecesRemaining + r.blackPiecesRemaining < s.whitePiecesRemaining + s.blackPiecesRemaining
          <==> cmd.RemovePiece? && cmd.destroy)
      && s.piecesPlaced <= r.piecesPlaced <= s.piecesPlaced + 1
      && (r.colorToMove != s.colorToMove <==> cmd.AddPiece?)
      && (r.phase != s.phase ==> cmd.SetPhase?)
  {
  }

  // ---------------------------------------------------------------------------
  // Sequences of commands

  /** Over any run the remaining-piece counters never grow and `piecesPlaced`
      never shrinks. */
  lemma {:induction false} RunMonotone(s: Snapshot, cmds: seq<Command>)
    requires AllFit(cmds, |s.board|)
    ensures var r := Run(s, cmds);
      && r.whitePiecesRemaining <= s.whitePiecesRemaining
      && r.blackPiecesRemaining <= s.blackPiecesRemaining
      && r.piecesPlaced >= s.piecesPlaced
    decreases |cmds|
  {
    if cmds != [] {
      var prefix := cmds[..|cmds| - 1];
      assert AllFit(prefix, |s.board|);
      RunMonotone(s, prefix);
      StepBounds(Run(s, prefix), cmds[|cmds| - 1]);
    }
  }

  /** The turn flips with every placement and with nothing else, and `piecesPlaced`
      grows by the number of those placements that were Black's. */
  lemma {:induction false} RunTurns(s: Snapshot, cmds: seq<Command>)
    requires AllFit(cmds, |s.board|)
    ensures var r := Run(s, cmds);
      && r.colorToMove == (if Placements(cmds) % 2 == 0 then s.colorToMove else Toggled(s.colorToMove))
      && r.piecesPlaced == s.piecesPlaced + BlackShare(s.colorToMove, Placements(cmds))
    decreases |cmds|
  {
    if cmds != [] {
      var prefix := cmds[..|cmds| - 1];
      assert AllFit(prefix, |s.board|);
      RunTurns(s, prefix);
    }
  }

  /** From the initial state: the board keeps its 24 points, neither side ever
      holds more than 9 pieces (so together at most 18), White moves exactly after
      an even number of placements, and `piecesPlaced` is half the placements. */
  lemma FromInitial(cmds: seq<Command>)
    requires AllFit(cmds, BoardSize)
    ensures var r := Run(Initial(), cmds);
      && |r.board| == BoardSize
      && r.whitePiecesRemaining <= StartingPieces
      && r.blackPiecesRemaining <= StartingPieces
      && r.whitePiecesRemaining + r.blackPiecesRemaining <= 2 * StartingPieces
      && (r.colorToMove == White <==> Placements(cmds) % 2 == 0)
      && r.piecesPlaced == Placements(cmds) / 2
  {
    RunMonotone(Initial(), cmds);
    RunTurns(Initial(), cmds);
  }
}
