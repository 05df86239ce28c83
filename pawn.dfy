/** The pawn move generator, which is still a stub. */
module PawnMoves {
  import opened ChessTypes

  /** `pawn_get_moves`: the result mask starts empty and is never assigned
      again, so no piece on any board has a pawn move. */
  method PawnGetMoves(piece: Piece, board: ChessBoard) returns (moves: bv64)
    ensures moves == 0
  {
    moves := 0;
  }
}
