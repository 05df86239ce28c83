/** Data types of the bitboard chess core: colours, piece kinds, pieces and the
    32-piece board, plus the fixed-width unsigned integers the helpers return. */
module ChessTypes {

  /** Rust `u8`. */
  newtype uint8 = x: int | 0 <= x < 0x100

  /** Rust `u16`. */
  newtype uint16 = x: int | 0 <= x < 0x1_0000

  datatype Colour = Black | White

  datatype Kind = Rook | Pawn | Knight | Bishop | Queen | King

  /** A piece. `pos` and `prevPos` are square masks; a captured piece stays on
      the board with `isCaptured` set. `prevPos` and `hasMoved` are carried but
      read by none of the modelled helpers. */
  datatype Piece = Piece(
    pos: bv64,
    prevPos: bv64,
    colour: Colour,
    kind: Kind,
    hasMoved: bool,
    isCaptured: bool)

  const PieceCount: nat := 32

  /** The board's fixed array of 32 pieces. The board is a plain value that the
      helpers receive by copy, so a sequence of the fixed length stands for it. */
  type PieceArray = s: seq<Piece> | |s| == PieceCount
    witness seq(32, _ => Piece(0, 0, Black, King, false, true))

  datatype ChessBoard = ChessBoard(pieces: PieceArray)

  /** The opponent's colour. */
  function GetOpCol(col: Colour): (op: Colour)
    ensures op != col
  {
    match col
    case White => Black
    case Black => White
  }

  /** Taking the opponent twice gives the colour back. */
  lemma OpColInvolution(col: Colour)
    ensures GetOpCol(GetOpCol(col)) == col
  {
  }
}
