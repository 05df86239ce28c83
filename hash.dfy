/** The piece hash: a piece's rank, file, colour and kind packed into a
    `u16` as `((rank + 8 * file) * 2 + colour) * 8 + kind`. */
module PieceHash {
  import opened ChessTypes
  import opened Coordinates
  import opened BitMasks

  datatype Option<T> = None | Some(value: T)

  /** The one-bit colour code: White is 1, Black is 0. */
  function GetColourHash(col: Colour): (code: uint8)
    ensures code <= 1
    ensures code == 1 <==> col == White
  {
    match col
    case White => 1
    case Black => 0
  }

  /** The three-bit kind code: King 0, Queen 1, Rook 2, Bishop 3, Knight 4,
      Pawn 5. */
  function GetPieceHash(kind: Kind): (code: uint8)
    ensures code <= 5
  {
    match kind
    case King => 0
    case Queen => 1
    case Rook => 2
    case Bishop => 3
    case Knight => 4
    case Pawn => 5
  }

  /** The colour a colour code stands for, if any. */
  function ColourOfCode(code: nat): (col: Option<Colour>)
    ensures col.Some? <==> code <= 1
    ensures col.Some? ==> GetColourHash(col.value) as nat == code
  {
    if code == 0 then Some(Black)
    else if code == 1 then Some(White)
    else None
  }

  /** The kind a kind code stands for, if any; codes 6 and 7 stand for none. */
  function KindOfCode(code: nat): (kind: Option<Kind>)
    ensures kind.Some? <==> code <= 5
    ensures kind.Some? ==> GetPieceHash(kind.value) as nat == code
  {
    if code == 0 then Some(King)
    else if code == 1 then Some(Queen)
    else if code == 2 then Some(Rook)
    else if code == 3 then Some(Bishop)
    else if code == 4 then Some(Knight)
    else if code == 5 then Some(Pawn)
    else None
  }

  /** Decoding a colour's code gives the colour back. */
  lemma ColourCodeRoundTrip(col: Colour)
    ensures ColourOfCode(GetColourHash(col) as nat) == Some(col)
  {
  }

  /** Decoding a kind's code gives the kind back, so the six codes are
      distinct. */
  lemma KindCodeRoundTrip(kind: Kind)
    ensures KindOfCode(GetPieceHash(kind) as nat) == Some(kind)
  {
  }

  /** Two kinds with the same code are the same kind. */
  lemma KindCodeInjective(a: Kind, b: Kind)
    requires GetPieceHash(a) == GetPieceHash(b)
    ensures a == b
  {
    KindCodeRoundTrip(a);
    KindCodeRoundTrip(b);
  }

  /** The hash a piece should get, on unbounded integers. */
  function HashOf(piece: Piece): nat
  {
    ((PieceRank(piece) + 8 * PieceFile(piece)) * 2 + GetColourHash(piece.colour) as nat) * 8
      + GetPieceHash(piece.kind) as nat
  }

  /** The fields packed into a hash. */
  datatype HashFields = HashFields(rank: nat, file: nat, colourCode: nat, kindCode: nat)

  /** Unpacks a hash: the low three bits are the kind code, the next bit the
      colour code, and the rest `rank + 8 * file`, where a nonzero rank lies
      in 1..8. */
  function Unhash(h: nat): (f: HashFields)
    ensures f.rank <= 8 && f.colourCode <= 1 && f.kindCode <= 7
  {
    var square := h / 16;
    var rank := if square == 0 then 0 else (square - 1) % 8 + 1;
    HashFields(rank, (square - rank) / 8, (h / 8) % 2, h % 8)
  }

  /** Rust `x << k` on a `u8`: bits shifted past bit 7 are dropped. */
  function ShiftLeftByte(x: uint8, k: nat): uint8
    requires k < 8
  {
    ((x as int * Pow2(k)) % 0x100) as uint8
  }

  /** Rust `x << k` on a `u16`: bits shifted past bit 15 are dropped. */
  function ShiftLeftWord(x: uint16, k: nat): uint16
    requires k < 16
  {
    ((x as int * Pow2(k)) % 0x1_0000) as uint16
  }

  function Pow2(k: nat): nat
  {
    if k == 0 then 1 else 2 * Pow2(k - 1)
  }

  /** A piece is either off the board (rank and file 0) or on a square with
      rank and file in 1..8. */
  lemma PieceSquareRange(piece: Piece)
    ensures PieceRank(piece) == 0 <==> PieceFile(piece) == 0
    ensures PieceRank(piece) <= 8 && PieceFile(piece) <= 8
  {
    RankOfLowestRow(piece.pos);
    FileOfLowestColumn(piece.pos);
  }

  /** Packing a piece and unpacking the hash gives back its rank, file,
      colour code and kind code. */
  lemma HashRoundTrip(piece: Piece)
    ensures Unhash(HashOf(piece))
      == HashFields(PieceRank(piece), PieceFile(piece),
                    GetColourHash(piece.colour) as nat, GetPieceHash(piece.kind) as nat)
  {
    PieceSquareRange(piece);
    var r, f := PieceRank(piece), PieceFile(piece);
    var c, k := GetColourHash(piece.colour) as nat, GetPieceHash(piece.kind) as nat;
    UnpackFields(r + 8 * f, c, k);
    if r != 0 {
      UnpackSquare(r, f);
    }
  }

  /** The low four bits of `(s * 2 + c) * 8 + k` hold `c` and `k`. */
  lemma UnpackFields(s: nat, c: nat, k: nat)
    requires c <= 1 && k <= 7
    ensures ((s * 2 + c) * 8 + k) % 8 == k
    ensures (((s * 2 + c) * 8 + k) / 8) % 2 == c
    ensures ((s * 2 + c) * 8 + k) / 16 == s
  {
    var h := (s * 2 + c) * 8 + k;
    assert h == 16 * s + 8 * c + k;
    assert h / 8 == 2 * s + c;
  }

  /** A square `r + 8 * f` with `r` in 1..8 gives back `r` and `f`. */
  lemma UnpackSquare(r: nat, f: nat)
    requires 1 <= r <= 8
    ensures (r + 8 * f - 1) % 8 + 1 == r
    ensures (r + 8 * f - r) / 8 == f
  {
    assert r + 8 * f - 1 == (r - 1) + 8 * f;
  }

  /** The hash never exceeds 1165 = ((8 + 8 * 8) * 2 + 1) * 8 + 5, so it fits
      a `u16`. */
  lemma HashBound(piece: Piece)
    ensures HashOf(piece) <= 1165
  {
    PieceSquareRange(piece);
  }

  /** Two pieces on the board, each on a single square, hash alike only when
      they share square, colour and kind. */
  lemma HashInjective(p: Piece, q: Piece, i: nat, j: nat)
    requires !p.isCaptured && !q.isCaptured
    requires i < 64 && j < 64 && p.pos == Bit(i) && q.pos == Bit(j)
    requires HashOf(p) == HashOf(q)
    ensures p.pos == q.pos && p.colour == q.colour && p.kind == q.kind
  {
    HashRoundTrip(p);
    HashRoundTrip(q);
    if i != j {
      CoordinatesInjective(i, j);
    }
    KindCodeInjective(p.kind, q.kind);
  }

  /** `hash_piece`, step by step on the source's `u8` and `u16` values; every
      addition is checked, as in a debug build. */
  method HashPiece(piece: Piece) returns (out: uint16)
    ensures out as nat == HashOf(piece)
  {
    var pRank := GetRank(piece);
    var pFile := GetFile(piece);
    PieceSquareRange(piece);
    var posHash := pRank + ShiftLeftByte(pFile, 3);
    var pCol := GetColourHash(piece.colour);
    var pKind := GetPieceHash(piece.kind);
    out := 0;
    out := out + posHash as uint16;
    out := ShiftLeftWord(out, 1) + pCol as uint16;
    out := ShiftLeftWord(out, 3) + pKind as uint16;
  }

  /** The piece of the source's test (a Black Queen at bit 12, rank 7,
      file 4) hashes to 625 = ((7 + 8 * 4) * 2 + 0) * 8 + 1. */
  lemma HashVectors()
    ensures HashOf(Piece(0x1000, 0x1000, Black, Queen, false, false)) == 625
    ensures Unhash(625) == HashFields(7, 4, 0, 1)
  {
    ScannerVectors();
  }
}
