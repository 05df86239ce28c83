/** Occupancy maps: the union of the square masks of the pieces still on the
    board, for one colour or for both. */
module Occupancy {
  import opened ChessTypes
  import opened BitMasks

  /** Whether `piece` adds its mask to the occupancy map of `col`. */
  predicate Contributes(piece: Piece, col: Colour)
  {
    piece.colour == col && !piece.isCaptured
  }

  /** The bits `piece` adds to the occupancy map of `col`. */
  function ColourMask(piece: Piece, col: Colour): bv64
  {
    if Contributes(piece, col) then piece.pos else 0
  }

  /** The bits `piece` adds to the occupancy map of both colours. */
  function LiveMask(piece: Piece): bv64
  {
    if piece.isCaptured then 0 else piece.pos
  }

  /** All pieces but the last one. */
  function Front(pieces: seq<Piece>): seq<Piece>
    requires pieces != []
  {
    pieces[..|pieces| - 1]
  }

  /** The last piece. */
  function Last(pieces: seq<Piece>): Piece
    requires pieces != []
  {
    pieces[|pieces| - 1]
  }

  /** OR of the masks of the pieces of `pieces` that are of colour `col` and
      not captured, folded from the front as the loop visits them. */
  function ColourMap(col: Colour, pieces: seq<Piece>): bv64
    decreases |pieces|
  {
    if pieces == [] then 0 else ColourMap(col, Front(pieces)) | ColourMask(Last(pieces), col)
  }

  /** OR of the masks of the pieces of `pieces` that are not captured. */
  function AllMap(pieces: seq<Piece>): bv64
    decreases |pieces|
  {
    if pieces == [] then 0 else AllMap(Front(pieces)) | LiveMask(Last(pieces))
  }

  // One step of each fold, for callers that split off the last piece.

  lemma ColourMapSnoc(col: Colour, front: seq<Piece>, last: Piece)
    ensures ColourMap(col, front + [last]) == ColourMap(col, front) | ColourMask(last, col)
  {
    assert Front(front + [last]) == front;
  }

  lemma AllMapSnoc(front: seq<Piece>, last: Piece)
    ensures AllMap(front + [last]) == AllMap(front) | LiveMask(last)
  {
    assert Front(front + [last]) == front;
  }

  lemma ContributingMask(piece: Piece, col: Colour)
    requires Contributes(piece, col)
    ensures ColourMask(piece, col) == piece.pos
  {
  }

  lemma SilentMask(piece: Piece, col: Colour)
    requires !Contributes(piece, col)
    ensures ColourMask(piece, col) == 0
  {
  }

  lemma LivePieceMask(piece: Piece)
    requires !piece.isCaptured
    ensures LiveMask(piece) == piece.pos
  {
  }

  lemma CapturedPieceMask(piece: Piece)
    requires piece.isCaptured
    ensures LiveMask(piece) == 0
  {
  }

  lemma ColourMapSnocTake(col: Colour, front: seq<Piece>, last: Piece)
    requires Contributes(last, col)
    ensures ColourMap(col, front + [last]) == ColourMap(col, front) | last.pos
  {
    ColourMapSnoc(col, front, last);
    ContributingMask(last, col);
  }

  lemma ColourMapSnocSkip(col: Colour, front: seq<Piece>, last: Piece)
    requires !Contributes(last, col)
    ensures ColourMap(col, front + [last]) == ColourMap(col, front)
  {
    ColourMapSnoc(col, front, last);
    SilentMask(last, col);
    JoinEmptyRight(ColourMap(col, front), ColourMask(last, col), ColourMap(col, front));
  }

  lemma AllMapSnocTake(front: seq<Piece>, last: Piece)
    requires !last.isCaptured
    ensures AllMap(front + [last]) == AllMap(front) | last.pos
  {
    AllMapSnoc(front, last);
    LivePieceMask(last);
  }

  lemma AllMapSnocSkip(front: seq<Piece>, last: Piece)
    requires last.isCaptured
    ensures AllMap(front + [last]) == AllMap(front)
  {
    AllMapSnoc(front, last);
    CapturedPieceMask(last);
    JoinEmptyRight(AllMap(front), LiveMask(last), AllMap(front));
  }

  // The two branches of the loop body, as steps of the fold.

  lemma ColourMapSkip(col: Colour, pieces: seq<Piece>, i: nat)
    requires i < |pieces| && !Contributes(pieces[i], col)
    ensures ColourMap(col, pieces[..i + 1]) == ColourMap(col, pieces[..i])
  {
    assert pieces[..i + 1] == pieces[..i] + [pieces[i]];
    ColourMapSnocSkip(col, pieces[..i], pieces[i]);
  }

  lemma ColourMapTake(col: Colour, pieces: seq<Piece>, i: nat)
    requires i < |pieces| && Contributes(pieces[i], col)
    ensures ColourMap(col, pieces[..i + 1]) == ColourMap(col, pieces[..i]) | pieces[i].pos
  {
    assert pieces[..i + 1] == pieces[..i] + [pieces[i]];
    ColourMapSnocTake(col, pieces[..i], pieces[i]);
  }

  lemma AllMapSkip(pieces: seq<Piece>, i: nat)
    requires i < |pieces| && pieces[i].isCaptured
    ensures AllMap(pieces[..i + 1]) == AllMap(pieces[..i])
  {
    assert pieces[..i + 1] == pieces[..i] + [pieces[i]];
    AllMapSnocSkip(pieces[..i], pieces[i]);
  }

  lemma AllMapTake(pieces: seq<Piece>, i: nat)
    requires i < |pieces| && !pieces[i].isCaptured
    ensures AllMap(pieces[..i + 1]) == AllMap(pieces[..i]) | pieces[i].pos
  {
    assert pieces[..i + 1] == pieces[..i] + [pieces[i]];
    AllMapSnocTake(pieces[..i], pieces[i]);
  }

  /** The occupancy map of colour `col`: the loop skips captured pieces and
      pieces of the other colour and ORs in the rest. */
  method GetPieceMap(col: Colour, board: ChessBoard) returns (out: bv64)
    ensures out == ColourMap(col, board.pieces)
  {
    out := 0;
    for i := 0 to |board.pieces|
      invariant out == ColourMap(col, board.pieces[..i])
    {
      var piece := board.pieces[i];
      if piece.colour != col || piece.isCaptured {
        ColourMapSkip(col, board.pieces, i);
        continue;
      }
      ColourMapTake(col, board.pieces, i);
      out := out | piece.pos;
    }
    assert board.pieces[..|board.pieces|] == board.pieces;
  }

  /** The occupancy map of both colours: the loop skips captured pieces. */
  method GetAllPieceMap(board: ChessBoard) returns (out: bv64)
    ensures out == AllMap(board.pieces)
  {
    out := 0;
    for i := 0 to |board.pieces|
      invariant out == AllMap(board.pieces[..i])
    {
      var piece := board.pieces[i];
      if piece.isCaptured {
        AllMapSkip(board.pieces, i);
        continue;
      }
      AllMapTake(board.pieces, i);
      out := out | piece.pos;
    }
    assert board.pieces[..|board.pieces|] == board.pieces;
  }

  lemma FrontWithin(col: Colour, front: seq<Piece>, last: Piece)
    ensures Within(ColourMap(col, front), ColourMap(col, front + [last]))
  {
    ColourMapSnoc(col, front, last);
    WithinJoinLeft(ColourMap(col, front), ColourMask(last, col), ColourMap(col, front + [last]));
  }

  lemma CoversLast(col: Colour, front: seq<Piece>, last: Piece)
    requires Contributes(last, col)
    ensures Within(last.pos, ColourMap(col, front + [last]))
  {
    ColourMapSnocTake(col, front, last);
    WithinJoinRight(ColourMap(col, front), last.pos, ColourMap(col, front + [last]));
  }

  lemma CoversFront(col: Colour, front: seq<Piece>, last: Piece, a: bv64)
    requires Within(a, ColourMap(col, front))
    ensures Within(a, ColourMap(col, front + [last]))
  {
    FrontWithin(col, front, last);
    WithinTrans(a, ColourMap(col, front), ColourMap(col, front + [last]));
  }

  /** Every piece of colour `col` that is not captured has all its bits in
      the occupancy map of `col`. */
  lemma {:induction false} ColourMapCovers(col: Colour, pieces: seq<Piece>, j: nat)
    requires j < |pieces| && Contributes(pieces[j], col)
    ensures Within(pieces[j].pos, ColourMap(col, pieces))
    decreases |pieces|
  {
    var n := |pieces| - 1;
    var front, last := pieces[..n], pieces[n];
    assert pieces == front + [last];
    if j < n {
      assert front[j] == pieces[j];
      ColourMapCovers(col, front, j);
      CoversFront(col, front, last, pieces[j].pos);
    } else {
      CoversLast(col, front, last);
    }
  }

  lemma LeastTake(col: Colour, front: seq<Piece>, last: Piece, c: bv64)
    requires Contributes(last, col)
    requires Within(ColourMap(col, front), c) && Within(last.pos, c)
    ensures Within(ColourMap(col, front + [last]), c)
  {
    ColourMapSnocTake(col, front, last);
    JoinWithin(ColourMap(col, front), last.pos, ColourMap(col, front + [last]), c);
  }

  lemma LeastSkip(col: Colour, front: seq<Piece>, last: Piece, c: bv64)
    requires !Contributes(last, col)
    requires Within(ColourMap(col, front), c)
    ensures Within(ColourMap(col, front + [last]), c)
  {
    ColourMapSnocSkip(col, front, last);
    WithinEqual(ColourMap(col, front + [last]), ColourMap(col, front), c);
  }

  /** The occupancy map of `col` sets no bit outside a mask that holds every
      piece of colour `col` that is not captured: captured pieces and pieces
      of the other colour never contribute a bit. */
  lemma {:induction false} ColourMapLeast(col: Colour, pieces: seq<Piece>, c: bv64)
    requires forall j | 0 <= j < |pieces| && Contributes(pieces[j], col) :: Within(pieces[j].pos, c)
    ensures Within(ColourMap(col, pieces), c)
    decreases |pieces|
  {
    if pieces == [] {
      EmptyWithin(c);
    } else {
      var n := |pieces| - 1;
      var front, last := pieces[..n], pieces[n];
      assert pieces == front + [last];
      assert forall j | 0 <= j < n :: front[j] == pieces[j];
      ColourMapLeast(col, front, c);
      if Contributes(last, col) {
        LeastTake(col, front, last, c);
      } else {
        LeastSkip(col, front, last, c);
      }
    }
  }

  lemma CapturedMasksUnion(piece: Piece)
    requires piece.isCaptured
    ensures ColourMask(piece, White) | ColourMask(piece, Black) == LiveMask(piece)
  {
    SilentMask(piece, White);
    SilentMask(piece, Black);
    CapturedPieceMask(piece);
    JoinEmpty(ColourMask(piece, White), ColourMask(piece, Black), LiveMask(piece));
  }

  lemma WhiteMasksUnion(piece: Piece)
    requires !piece.isCaptured && piece.colour == White
    ensures ColourMask(piece, White) | ColourMask(piece, Black) == LiveMask(piece)
  {
    ContributingMask(piece, White);
    SilentMask(piece, Black);
    LivePieceMask(piece);
    JoinEmptyRight(ColourMask(piece, White), ColourMask(piece, Black), LiveMask(piece));
  }

  lemma BlackMasksUnion(piece: Piece)
    requires !piece.isCaptured && piece.colour == Black
    ensures ColourMask(piece, White) | ColourMask(piece, Black) == LiveMask(piece)
  {
    SilentMask(piece, White);
    ContributingMask(piece, Black);
    LivePieceMask(piece);
    JoinEmptyLeft(ColourMask(piece, White), ColourMask(piece, Black), LiveMask(piece));
  }

  /** A piece adds to the map of both colours exactly the bits it adds to
      the white map and the black map together. */
  lemma MasksUnion(piece: Piece)
    ensures ColourMask(piece, White) | ColourMask(piece, Black) == LiveMask(piece)
  {
    if piece.isCaptured {
      CapturedMasksUnion(piece);
    } else if piece.colour == White {
      WhiteMasksUnion(piece);
    } else {
      BlackMasksUnion(piece);
    }
  }

  lemma SidesSnoc(front: seq<Piece>, last: Piece)
    ensures ColourMap(White, front + [last]) | ColourMap(Black, front + [last])
         == (ColourMap(White, front) | ColourMask(last, White)) | (ColourMap(Black, front) | ColourMask(last, Black))
  {
    ColourMapSnoc(White, front, last);
    ColourMapSnoc(Black, front, last);
  }

  lemma UnionStep(front: seq<Piece>, last: Piece)
    requires ColourMap(White, front) | ColourMap(Black, front) == AllMap(front)
    ensures ColourMap(White, front + [last]) | ColourMap(Black, front + [last]) == AllMap(front + [last])
  {
    SidesSnoc(front, last);
    AllMapSnoc(front, last);
    MasksUnion(last);
    JoinPairs(ColourMap(White, front), ColourMap(Black, front), AllMap(front),
              ColourMask(last, White), ColourMask(last, Black), LiveMask(last));
  }

  /** The white map and the black map together make up the map of both
      colours. */
  lemma {:induction false} ColourMapsUnion(pieces: seq<Piece>)
    ensures ColourMap(White, pieces) | ColourMap(Black, pieces) == AllMap(pieces)
    decreases |pieces|
  {
    if pieces == [] {
      JoinEmpty(ColourMap(White, pieces), ColourMap(Black, pieces), AllMap(pieces));
    } else {
      var n := |pieces| - 1;
      var front, last := pieces[..n], pieces[n];
      assert pieces == front + [last];
      ColourMapsUnion(front);
      UnionStep(front, last);
    }
  }

  /** Each colour's map is contained in the map of both colours. */
  lemma ColourMapWithinAll(col: Colour, pieces: seq<Piece>)
    ensures Within(ColourMap(col, pieces), AllMap(pieces))
  {
    ColourMapsUnion(pieces);
    if col == White {
      WithinJoinLeft(ColourMap(White, pieces), ColourMap(Black, pieces), AllMap(pieces));
    } else {
      WithinJoinRight(ColourMap(White, pieces), ColourMap(Black, pieces), AllMap(pieces));
    }
  }

  /** Every piece that is not captured has all its bits in the map of both
      colours. */
  lemma AllMapCovers(pieces: seq<Piece>, j: nat)
    requires j < |pieces| && !pieces[j].isCaptured
    ensures Within(pieces[j].pos, AllMap(pieces))
  {
    var col := pieces[j].colour;
    ColourMapCovers(col, pieces, j);
    ColourMapWithinAll(col, pieces);
    WithinTrans(pieces[j].pos, ColourMap(col, pieces), AllMap(pieces));
  }

  /** The map of both colours sets no bit outside a mask that holds every
      piece that is not captured. */
  lemma AllMapLeast(pieces: seq<Piece>, c: bv64)
    requires forall j | 0 <= j < |pieces| && !pieces[j].isCaptured :: Within(pieces[j].pos, c)
    ensures Within(AllMap(pieces), c)
  {
    ColourMapLeast(White, pieces, c);
    ColourMapLeast(Black, pieces, c);
    ColourMapsUnion(pieces);
    JoinWithin(ColourMap(White, pieces), ColourMap(Black, pieces), AllMap(pieces), c);
  }

  lemma SquareFromPiece(col: Colour, pieces: seq<Piece>, i: nat, j: nat)
    requires i < 64 && j < |pieces| && Contributes(pieces[j], col) && HasBit(pieces[j].pos, i)
    ensures HasBit(ColourMap(col, pieces), i)
  {
    ColourMapCovers(col, pieces, j);
    WithinHasBit(pieces[j].pos, ColourMap(col, pieces), i);
  }

  lemma NoSquareWithoutPiece(col: Colour, pieces: seq<Piece>, i: nat)
    requires i < 64
    requires forall j | 0 <= j < |pieces| && Contributes(pieces[j], col) :: !HasBit(pieces[j].pos, i)
    ensures !HasBit(ColourMap(col, pieces), i)
  {
    forall j | 0 <= j < |pieces| && Contributes(pieces[j], col)
      ensures Within(pieces[j].pos, !Bit(i))
    {
      WithinOthers(pieces[j].pos, i);
    }
    ColourMapLeast(col, pieces, !Bit(i));
    OthersLackBit(ColourMap(col, pieces), i);
  }

  /** Square `i` is set in the occupancy map of `col` exactly when some piece
      of colour `col` that is not captured has bit `i` set. */
  lemma ColourMapSquares(col: Colour, pieces: seq<Piece>, i: nat)
    requires i < 64
    ensures HasBit(ColourMap(col, pieces), i)
        <==> exists j | 0 <= j < |pieces| :: Contributes(pieces[j], col) && HasBit(pieces[j].pos, i)
  {
    if exists j | 0 <= j < |pieces| :: Contributes(pieces[j], col) && HasBit(pieces[j].pos, i) {
      var j :| 0 <= j < |pieces| && Contributes(pieces[j], col) && HasBit(pieces[j].pos, i);
      SquareFromPiece(col, pieces, i, j);
    } else {
      NoSquareWithoutPiece(col, pieces, i);
    }
  }

  lemma AllSquareFromPiece(pieces: seq<Piece>, i: nat, j: nat)
    requires i < 64 && j < |pieces| && !pieces[j].isCaptured && HasBit(pieces[j].pos, i)
    ensures HasBit(AllMap(pieces), i)
  {
    AllMapCovers(pieces, j);
    WithinHasBit(pieces[j].pos, AllMap(pieces), i);
  }

  lemma AllNoSquareWithoutPiece(pieces: seq<Piece>, i: nat)
    requires i < 64
    requires forall j | 0 <= j < |pieces| && !pieces[j].isCaptured :: !HasBit(pieces[j].pos, i)
    ensures !HasBit(AllMap(pieces), i)
  {
    forall j | 0 <= j < |pieces| && !pieces[j].isCaptured
      ensures Within(pieces[j].pos, !Bit(i))
    {
      WithinOthers(pieces[j].pos, i);
    }
    AllMapLeast(pieces, !Bit(i));
    OthersLackBit(AllMap(pieces), i);
  }

  /** Square `i` is set in the map of both colours exactly when some piece
      that is not captured has bit `i` set. */
  lemma AllMapSquares(pieces: seq<Piece>, i: nat)
    requires i < 64
    ensures HasBit(AllMap(pieces), i)
        <==> exists j | 0 <= j < |pieces| :: !pieces[j].isCaptured && HasBit(pieces[j].pos, i)
  {
    if exists j | 0 <= j < |pieces| :: !pieces[j].isCaptured && HasBit(pieces[j].pos, i) {
      var j :| 0 <= j < |pieces| && !pieces[j].isCaptured && HasBit(pieces[j].pos, i);
      AllSquareFromPiece(pieces, i, j);
    } else {
      AllNoSquareWithoutPiece(pieces, i);
    }
  }

  /** Replacing a piece that does not contribute to the map of `col` by
      another that does not either keeps the map within the old one. */
  lemma SwapSilentWithin(col: Colour, pieces: seq<Piece>, k: nat, q: Piece)
    requires k < |pieces| && !Contributes(q, col)
    ensures Within(ColourMap(col, pieces[k := q]), ColourMap(col, pieces))
  {
    var swapped := pieces[k := q];
    forall j | 0 <= j < |swapped| && Contributes(swapped[j], col)
      ensures Within(swapped[j].pos, ColourMap(col, pieces))
    {
      ColourMapCovers(col, pieces, j);
    }
    ColourMapLeast(col, swapped, ColourMap(col, pieces));
  }

  /** A piece that is captured, or of the other colour, can stand anywhere
      and be replaced by any other such piece without changing the
      occupancy map of `col`. */
  lemma ColourMapIgnoresSilent(col: Colour, pieces: seq<Piece>, k: nat, q: Piece)
    requires k < |pieces| && !Contributes(pieces[k], col) && !Contributes(q, col)
    ensures ColourMap(col, pieces[k := q]) == ColourMap(col, pieces)
  {
    SwapSilentWithin(col, pieces, k, q);
    assert pieces[k := q][k := pieces[k]] == pieces;
    SwapSilentWithin(col, pieces[k := q], k, pieces[k]);
    WithinAntisymmetric(ColourMap(col, pieces[k := q]), ColourMap(col, pieces));
  }
}
