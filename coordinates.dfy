/** Bit-to-coordinate scanners. Bit 0 of a mask is the square at rank 8,
    file 8; bit 63 is rank 1, file 1. A row scanner `0xFF << 8k` walks the
    bytes from the lowest one up, a column scanner `0x8080808080808080 >> k`
    walks the columns from the top bit of each byte down. */
module Coordinates {
  import opened ChessTypes
  import opened BitMasks

  /** The row scanner after `k` shifts: byte `k` of the mask (all zero once
      `k` is 8). */
  function Row(k: nat): bv64
    requires k <= 8
  {
    if k == 0 then 0xFF else Row(k - 1) << 8
  }

  /** The column scanner after `k` shifts: bit `7 - k` of every byte. */
  function Column(k: nat): bv64
    requires k <= 8
  {
    if k == 0 then 0x8080_8080_8080_8080 else Column(k - 1) >> 1
  }

  /** Whether `pos` has a set bit in row `k`. */
  predicate MeetsRow(pos: bv64, k: nat)
    requires k <= 8
  {
    Row(k) & pos != 0
  }

  /** Whether `pos` has a set bit in column `k`. */
  predicate MeetsColumn(pos: bv64, k: nat)
    requires k <= 8
  {
    Column(k) & pos != 0
  }

  /** Row `k` is the lowest byte of `pos` with a set bit. */
  ghost predicate LowestRow(pos: bv64, k: nat)
  {
    k < 8 && MeetsRow(pos, k) && forall j | 0 <= j < k :: !MeetsRow(pos, j)
  }

  /** Column `k` is the first column of `pos`, in scanning order, with a set bit. */
  ghost predicate LowestColumn(pos: bv64, k: nat)
  {
    k < 8 && MeetsColumn(pos, k) && forall j | 0 <= j < k :: !MeetsColumn(pos, j)
  }

  lemma RowValues()
    ensures Row(0) == 0xFF && Row(1) == 0xFF00 && Row(2) == 0xFF_0000
    ensures Row(3) == 0xFF00_0000 && Row(4) == 0xFF_0000_0000
    ensures Row(5) == 0xFF00_0000_0000 && Row(6) == 0xFF_0000_0000_0000
    ensures Row(7) == 0xFF00_0000_0000_0000 && Row(8) == 0
  {
  }

  lemma ColumnValues()
    ensures Column(0) == 0x8080_8080_8080_8080 && Column(1) == 0x4040_4040_4040_4040
    ensures Column(2) == 0x2020_2020_2020_2020 && Column(3) == 0x1010_1010_1010_1010
    ensures Column(4) == 0x0808_0808_0808_0808 && Column(5) == 0x0404_0404_0404_0404
    ensures Column(6) == 0x0202_0202_0202_0202 && Column(7) == 0x0101_0101_0101_0101
  {
  }

  /** The eight rows together cover every bit. */
  lemma RowsCover(pos: bv64)
    ensures pos == 0 <==> forall j | 0 <= j < 8 :: !MeetsRow(pos, j)
  {
    RowValues();
    if forall j | 0 <= j < 8 :: !MeetsRow(pos, j) {
      assert !MeetsRow(pos, 0) && !MeetsRow(pos, 1) && !MeetsRow(pos, 2) && !MeetsRow(pos, 3);
      assert !MeetsRow(pos, 4) && !MeetsRow(pos, 5) && !MeetsRow(pos, 6) && !MeetsRow(pos, 7);
    }
  }

  /** The eight columns together cover every bit. */
  lemma ColumnsCover(pos: bv64)
    ensures pos == 0 <==> forall j | 0 <= j < 8 :: !MeetsColumn(pos, j)
  {
    ColumnValues();
    if forall j | 0 <= j < 8 :: !MeetsColumn(pos, j) {
      assert !MeetsColumn(pos, 0) && !MeetsColumn(pos, 1) && !MeetsColumn(pos, 2) && !MeetsColumn(pos, 3);
      assert !MeetsColumn(pos, 4) && !MeetsColumn(pos, 5) && !MeetsColumn(pos, 6) && !MeetsColumn(pos, 7);
    }
  }

  /** One step of the row scanner. */
  lemma RowStep(k: nat)
    requires k < 8
    ensures Row(k + 1) == Row(k) << 8
  {
  }

  /** One step of the column scanner. */
  lemma ColumnStep(k: nat)
    requires k < 8
    ensures Column(k + 1) == Column(k) >> 1
  {
  }

  /** The rank scan: `scanner` is the row mask for row `k`; the result is
      `9 - rank` for the loop counter `rank = k + 1` of the first row that
      meets `pos`, or 0 when rows `k` to 7 are all empty. */
  function RankScan(pos: bv64, scanner: bv64, k: nat): nat
    requires k <= 8
    decreases 8 - k
  {
    if k == 8 then 0
    else if scanner & pos != 0 then 8 - k
    else RankScan(pos, scanner << 8, k + 1)
  }

  /** The file scan: `scanner` is the column mask for column `k`; the result is
      the loop counter `file = k + 1` of the first column that meets `pos`, or 0
      when columns `k` to 7 are all empty. */
  function FileScan(pos: bv64, scanner: bv64, k: nat): nat
    requires k <= 8
    decreases 8 - k
  {
    if k == 8 then 0
    else if scanner & pos != 0 then k + 1
    else FileScan(pos, scanner >> 1, k + 1)
  }

  /** Scanning from row `k` finds the first row at or after `k` that meets `pos`. */
  lemma {:induction false} ScanRows(pos: bv64, k: nat)
    requires k <= 8
    decreases 8 - k
    ensures RankScan(pos, Row(k), k) <= 8 - k
    ensures RankScan(pos, Row(k), k) == 0 <==> forall j | k <= j < 8 :: !MeetsRow(pos, j)
    ensures RankScan(pos, Row(k), k) != 0 ==>
      MeetsRow(pos, 8 - RankScan(pos, Row(k), k)) &&
      forall j | k <= j < 8 - RankScan(pos, Row(k), k) :: !MeetsRow(pos, j)
  {
    if k < 8 {
      RowStep(k);
      ScanRows(pos, k + 1);
      if MeetsRow(pos, k) {
        assert 8 - RankScan(pos, Row(k), k) == k;
      } else {
        assert RankScan(pos, Row(k), k) == RankScan(pos, Row(k + 1), k + 1);
      }
    }
  }

  /** Scanning from column `k` finds the first column at or after `k` that meets `pos`. */
  lemma {:induction false} ScanColumns(pos: bv64, k: nat)
    requires k <= 8
    decreases 8 - k
    ensures FileScan(pos, Column(k), k) <= 8
    ensures FileScan(pos, Column(k), k) == 0 <==> forall j | k <= j < 8 :: !MeetsColumn(pos, j)
    ensures FileScan(pos, Column(k), k) != 0 ==>
      k < FileScan(pos, Column(k), k) &&
      MeetsColumn(pos, FileScan(pos, Column(k), k) - 1) &&
      forall j | k <= j < FileScan(pos, Column(k), k) - 1 :: !MeetsColumn(pos, j)
  {
    if k < 8 {
      ColumnStep(k);
      ScanColumns(pos, k + 1);
      if MeetsColumn(pos, k) {
        assert FileScan(pos, Column(k), k) - 1 == k;
      } else {
        assert FileScan(pos, Column(k), k) == FileScan(pos, Column(k + 1), k + 1);
      }
    }
  }

  /** The rank of a mask, as the row scan computes it from the first row. */
  function RankOf(pos: bv64): nat
  {
    RankScan(pos, 0xFF, 0)
  }

  /** The file of a mask, as the column scan computes it from the first column. */
  function FileOf(pos: bv64): nat
  {
    FileScan(pos, 0x8080_8080_8080_8080, 0)
  }

  /** The rank of a mask is 0 for the empty mask, otherwise 8 minus the index
      of the lowest byte that holds a set bit. */
  lemma RankOfLowestRow(pos: bv64)
    ensures RankOf(pos) <= 8
    ensures RankOf(pos) == 0 <==> pos == 0
    ensures RankOf(pos) != 0 ==> LowestRow(pos, 8 - RankOf(pos))
  {
    ScanRows(pos, 0);
    RowsCover(pos);
  }

  /** The file of a mask is 0 for the empty mask, otherwise the smallest file
      (1 for bit 7 of a byte, 8 for bit 0) among its set bits. */
  lemma FileOfLowestColumn(pos: bv64)
    ensures FileOf(pos) <= 8
    ensures FileOf(pos) == 0 <==> pos == 0
    ensures FileOf(pos) != 0 ==> LowestColumn(pos, FileOf(pos) - 1)
  {
    ScanColumns(pos, 0);
    ColumnsCover(pos);
  }

  /** A piece's rank: 0 when it is captured. */
  function PieceRank(piece: Piece): nat
  {
    if piece.isCaptured then 0 else RankOf(piece.pos)
  }

  /** A piece's file: 0 when it is captured. */
  function PieceFile(piece: Piece): nat
  {
    if piece.isCaptured then 0 else FileOf(piece.pos)
  }

  method GetRankU64(pos: bv64) returns (rank: uint8)
    ensures rank as nat == RankOf(pos)
  {
    var scanner: bv64 := 0xFF;
    for r := 1 to 9
      invariant RankScan(pos, scanner, r - 1) == RankOf(pos)
    {
      if scanner & pos != 0 {
        return (9 - r) as uint8;
      }
      scanner := scanner << 8;
    }
    return 0;
  }

  method GetFileU64(pos: bv64) returns (file: uint8)
    ensures file as nat == FileOf(pos)
  {
    var scanner: bv64 := 0x8080_8080_8080_8080;
    for f := 1 to 9
      invariant FileScan(pos, scanner, f - 1) == FileOf(pos)
    {
      if scanner & pos != 0 {
        return f as uint8;
      }
      scanner := scanner >> 1;
    }
    return 0;
  }

  method GetRank(piece: Piece) returns (rank: uint8)
    ensures rank as nat == PieceRank(piece)
  {
    if piece.isCaptured {
      return 0;
    }
    rank := GetRankU64(piece.pos);
  }

  method GetFile(piece: Piece) returns (file: uint8)
    ensures file as nat == PieceFile(piece)
  {
    if piece.isCaptured {
      return 0;
    }
    file := GetFileU64(piece.pos);
  }

  /** Bit `i` lies in row `i / 8`. */
  lemma BitInRow(i: nat, k: nat)
    requires i < 64 && k < 8
    ensures MeetsRow(Bit(i), k) <==> k == i / 8
  {
    RowValues();
  }

  /** Bit `i` lies in column `7 - i % 8`. */
  lemma BitInColumn(i: nat, k: nat)
    requires i < 64 && k < 8
    ensures MeetsColumn(Bit(i), k) <==> k == 7 - i % 8
  {
    ColumnValues();
  }

  /** The square at bit `i` has rank `8 - i / 8` and file `8 - i % 8`, both in 1..8. */
  lemma SquareCoordinates(i: nat)
    requires i < 64
    ensures RankOf(Bit(i)) == 8 - i / 8
    ensures FileOf(Bit(i)) == 8 - i % 8
    ensures 1 <= RankOf(Bit(i)) <= 8 && 1 <= FileOf(Bit(i)) <= 8
  {
    var r, f := RankOf(Bit(i)), FileOf(Bit(i));
    RankOfLowestRow(Bit(i));
    FileOfLowestColumn(Bit(i));
    assert Bit(i) != 0;
    BitInRow(i, 8 - r);
    BitInColumn(i, f - 1);
  }

  /** The square index with the given rank and file: the inverse of the scanners
      on single-bit masks. */
  function SquareIndex(rank: nat, file: nat): nat
    requires 1 <= rank <= 8 && 1 <= file <= 8
  {
    8 * (8 - rank) + (8 - file)
  }

  /** Rank and file of a single-bit mask give back its bit index. */
  lemma CoordinatesRoundTrip(i: nat)
    requires i < 64
    ensures 1 <= RankOf(Bit(i)) <= 8 && 1 <= FileOf(Bit(i)) <= 8
    ensures SquareIndex(RankOf(Bit(i)), FileOf(Bit(i))) == i
  {
    SquareCoordinates(i);
  }

  /** Two different squares never share both rank and file. */
  lemma CoordinatesInjective(i: nat, j: nat)
    requires i < 64 && j < 64 && i != j
    ensures RankOf(Bit(i)) != RankOf(Bit(j)) || FileOf(Bit(i)) != FileOf(Bit(j))
  {
    CoordinatesRoundTrip(i);
    CoordinatesRoundTrip(j);
  }

  /** The empty mask has rank 0 and file 0; so has a captured piece, whatever
      its mask. */
  lemma NoSquare(piece: Piece)
    ensures RankOf(0) == 0 && FileOf(0) == 0
    ensures piece.isCaptured ==> PieceRank(piece) == 0 && PieceFile(piece) == 0
  {
  }

  /** The concrete vectors of the source's tests: bit 12 is rank 7, file 4;
      bit 32 is rank 4, file 8; bit 39 is rank 4, file 1; the empty mask is rank 0. */
  lemma ScannerVectors()
    ensures RankOf(0x1000) == 7 && FileOf(0x1000) == 4
    ensures RankOf(0x1_0000_0000) == 4 && FileOf(0x1_0000_0000) == 8
    ensures RankOf(0x80_0000_0000) == 4 && FileOf(0x80_0000_0000) == 1
    ensures RankOf(0) == 0
  {
    SquareCoordinates(12);
    SquareCoordinates(32);
    SquareCoordinates(39);
  }
}
