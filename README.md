# skye-chess bitboard helpers, modelled in Dafny

This project models the bottom layer of the skye-chess engine (`src/lib.rs`).
A board is a fixed array of 32 pieces. Each piece carries a 64-bit square
mask `pos`, its colour, its kind and a captured flag. Bit 0 of a mask is
rank 8, file 8, and bit 63 is rank 1, file 1. The helpers modelled here are:

- the occupancy maps `get_piece_map` and `get_all_piece_map`;
- the colour flip `get_op_col`;
- the scanners `get_rank`, `get_file`, `get_rank_u64` and `get_file_u64`,
  which find the rank and file of a mask;
- the piece hash `hash_piece` with its two code tables `get_colour_hash`
  and `get_piece_hash`;
- the pawn move generator `pawn_get_moves`, which is still a stub.

Modules, one per file:

- `ChessTypes` (`types.dfy`): the piece and board types, and the colour flip.
- `BitMasks` (`masks.dfy`): mask containment (`Within`), single bits and small
  facts about `|`.
- `Coordinates` (`coordinates.dfy`): the scanners. Each is a method with the
  source's loop, proved against a recursive function (`RankOf`, `FileOf`)
  that mirrors the scan.
- `Occupancy` (`occupancy.dfy`): the occupancy-map loops. Each is proved
  against a fold (`ColourMap`, `AllMap`), which is then shown to be the exact
  union of the contributing pieces' masks.
- `PieceHash` (`hash.dfy`): the hash, step by step in `u8`/`u16` arithmetic,
  proved against an unbounded formula. The formula is shown to decode back to
  its fields.
- `PawnMoves` (`pawn.dfy`): the pawn stub.

The engine's design also describes pawn pushes, captures and the other
piece generators. The code has no such logic: `pawn_get_moves` returns an
empty mask. The model follows the code.

The source's test at `src/lib.rs:163` expects hash 0 for its test piece, a
Black Queen at rank 7, file 4. The code yields ((7 + 8·4)·2 + 0)·8 + 1 = 625,
as `PieceHash.HashVectors` shows. The model follows the code.

## Model

| member | source | states |
|---|---|---|
| ChessTypes.GetOpCol | src/lib.rs:48-53 | the opponent's colour differs from the given colour |
| ChessTypes.OpColInvolution | src/lib.rs:48-53 | flipping the colour twice gives the colour back |
| Coordinates.GetRankU64 | src/lib.rs:124-134 | the row-scanner loop (scanner `0xFF << 8k`, returns `9 - rank` at the first row that meets the mask, 0 if none) returns `RankOf(pos)` |
| Coordinates.GetFileU64 | src/lib.rs:136-145 | the column-scanner loop (scanner `0x8080808080808080 >> k`, returns `file` at the first column that meets the mask, 0 if none) returns `FileOf(pos)` |
| Coordinates.GetRank | src/lib.rs:65-77 | a captured piece has rank 0 whatever its mask; otherwise the rank is that of its mask |
| Coordinates.GetFile | src/lib.rs:78-90 | a captured piece has file 0 whatever its mask; otherwise the file is that of its mask |
| Coordinates.ScanRows | src/lib.rs:126-133 | the row scan from row k returns 0 exactly when rows k..7 miss the mask; otherwise it returns 8 minus the first row at or after k that meets the mask |
| Coordinates.ScanColumns | src/lib.rs:137-144 | the column scan from column k returns 0 exactly when columns k..7 miss the mask; otherwise it returns one more than the first column at or after k that meets the mask |
| Coordinates.RankOfLowestRow | src/lib.rs:124-134 | the rank is at most 8; it is 0 exactly for the empty mask; otherwise it is 8 minus the lowest byte holding a set bit |
| Coordinates.FileOfLowestColumn | src/lib.rs:136-145 | the file is at most 8; it is 0 exactly for the empty mask; otherwise it is one more than the first column, from the top bit of each byte down, holding a set bit |
| Coordinates.BitInRow | src/lib.rs:126-131 | bit i meets row scanner k exactly when k = i / 8 |
| Coordinates.BitInColumn | src/lib.rs:137-142 | bit i meets column scanner k exactly when k = 7 - i % 8 |
| Coordinates.SquareCoordinates | src/lib.rs:124-145 | a single-bit mask at bit i has rank 8 - i/8 and file 8 - i%8, both in 1..8 |
| Coordinates.CoordinatesRoundTrip | src/lib.rs:124-145 | rank and file of a single-bit mask give back its bit index |
| Coordinates.CoordinatesInjective | src/lib.rs:124-145 | two distinct single-bit masks differ in rank or in file |
| Coordinates.NoSquare | src/lib.rs:65-68 | the empty mask has rank 0 and file 0, and so has a captured piece |
| Coordinates.ScannerVectors | src/lib.rs:151-181 | bit 12 is rank 7, file 4; bit 32 is rank 4, file 8; bit 39 is rank 4, file 1; the empty mask is rank 0 |
| Occupancy.GetPieceMap | src/lib.rs:32-39 | the loop over the 32 pieces that skips other colours and captured pieces returns `ColourMap(col, pieces)` |
| Occupancy.GetAllPieceMap | src/lib.rs:40-47 | the loop over the 32 pieces that skips captured pieces returns `AllMap(pieces)` |
| Occupancy.ColourMapCovers | src/lib.rs:32-39 | every piece of the colour that is not captured has all its bits in the colour's map |
| Occupancy.ColourMapLeast | src/lib.rs:32-39 | the colour's map sets no bit outside any mask that holds every contributing piece |
| Occupancy.ColourMapSquares | src/lib.rs:32-39 | square i is set in the colour's map exactly when some piece of that colour that is not captured has bit i |
| Occupancy.ColourMapIgnoresSilent | src/lib.rs:34-35 | replacing a captured or opposite-colour piece by another such piece leaves the colour's map unchanged |
| Occupancy.ColourMapsUnion | src/lib.rs:32-47 | the White map OR the Black map is the map of both colours |
| Occupancy.ColourMapWithinAll | src/lib.rs:32-47 | each colour's map is contained in the map of both colours |
| Occupancy.AllMapCovers | src/lib.rs:40-47 | every piece that is not captured has all its bits in the map of both colours |
| Occupancy.AllMapLeast | src/lib.rs:40-47 | the map of both colours sets no bit outside any mask that holds every piece that is not captured |
| Occupancy.AllMapSquares | src/lib.rs:40-47 | square i is set in the map of both colours exactly when some piece that is not captured has bit i |
| PieceHash.GetColourHash | src/lib.rs:92-97 | the colour code is 0 or 1, and it is 1 exactly for White |
| PieceHash.GetPieceHash | src/lib.rs:99-109 | the kind code lies in 0..5 |
| PieceHash.KindOfCode | src/lib.rs:99-109 | codes 0..5, and no others, decode to a kind whose code is the given one |
| PieceHash.ColourOfCode | src/lib.rs:92-97 | codes 0 and 1, and no others, decode to a colour whose code is the given one |
| PieceHash.KindCodeInjective | src/lib.rs:99-109 | two kinds with the same code are the same kind, so the six codes are distinct |
| PieceHash.HashPiece | src/lib.rs:111-122 | the `u8`/`u16` steps, with checked additions and truncating shifts, never overflow and give `((rank + 8*file)*2 + colour)*8 + kind` |
| PieceHash.HashBound | src/lib.rs:111-122 | the hash is at most 1165, so it fits a `u16` |
| PieceHash.HashRoundTrip | src/lib.rs:111-122 | unpacking a piece's hash gives back its rank, file, colour code and kind code |
| PieceHash.HashInjective | src/lib.rs:111-122 | two pieces that are not captured, each on a single square, hash alike only when they share square, colour and kind |
| PieceHash.HashVectors | src/lib.rs:151-163 | the test piece (Black Queen, bit 12) hashes to 625, which unpacks to rank 7, file 4, colour 0, kind 1 |
| PawnMoves.PawnGetMoves | src/lib.rs:54-64 | the pawn generator returns the empty mask for every piece and board |

## Left out

- The masks that `pawn_get_moves` computes for White pawns (`src/lib.rs:58-60`) are left out. They are never read and never reach the result.
- The hash assertion of the test at `src/lib.rs:163` (expects 0) is not modelled; the code gives 625 (see above).
- `prev_pos` and `has_moved` are carried in `Piece`, but none of the modelled helpers reads them.
- The board is passed by value and never mutated. It is modelled as a value (a sequence of length 32), so there is no aliasing to model.
- Coordinates.GetRank and Coordinates.GetFile delegate to the mask scanners instead of repeating their loops. The source repeats the same loop in `get_rank`/`get_rank_u64` and in `get_file`/`get_file_u64`.
- The `u8` and `u16` additions in `hash_piece` are modelled as checked. Rust panics on overflow in debug builds and wraps in release builds; the model proves that neither happens.
- Rust `derive` attributes, the test harness and the rest of the engine (other move generators, attack maps, castling, en passant, promotion, move application) are not part of this model.
