# Pikmin card data decoder — Dafny model

This project models the card-data import of the Pikmin e-Reader level
editor (`main.py`). Importing a card goes through four steps:

- The editor scans the card file for the three 14-byte signatures
  `PIKMINPUZZLE01`, `PIKMINPUZZLE02` and `PIKMINPUZZLE03` (SEQ1, SEQ2, SEQ3).
  It takes them in dictionary order and uses repeated `bytes.find`, restarting
  one byte after every hit, so overlapping hits are recorded too.
- It keeps only the first entry found. When that entry is a SEQ1 hit at
  `pos`, it takes the block `data[pos+21:pos+197]`.
- `loadgametype_1` rejects a block shorter than 176 bytes. Otherwise it
  splits the block into 88 bottom-layer bytes and 88 overlay bytes and draws
  an 8 x 11 grid of tiles for each layer. Cell (r, c) takes byte
  `r*11 + c`. Its image is `%02X.png` on the bottom layer and `pik%02X.png`
  on the overlay. The image goes at canvas position `(c*48, r*48)`, or
  `(c*48, r*48 - 14)` for the overlay.
- Separately, `game_control` clamps the camera width to [1, 11] and the
  height to [1, 9].

Modules:

- `Basics`: bytes, `Option`, and Python's clamping slice `s[lo:hi]`.
- `Search`: `bytes.find`, plus a brute-force list of all match positions
  that serves as its reference definition.
- `Signatures`: the signature constants, the scan loop (`ScanSignatures` /
  `RecordHits`), the specification of the list it builds (`Occurrences`),
  and the block choice (`SelectBlock`).
- `TileNames`: the hexadecimal image names and their inverse parser.
- `Grid`: cell indexing, canvas positions, the block split, and the drawing
  loop of one layer.
- `Editor`: the class `CardEditor`, which holds the two grids of canvas
  references the source keeps as module-level lists. Its methods
  `LoadGameType1` and `LoadBinFile` update them in place.
- `Controls`: the clamp of `game_control`.

A grid cell records what the canvas item shows: a `Placement` with the
image name and its top-left corner. Whether `get_image` finds an image is
the parameter `available`, the set of file names present in the tiles
folder.

## Model

| member | source | states |
|---|---|---|
| Basics.Slice | main.py:92 | Python's slice: its length is `max(0, min(hi, len) - lo)`, and element `k` is `s[lo + k]` |
| Search.Find | main.py:82 | `data.find(sig, start)`: -1 when there is no match at or after `start`, otherwise a match position at or after `start` with no match between `start` and it |
| Search.MatchPositionsCharacterized | main.py:79-86 | the reference list of match positions holds exactly the positions where the signature occurs, in strictly increasing order |
| Search.FindIsFirstMatch | main.py:82-84 | `find` from 0 returns -1 exactly when there is no match, and otherwise the lowest match position |
| Signatures.Signature | main.py:26-30 | each signature is 14 bytes: the ASCII of `PIKMINPUZZLE0` followed by the ASCII digit `1`, `2` or `3` of its number |
| Signatures.SignatureSpellsText | main.py:26-30 | each signature constant is the 14 ASCII bytes of `PIKMINPUZZLE0k` |
| Signatures.AtMostOneSignatureAt | main.py:26-30 | no two different signatures occur at the same position |
| Signatures.RecordHits | main.py:80-86 | the `while True` / `find` / `start = idx + 1` loop appends to the list exactly the occurrences of one signature, in order |
| Signatures.ScanSignatures | main.py:79-86 | the scan over the three signatures returns exactly the specified occurrence list |
| Signatures.HitsCharacterized | main.py:80-86 | an entry is recorded for a signature exactly when that signature occurs at its position; positions strictly increase |
| Signatures.OccurrenceRecorded | main.py:79-86 | an entry is in the list exactly when its bytes are the signature of its name and occur in the data at its position |
| Signatures.OccurrencesOrdered | main.py:79-86 | the list is grouped SEQ1, SEQ2, SEQ3, with strictly increasing positions within a group, so it has no duplicates |
| Signatures.FirstHit | main.py:82-85 | a signature has a first hit exactly when it occurs, and that hit is at the position `find` returns from 0 |
| Signatures.SelectBlock | main.py:89-92 | a block is chosen exactly when the first entry is a SEQ1 hit; the block holds at most 176 bytes |
| Signatures.SelectedBlock | main.py:79-92 | a block is decoded exactly when SEQ1 occurs anywhere, even after SEQ2/SEQ3 hits; the block is `data[pos+21:pos+197]` at the lowest SEQ1 position |
| TileNames.Hex2 | main.py:112 | `{:02X}` writes a byte as exactly two hexadecimal digits, high digit first, whose values give back the byte |
| TileNames.TileName | main.py:112-127 | the bottom-layer name has 6 characters and the overlay name 9 |
| TileNames.TileNameShape | main.py:112-127 | a name is the byte's two hexadecimal digits followed by `.png`, with the prefix `pik` on the overlay |
| TileNames.HexValue | main.py:112 | the inverse of the `{:X}` digit formatting used at this line: a parsed digit has a value below 16 and is the digit printed for that value |
| TileNames.ParseHexName | main.py:112 | the inverse of the `{:02X}.png` formatting at this line: any byte parsed from a bottom-layer name is the byte whose name it is |
| TileNames.ParseTileName | main.py:112-127 | any byte parsed from a name is the byte whose image name on that layer it is |
| TileNames.TileNameRoundTrip | main.py:112-127 | the byte is recovered from the image name drawn for it, on both layers |
| TileNames.TileNameExact | main.py:112-127 | the parser yields `b` exactly for the name drawn for `b` |
| TileNames.TileNamesInjective | main.py:112-127 | different bytes, or one byte on different layers, never share an image name |
| Grid.CellIndex | main.py:109-111 | the row-major index `r*cols + c` of a cell lies in [0, 88) |
| Grid.CellIndexInverse | main.py:109-111 | the cell is recovered from its index |
| Grid.CellIndexOnto | main.py:109-111 | every index in [0, 88) is the index of one cell |
| Grid.SplitBlock | main.py:100-106 | nothing is split from a block shorter than 176 bytes; otherwise the two 88-byte layers make up the first 176 bytes |
| Grid.SplitBlockRoundTrip | main.py:105-106 | splitting two joined layers returns them, whatever bytes follow |
| Grid.RowTop | main.py:117-133 | the top edge of row `r` is `r*48` on the bottom layer and 14 pixels higher on the overlay |
| Grid.CellPlacement | main.py:117-133 | the image for cell (r, c) is placed at `x = c*48` and at the top edge of row `r` on its layer |
| Grid.CellPlacementReadsBack | main.py:111-127 | the image name placed on a cell reads back as the cell's byte, on both layers |
| Grid.CellPlacementGeometry | main.py:117-133 | cells of a layer get distinct positions; the overlay cell is 14 px above the bottom cell; all positions stay within the 528 x 384 grid area, lifted 14 px for the overlay |
| Grid.EmptyGrid | main.py:20-21 | the initial grid is 8 x 11 with no image in any cell |
| Grid.DrawLayer | main.py:109-121 | the reference drawing of one layer is again an 8 x 11 grid |
| Grid.DrawLayerCell | main.py:109-121 | in the reference drawing, each cell whose image is available holds that image at the cell's position; every other cell keeps what it held |
| Grid.DrawRowCells | main.py:110-121 | the column loop for row `r` redraws each cell of the row from its byte and leaves cells without an available image unchanged |
| Grid.DrawLayerCells | main.py:109-121 | the nested drawing loop leaves the grid equal to the reference drawing of the layer |
| Grid.DrawLayerReadBack | main.py:109-136 | where the image of byte `i` is available, cell `i` afterwards records it at the cell's position and reads back as byte `i`; elsewhere the cell keeps its old content |
| Editor.GameType1 | main.py:94-136 | the reference decoding leaves both grids unchanged for a block under 176 bytes; otherwise it draws the bottom grid from bytes 0..88 and the overlay grid from bytes 88..176 |
| Editor.LoadCard | main.py:89-92 | the reference import yields two 8 x 11 grids; LoadCardUnchanged and LoadCardDecodesSlice say which |
| Editor.GameType1ReadsBack | main.py:94-136 | decoding a full block draws block byte `i` on bottom cell `i` and byte `88 + i` on overlay cell `i`, wherever the image exists |
| Editor.LoadCardUnchanged | main.py:89-102 | importing leaves both grids unchanged when SEQ1 is absent, or when fewer than 197 bytes follow its first occurrence |
| Editor.LoadCardDecodesSlice | main.py:89-92 | when SEQ1 occurs, importing is decoding the slice 21..197 bytes after its lowest position |
| Editor.BlockAtReadsBack | main.py:92-136 | with 197 bytes after `pos`, decoding that slice draws data byte `pos+21+i` on bottom cell `i` and `pos+109+i` on overlay cell `i` |
| Editor.CardEditor.constructor | main.py:20-21 | both grids of a new editor are empty |
| Editor.CardEditor.LoadGameType1 | main.py:94-136 | `loadgametype_1` updates the two grids to the reference decoding of the block, and changes nothing for a short block |
| Editor.CardEditor.LoadBinFile | main.py:74-92 | `load_bin_file`, once the bytes are read, updates the grids to the reference decoding of the card |
| Controls.Clamp | main.py:49-50 | `max(lo, min(v, hi))` lies in [lo, hi], is `v` inside the range and the nearer bound outside |
| Controls.ClampIdempotent | main.py:49-50 | clamping twice is clamping once |
| Controls.GameControl | main.py:43-50 | returns no result when either text is not an integer; otherwise the width lies in [1, 11] and the height in [1, 9], and values already in range are kept |
| Controls.GameControlStable | main.py:49-50 | feeding the clamped dimensions back in changes nothing |

## Left out

- The tkinter interface is not modelled. That covers tabs, frames, spinboxes, the footer images, `show_tab` and the window layout (main.py:33-38, 56-63, 157-233).
- The file dialog and the file read in `load_bin_file` are not modelled. The file's bytes are the parameter `data`, and a cancelled dialog is simply not a call.
- `get_image` is not modelled: PIL loading, resizing and the image cache. Whether an image file exists is the parameter `available`, and an image that is not found leaves the cell as it was.
- The canvas is not modelled. `img_frame.create_image` returns an item id, and `img_frame.delete` removes the previous item. A cell records the `Placement` that the item shows instead of the id, so replacing an item is replacing the cell's value. The source also draws on whichever canvas the last tab created; the model has one pair of grids.
- `print` output is not modelled. That covers the sequence name, "Not enough image bytes in the block!" and "Image not found". The `game_control` message is the exception; see the next line.
- Controls.GameControl: the source returns nothing on every path, and the clamped width and height are neither stored nor written back to the spinboxes, since the update logic is a placeholder (main.py:52). The model's `Dimensions` result stands for the X and Y values printed at main.py:53.
- The stubs `game2` and `game3` are not modelled. They only print and are never called from the decoder.
- Controls.GameControl: `int(...)` parsing of the spinbox text is not modelled. Its result arrives as an `Option<int>`, with None standing for a ValueError. The game-type string is only printed and is not modelled.
- The comment at main.py:123 says the overlay is shifted up by 9 pixels, but the code at main.py:133 shifts it by 14. The model follows the code.
- No single lemma states the whole import end to end. It is the chain of Editor.LoadCardDecodesSlice, which says which slice is decoded, and Editor.BlockAtReadsBack, which says what decoding that slice draws.
