/** The 8 x 11 grid of `loadgametype_1`: cell indexing, canvas positions,
    the split of a block into two layers, and the drawing of one layer. */
module Grid {
  import opened Basics
  import opened TileNames

  const Rows := 8
  const Cols := 11
  const CellSize := 48
  /** The overlay layer is drawn this many pixels above the bottom layer. */
  const OverlayLift := 14
  /** Bytes per layer: one per cell. */
  const LayerSize := Rows * Cols
  /** Bytes a block must hold: one layer of bytes for each of the two layers. */
  const BlockSize := 2 * LayerSize

  /** Row-major index of cell (r, c) in a layer: whole rows first, then the column. */
  function CellIndex(r: int, c: int): (i: int)
    requires 0 <= r < Rows && 0 <= c < Cols
    ensures 0 <= i < LayerSize
  {
    r * Cols + c
  }

  /** The cell a layer index belongs to. */
  function CellRow(i: int): int requires 0 <= i { i / Cols }
  function CellCol(i: int): int requires 0 <= i { i % Cols }

  /** Indexing is one-to-one: a cell is recovered from its index. */
  lemma CellIndexInverse(r: int, c: int)
    requires 0 <= r < Rows && 0 <= c < Cols
    ensures CellRow(CellIndex(r, c)) == r && CellCol(CellIndex(r, c)) == c
  {
  }

  /** Indexing is onto: every index of a layer is the index of some cell. */
  lemma CellIndexOnto(i: int)
    requires 0 <= i < LayerSize
    ensures 0 <= CellRow(i) < Rows && 0 <= CellCol(i) < Cols
    ensures CellIndex(CellRow(i), CellCol(i)) == i
  {
  }

  /** Split of a block: None when it is shorter than 176 bytes (nothing is
      drawn); otherwise the 88 bottom bytes and the 88 overlay bytes, which
      together are the first 176 bytes of the block. */
  function SplitBlock(block: seq<Byte>): (layers: Option<(seq<Byte>, seq<Byte>)>)
    ensures layers.None? <==> |block| < BlockSize
    ensures layers.Some? ==>
              && |layers.value.0| == LayerSize && |layers.value.1| == LayerSize
              && layers.value.0 + layers.value.1 == block[..BlockSize]
  {
    if |block| < BlockSize then None
    else Some((block[0..LayerSize], block[LayerSize..BlockSize]))
  }

  /** Splitting undoes joining two layers, whatever follows them. */
  lemma SplitBlockRoundTrip(bottom: seq<Byte>, overlay: seq<Byte>, rest: seq<Byte>)
    requires |bottom| == LayerSize && |overlay| == LayerSize
    ensures SplitBlock(bottom + overlay + rest) == Some((bottom, overlay))
  {
    var block := bottom + overlay + rest;
    assert block[0..LayerSize] == bottom;
    assert block[LayerSize..BlockSize] == overlay;
  }

  /** What a cell of `main_grid_refs` or `overlay_grid_refs` records: the image
      drawn there and the canvas position of its top-left corner. */
  datatype Placement = Placement(filename: string, x: int, y: int)

  /** The top edge of row `r` on `layer`: rows are 48 pixels apart, and the
      overlay is lifted 14 pixels above the bottom layer. */
  function RowTop(layer: Layer, r: int): (top: int)
    ensures layer == Bottom ==> top == r * CellSize
    ensures layer == Overlay ==> top + OverlayLift == r * CellSize
  {
    match layer
    case Bottom => r * CellSize
    case Overlay => r * CellSize - OverlayLift
  }

  /** The image and position of cell (r, c) of a layer holding `bytes`: the
      cell's top-left corner is `c` cells across and `r` rows down, and the
      image is the one named for the cell's byte. */
  function CellPlacement(layer: Layer, bytes: seq<Byte>, r: int, c: int): (p: Placement)
    requires |bytes| == LayerSize && 0 <= r < Rows && 0 <= c < Cols
    ensures p.x == c * CellSize && p.y == RowTop(layer, r)
  {
    Placement(TileName(layer, bytes[CellIndex(r, c)]), c * CellSize, RowTop(layer, r))
  }

  /** The image placed on a cell stands for the cell's byte: the byte is
      read back from the image name. */
  lemma CellPlacementReadsBack(layer: Layer, bytes: seq<Byte>, r: int, c: int)
    requires |bytes| == LayerSize && 0 <= r < Rows && 0 <= c < Cols
    ensures ParseTileName(layer, CellPlacement(layer, bytes, r, c).filename) == Some(bytes[CellIndex(r, c)])
  {
    TileNameRoundTrip(layer, bytes[CellIndex(r, c)]);
  }

  /** Cells of one layer never share a canvas position; the overlay cell sits
      14 pixels above the bottom cell in the same column; all positions lie in
      the 528 x 384 area the grid covers, lifted by 14 pixels for the overlay. */
  lemma CellPlacementGeometry(bytes: seq<Byte>, other: seq<Byte>, layer: Layer, r1: int, c1: int, r2: int, c2: int)
    requires |bytes| == LayerSize && |other| == LayerSize
    requires 0 <= r1 < Rows && 0 <= c1 < Cols && 0 <= r2 < Rows && 0 <= c2 < Cols
    ensures var p, q := CellPlacement(layer, bytes, r1, c1), CellPlacement(layer, other, r2, c2);
            (p.x, p.y) == (q.x, q.y) <==> r1 == r2 && c1 == c2
    ensures var p := CellPlacement(Bottom, bytes, r1, c1);
            var q := CellPlacement(Overlay, other, r1, c1);
            q.x == p.x && q.y == p.y - OverlayLift
    ensures var p := CellPlacement(layer, bytes, r1, c1);
            0 <= p.x && p.x + CellSize <= Cols * CellSize &&
            -OverlayLift <= p.y && p.y + CellSize <= Rows * CellSize
  {
  }

  /** The grid of canvas references the editor keeps for one layer. */
  type GridRefs = seq<seq<Option<Placement>>>

  ghost predicate IsGrid(g: GridRefs)
  {
    |g| == Rows && forall r :: 0 <= r < Rows ==> |g[r]| == Cols
  }

  /** The initial grid: every one of the 8 x 11 cells holds no image. */
  function EmptyGrid(): (g: GridRefs)
    ensures IsGrid(g)
    ensures forall r, c :: 0 <= r < Rows && 0 <= c < Cols ==> g[r][c].None?
  {
    seq(Rows, r => seq(Cols, c => None))
  }

  /** One cell after drawing: replaced by the new placement when its image is
      available, otherwise left as it was. */
  function Redrawn(prev: Option<Placement>, p: Placement, available: set<string>): Option<Placement>
  {
    if p.filename in available then Some(p) else prev
  }

  /** Reference definition of one drawing pass of `loadgametype_1` over a
      layer; DrawLayerCell states what it does to each cell. */
  function DrawLayer(g: GridRefs, layer: Layer, bytes: seq<Byte>, available: set<string>): (drawn: GridRefs)
    requires IsGrid(g) && |bytes| == LayerSize
    ensures IsGrid(drawn)
  {
    seq(Rows, r requires 0 <= r < Rows =>
      seq(Cols, c requires 0 <= c < Cols => Redrawn(g[r][c], CellPlacement(layer, bytes, r, c), available)))
  }

  /** Every cell whose image is available takes that image at the cell's
      position, and every other cell keeps what it held. */
  lemma DrawLayerCell(g: GridRefs, layer: Layer, bytes: seq<Byte>, available: set<string>, r: int, c: int)
    requires IsGrid(g) && |bytes| == LayerSize && 0 <= r < Rows && 0 <= c < Cols
    ensures DrawLayer(g, layer, bytes, available)[r][c] ==
              if TileName(layer, bytes[CellIndex(r, c)]) in available
              then Some(CellPlacement(layer, bytes, r, c)) else g[r][c]
  {
  }

  /** The row-by-row loop that draws one layer: every row is drawn by
      DrawRowCells, and the grid afterwards is the reference drawing. */
  method DrawLayerCells(g: GridRefs, layer: Layer, bytes: seq<Byte>, available: set<string>)
    returns (drawn: GridRefs)
    requires IsGrid(g) && |bytes| == LayerSize
    ensures IsGrid(drawn)
    ensures drawn == DrawLayer(g, layer, bytes, available)
  {
    ghost var target := DrawLayer(g, layer, bytes, available);
    drawn := g;
    for r := 0 to Rows
      invariant IsGrid(drawn)
      invariant forall i :: 0 <= i < r ==> drawn[i] == target[i]
      invariant forall i :: r <= i < Rows ==> drawn[i] == g[i]
    {
      var row := DrawRowCells(drawn[r], layer, bytes, available, r);
      assert row == target[r];
      drawn := drawn[r := row];
    }
  }

  /** The column loop that draws row `r` of one layer: cell (r, c) takes the
      byte at its row-major index, and when the image for that byte is
      available the cell records it at its canvas position. */
  method DrawRowCells(prev: seq<Option<Placement>>, layer: Layer, bytes: seq<Byte>, available: set<string>, r: int)
    returns (row: seq<Option<Placement>>)
    requires |prev| == Cols && |bytes| == LayerSize && 0 <= r < Rows
    ensures |row| == Cols
    ensures forall c :: 0 <= c < Cols ==> row[c] == Redrawn(prev[c], CellPlacement(layer, bytes, r, c), available)
  {
    row := prev;
    for c := 0 to Cols
      invariant |row| == Cols
      invariant forall j :: 0 <= j < c ==> row[j] == Redrawn(prev[j], CellPlacement(layer, bytes, r, j), available)
      invariant forall j :: c <= j < Cols ==> row[j] == prev[j]
    {
      var byteVal := bytes[r * Cols + c];
      var filename := TileName(layer, byteVal);
      if filename in available {
        row := row[c := Some(Placement(filename, c * CellSize, RowTop(layer, r)))];
      }
    }
  }

  /** The bytes read back from a drawn grid: for each layer index, the byte
      whose image the corresponding cell records, if any. */
  function ReadBack(g: GridRefs, layer: Layer): (bytes: seq<Option<Byte>>)
    requires IsGrid(g)
    ensures |bytes| == LayerSize
  {
    seq(LayerSize, i requires 0 <= i < LayerSize =>
      CellIndexOnto(i);
      match g[CellRow(i)][CellCol(i)]
      case None => None
      case Some(p) => ParseTileName(layer, p.filename))
  }

  /** Drawing is faithful to the layer: wherever the image for byte `i` is
      available, the grid afterwards records that image at the position of
      cell `i`, and the byte is read back from it; elsewhere the cell keeps
      what it held. */
  lemma DrawLayerReadBack(g: GridRefs, layer: Layer, bytes: seq<Byte>, available: set<string>, i: int)
    requires IsGrid(g) && |bytes| == LayerSize && 0 <= i < LayerSize
    ensures var drawn := DrawLayer(g, layer, bytes, available);
            var r, c := CellRow(i), CellCol(i);
            && 0 <= r < Rows && 0 <= c < Cols
            && (TileName(layer, bytes[i]) in available ==>
                  && drawn[r][c] == Some(Placement(TileName(layer, bytes[i]), c * CellSize, RowTop(layer, r)))
                  && ReadBack(drawn, layer)[i] == Some(bytes[i]))
            && (TileName(layer, bytes[i]) !in available ==> drawn[r][c] == g[r][c])
  {
    CellIndexOnto(i);
    TileNameRoundTrip(layer, bytes[i]);
  }
}
