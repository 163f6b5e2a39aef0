/** The editor state `main_grid_refs` / `overlay_grid_refs` and the two
    operations that change it, `load_bin_file` and `loadgametype_1`. */
module Editor {
  import opened Basics
  import opened Search
  import opened Signatures
  import opened TileNames
  import opened Grid

  /** Reference definition of `loadgametype_1` on the two grids: nothing
      changes for a short block; otherwise the bottom grid is drawn from the
      first 88 bytes and the overlay grid from the next 88. */
  function GameType1(main: GridRefs, overlay: GridRefs, block: seq<Byte>, available: set<string>)
    : (grids: (GridRefs, GridRefs))
    requires IsGrid(main) && IsGrid(overlay)
    ensures IsGrid(grids.0) && IsGrid(grids.1)
    ensures |block| < BlockSize ==> grids == (main, overlay)
    ensures |block| >= BlockSize ==>
              grids == (DrawLayer(main, Bottom, block[..LayerSize], available),
                        DrawLayer(overlay, Overlay, block[LayerSize..BlockSize], available))
  {
    match SplitBlock(block)
    case None => (main, overlay)
    case Some((bottomBytes, overlayBytes)) =>
      (DrawLayer(main, Bottom, bottomBytes, available), DrawLayer(overlay, Overlay, overlayBytes, available))
  }

  /** Reference definition of `load_bin_file` once the file's bytes are
      read: the grids are left as they were, or are the decoding of the
      selected block. */
  function LoadCard(data: seq<Byte>, main: GridRefs, overlay: GridRefs, available: set<string>)
    : (grids: (GridRefs, GridRefs))
    requires IsGrid(main) && IsGrid(overlay)
    ensures IsGrid(grids.0) && IsGrid(grids.1)
  {
    match SelectBlock(data, Occurrences(data))
    case None => (main, overlay)
    case Some(block) => GameType1(main, overlay, block, available)
  }

  /** Decoding a full block draws byte `i` of the block on the bottom grid
      and byte `88 + i` on the overlay grid, at the cell with index `i`,
      wherever those images are available. */
  lemma GameType1ReadsBack(main: GridRefs, overlay: GridRefs, block: seq<Byte>, available: set<string>, i: int)
    requires IsGrid(main) && IsGrid(overlay) && |block| >= BlockSize && 0 <= i < LayerSize
    ensures var decoded := GameType1(main, overlay, block, available);
            && (TileName(Bottom, block[i]) in available ==>
                  ReadBack(decoded.0, Bottom)[i] == Some(block[i]))
            && (TileName(Overlay, block[LayerSize + i]) in available ==>
                  ReadBack(decoded.1, Overlay)[i] == Some(block[LayerSize + i]))
  {
    var (bottomBytes, overlayBytes) := SplitBlock(block).value;
    assert bottomBytes[i] == block[..BlockSize][i];
    assert overlayBytes[i] == block[..BlockSize][LayerSize + i];
    DrawLayerReadBack(main, Bottom, bottomBytes, available, i);
    DrawLayerReadBack(overlay, Overlay, overlayBytes, available, i);
  }

  /** Loading a card changes the grids only when SEQ1 occurs and at least
      197 bytes follow its lowest occurrence. */
  lemma LoadCardUnchanged(data: seq<Byte>, main: GridRefs, overlay: GridRefs, available: set<string>)
    requires IsGrid(main) && IsGrid(overlay)
    ensures var pos := Find(data, Signature(SEQ1), 0);
            pos == -1 || |data| < pos + BlockEnd ==> LoadCard(data, main, overlay, available) == (main, overlay)
  {
    SelectedBlock(data);
  }

  /** With SEQ1 present, loading the card is decoding the slice
      `data[pos + 21 : pos + 197]` at its lowest position `pos`. */
  lemma LoadCardDecodesSlice(data: seq<Byte>, main: GridRefs, overlay: GridRefs, available: set<string>)
    requires IsGrid(main) && IsGrid(overlay)
    requires Find(data, Signature(SEQ1), 0) != -1
    ensures var pos := Find(data, Signature(SEQ1), 0);
            LoadCard(data, main, overlay, available) ==
              GameType1(main, overlay, Slice(data, pos + BlockStart, pos + BlockEnd), available)
  {
    SelectedBlock(data);
  }

  /** Decoding the slice that starts 21 bytes after `pos`, when 197 bytes
      follow `pos`, draws byte `pos + 21 + i` on the bottom grid and byte
      `pos + 109 + i` on the overlay grid, at the cell with index `i`,
      wherever those images are available. */
  lemma BlockAtReadsBack(data: seq<Byte>, pos: int, main: GridRefs, overlay: GridRefs, available: set<string>, i: int)
    requires IsGrid(main) && IsGrid(overlay) && 0 <= i < LayerSize
    requires 0 <= pos && pos + BlockEnd <= |data|
    ensures var decoded := GameType1(main, overlay, Slice(data, pos + BlockStart, pos + BlockEnd), available);
            && (TileName(Bottom, data[pos + BlockStart + i]) in available ==>
                  ReadBack(decoded.0, Bottom)[i] == Some(data[pos + BlockStart + i]))
            && (TileName(Overlay, data[pos + BlockStart + LayerSize + i]) in available ==>
                  ReadBack(decoded.1, Overlay)[i] == Some(data[pos + BlockStart + LayerSize + i]))
  {
    var block := Slice(data, pos + BlockStart, pos + BlockEnd);
    assert block[i] == data[pos + BlockStart + i];
    assert block[LayerSize + i] == data[pos + BlockStart + LayerSize + i];
    GameType1ReadsBack(main, overlay, block, available, i);
  }

  /** The module-level state of the editor that decoding changes. */
  class CardEditor {
    var mainGridRefs: GridRefs
    var overlayGridRefs: GridRefs

    ghost predicate Valid()
      reads this
    {
      IsGrid(mainGridRefs) && IsGrid(overlayGridRefs)
    }

    /** Both grids start with no image in any cell. */
    constructor ()
      ensures Valid()
      ensures mainGridRefs == EmptyGrid() && overlayGridRefs == EmptyGrid()
    {
      mainGridRefs := EmptyGrid();
      overlayGridRefs := EmptyGrid();
    }

    /** `loadgametype_1(block)`: a block shorter than 176 bytes is rejected
        and nothing changes; otherwise the first 88 bytes are drawn on the
        bottom grid and the next 88 on the overlay grid. `available` is the
        set of image files present in the tiles folder. */
    method LoadGameType1(block: seq<Byte>, available: set<string>)
      requires Valid()
      modifies this
      ensures Valid()
      ensures (mainGridRefs, overlayGridRefs) ==
              GameType1(old(mainGridRefs), old(overlayGridRefs), block, available)
    {
      if |block| < Rows * Cols * 2 {
        return;
      }
      var bottomBytes := block[0..Rows * Cols];
      var overlayBytes := block[Rows * Cols..Rows * Cols * 2];
      mainGridRefs := DrawLayerCells(mainGridRefs, Bottom, bottomBytes, available);
      overlayGridRefs := DrawLayerCells(overlayGridRefs, Overlay, overlayBytes, available);
    }

    /** `load_bin_file` once the file's bytes `data` are read: scan for the
        signatures, and when the first entry found is a SEQ1 hit at `pos`,
        decode the bytes from 21 up to 197 past `pos`. */
    method LoadBinFile(data: seq<Byte>, available: set<string>)
      requires Valid()
      modifies this
      ensures Valid()
      ensures (mainGridRefs, overlayGridRefs) ==
              LoadCard(data, old(mainGridRefs), old(overlayGridRefs), available)
    {
      var occurrences := ScanSignatures(data);
      if |occurrences| > 0 {
        var first := occurrences[0];
        if first.name == SEQ1 {
          LoadGameType1(Slice(data, first.idx + BlockStart, first.idx + BlockEnd), available);
        }
      }
    }
  }
}
