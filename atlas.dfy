// The texture atlases the sprite and tileset loaders build: every pixel block of the right
// size is uploaded into its own cell, a strip of frames for sprites and a grid of tiles for
// tilesets; a block of the wrong size is skipped and leaves its cell empty.

module TextureAtlas {
  import opened Geometry
  import opened TextAssets

  /** `size_t` arithmetic wraps modulo 2^64. */
  const SIZE_T_RANGE: int := 0x1_0000_0000_0000_0000

  /** An `int` converted to `size_t`. */
  function SizeT(n: int): (r: nat)
    ensures r < SIZE_T_RANGE && (0 <= n < SIZE_T_RANGE ==> r == n)
  {
    n % SIZE_T_RANGE
  }

  /** `(size_t)w * h`: the pixel count a block must have to be uploaded. */
  function CellSize(w: int, h: int): nat
  {
    SizeT(w * h)
  }

  /** A strip of cells left to right (sprite frames) or a grid `columns` wide (tiles). */
  datatype Layout = Strip | Grid(columns: int)

  /** A grid needs a column count that is not zero as a `size_t`. */
  predicate Placeable(layout: Layout)
  {
    layout.Grid? ==> SizeT(layout.columns) > 0
  }

  /**
   * Where block `i` of `w` by `h` pixels goes: `i * w` along the strip, or column
   * `i % columns` and row `i / columns` of the grid, with `i` a `size_t`.
   */
  function Place(layout: Layout, i: nat, w: int, h: int): (r: Rect)
    requires Placeable(layout)
    ensures r.w == w && r.h == h
  {
    match layout
      case Strip => Rect(i * w, 0, w, h)
      case Grid(columns) => Rect((i % SizeT(columns)) * w, (i / SizeT(columns)) * h, w, h)
  }

  /** One `SDL_UpdateTexture` call: the block's index, the destination rectangle and the pixels. */
  datatype Upload = Upload(index: nat, dest: Rect, pixels: seq<Color>)

  /** An atlas texture: its size and the uploads into it, in order. */
  datatype Atlas = Atlas(width: int, height: int, uploads: seq<Upload>)

  /** The uploads of the blocks, in order: each block of `CellSize(w, h)` pixels goes to its place. */
  function Uploads(blocks: seq<seq<Color>>, w: int, h: int, layout: Layout): seq<Upload>
    requires Placeable(layout)
    decreases |blocks|
  {
    if blocks == [] then []
    else
      var i := |blocks| - 1;
      Uploads(blocks[..i], w, h, layout) +
        (if |blocks[i]| == CellSize(w, h) then [Upload(i, Place(layout, i, w, h), blocks[i])] else [])
  }

  /**
   * Exactly the blocks of the right size are uploaded, each once, in order, at the place of
   * its own index: a block of the wrong size leaves its cell empty and moves no other block.
   */
  lemma {:induction false} UploadsAre(blocks: seq<seq<Color>>, w: int, h: int, layout: Layout)
    requires Placeable(layout)
    ensures forall u :: u in Uploads(blocks, w, h, layout) <==>
      (u.index < |blocks| && |blocks[u.index]| == CellSize(w, h) &&
       u == Upload(u.index, Place(layout, u.index, w, h), blocks[u.index]))
    ensures forall k, k' :: 0 <= k < k' < |Uploads(blocks, w, h, layout)| ==>
      Uploads(blocks, w, h, layout)[k].index < Uploads(blocks, w, h, layout)[k'].index
    ensures forall k :: 0 <= k < |Uploads(blocks, w, h, layout)| ==> Uploads(blocks, w, h, layout)[k].index < |blocks|
    decreases |blocks|
  {
    if blocks != [] {
      var i := |blocks| - 1;
      var front := blocks[..i];
      UploadsAre(front, w, h, layout);
      forall u: Upload | u.index < i
        ensures blocks[u.index] == front[u.index]
      {
      }
    }
  }

  /** The upload loop of both loaders. */
  method UploadBlocks(blocks: seq<seq<Color>>, w: int, h: int, layout: Layout) returns (uploads: seq<Upload>)
    requires Placeable(layout)
    ensures uploads == Uploads(blocks, w, h, layout)
  {
    uploads := [];
    var i := 0;
    while i < |blocks|
      invariant 0 <= i <= |blocks| && uploads == Uploads(blocks[..i], w, h, layout)
    {
      assert blocks[..i + 1][..i] == blocks[..i];
      if |blocks[i]| == CellSize(w, h) {
        uploads := uploads + [Upload(i, Place(layout, i, w, h), blocks[i])];
      }
      i := i + 1;
    }
    assert blocks[..i] == blocks;
  }

  /** `r` lies within a texture of `width` by `height` pixels. */
  predicate Inside(r: Rect, width: int, height: int)
  {
    0 <= r.x && r.x + r.w <= width && 0 <= r.y && r.y + r.h <= height
  }

  /** With positive cell sizes, cell `i` of a strip of `n` cells lies in the `w * n` by `h` atlas, apart from every other cell. */
  lemma StripCells(n: nat, w: int, h: int, i: nat, j: nat)
    requires w > 0 && h > 0 && i < n && j < n
    ensures Inside(Place(Strip, i, w, h), w * n, h)
    ensures i != j ==> !HasIntersection(Place(Strip, i, w, h), Place(Strip, j, w, h))
  {
    MulStep(i, n, w);
    assert w * n == n * w;
    if i < j {
      MulStep(i, j, w);
    } else if j < i {
      MulStep(j, i, w);
    }
  }

  /** `std::ceil((float)n / columns)`, read exactly. */
  function CeilDiv(n: nat, columns: int): int
    requires columns != 0
  {
    if columns > 0 then (n + columns - 1) / columns else -(n / -columns)
  }

  /** Of `n` tiles in a grid `c` wide, tile `i` is in a row below `CeilDiv(n, c)`. */
  lemma RowInGrid(n: nat, c: nat, i: nat)
    requires c > 0 && i < n
    ensures RowOf(i, c) < CeilDiv(n, c)
  {
    var rows := CeilDiv(n, c);
    var q := RowOf(n + c - 1, c);
    assert rows == q;
    if RowOf(i, c) >= q {
      MulLe(q, RowOf(i, c), c);
      assert false;
    }
  }

  /**
   * With positive sizes and columns, tile `i` of `n` lies in the `columns * w` by
   * `CeilDiv(n, columns) * h` atlas, apart from every other tile.
   */
  lemma GridCells(n: nat, c: nat, w: int, h: int, i: nat, j: nat)
    requires c > 0 && w > 0 && h > 0 && i < n && j < n && c < SIZE_T_RANGE
    ensures Inside(Place(Grid(c), i, w, h), c * w, CeilDiv(n, c) * h)
    ensures i != j ==> !HasIntersection(Place(Grid(c), i, w, h), Place(Grid(c), j, w, h))
  {
    var ri, ci := RowOf(i, c), ColumnOf(i, c);
    var rj, cj := RowOf(j, c), ColumnOf(j, c);
    RowInGrid(n, c, i);
    assert Place(Grid(c), i, w, h) == Rect(ci * w, ri * h, w, h);
    assert Place(Grid(c), j, w, h) == Rect(cj * w, rj * h, w, h);
    MulStep(ci, c, w);
    MulStep(ri, CeilDiv(n, c), h);
    if ri < rj {
      MulStep(ri, rj, h);
    } else if rj < ri {
      MulStep(rj, ri, h);
    } else if ci < cj {
      MulStep(ci, cj, w);
    } else if cj < ci {
      MulStep(cj, ci, w);
    }
  }
}
