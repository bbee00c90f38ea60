/**
 * Integer geometry of the plate grid and its tile texture (src/main.rs).
 *
 * A grid of `size.x` by `size.y` cells is centred on the origin: cell
 * coordinates run from `MinPos` to `MaxPos` on each axis, and a cell's
 * row-major `Index` selects its entry of `content`, the weight placed on it.
 * Cell weights are `f32` in the source; here they are reals, and the only
 * claim made about them is which cell an operation changes.
 */
module Grid {
  import opened Primitives

  /** Bevy's `IVec2`. */
  datatype IVec2 = IVec2(x: i32, y: i32)

  /** An ECS entity, known only by its identity. */
  datatype Entity = Entity(id: nat)

  /** Rust's `i32` division by 2, which truncates toward zero. */
  function HalfTowardZero(a: int): (r: int)
    ensures a >= 0 ==> 0 <= a - 2 * r <= 1
    ensures a < 0 ==> -1 <= a - 2 * r <= 0
  {
    if a >= 0 then a / 2 else -((-a) / 2)
  }

  /** Lowest coordinate on an axis of `s` cells: `-s / 2`. */
  function MinCoord(s: i32): (r: i32)
    requires s > -0x8000_0000
    ensures s >= 0 ==> r <= 0 && -(r as int) == s / 2
  {
    HalfTowardZero(-s)
  }

  /** Highest coordinate on an axis of `s` cells: `(s - 1) / 2`. */
  function MaxCoord(s: i32): (r: i32)
    requires s > -0x8000_0000
    ensures s >= 1 ==> r >= 0 && r == (s - 1) / 2
    ensures s == 0 ==> r == 0
  {
    HalfTowardZero(s - 1)
  }

  /** An axis of at least one cell spans exactly `s` coordinates, the origin among them. */
  lemma SpanIsSize(s: i32)
    requires s >= 1
    ensures MaxCoord(s) - MinCoord(s) + 1 == s
    ensures MinCoord(s) <= 0 <= MaxCoord(s)
  {
  }

  /** `SpanIsSize` for both axes of a grid that has cells. */
  lemma SpanIsSize2(size: IVec2)
    requires ValidSize(size)
    ensures HasCells(size) ==> MaxCoord(size.x) - MinCoord(size.x) + 1 == size.x
    ensures HasCells(size) ==> MaxCoord(size.y) - MinCoord(size.y) + 1 == size.y
  {
    if HasCells(size) {
      SpanIsSize(size.x);
      SpanIsSize(size.y);
    }
  }

  /** An axis of no cells still has `MinCoord(0) == MaxCoord(0) == 0`, by truncating division. */
  lemma EmptyAxisBounds()
    ensures MinCoord(0) == 0 && MaxCoord(0) == 0
  {
  }

  predicate ValidSize(size: IVec2) {
    size.x >= 0 && size.y >= 0
  }

  /** The lowest cell of the grid, never to the positive side of the origin. */
  function MinPos(size: IVec2): (r: IVec2)
    requires ValidSize(size)
    ensures r.x <= 0 && r.y <= 0
  {
    IVec2(MinCoord(size.x), MinCoord(size.y))
  }

  /** The highest cell of the grid: with `MinPos` it spans exactly `size` cells on each axis. */
  function MaxPos(size: IVec2): (r: IVec2)
    requires ValidSize(size)
    ensures r.x >= 0 && r.y >= 0
  {
    IVec2(MaxCoord(size.x), MaxCoord(size.y))
  }

  /** `pos` lies between `MinPos` and `MaxPos` on both axes. */
  predicate InBounds(size: IVec2, pos: IVec2)
    requires ValidSize(size)
  {
    MinPos(size).x <= pos.x <= MaxPos(size).x && MinPos(size).y <= pos.y <= MaxPos(size).y
  }

  /** Rust's `i32::clamp`, which panics when `lo > hi`. */
  function ClampCoord(v: i32, lo: i32, hi: i32): (r: i32)
    requires lo <= hi
    ensures lo <= r <= hi
    ensures lo <= v <= hi ==> r == v
    ensures v < lo ==> r == lo
    ensures v > hi ==> r == hi
  {
    if v < lo then lo else if v > hi then hi else v
  }

  /** The nearest position of the grid to `pos`, clamping each axis on its own. */
  function Clamp(size: IVec2, pos: IVec2): (r: IVec2)
    requires ValidSize(size)
    ensures InBounds(size, r)
    ensures InBounds(size, pos) ==> r == pos
  {
    var lo := MinPos(size);
    var hi := MaxPos(size);
    IVec2(ClampCoord(pos.x, lo.x, hi.x), ClampCoord(pos.y, lo.y, hi.y))
  }

  /** Clamping twice is clamping once. */
  lemma ClampIdempotent(size: IVec2, pos: IVec2)
    requires ValidSize(size)
    ensures Clamp(size, Clamp(size, pos)) == Clamp(size, pos)
  {
  }

  /**
   * Row-major index of a cell. Both offsets are cast to `usize`, so only
   * positions at or above `MinPos` are in the cast's exact range.
   */
  function Index(size: IVec2, pos: IVec2): (r: nat)
    requires ValidSize(size)
    requires pos.x >= MinPos(size).x && pos.y >= MinPos(size).y
    ensures size.x >= 1 && pos.x <= MaxPos(size).x ==>
              r % size.x == pos.x - MinPos(size).x && r / size.x == pos.y - MinPos(size).y
  {
    var min := MinPos(size);
    var i0: nat := pos.x - min.x;
    var j0: nat := pos.y - min.y;
    var width: nat := size.x;
    if size.x >= 1 && pos.x <= MaxCoord(size.x) then
      SpanIsSize(size.x);
      RowMajorDivMod(i0, j0, width);
      i0 + j0 * width
    else
      i0 + j0 * width
  }

  /** Division by the width recovers the row and the column of a row-major offset. */
  lemma RowMajorDivMod(i: nat, j: nat, w: nat)
    requires i < w
    ensures (i + j * w) % w == i && (i + j * w) / w == j
  {
    var a := i + j * w;
    var q := a / w;
    var m := a % w;
    assert a == m + q * w;
    assert q >= 0;
    RowMajorUnique(i, j, m, q, w);
  }

  /** The row-major offset of column `i` in row `j` stays below `w * h`. */
  lemma RowMajorBound(i: nat, j: nat, w: nat, h: nat)
    requires i < w && j < h
    ensures i + j * w < w * h
  {
    calc {
      i + j * w;
    <  w + j * w;
    == (j + 1) * w;
    <= { MulMonotone(j + 1, h, w); }
      h * w;
    }
  }

  lemma MulMonotone(a: nat, b: nat, c: nat)
    requires a <= b
    ensures a * c <= b * c
  {
  }

  /** A strictly larger factor gives a product larger by at least one more `c`. */
  lemma MulStrict(a: nat, b: nat, c: nat)
    ensures a < b ==> a * c + c <= b * c
  {
    if a < b {
      MulMonotone(a + 1, b, c);
    }
  }

  /** Two row-major offsets agree only for the same column and row. */
  lemma RowMajorUnique(i1: nat, j1: nat, i2: nat, j2: nat, w: nat)
    requires i1 < w && i2 < w
    requires i1 + j1 * w == i2 + j2 * w
    ensures i1 == i2 && j1 == j2
  {
    MulStrict(j1, j2, w);
    MulStrict(j2, j1, w);
  }

  /** A grid with cells on both axes: the cells `content` holds. */
  predicate HasCells(size: IVec2) {
    size.x >= 1 && size.y >= 1
  }

  /** Every cell of a grid with cells indexes into a content vector of `size.x * size.y` cells. */
  lemma IndexInRange(size: IVec2, pos: IVec2)
    requires HasCells(size) && InBounds(size, pos)
    ensures Index(size, pos) < size.x * size.y
  {
    SpanIsSize(size.x);
    SpanIsSize(size.y);
    RowMajorBound(pos.x - MinPos(size).x, pos.y - MinPos(size).y, size.x, size.y);
  }

  /**
   * A grid of width 0 still clamps the cursor to (0, 0), yet its content
   * is empty: index 0 is out of range there.
   */
  lemma ZeroWidthGridHasNoCells(h: i32)
    requires h >= 0
    ensures InBounds(IVec2(0, h), IVec2(0, 0))
    ensures Clamp(IVec2(0, h), IVec2(0, 0)) == IVec2(0, 0)
    ensures Index(IVec2(0, h), IVec2(0, 0)) == 0 && IVec2(0, h).x * IVec2(0, h).y == 0
  {
  }

  /** Distinct cells have distinct indices. */
  lemma IndexInjective(size: IVec2, p: IVec2, q: IVec2)
    requires HasCells(size) && InBounds(size, p) && InBounds(size, q)
    requires Index(size, p) == Index(size, q)
    ensures p == q
  {
    SpanIsSize(size.x);
    var min := MinPos(size);
    RowMajorUnique(p.x - min.x, p.y - min.y, q.x - min.x, q.y - min.y, size.x);
  }

  /** Every cell content is zero. */
  predicate AllZero(content: seq<real>) {
    forall k :: 0 <= k < |content| ==> content[k] == 0.0
  }

  class Grid {
    var size: IVec2
    /** Weight placed on each cell, in row-major order. */
    var content: seq<real>
    /** Entities spawned on the grid. */
    var entities: seq<Entity>

    /** `content` holds one entry per cell. */
    ghost predicate Valid()
      reads this
    {
      ValidSize(size) && |content| == size.x * size.y
    }

    /** A new grid is 8 by 8, with all 64 cells empty. */
    constructor ()
      ensures Valid()
      ensures size == IVec2(8, 8) && |content| == 64 && AllZero(content)
      ensures entities == []
    {
      size := IVec2(0, 0);
      content := [];
      entities := [];
      new;
      SetSize(IVec2(8, 8));
    }

    /** Resizes the grid and clears every cell. */
    method SetSize(newSize: IVec2)
      requires ValidSize(newSize)
      modifies this`size, this`content
      ensures Valid()
      ensures size == newSize
      ensures |content| == newSize.x * newSize.y && AllZero(content)
    {
      size := newSize;
      Clear();
    }

    /** Resets `content` to one zero cell per grid cell; the spawned entities stay listed. */
    method Clear()
      requires ValidSize(size)
      modifies this`content
      ensures Valid()
      ensures |content| == size.x * size.y && AllZero(content)
    {
      MulMonotone(0, size.x, size.y);
      content := [];
      content := content + seq(size.x * size.y, _ => 0.0);
    }

    /** Adds `weight` to the cell at `pos` and records the spawned entity; no other cell changes. */
    method SpawnItem(pos: IVec2, weight: real, entity: Entity)
      requires Valid() && HasCells(size) && InBounds(size, pos)
      modifies this`content, this`entities
      ensures Valid()
      ensures Index(size, pos) < |content|
      ensures |content| == |old(content)|
      ensures content[Index(size, pos)] == old(content)[Index(size, pos)] + weight
      ensures forall k :: 0 <= k < |content| && k != Index(size, pos) ==> content[k] == old(content)[k]
      ensures entities == old(entities) + [entity]
    {
      IndexInRange(size, pos);
      var index := Index(size, pos);
      content := content[index := content[index] + weight];
      entities := entities + [entity];
    }
  }

  /** Side length, in pixels, of the grid tile texture. */
  const TEX_SIZE: nat := 32

  /** A 2D texture with 4-byte RGBA pixels (`Rgba8Unorm`), stored row by row. */
  datatype Texture = Texture(width: nat, height: nat, depth: nat, data: seq<byte>)

  predicate IsBorder(i: nat, j: nat) {
    i == 0 || i == TEX_SIZE - 1 || j == 0 || j == TEX_SIZE - 1
  }

  /** Light grey on the one-pixel border, mid grey inside, both opaque. */
  function PixelColour(i: nat, j: nat): (r: seq<byte>)
    ensures |r| == 4
  {
    if IsBorder(i, j) then [192, 192, 192, 255] else [128, 128, 128, 255]
  }

  /** The byte at offset `p` of the texture buffer: channel `p % 4` of pixel `p / 4`. */
  function TexelByte(p: nat): byte {
    var pixel := p / 4;
    PixelColour(pixel % TEX_SIZE, pixel / TEX_SIZE)[p % 4]
  }

  /** Channel `c` of pixel (i, j) is found at offset `(j * 32 + i) * 4 + c`. */
  lemma TexelByteAt(i: nat, j: nat, c: nat)
    requires i < TEX_SIZE && j < TEX_SIZE && c < 4
    ensures TexelByte((j * TEX_SIZE + i) * 4 + c) == PixelColour(i, j)[c]
  {
    var p := (j * TEX_SIZE + i) * 4 + c;
    assert p / 4 == j * TEX_SIZE + i;
    assert p % 4 == c;
    assert (j * TEX_SIZE + i) % TEX_SIZE == i;
    assert (j * TEX_SIZE + i) / TEX_SIZE == j;
  }

  /** The four bytes of pixel (i, j) of a full texture buffer. */
  function Pixel(data: seq<byte>, i: nat, j: nat): seq<byte>
    requires |data| == TEX_SIZE * TEX_SIZE * 4 && i < TEX_SIZE && j < TEX_SIZE
  {
    data[(j * TEX_SIZE + i) * 4..(j * TEX_SIZE + i) * 4 + 4]
  }

  /** Every byte of `data` sits where the texture layout puts it. */
  ghost predicate LaidOut(data: seq<byte>) {
    forall p :: 0 <= p < |data| ==> data[p] == TexelByte(p)
  }

  /** Appending the colour of the next pixel in row-major order keeps the layout. */
  lemma AppendPixelKeepsLayout(data: seq<byte>, i: nat, j: nat)
    requires i < TEX_SIZE && j < TEX_SIZE
    requires |data| == (j * TEX_SIZE + i) * 4 && LaidOut(data)
    ensures LaidOut(data + PixelColour(i, j))
  {
    var base := |data|;
    var d := data + PixelColour(i, j);
    forall p | 0 <= p < |d|
      ensures d[p] == TexelByte(p)
    {
      if p >= base {
        TexelByteAt(i, j, p - base);
      }
    }
  }

  /** In a full buffer that is laid out, each pixel holds its colour. */
  lemma PixelFromLayout(data: seq<byte>, i: nat, j: nat)
    requires |data| == TEX_SIZE * TEX_SIZE * 4 && i < TEX_SIZE && j < TEX_SIZE
    requires LaidOut(data)
    ensures Pixel(data, i, j) == PixelColour(i, j)
  {
    var base := (j * TEX_SIZE + i) * 4;
    forall c | 0 <= c < 4
      ensures Pixel(data, i, j)[c] == PixelColour(i, j)[c]
    {
      TexelByteAt(i, j, c);
      assert Pixel(data, i, j)[c] == data[base + c];
    }
  }

  /** Builds the 32 x 32 tile texture, one pixel at a time, row by row. */
  method CreateGridTex() returns (tex: Texture)
    ensures tex.width == TEX_SIZE && tex.height == TEX_SIZE && tex.depth == 1
    ensures |tex.data| == TEX_SIZE * TEX_SIZE * 4
    ensures forall i, j :: 0 <= i < TEX_SIZE && 0 <= j < TEX_SIZE ==> Pixel(tex.data, i, j) == PixelColour(i, j)
  {
    var data: seq<byte> := [];
    for j := 0 to TEX_SIZE
      invariant |data| == j * TEX_SIZE * 4
      invariant LaidOut(data)
    {
      for i := 0 to TEX_SIZE
        invariant |data| == (j * TEX_SIZE + i) * 4
        invariant LaidOut(data)
      {
        AppendPixelKeepsLayout(data, i, j);
        if i == 0 || i == TEX_SIZE - 1 || j == 0 || j == TEX_SIZE - 1 {
          data := data + [192, 192, 192, 255];
        } else {
          data := data + [128, 128, 128, 255];
        }
      }
    }
    forall i, j | 0 <= i < TEX_SIZE && 0 <= j < TEX_SIZE
      ensures Pixel(data, i, j) == PixelColour(i, j)
    {
      PixelFromLayout(data, i, j);
    }
    tex := Texture(TEX_SIZE, TEX_SIZE, 1, data);
  }
}
