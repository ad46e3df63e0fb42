/** Static 5×5 black-and-white images, packed one byte per row (src/image.rs). */
module Image {

  /** A display coordinate: callers of `brightness_at` must keep `x` and `y` in 0..5. */
  type Coord = c: nat | c < 5

  /** Brightness levels the renderer accepts; `MAX_BRIGHTNESS` is one of them. */
  type Level = b: nat | 0 < b < 256 witness 9

  /** The renderer's maximum brightness. It is defined by the display library,
      so the model leaves its value open: every property below holds for any
      positive byte. */
  const MAX_BRIGHTNESS: Level

  /** The `Render` capability: the brightness of pixel (x, y) of an image. */
  type Render<-T> = (T, Coord, Coord) -> nat

  /** Five bytes: a row of the grid passed to `BitImage::new` (left first),
      or the five packed rows of a `BitImage` (top first). */
  type Row = r: seq<bv8> | |r| == 5 witness [0, 0, 0, 0, 0]

  /** Five rows, top first. */
  type Grid = g: seq<Row> | |g| == 5 witness var z: Row := [0, 0, 0, 0, 0]; [z, z, z, z, z]

  /** A 5×5 image stored in five bytes: column c of row r is bit c of `rows[r]`. */
  datatype BitImage = BitImage(rows: Row)

  /** The values the documentation allows in a grid: 0 (off) and 1 (on). */
  predicate IsBinaryRow(row: Row)
  {
    forall c :: 0 <= c < 5 ==> row[c] == 0 || row[c] == 1
  }

  predicate IsBinaryGrid(im: Grid)
  {
    forall r :: 0 <= r < 5 ==> IsBinaryRow(im[r])
  }

  /** Row packing: value c lands in bit c. For a 0/1 row the byte is the
      binary number whose digit c is `row[c]`, so it is below 32. */
  function RowByte(row: Row): (b: bv8)
    ensures IsBinaryRow(row) ==>
      b as nat == row[0] as nat + 2 * row[1] as nat + 4 * row[2] as nat + 8 * row[3] as nat + 16 * row[4] as nat
    ensures IsBinaryRow(row) ==> b < 32
  {
    BinaryDigits(row);
    row[0] | (row[1] << 1) | (row[2] << 2) | (row[3] << 3) | (row[4] << 4)
  }

  /** Case split on the five digits of a 0/1 row. */
  lemma BinaryDigits(row: Row)
    ensures IsBinaryRow(row) ==>
      (row[0] == 0 || row[0] == 1) && (row[1] == 0 || row[1] == 1) && (row[2] == 0 || row[2] == 1) &&
      (row[3] == 0 || row[3] == 1) && (row[4] == 0 || row[4] == 1)
  {
  }

  /** `BitImage::new`: packs each row of the grid into one byte. */
  function New(im: Grid): (img: BitImage)
    ensures IsBinaryGrid(im) ==> forall r :: 0 <= r < 5 ==> img.rows[r] < 32
  {
    BitImage([RowByte(im[0]), RowByte(im[1]), RowByte(im[2]), RowByte(im[3]), RowByte(im[4])])
  }

  /** `BitImage::blank`: every pixel is off. */
  function Blank(): (img: BitImage)
    ensures forall x: Coord, y: Coord :: BrightnessAt(img, x, y) == 0
  {
    BitImage([0, 0, 0, 0, 0])
  }

  /** Digit x of n written in base 2: the arithmetic reading of "bit x is
      set", independent of the bit-vector mask test. */
  function Digit(n: nat, x: nat): (d: nat)
    ensures d < 2
  {
    if x == 0 then n % 2 else Digit(n / 2, x - 1)
  }

  /** `Render::brightness_at` for `BitImage` (and, through the reference, for
      `&BitImage`, which delegates to it): full brightness exactly when bit x
      of row y is set, zero otherwise, and nothing else. */
  function BrightnessAt(img: BitImage, x: Coord, y: Coord): (b: nat)
    ensures b == MAX_BRIGHTNESS || b == 0
    ensures b == MAX_BRIGHTNESS <==> Digit(img.rows[y] as nat, x) == 1
  {
    BitTest(img.rows[y], x);
    if img.rows[y] & ((1 as bv8) << x) != 0 then MAX_BRIGHTNESS else 0
  }

  /** The mask test `b & (1 << x) != 0` agrees with digit x of the byte. */
  lemma {:induction false} BitTest(b: bv8, x: Coord)
    ensures (b & ((1 as bv8) << x) != 0) <==> Digit(b as nat, x) == 1
  {
    if x == 0 {
      assert (b & 1) as nat == b as nat % 2;
    } else {
      var h := b >> 1;
      assert h as nat == b as nat / 2;
      assert (b & ((1 as bv8) << x) != 0) <==> (h & ((1 as bv8) << (x - 1)) != 0);
      BitTest(h, x - 1);
    }
  }

  /** Round trip: reading back a packed 0/1 grid gives full brightness where
      the grid holds 1 and zero where it holds 0. */
  lemma NewBrightnessAt(im: Grid, x: Coord, y: Coord)
    requires IsBinaryGrid(im)
    ensures BrightnessAt(New(im), x, y) == if im[y][x] == 1 then MAX_BRIGHTNESS else 0
  {
    var row := im[y];
    assert IsBinaryRow(row);
    BinaryDigits(row);
    assert New(im).rows[y] == RowByte(row);
    assert (RowByte(row) & ((1 as bv8) << x) != 0) <==> row[x] == 1;
  }
}
