/**
 * Day 20, Trench Map: an image of light and dark pixels is enhanced by
 * reading each pixel's 3x3 neighbourhood as a 9-bit number and looking it
 * up in a 512-entry algorithm. The image is infinite; the finite grid is
 * padded by two pixels of the background on every side before each
 * update, and the background is taken to be the top-left pixel.
 */
module TrenchMap {
  import opened Options

  /** Rows of pixels, `true` for a light pixel. */
  type Image = seq<seq<bool>>

  // ---------------------------------------------------------------------
  // str_to_vec, vec_to_str
  // ---------------------------------------------------------------------

  /** `str_to_vec`: '#' is a light pixel, every other character a dark one. */
  function StrToVec(s: string): (r: seq<bool>)
    ensures |r| == |s|
    ensures forall i :: 0 <= i < |s| ==> (r[i] <==> s[i] == '#')
  {
    if s == [] then [] else [s[0] == '#'] + StrToVec(s[1..])
  }

  /** `vec_to_str`: a light pixel as '#', a dark one as '.'. */
  function VecToStr(pixels: seq<bool>): (r: string)
    ensures |r| == |pixels|
    ensures forall i :: 0 <= i < |pixels| ==> r[i] == if pixels[i] then '#' else '.'
  {
    if pixels == [] then [] else [if pixels[0] then '#' else '.'] + VecToStr(pixels[1..])
  }

  /** Reading back a row that was written gives the row. */
  lemma StrToVecOfVecToStr(pixels: seq<bool>)
    ensures StrToVec(VecToStr(pixels)) == pixels
  {
    var r := StrToVec(VecToStr(pixels));
    assert forall i :: 0 <= i < |pixels| ==> r[i] == pixels[i];
  }

  // ---------------------------------------------------------------------
  // get_square_value
  // ---------------------------------------------------------------------

  /** A grid the source can index: at least one row, the first one non-empty, and all as long as it. */
  predicate Grid(image: Image)
  {
    |image| >= 1 && |image[0]| >= 1 && forall j :: 0 <= j < |image| ==> |image[j]| == |image[0]|
  }

  /** The pixel at column `i` of row `j`, or `image[0][0]` off the grid. */
  function Pixel(image: Image, i: int, j: int): bool
    requires Grid(image)
  {
    if 0 <= j < |image| && 0 <= i < |image[0]| then image[j][i] else image[0][0]
  }

  /** The 3x3 neighbourhood of `(x, y)`, row by row from the top left. */
  function Square(image: Image, x: int, y: int): (r: seq<bool>)
    requires Grid(image)
    ensures |r| == 9
  {
    Row(image, x, y - 1) + Row(image, x, y) + Row(image, x, y + 1)
  }

  /** The three pixels of row `j` around column `x`. */
  function Row(image: Image, x: int, j: int): (r: seq<bool>)
    requires Grid(image)
    ensures |r| == 3
  {
    [Pixel(image, x - 1, j), Pixel(image, x, j), Pixel(image, x + 1, j)]
  }

  function Pow2(n: nat): nat
  {
    if n == 0 then 1 else 2 * Pow2(n - 1)
  }

  /** The bits as a binary number, the first bit the most significant. */
  function BitsValue(bits: seq<bool>): (v: nat)
    ensures v < Pow2(|bits|)
  {
    if bits == [] then 0
    else 2 * BitsValue(bits[..|bits| - 1]) + if bits[|bits| - 1] then 1 else 0
  }

  /** The `width` bits of `v`, most significant first. */
  function ToBits(v: nat, width: nat): (bits: seq<bool>)
    ensures |bits| == width
  {
    if width == 0 then [] else ToBits(v / 2, width - 1) + [v % 2 == 1]
  }

  /** Reading the bits of a number that fits gives the number back. */
  lemma {:induction false} BitsValueOfToBits(v: nat, width: nat)
    requires v < Pow2(width)
    ensures BitsValue(ToBits(v, width)) == v
  {
    if width > 0 {
      BitsValueOfToBits(v / 2, width - 1);
      assert ToBits(v, width)[..width - 1] == ToBits(v / 2, width - 1);
    }
  }

  /** Writing out the value of some bits gives the bits back. */
  lemma {:induction false} ToBitsOfBitsValue(bits: seq<bool>)
    ensures ToBits(BitsValue(bits), |bits|) == bits
  {
    if bits != [] {
      var front := bits[..|bits| - 1];
      ToBitsOfBitsValue(front);
      var v := BitsValue(bits);
      assert v / 2 == BitsValue(front);
      assert bits == front + [bits[|bits| - 1]];
    }
  }

  lemma Pow2Nine()
    ensures Pow2(9) == 512
  {
  }

  /** `usize::from_str_radix(.., 2)` on the pixels written as '1' and '0'. */
  method ReadBinary(bits: seq<bool>) returns (v: nat)
    ensures v == BitsValue(bits)
  {
    v := 0;
    for k := 0 to |bits|
      invariant v == BitsValue(bits[..k])
    {
      assert bits[..k + 1][..k] == bits[..k];
      v := 2 * v + if bits[k] then 1 else 0;
    }
    assert bits[..|bits|] == bits;
  }

  /**
   * `get_square_value`: start from nine copies of `image[0][0]`, copy in
   * each neighbour that lies on the grid, and read the nine pixels as a
   * binary number. The number always parses, so there is no error case.
   */
  method SquareValue(image: Image, x: nat, y: nat) returns (v: nat)
    requires Grid(image) && y < |image| && x < |image[0]|
    ensures v == BitsValue(Square(image, x, y))
    ensures v < 512
  {
    var value := seq(9, _ => image[0][0]);
    value := TopRow(image, x, y, value);
    value := MiddleRow(image, x, y, value);
    value := BottomRow(image, x, y, value);
    SameSquare(value, image, x, y);
    v := ReadBinary(value);
    Pow2Nine();
  }

  /** The first three tests of `get_square_value`: the row above. */
  method TopRow(image: Image, x: nat, y: nat, value: seq<bool>) returns (value': seq<bool>)
    requires Grid(image) && y < |image| && x < |image[0]| && |value| == 9
    requires forall k :: 0 <= k < 9 ==> value[k] == image[0][0]
    ensures |value'| == 9 && value'[3..] == value[3..]
    ensures value'[0] == Pixel(image, x - 1, y - 1)
    ensures value'[1] == Pixel(image, x, y - 1)
    ensures value'[2] == Pixel(image, x + 1, y - 1)
  {
    var xLen := |image[0]|;
    value' := value;
    if x > 0 && y > 0 {
      value' := value'[0 := image[y - 1][x - 1]];
    }
    if y > 0 {
      value' := value'[1 := image[y - 1][x]];
    }
    if y > 0 && x < xLen - 1 {
      value' := value'[2 := image[y - 1][x + 1]];
    }
  }

  /** The next three: the row of the pixel itself. */
  method MiddleRow(image: Image, x: nat, y: nat, value: seq<bool>) returns (value': seq<bool>)
    requires Grid(image) && y < |image| && x < |image[0]| && |value| == 9
    requires forall k :: 3 <= k < 9 ==> value[k] == image[0][0]
    ensures |value'| == 9 && value'[..3] == value[..3] && value'[6..] == value[6..]
    ensures value'[3] == Pixel(image, x - 1, y)
    ensures value'[4] == Pixel(image, x, y)
    ensures value'[5] == Pixel(image, x + 1, y)
  {
    var xLen := |image[0]|;
    value' := value;
    if x > 0 {
      value' := value'[3 := image[y][x - 1]];
    }
    value' := value'[4 := image[y][x]];
    if x < xLen - 1 {
      value' := value'[5 := image[y][x + 1]];
    }
  }

  /** The last three: the row below. */
  method BottomRow(image: Image, x: nat, y: nat, value: seq<bool>) returns (value': seq<bool>)
    requires Grid(image) && y < |image| && x < |image[0]| && |value| == 9
    requires forall k :: 6 <= k < 9 ==> value[k] == image[0][0]
    ensures |value'| == 9 && value'[..6] == value[..6]
    ensures value'[6] == Pixel(image, x - 1, y + 1)
    ensures value'[7] == Pixel(image, x, y + 1)
    ensures value'[8] == Pixel(image, x + 1, y + 1)
  {
    var xLen := |image[0]|;
    var yLen := |image|;
    value' := value;
    if y < yLen - 1 && x > 0 {
      value' := value'[6 := image[y + 1][x - 1]];
    }
    if y < yLen - 1 {
      value' := value'[7 := image[y + 1][x]];
    }
    if y < yLen - 1 && x < xLen - 1 {
      value' := value'[8 := image[y + 1][x + 1]];
    }
  }

  lemma SameSquare(value: seq<bool>, image: Image, x: int, y: int)
    requires Grid(image) && |value| == 9
    requires value[0] == Pixel(image, x - 1, y - 1) && value[1] == Pixel(image, x, y - 1)
    requires value[2] == Pixel(image, x + 1, y - 1) && value[3] == Pixel(image, x - 1, y)
    requires value[4] == Pixel(image, x, y) && value[5] == Pixel(image, x + 1, y)
    requires value[6] == Pixel(image, x - 1, y + 1) && value[7] == Pixel(image, x, y + 1)
    requires value[8] == Pixel(image, x + 1, y + 1)
    ensures value == Square(image, x, y)
  {
    NineEntries(value, Pixel(image, x - 1, y - 1), Pixel(image, x, y - 1), Pixel(image, x + 1, y - 1),
                Pixel(image, x - 1, y), Pixel(image, x, y), Pixel(image, x + 1, y),
                Pixel(image, x - 1, y + 1), Pixel(image, x, y + 1), Pixel(image, x + 1, y + 1));
  }

  lemma NineEntries(v: seq<bool>, a0: bool, a1: bool, a2: bool, a3: bool, a4: bool, a5: bool, a6: bool, a7: bool, a8: bool)
    requires |v| == 9
    requires v[0] == a0 && v[1] == a1 && v[2] == a2 && v[3] == a3 && v[4] == a4
    requires v[5] == a5 && v[6] == a6 && v[7] == a7 && v[8] == a8
    ensures v == [a0, a1, a2] + [a3, a4, a5] + [a6, a7, a8]
  {
  }

  // ---------------------------------------------------------------------
  // grow_image
  // ---------------------------------------------------------------------

  /** The image with two more pixels of `inf` on every side. */
  function Grown(image: Image, inf: bool): (r: Image)
    requires |image| >= 1 && forall j :: 0 <= j < |image| ==> |image[j]| == |image[0]|
    ensures |r| == |image| + 4
    ensures forall j :: 0 <= j < |r| ==> |r[j]| == |image[0]| + 4
  {
    var h, w := |image|, |image[0]|;
    seq(h + 4, j requires 0 <= j < h + 4 =>
      seq(w + 4, i requires 0 <= i < w + 4 =>
        if 2 <= j < h + 2 && 2 <= i < w + 2 then image[j - 2][i - 2] else inf))
  }

  /** The padding of `Grown`: a copy of the image two pixels in, `inf` elsewhere. */
  lemma GrownAt(image: Image, inf: bool, i: int, j: int)
    requires |image| >= 1 && forall j :: 0 <= j < |image| ==> |image[j]| == |image[0]|
    requires 0 <= j < |image| + 4 && 0 <= i < |image[0]| + 4
    ensures Grown(image, inf)[j][i] == if 2 <= j < |image| + 2 && 2 <= i < |image[0]| + 2 then image[j - 2][i - 2] else inf
  {
  }

  /** Row-major progress of `grow_image`: the cells before `(x, y)` of the image are copied, the rest is `inf`. */
  ghost predicate Copied(grown: Image, image: Image, inf: bool, x: nat, y: nat)
    requires |image| >= 1 && forall j :: 0 <= j < |image| ==> |image[j]| == |image[0]|
  {
    var h, w := |image|, |image[0]|;
    && |grown| == h + 4
    && (forall j :: 0 <= j < h + 4 ==> |grown[j]| == w + 4)
    && forall j, i :: 0 <= j < h + 4 && 0 <= i < w + 4 ==>
         grown[j][i] == if 2 <= j < h + 2 && 2 <= i < w + 2 && (j - 2 < y || (j - 2 == y && i - 2 < x))
                        then image[j - 2][i - 2] else inf
  }

  /** `grow_image`: a fresh grid of `inf`, with the image copied in two rows down and two columns right. */
  method Grow(image: Image, inf: bool) returns (grown: Image)
    requires |image| >= 1 && forall j :: 0 <= j < |image| ==> |image[j]| == |image[0]|
    ensures grown == Grown(image, inf)
  {
    var ySize := |image|;
    var xSize := |image[0]|;
    grown := seq(ySize + 4, _ => seq(xSize + 4, _ => inf));
    for y := 0 to ySize
      invariant Copied(grown, image, inf, 0, y)
    {
      for x := 0 to xSize
        invariant Copied(grown, image, inf, x, y)
      {
        grown := CopyPixel(grown, image, inf, x, y);
      }
      CopiedRow(grown, image, inf, y);
    }
    CopiedAll(grown, image, inf);
  }

  /** One turn of the inner loop of `grow_image`: `grown[y + 2][x + 2] = image[y][x]`. */
  method CopyPixel(grown: Image, image: Image, inf: bool, x: nat, y: nat) returns (grown': Image)
    requires |image| >= 1 && forall j :: 0 <= j < |image| ==> |image[j]| == |image[0]|
    requires y < |image| && x < |image[0]|
    requires Copied(grown, image, inf, x, y)
    ensures Copied(grown', image, inf, x + 1, y)
  {
    grown' := grown[y + 2 := grown[y + 2][x + 2 := image[y][x]]];
  }

  /** A finished row is the start of the next. */
  lemma CopiedRow(grown: Image, image: Image, inf: bool, y: nat)
    requires |image| >= 1 && forall j :: 0 <= j < |image| ==> |image[j]| == |image[0]|
    requires Copied(grown, image, inf, |image[0]|, y)
    ensures Copied(grown, image, inf, 0, y + 1)
  {
  }

  lemma CopiedAll(grown: Image, image: Image, inf: bool)
    requires |image| >= 1 && forall j :: 0 <= j < |image| ==> |image[j]| == |image[0]|
    requires Copied(grown, image, inf, 0, |image|)
    ensures grown == Grown(image, inf)
  {
    var g := Grown(image, inf);
    forall j | 0 <= j < |g|
      ensures grown[j] == g[j]
    {
      forall i | 0 <= i < |g[j]|
        ensures grown[j][i] == g[j][i]
      {
        GrownAt(image, inf, i, j);
      }
    }
  }

  /**
   * A pixel next to or on the image reads the same in the grown image,
   * when the padding is the image's own top-left pixel or the pixel lies
   * on the image.
   */
  lemma PixelGrown(image: Image, inf: bool, i: int, j: int)
    requires Grid(image) && Grid(Grown(image, inf)) && -1 <= j <= |image| && -1 <= i <= |image[0]|
    requires inf == image[0][0] || (0 <= j < |image| && 0 <= i < |image[0]|)
    ensures Pixel(Grown(image, inf), i + 2, j + 2) == Pixel(image, i, j)
  {
    GrownAt(image, inf, 0, 0);
    GrownAt(image, inf, i + 2, j + 2);
  }

  /** The grown image is a grid. */
  lemma GrownGrid(image: Image, inf: bool)
    requires Grid(image)
    ensures Grid(Grown(image, inf))
  {
  }

  /**
   * Growing the image by its own top-left pixel changes no neighbourhood:
   * the padding shows what `get_square_value` already assumed off the grid.
   */
  lemma GrownSquare(image: Image, x: nat, y: nat)
    requires Grid(image) && y < |image| && x < |image[0]|
    ensures Grid(Grown(image, image[0][0]))
    ensures Square(Grown(image, image[0][0]), x + 2, y + 2) == Square(image, x, y)
  {
    SquareGrown(image, image[0][0], x, y);
  }

  /** Away from the edge, a neighbourhood lies on the grid, so growing by any colour keeps it. */
  lemma GrownSquareInside(image: Image, inf: bool, x: nat, y: nat)
    requires Grid(image) && 1 <= y < |image| - 1 && 1 <= x < |image[0]| - 1
    ensures Grid(Grown(image, inf))
    ensures Square(Grown(image, inf), x + 2, y + 2) == Square(image, x, y)
  {
    SquareGrownInside(image, inf, x, y);
  }

  lemma SquareGrown(image: Image, inf: bool, x: nat, y: nat)
    requires Grid(image) && y < |image| && x < |image[0]|
    requires inf == image[0][0]
    ensures Grid(Grown(image, inf))
    ensures Square(Grown(image, inf), x + 2, y + 2) == Square(image, x, y)
  {
    GrownGrid(image, inf);
    RowGrown(image, inf, x, y - 1);
    RowGrown(image, inf, x, y);
    RowGrown(image, inf, x, y + 1);
  }

  lemma SquareGrownInside(image: Image, inf: bool, x: nat, y: nat)
    requires Grid(image) && 1 <= y < |image| - 1 && 1 <= x < |image[0]| - 1
    ensures Grid(Grown(image, inf))
    ensures Square(Grown(image, inf), x + 2, y + 2) == Square(image, x, y)
  {
    GrownGrid(image, inf);
    RowGrown(image, inf, x, y - 1);
    RowGrown(image, inf, x, y);
    RowGrown(image, inf, x, y + 1);
  }

  lemma RowGrown(image: Image, inf: bool, x: nat, j: int)
    requires Grid(image) && Grid(Grown(image, inf)) && -1 <= j <= |image| && x < |image[0]|
    requires inf == image[0][0] || (0 <= j < |image| && 1 <= x < |image[0]| - 1)
    ensures Row(Grown(image, inf), x + 2, j + 2) == Row(image, x, j)
  {
    PixelGrown(image, inf, x - 1, j);
    PixelGrown(image, inf, x, j);
    PixelGrown(image, inf, x + 1, j);
  }

  // ---------------------------------------------------------------------
  // update_image
  // ---------------------------------------------------------------------

  /** Every pixel of the grown image replaced by the algorithm's entry for its neighbourhood. */
  function Enhance(before: Image, algo: seq<bool>): (r: Image)
    requires Grid(before) && |algo| >= 512
    ensures |r| == |before| + 4
    ensures forall j :: 0 <= j < |r| ==> |r[j]| == |before[0]| + 4
  {
    var g := Grown(before, before[0][0]);
    GrownAt(before, before[0][0], 0, 0);
    Pow2Nine();
    seq(|g|, j requires 0 <= j < |g| =>
      seq(|g[0]|, i requires 0 <= i < |g[0]| => algo[BitsValue(Square(g, i, j))]))
  }

  /**
   * Each pixel of the before image becomes the algorithm's entry for its
   * neighbourhood in the before image, reading `old[0][0]` off the grid.
   */
  lemma EnhanceAt(before: Image, algo: seq<bool>, x: nat, y: nat)
    requires Grid(before) && |algo| >= 512 && y < |before| && x < |before[0]|
    ensures BitsValue(Square(before, x, y)) < 512
    ensures Enhance(before, algo)[y + 2][x + 2] == algo[BitsValue(Square(before, x, y))]
  {
    GrownSquare(before, x, y);
    Pow2Nine();
  }

  /** Far from the image, where every pixel is the background, the new background is entry 0 or entry 511. */
  lemma EnhanceBackground(before: Image, algo: seq<bool>)
    requires Grid(before) && |algo| >= 512
    ensures Enhance(before, algo)[0][0] == algo[if before[0][0] then 511 else 0]
  {
    var b := before[0][0];
    var g := Grown(before, b);
    GrownAt(before, b, 0, 0);
    GrownAt(before, b, 1, 0);
    GrownAt(before, b, 0, 1);
    GrownAt(before, b, 1, 1);
    assert Square(g, 0, 0) == [b, b, b, b, b, b, b, b, b];
    AllSame(b);
  }

  lemma AllSame(b: bool)
    ensures BitsValue([b, b, b, b, b, b, b, b, b]) == if b then 511 else 0
  {
    Pow2Nine();
    if b {
      assert ToBits(511, 9) == [b, b, b, b, b, b, b, b, b];
      BitsValueOfToBits(511, 9);
    } else {
      assert ToBits(0, 9) == [b, b, b, b, b, b, b, b, b];
      BitsValueOfToBits(0, 9);
    }
  }

  /** Row-major progress of `update_image`: the cells before `(x, y)` are enhanced, the rest are still the grown image's. */
  ghost predicate Updated(updated: Image, g: Image, algo: seq<bool>, x: nat, y: nat)
    requires Grid(g) && |algo| >= 512
  {
    && |updated| == |g|
    && (forall j :: 0 <= j < |g| ==> |updated[j]| == |g[0]|)
    && forall j, i :: 0 <= j < |g| && 0 <= i < |g[0]| ==>
         updated[j][i] == if j < y || (j == y && i < x) then Enhanced(g, algo, i, j) else g[j][i]
  }

  function Enhanced(g: Image, algo: seq<bool>, i: int, j: int): bool
    requires Grid(g) && |algo| >= 512
  {
    Pow2Nine();
    algo[BitsValue(Square(g, i, j))]
  }

  /**
   * `update_image`: grow the image by its top-left pixel, then write the
   * algorithm's entry for every neighbourhood of the grown image into a
   * second grown copy.
   */
  method UpdateImage(before: Image, algo: seq<bool>) returns (updated: Image)
    requires Grid(before) && |algo| >= 512
    ensures updated == Enhance(before, algo)
  {
    var grown := Grow(before, before[0][0]);
    updated := Grow(before, before[0][0]);
    GrownAt(before, before[0][0], 0, 0);
    for y := 0 to |grown|
      invariant Updated(updated, grown, algo, 0, y)
    {
      for x := 0 to |grown[0]|
        invariant Updated(updated, grown, algo, x, y)
      {
        updated := UpdatePixel(updated, grown, algo, x, y);
      }
      UpdatedRow(updated, grown, algo, y);
    }
    UpdatedAll(updated, before, algo);
  }

  /** One turn of the inner loop of `update_image`. */
  method UpdatePixel(updated: Image, grown: Image, algo: seq<bool>, x: nat, y: nat) returns (updated': Image)
    requires Grid(grown) && |algo| >= 512 && y < |grown| && x < |grown[0]|
    requires Updated(updated, grown, algo, x, y)
    ensures Updated(updated', grown, algo, x + 1, y)
  {
    var v := SquareValue(grown, x, y);
    updated' := updated[y := updated[y][x := algo[v]]];
    UpdatedStep(updated, grown, algo, x, y);
  }

  lemma UpdatedStep(updated: Image, g: Image, algo: seq<bool>, x: nat, y: nat)
    requires Grid(g) && |algo| >= 512 && y < |g| && x < |g[0]|
    requires Updated(updated, g, algo, x, y)
    ensures Updated(updated[y := updated[y][x := Enhanced(g, algo, x, y)]], g, algo, x + 1, y)
  {
    var u := updated[y := updated[y][x := Enhanced(g, algo, x, y)]];
    forall j, i | 0 <= j < |g| && 0 <= i < |g[0]|
      ensures u[j][i] == if j < y || (j == y && i < x + 1) then Enhanced(g, algo, i, j) else g[j][i]
    {
      if j != y {
        assert u[j] == updated[j];
      } else if i != x {
        assert u[j][i] == updated[j][i];
      }
    }
  }

  lemma UpdatedRow(updated: Image, g: Image, algo: seq<bool>, y: nat)
    requires Grid(g) && |algo| >= 512
    requires Updated(updated, g, algo, |g[0]|, y)
    ensures Updated(updated, g, algo, 0, y + 1)
  {
  }

  lemma UpdatedAll(updated: Image, before: Image, algo: seq<bool>)
    requires Grid(before) && |algo| >= 512
    requires Grid(Grown(before, before[0][0]))
    requires Updated(updated, Grown(before, before[0][0]), algo, 0, |before| + 4)
    ensures updated == Enhance(before, algo)
  {
    var e := Enhance(before, algo);
    forall j | 0 <= j < |e|
      ensures updated[j] == e[j]
    {
    }
  }

  // ---------------------------------------------------------------------
  // parse
  // ---------------------------------------------------------------------

  /** The image rows among `lines`: every non-empty line, read as pixels. */
  function Rows(lines: seq<string>): (rows: Image)
    ensures |rows| <= |lines|
  {
    if lines == [] then []
    else
      var last := lines[|lines| - 1];
      Rows(lines[..|lines| - 1]) + if last == "" then [] else [StrToVec(last)]
  }

  /**
   * `parse`: the first line is the algorithm, blank lines are skipped and
   * the other lines are the image's rows. `algo.unwrap()` panics on no
   * lines at all.
   */
  method Parse(lines: seq<string>) returns (algo: seq<bool>, page: Image)
    requires |lines| >= 1
    ensures algo == StrToVec(lines[0])
    ensures page == Rows(lines[1..])
  {
    page := [];
    var read: Option<seq<bool>> := None;
    for k := 0 to |lines|
      invariant k == 0 ==> read.None? && page == []
      invariant k > 0 ==> read == Some(StrToVec(lines[0])) && page == Rows(lines[1..k])
    {
      var line := lines[k];
      if read.None? {
        read := Some(StrToVec(line));
        assert lines[1..1] == [];
      } else if line == "" {
        assert lines[1..k + 1][..k - 1] == lines[1..k];
        continue;
      } else {
        assert lines[1..k + 1][..k - 1] == lines[1..k];
        page := page + [StrToVec(line)];
      }
    }
    assert lines[1..|lines|] == lines[1..];
    algo := read.value;
  }

  /**
   * Writing the algorithm, a blank line and the rows with `vec_to_str`,
   * then parsing, gives the algorithm and the rows back.
   */
  lemma ParseShown(algo: seq<bool>, image: Image)
    requires forall j :: 0 <= j < |image| ==> |image[j]| >= 1
    ensures var lines := [VecToStr(algo), ""] + Shown(image);
      StrToVec(lines[0]) == algo && Rows(lines[1..]) == image
  {
    var lines := [VecToStr(algo), ""] + Shown(image);
    StrToVecOfVecToStr(algo);
    assert lines[1..] == [""] + Shown(image);
    RowsAppend([""], Shown(image));
    assert Rows([""]) == [] by {
      assert [""][..0] == [];
    }
    RowsOfShown(image);
  }

  lemma {:induction false} RowsOfShown(image: Image)
    requires forall j :: 0 <= j < |image| ==> |image[j]| >= 1
    ensures Rows(Shown(image)) == image
  {
    if image != [] {
      var front, last := image[..|image| - 1], image[|image| - 1];
      RowsOfShown(front);
      var lines := Shown(image);
      assert lines[..|lines| - 1] == Shown(front);
      assert lines[|lines| - 1] == VecToStr(last) != "";
      StrToVecOfVecToStr(last);
      assert front + [last] == image;
    }
  }

  /** Reading two runs of lines one after the other gives the rows of each in turn. */
  lemma {:induction false} RowsAppend(a: seq<string>, b: seq<string>)
    ensures Rows(a + b) == Rows(a) + Rows(b)
  {
    if b == [] {
      assert a + b == a;
    } else {
      var front := b[..|b| - 1];
      RowsAppend(a, front);
      assert (a + b)[..|a + b| - 1] == a + front;
    }
  }

  /** The rows written out with `vec_to_str`. */
  function Shown(image: Image): (lines: seq<string>)
    ensures |lines| == |image|
  {
    if image == [] then [] else Shown(image[..|image| - 1]) + [VecToStr(image[|image| - 1])]
  }

  // ---------------------------------------------------------------------
  // The example
  // ---------------------------------------------------------------------

  /** The example image: `#..#.`, `#....`, `##..#`, `..#..`, `..###`. */
  const Example: Image := [StrToVec("#..#."), StrToVec("#...."), StrToVec("##..#"),
                           StrToVec("..#.."), StrToVec("..###")]

  lemma ExampleRows()
    ensures Example == [[true, false, false, true, false], [true, false, false, false, false],
                        [true, true, false, false, true], [false, false, true, false, false],
                        [false, false, true, true, true]]
  {
    assert StrToVec("#..#.") == [true, false, false, true, false];
    assert StrToVec("#....") == [true, false, false, false, false];
    assert StrToVec("##..#") == [true, true, false, false, true];
    assert StrToVec("..#..") == [false, false, true, false, false];
    assert StrToVec("..###") == [false, false, true, true, true];
  }

  /** The index of the example's centre pixel is 34 (the `index_test`). */
  lemma ExampleIndex()
    ensures Grid(Example)
    ensures BitsValue(Square(Example, 2, 2)) == 34
  {
    ExampleRows();
    assert Row(Example, 2, 1) == [false, false, false];
    assert Row(Example, 2, 2) == [true, false, false];
    assert Row(Example, 2, 3) == [false, true, false];
    Index34();
  }

  lemma Index34()
    ensures BitsValue([false, false, false] + [true, false, false] + [false, true, false]) == 34
  {
    Pow2Nine();
    assert ToBits(34, 9) == [false, false, false] + [true, false, false] + [false, true, false];
    BitsValueOfToBits(34, 9);
  }

  /** Growing the example by dark pixels gives a 9x9 image whose centre index is still 34 (the `grow_test`). */
  lemma ExampleGrown()
    ensures |Grown(Example, false)| == 9 && |Grown(Example, false)[0]| == 9
    ensures Grid(Grown(Example, false))
    ensures BitsValue(Square(Grown(Example, false), 4, 4)) == 34
  {
    ExampleIndex();
    GrownSquareInside(Example, false, 2, 2);
  }
}
