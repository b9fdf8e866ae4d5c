/**
 * The part of the image crate the viewer relies on, as values: an RGBA
 * raster addressed by (x, y), a blank constructor (`RgbaImage::new`) and the
 * flips and quarter turns of `DynamicImage` (`fliph`, `flipv`, `rotate90`,
 * `rotate180`, `rotate270`, all clockwise).
 */
module Images {

  newtype u8 = x: int | 0 <= x < 256

  datatype Rgba = Rgba(r: u8, g: u8, b: u8, a: u8)

  /** The pixel value of a freshly allocated `RgbaImage`: all channels zero. */
  const Transparent: Rgba := Rgba(0, 0, 0, 0)

  /** Row-major pixels: `rows[y][x]`. */
  datatype Raster = Raster(width: nat, height: nat, rows: seq<seq<Rgba>>)

  predicate WellFormed(r: Raster) {
    |r.rows| == r.height && forall y :: 0 <= y < |r.rows| ==> |r.rows[y]| == r.width
  }

  type Image = r: Raster | WellFormed(r) witness Raster(0, 0, [])

  function Pixel(img: Image, x: nat, y: nat): Rgba
    requires x < img.width && y < img.height
  {
    img.rows[y][x]
  }

  /** The image of the given size whose pixel (x, y) is `f(x, y)`. */
  function Generate(w: nat, h: nat, f: (nat, nat) --> Rgba): (img: Image)
    requires forall x: nat, y: nat :: x < w && y < h ==> f.requires(x, y)
    ensures img.width == w && img.height == h
    ensures forall x: nat, y: nat :: x < w && y < h ==> Pixel(img, x, y) == f(x, y)
  {
    Raster(w, h, seq(h, (y: int) requires 0 <= y < h =>
      seq(w, (x: int) requires 0 <= x < w => f(x, y))))
  }

  /** Two images of the same size with the same pixels are the same image. */
  lemma ImageExt(a: Image, b: Image)
    requires a.width == b.width && a.height == b.height
    requires forall x: nat, y: nat :: x < a.width && y < a.height ==> Pixel(a, x, y) == Pixel(b, x, y)
    ensures a == b
  {
    forall y | 0 <= y < a.height
      ensures a.rows[y] == b.rows[y]
    {
      assert forall x :: 0 <= x < a.width ==> a.rows[y][x] == Pixel(a, x, y);
    }
  }

  /** `RgbaImage::new(w, h)`. */
  function Blank(w: nat, h: nat): (img: Image)
    ensures img.width == w && img.height == h
    ensures forall x: nat, y: nat :: x < w && y < h ==> Pixel(img, x, y) == Transparent
  {
    Generate(w, h, (x: nat, y: nat) => Transparent)
  }

  function FlipH(img: Image): (r: Image)
    ensures r.width == img.width && r.height == img.height
    ensures forall x: nat, y: nat :: x < r.width && y < r.height ==>
      Pixel(r, x, y) == Pixel(img, img.width - 1 - x, y)
  {
    Generate(img.width, img.height,
      (x: nat, y: nat) requires x < img.width && y < img.height => Pixel(img, img.width - 1 - x, y))
  }

  function FlipV(img: Image): (r: Image)
    ensures r.width == img.width && r.height == img.height
    ensures forall x: nat, y: nat :: x < r.width && y < r.height ==>
      Pixel(r, x, y) == Pixel(img, x, img.height - 1 - y)
  {
    Generate(img.width, img.height,
      (x: nat, y: nat) requires x < img.width && y < img.height => Pixel(img, x, img.height - 1 - y))
  }

  /** A clockwise quarter turn: source (x, y) lands on (height - 1 - y, x). */
  function Rotate90(img: Image): (r: Image)
    ensures r.width == img.height && r.height == img.width
    ensures forall x: nat, y: nat :: x < r.width && y < r.height ==>
      Pixel(r, x, y) == Pixel(img, y, img.height - 1 - x)
  {
    Generate(img.height, img.width,
      (x: nat, y: nat) requires x < img.height && y < img.width => Pixel(img, y, img.height - 1 - x))
  }

  /** A half turn: source (x, y) lands on (width - 1 - x, height - 1 - y). */
  function Rotate180(img: Image): (r: Image)
    ensures r.width == img.width && r.height == img.height
    ensures forall x: nat, y: nat :: x < r.width && y < r.height ==>
      Pixel(r, x, y) == Pixel(img, img.width - 1 - x, img.height - 1 - y)
  {
    Generate(img.width, img.height,
      (x: nat, y: nat) requires x < img.width && y < img.height =>
        Pixel(img, img.width - 1 - x, img.height - 1 - y))
  }

  /** Three clockwise quarter turns: source (x, y) lands on (y, width - 1 - x). */
  function Rotate270(img: Image): (r: Image)
    ensures r.width == img.height && r.height == img.width
    ensures forall x: nat, y: nat :: x < r.width && y < r.height ==>
      Pixel(r, x, y) == Pixel(img, img.width - 1 - y, x)
  {
    Generate(img.height, img.width,
      (x: nat, y: nat) requires x < img.height && y < img.width => Pixel(img, img.width - 1 - y, x))
  }

  lemma FlipHInvolutive(img: Image)
    ensures FlipH(FlipH(img)) == img
  {
    ImageExt(FlipH(FlipH(img)), img);
  }

  lemma FlipVInvolutive(img: Image)
    ensures FlipV(FlipV(img)) == img
  {
    ImageExt(FlipV(FlipV(img)), img);
  }

  lemma Rotate180Involutive(img: Image)
    ensures Rotate180(Rotate180(img)) == img
  {
    ImageExt(Rotate180(Rotate180(img)), img);
  }

  /** A half turn is the two flips together. */
  lemma Rotate180IsBothFlips(img: Image)
    ensures Rotate180(img) == FlipH(FlipV(img))
  {
    ImageExt(Rotate180(img), FlipH(FlipV(img)));
  }

  /** A quarter turn clockwise is undone by three more. */
  lemma Rotate270UndoesRotate90(img: Image)
    ensures Rotate270(Rotate90(img)) == img
  {
    ImageExt(Rotate270(Rotate90(img)), img);
  }

  lemma Rotate90UndoesRotate270(img: Image)
    ensures Rotate90(Rotate270(img)) == img
  {
    ImageExt(Rotate90(Rotate270(img)), img);
  }

  /** The transpose: source (x, y) lands on (y, x). */
  function Transpose(img: Image): (r: Image)
    ensures r.width == img.height && r.height == img.width
    ensures forall x: nat, y: nat :: x < r.width && y < r.height ==> Pixel(r, x, y) == Pixel(img, y, x)
  {
    Generate(img.height, img.width, (x: nat, y: nat) requires x < img.height && y < img.width => Pixel(img, y, x))
  }

  lemma TransposeIsFlipThenTurn(img: Image)
    ensures Rotate90(FlipV(img)) == Transpose(img)
  {
    var t := Rotate90(FlipV(img));
    forall x: nat, y: nat | x < t.width && y < t.height
      ensures Pixel(t, x, y) == Pixel(Transpose(img), x, y)
    {
      assert Pixel(t, x, y) == Pixel(FlipV(img), y, img.height - 1 - x);
    }
    ImageExt(t, Transpose(img));
  }

  lemma TransposeTwice(img: Image)
    ensures Transpose(Transpose(img)) == img
  {
    ImageExt(Transpose(Transpose(img)), img);
  }

  /** Flip vertically then turn clockwise is the transpose, which is its own inverse. */
  lemma TransposeInvolutive(img: Image)
    ensures Rotate90(FlipV(Rotate90(FlipV(img)))) == img
  {
    TransposeIsFlipThenTurn(img);
    TransposeIsFlipThenTurn(Transpose(img));
    TransposeTwice(img);
  }

  /** The anti-transpose: source (x, y) lands on (height - 1 - y, width - 1 - x). */
  function Transverse(img: Image): (r: Image)
    ensures r.width == img.height && r.height == img.width
    ensures forall x: nat, y: nat :: x < r.width && y < r.height ==>
      Pixel(r, x, y) == Pixel(img, img.width - 1 - y, img.height - 1 - x)
  {
    Generate(img.height, img.width,
      (x: nat, y: nat) requires x < img.height && y < img.width => Pixel(img, img.width - 1 - y, img.height - 1 - x))
  }

  lemma TransverseIsFlipThenTurn(img: Image)
    ensures Rotate270(FlipV(img)) == Transverse(img)
  {
    var t := Rotate270(FlipV(img));
    forall x: nat, y: nat | x < t.width && y < t.height
      ensures Pixel(t, x, y) == Pixel(Transverse(img), x, y)
    {
    }
    ImageExt(t, Transverse(img));
  }

  lemma TransverseTwice(img: Image)
    ensures Transverse(Transverse(img)) == img
  {
    ImageExt(Transverse(Transverse(img)), img);
  }

  /** Flip vertically then turn counter-clockwise is the anti-transpose, its own inverse. */
  lemma TransverseInvolutive(img: Image)
    ensures Rotate270(FlipV(Rotate270(FlipV(img)))) == img
  {
    TransverseIsFlipThenTurn(img);
    TransverseIsFlipThenTurn(Transverse(img));
    TransverseTwice(img);
  }
}
