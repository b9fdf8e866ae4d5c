/**
 * Loading one catalog entry (src/image_loader.rs, `open_and_resize_image`
 * and the entry construction shared by `ensure_cache` and the preload
 * worker). Opening, decoding, reading the EXIF orientation tag and resizing
 * are done by libraries and appear here as an abstract `Decoder`; the
 * orientation dispatch between them is modelled exactly.
 */
module Decoding {
  import opened Wrappers
  import opened Utils
  import opened Images
  import opened Catalog

  /** `Size2d<u32>`: the texture size images are resized to. */
  datatype Size2d = Size2d(width: nat, height: nat)

  /** A decoded file: its pixels and, when the file carries one, its EXIF orientation tag. */
  datatype Opened = Opened(image: Image, orientation: Option<nat>)

  /**
   * The library side of loading: `open` stands for `File::open`, `image::open`
   * and the EXIF read, failing with the error's text; `resize` stands for
   * `DynamicImage::resize(...).to_rgba8()`.
   */
  datatype Decoder = Decoder(
    open: Path -> Result<Opened, string>,
    resize: (Image, Size2d, FilterType) -> Image)

  /**
   * The orientation match: tag 1 and unknown tags keep the image, 2-4 flip
   * or half-turn it, 5-8 involve a quarter turn.
   */
  function Orient(tag: nat, img: Image): (r: Image)
    ensures 5 <= tag <= 8 ==> r.width == img.height && r.height == img.width
    ensures !(5 <= tag <= 8) ==> r.width == img.width && r.height == img.height
    ensures (tag == 1 || tag == 0 || tag > 8) ==> r == img
  {
    match tag
    case 1 => img
    case 2 => FlipH(img)
    case 3 => Rotate180(img)
    case 4 => FlipV(img)
    case 5 => Rotate90(FlipV(img))
    case 6 => Rotate90(img)
    case 7 => Rotate270(FlipV(img))
    case 8 => Rotate270(img)
    case _ => img
  }

  /** The tag whose transformation undoes tag `t`'s: the two single quarter turns swap, the rest are self-inverse. */
  function InverseTag(t: nat): (u: nat)
    ensures (u == t) <==> !(t == 6 || t == 8)
  {
    if t == 6 then 8 else if t == 8 then 6 else t
  }

  lemma InverseTagInvolutive(t: nat)
    ensures InverseTag(InverseTag(t)) == t
  {
  }

  /** Applying the orientation for `InverseTag(t)` after the one for `t` restores the decoded image, for every tag. */
  lemma OrientRoundTrip(t: nat, img: Image)
    ensures Orient(InverseTag(t), Orient(t, img)) == img
  {
    match t
    case 2 => FlipHInvolutive(img);
    case 3 => Rotate180Involutive(img);
    case 4 => FlipVInvolutive(img);
    case 5 => TransposeInvolutive(img);
    case 6 => Rotate270UndoesRotate90(img);
    case 7 => TransverseInvolutive(img);
    case 8 => Rotate90UndoesRotate270(img);
    case _ =>
  }

  /** The decoded image as the orientation tag (when present) says it should be seen. */
  function Upright(o: Opened): Image
  {
    if o.orientation.Some? then Orient(o.orientation.value, o.image) else o.image
  }

  /**
   * `open_and_resize_image`: a failure to open or decode is returned as is;
   * otherwise the image is put upright and resized to the texture size.
   */
  function OpenAndResizeImage(dec: Decoder, path: Path, size: Size2d, filter: FilterType): (r: Result<Image, string>)
    ensures r.Err? <==> dec.open(path).Err?
    ensures r.Err? ==> r.error == dec.open(path).error
    ensures r.Ok? ==> r.value == dec.resize(Upright(dec.open(path).value), size, filter)
  {
    match dec.open(path)
    case Err(e) => Err(e)
    case Ok(o) => Ok(dec.resize(Upright(o), size, filter))
  }

  /** `ImageCache`: what the cache holds per catalog index. */
  datatype ImageCache = ImageCache(path: Option<Path>, image: Image, emsg: Option<string>)

  /** The 1x1 image that stands in for a missing or undecodable file. */
  function Placeholder(): (img: Image)
    ensures img.width == 1 && img.height == 1
  {
    Blank(1, 1)
  }

  /**
   * The entry built for a catalog path: the loaded image on success; on a
   * failure the placeholder and the error's text. The path is kept either way.
   */
  function LoadEntry(dec: Decoder, path: Path, size: Size2d, filter: FilterType): (c: ImageCache)
    ensures c.path == Some(path)
    ensures c.emsg.Some? <==> OpenAndResizeImage(dec, path, size, filter).Err?
    ensures c.emsg.Some? ==> c.image == Placeholder() && c.emsg.value == dec.open(path).error
    ensures c.emsg.None? ==> c.image == OpenAndResizeImage(dec, path, size, filter).value
  {
    match OpenAndResizeImage(dec, path, size, filter)
    case Ok(img) => ImageCache(Some(path), img, None)
    case Err(e) => ImageCache(Some(path), Placeholder(), Some(e))
  }

  /** The entry for an index past the end of the catalog: no path, the placeholder, no error. */
  function MissingEntry(): (c: ImageCache)
    ensures c.path.None? && c.emsg.None? && c.image.width == 1 && c.image.height == 1
  {
    ImageCache(None, Placeholder(), None)
  }
}
