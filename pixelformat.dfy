/**
 The translation `setImageRaw` makes from the video library's pixel formats
 to the detector's: each supported video format selects one detector
 format and the number of bytes a pixel occupies.
 */
module PixelFormat {
  import opened Wrappers

  /** The video formats the switch distinguishes; every other format is `OtherFormat`. */
  datatype VideoFormat =
    | RGB24 | BGR24 | BGRA32 | RGBA32 | ARGB32 | ABGR32 | YUV422 | Y8 | GREY8
    | OtherFormat(code: int)

  /** The detector's pixel formats that the switch can select. */
  datatype ArPixelFormat = ArRGB | ArBGR | ArBGRA | ArRGBA | ArARGB | ArABGR | Ar2vuy | ArMono

  /** One translation: the detector format and its bytes per pixel. */
  datatype Translation = Translation(format: ArPixelFormat, pixelSize: nat)

  /** The switch of `setImageRaw`; None is its `default:` branch, which changes nothing. */
  function Translate(f: VideoFormat): (r: Option<Translation>)
    ensures r.None? <==> f.OtherFormat?
  {
    match f
    case RGB24 => Some(Translation(ArRGB, 3))
    case BGR24 => Some(Translation(ArBGR, 3))
    case BGRA32 => Some(Translation(ArBGRA, 4))
    case RGBA32 => Some(Translation(ArRGBA, 4))
    case ARGB32 => Some(Translation(ArARGB, 4))
    case ABGR32 => Some(Translation(ArABGR, 4))
    case YUV422 => Some(Translation(Ar2vuy, 2))
    case Y8 => Some(Translation(ArMono, 1))
    case GREY8 => Some(Translation(ArMono, 1))
    case OtherFormat(_) => None
  }

  /** Bits per pixel of each supported video format, as its name gives it (YUV 4:2:2 averages 16). */
  function BitsPerPixel(f: VideoFormat): nat
    requires !f.OtherFormat?
  {
    match f
    case RGB24 => 24
    case BGR24 => 24
    case BGRA32 => 32
    case RGBA32 => 32
    case ARGB32 => 32
    case ABGR32 => 32
    case YUV422 => 16
    case Y8 => 8
    case GREY8 => 8
  }

  /** Number of colour channels a detector format stores per pixel. */
  function Channels(p: ArPixelFormat): nat
  {
    match p
    case ArRGB => 3
    case ArBGR => 3
    case ArBGRA => 4
    case ArRGBA => 4
    case ArARGB => 4
    case ArABGR => 4
    case Ar2vuy => 2
    case ArMono => 1
  }

  /**
   Every translation is consistent: the size in bytes is the video format's
   bits per pixel divided by eight, and the detector format stores that
   many one-byte channels.
   */
  lemma TranslationSizes(f: VideoFormat)
    requires !f.OtherFormat?
    ensures Translate(f).Some?
    ensures Translate(f).value.pixelSize * 8 == BitsPerPixel(f)
    ensures Translate(f).value.pixelSize == Channels(Translate(f).value.format)
  {
  }

  /** The two grey formats are the only two video formats that share a detector format. */
  lemma TranslationInjective(f: VideoFormat, g: VideoFormat)
    requires Translate(f).Some? && Translate(g).Some?
    requires Translate(f).value.format == Translate(g).value.format
    ensures f == g || ({f, g} == {Y8, GREY8})
  {
  }
}
