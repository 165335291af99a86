/**
 Guest color render-target formats and the EDRAM store's 64-bits-per-pixel
 classification of them.
 */
module Formats {

  /** The guest's color render-target formats, named by their channel widths
      (the enumeration `ColorRenderTargetFormat`). A scoped enumeration holds
      every value of its underlying type, so `Unrecognized` stands for any
      value that is none of the named enumerators. */
  datatype ColorRenderTargetFormat =
    | Format8_8_8_8
    | Format8_8_8_8Gamma
    | Format2_10_10_10
    | Format2_10_10_10Float
    | Format16_16
    | Format16_16_16_16
    | Format16_16Float
    | Format16_16_16_16Float
    | Format2_10_10_10Unknown
    | Format2_10_10_10FloatUnknown
    | Format32Float
    | Format32_32Float
    | Unrecognized(value: nat)

  /** Whether the format is 64 bits per pixel on the guest
      (`EDRAMStore::IsColorFormat64bpp`). */
  predicate IsColorFormat64bpp(format: ColorRenderTargetFormat) {
    || format == Format16_16_16_16
    || format == Format16_16_16_16Float
    || format == Format32_32Float
  }

  /** Whether the format is one of the named enumerators. */
  predicate IsNamed(format: ColorRenderTargetFormat) {
    !format.Unrecognized?
  }

  /** The bit widths of the format's channels, read off its name; an
      unrecognized value has no known channels. */
  function ChannelBits(format: ColorRenderTargetFormat): (bits: seq<nat>)
    ensures IsNamed(format) <==> 1 <= |bits| <= 4
  {
    match format
    case Format8_8_8_8 => [8, 8, 8, 8]
    case Format8_8_8_8Gamma => [8, 8, 8, 8]
    case Format2_10_10_10 => [2, 10, 10, 10]
    case Format2_10_10_10Float => [2, 10, 10, 10]
    case Format16_16 => [16, 16]
    case Format16_16_16_16 => [16, 16, 16, 16]
    case Format16_16Float => [16, 16]
    case Format16_16_16_16Float => [16, 16, 16, 16]
    case Format2_10_10_10Unknown => [2, 10, 10, 10]
    case Format2_10_10_10FloatUnknown => [2, 10, 10, 10]
    case Format32Float => [32]
    case Format32_32Float => [32, 32]
    case Unrecognized(_) => []
  }

  /** Sum of a sequence of widths. */
  function Sum(s: seq<nat>): nat {
    if s == [] then 0 else s[0] + Sum(s[1..])
  }

  /** Bits one pixel of the format occupies: the sum of its channel widths. */
  function BitsPerPixel(format: ColorRenderTargetFormat): nat {
    Sum(ChannelBits(format))
  }

  /** Exactly three formats are 64 bits per pixel: 16_16_16_16, its float
      variant and 32_32_FLOAT; every other format is not. */
  lemma Only64bppFormats(format: ColorRenderTargetFormat)
    ensures IsColorFormat64bpp(format)
        <==> format in {Format16_16_16_16, Format16_16_16_16Float, Format32_32Float}
  {
  }

  /** The classification agrees with the channel widths: a format is 64 bits
      per pixel exactly when its channels add up to 64 bits, every other
      named format's channels add up to 32 bits, and an unrecognized value is
      never 64 bits per pixel. */
  lemma Is64bppMatchesChannelWidths(format: ColorRenderTargetFormat)
    ensures IsColorFormat64bpp(format) <==> BitsPerPixel(format) == 64
    ensures IsNamed(format) && !IsColorFormat64bpp(format) ==> BitsPerPixel(format) == 32
    ensures !IsNamed(format) ==> !IsColorFormat64bpp(format)
  {
  }
}
