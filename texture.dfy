/**
 * The backend's texture object (`Texture::new`): a texture descriptor's
 * format gives the bytes per pixel, the size and dimension are taken over,
 * and a zero-filled byte buffer for every pixel of every layer is allocated.
 */
module Textures {
  import opened Wrappers

  newtype u32 = x: int | 0 <= x < 0x1_0000_0000

  /** The largest `isize` on a 64-bit target: a `Layout` must not round up past it. */
  const IsizeMax: nat := 0x7FFF_FFFF_FFFF_FFFF

  /**
   * The texture formats of `wgpu_types`. The formats the backend gives a
   * pixel width are listed one by one, with the 32-bit-depth-and-stencil
   * format; every other format (the block-compressed families among them),
   * none of which the backend supports, is one variant numbered by `id`.
   */
  datatype TextureFormat =
    | R8Unorm | R8Snorm | R8Uint | R8Sint
    | R16Uint | R16Sint | R16Unorm | R16Snorm | R16Float
    | Rg8Unorm | Rg8Snorm | Rg8Uint | Rg8Sint
    | R32Uint | R32Sint | R32Float
    | Rg16Uint | Rg16Sint | Rg16Unorm | Rg16Snorm | Rg16Float
    | Rgba8Unorm | Rgba8UnormSrgb | Rgba8Snorm | Rgba8Uint | Rgba8Sint
    | Bgra8Unorm | Bgra8UnormSrgb
    | Rgb9e5Ufloat | Rgb10a2Uint | Rgb10a2Unorm | Rg11b10Float
    | Rg32Uint | Rg32Sint | Rg32Float
    | Rgba16Uint | Rgba16Sint | Rgba16Unorm | Rgba16Snorm | Rgba16Float
    | Rgba32Uint | Rgba32Sint | Rgba32Float
    | Stencil8 | Depth16Unorm | Depth24Plus | Depth24PlusStencil8 | Depth32Float | Depth32FloatStencil8
    | Other(id: nat)

  datatype TextureDimension = D1 | D2 | D3

  datatype Extent3d = Extent3d(width: u32, height: u32, depthOrArrayLayers: u32)

  /** The parts of a texture descriptor `Texture::new` reads. */
  datatype TextureDescriptor = TextureDescriptor(size: Extent3d, dimension: TextureDimension, format: TextureFormat)

  datatype Texture = Texture(size: Extent3d, dimension: TextureDimension, pixelSize: nat, data: seq<bv8>)

  /**
   * The result of `Texture::new`: the texture, the `Unsupported` error, the
   * panic of an overflowing buffer length, the panic of unwrapping a buffer
   * layout whose size does not fit in `isize`, or a zero-sized allocation
   * (undefined behaviour of `alloc_zeroed`).
   */
  datatype Created = Created(texture: Texture) | Unsupported | OverflowPanic | LayoutPanic | ZeroSizedAlloc

  /** The bytes per pixel of `format`, or `None` for a format the backend does not support. */
  function PixelWidth(format: TextureFormat): (r: Option<nat>)
    ensures r.Some? ==> r.value in {1, 2, 4, 8, 16}
  {
    match format
    case R8Unorm | R8Snorm | R8Uint | R8Sint | Stencil8 => Some(1)
    case R16Uint | R16Sint | R16Unorm | R16Snorm | R16Float
       | Rg8Unorm | Rg8Snorm | Rg8Uint | Rg8Sint | Depth16Unorm => Some(2)
    case R32Uint | R32Sint | R32Float
       | Rg16Uint | Rg16Sint | Rg16Unorm | Rg16Snorm | Rg16Float
       | Rgba8Unorm | Rgba8UnormSrgb | Rgba8Snorm | Rgba8Uint | Rgba8Sint
       | Bgra8Unorm | Bgra8UnormSrgb
       | Rgb9e5Ufloat | Rgb10a2Uint | Rgb10a2Unorm | Rg11b10Float
       | Depth24Plus | Depth24PlusStencil8 | Depth32Float => Some(4)
    case Rg32Uint | Rg32Sint | Rg32Float
       | Rgba16Uint | Rgba16Sint | Rgba16Unorm | Rgba16Snorm | Rgba16Float => Some(8)
    case Rgba32Uint | Rgba32Sint | Rgba32Float => Some(16)
    case _ => None
  }

  /** The byte length of the buffer: pixel width times width, height and layers. */
  function BufferLength(pixelWidth: nat, size: Extent3d): nat
  {
    pixelWidth * size.width as nat * size.height as nat * size.depthOrArrayLayers as nat
  }

  /** One more than the largest `usize` on a 64-bit target. */
  const UsizeLimit: nat := 0x1_0000_0000_0000_0000

  /**
   * The `usize` product `pixel_width * width * height * layers`, evaluated
   * from the left, overflows at one of its three multiplications.
   */
  predicate LengthOverflows(pixelWidth: nat, size: Extent3d)
  {
    || pixelWidth * size.width as nat >= UsizeLimit
    || pixelWidth * size.width as nat * size.height as nat >= UsizeLimit
    || BufferLength(pixelWidth, size) >= UsizeLimit
  }

  /**
   * `Layout::from_size_align(length, align)` succeeds when `length` rounded up
   * to the power-of-two `align` does not exceed `isize::MAX`.
   */
  predicate LayoutFits(length: nat, align: nat)
  {
    align >= 1 && length <= IsizeMax - (align - 1)
  }

  /**
   * `Texture::new`: an unsupported format fails before anything else; the
   * buffer length is a checked `usize` product, its layout must fit `isize`,
   * and a zero-sized layout reaches `alloc_zeroed`, whose behaviour is then
   * undefined. Otherwise a texture with more than one layer is
   * three-dimensional, any other keeps the descriptor's dimension, and the
   * buffer is allocated zeroed.
   */
  function NewTexture(desc: TextureDescriptor): (r: Created)
    ensures r.Unsupported? <==> PixelWidth(desc.format).None?
    ensures r.OverflowPanic? <==>
              PixelWidth(desc.format).Some? && LengthOverflows(PixelWidth(desc.format).value, desc.size)
    ensures r.LayoutPanic? <==>
              && PixelWidth(desc.format).Some?
              && !LengthOverflows(PixelWidth(desc.format).value, desc.size)
              && !LayoutFits(BufferLength(PixelWidth(desc.format).value, desc.size), PixelWidth(desc.format).value)
    ensures r.ZeroSizedAlloc? <==>
              && PixelWidth(desc.format).Some?
              && !LengthOverflows(PixelWidth(desc.format).value, desc.size)
              && (desc.size.width == 0 || desc.size.height == 0 || desc.size.depthOrArrayLayers == 0)
  {
    match PixelWidth(desc.format)
    case None => Unsupported
    case Some(pixelWidth) =>
      if LengthOverflows(pixelWidth, desc.size) then OverflowPanic
      else
        var length := BufferLength(pixelWidth, desc.size);
        ZeroLength(pixelWidth, desc.size);
        if !LayoutFits(length, pixelWidth) then LayoutPanic
        else if length == 0 then ZeroSizedAlloc
        else
          Created(Texture(
            desc.size,
            if desc.size.depthOrArrayLayers > 1 then D3 else desc.dimension,
            pixelWidth,
            Zeroed(length)))
  }

  /** The buffer length is zero exactly when one of the extents is (pixel widths are positive). */
  lemma ZeroLength(pixelWidth: nat, size: Extent3d)
    requires pixelWidth > 0
    ensures BufferLength(pixelWidth, size) == 0 <==>
              size.width == 0 || size.height == 0 || size.depthOrArrayLayers == 0
  {
    var w, h, d := size.width as nat, size.height as nat, size.depthOrArrayLayers as nat;
    if w > 0 && h > 0 && d > 0 {
      PositiveProduct(pixelWidth, w, h, d);
    }
  }

  /** `alloc_zeroed`: a buffer of `length` zero bytes. */
  function Zeroed(length: nat): (r: seq<bv8>)
    ensures |r| == length && forall i :: 0 <= i < length ==> r[i] == 0
  {
    seq(length, _ => 0)
  }

  /*
   * The five lemmas below read the width table backwards: for each width,
   * exactly which formats have it. They are the inverse view of `PixelWidth`;
   * its independent check is `PixelWidthOfChannels` further down.
   */

  /** The formats of one byte per pixel. */
  lemma OneBytePixels(format: TextureFormat)
    ensures PixelWidth(format) == Some(1) <==> format in {R8Unorm, R8Snorm, R8Uint, R8Sint, Stencil8}
  {
  }

  /** The formats of two bytes per pixel. */
  lemma TwoBytePixels(format: TextureFormat)
    ensures PixelWidth(format) == Some(2) <==>
              format in {R16Uint, R16Sint, R16Unorm, R16Snorm, R16Float,
                              Rg8Unorm, Rg8Snorm, Rg8Uint, Rg8Sint, Depth16Unorm}
  {
  }

  /** The formats of four bytes per pixel. */
  lemma FourBytePixels(format: TextureFormat)
    ensures PixelWidth(format) == Some(4) <==>
              format in {R32Uint, R32Sint, R32Float, Rg16Uint, Rg16Sint, Rg16Unorm, Rg16Snorm, Rg16Float,
                              Rgba8Unorm, Rgba8UnormSrgb, Rgba8Snorm, Rgba8Uint, Rgba8Sint, Bgra8Unorm, Bgra8UnormSrgb,
                              Rgb9e5Ufloat, Rgb10a2Uint, Rgb10a2Unorm, Rg11b10Float,
                              Depth24Plus, Depth24PlusStencil8, Depth32Float}
  {
  }

  /** The formats of eight and of sixteen bytes per pixel. */
  lemma WidePixels(format: TextureFormat)
    ensures PixelWidth(format) == Some(8) <==>
              format in {Rg32Uint, Rg32Sint, Rg32Float, Rgba16Uint, Rgba16Sint, Rgba16Unorm, Rgba16Snorm, Rgba16Float}
    ensures PixelWidth(format) == Some(16) <==> format in {Rgba32Uint, Rgba32Sint, Rgba32Float}
  {
  }

  /** The combined depth-stencil format with a 32-bit depth and all other formats are not supported. */
  lemma UnsupportedFormats(format: TextureFormat)
    ensures PixelWidth(format).None? <==> format == Depth32FloatStencil8 || format.Other?
  {
  }

  /**
   * Reference: the channels of a format whose channels all have the same
   * width, as (number of channels, bytes per channel). Packed, combined
   * depth-stencil and compressed formats have none.
   */
  function ChannelLayout(format: TextureFormat): Option<(nat, nat)>
  {
    match format
    case R8Unorm | R8Snorm | R8Uint | R8Sint | Stencil8 => Some((1, 1))
    case Rg8Unorm | Rg8Snorm | Rg8Uint | Rg8Sint => Some((2, 1))
    case Rgba8Unorm | Rgba8UnormSrgb | Rgba8Snorm | Rgba8Uint | Rgba8Sint | Bgra8Unorm | Bgra8UnormSrgb => Some((4, 1))
    case R16Uint | R16Sint | R16Unorm | R16Snorm | R16Float | Depth16Unorm => Some((1, 2))
    case Rg16Uint | Rg16Sint | Rg16Unorm | Rg16Snorm | Rg16Float => Some((2, 2))
    case Rgba16Uint | Rgba16Sint | Rgba16Unorm | Rgba16Snorm | Rgba16Float => Some((4, 2))
    case R32Uint | R32Sint | R32Float | Depth32Float => Some((1, 4))
    case Rg32Uint | Rg32Sint | Rg32Float => Some((2, 4))
    case Rgba32Uint | Rgba32Sint | Rgba32Float => Some((4, 4))
    case _ => None
  }

  /** A format with equal-width channels takes its channel count times the channel width per pixel. */
  lemma PixelWidthOfChannels(format: TextureFormat)
    requires ChannelLayout(format).Some?
    ensures PixelWidth(format) == Some(ChannelLayout(format).value.0 * ChannelLayout(format).value.1)
  {
  }

  /**
   * A created texture keeps the descriptor's size, takes the format's pixel
   * width as its pixel size, is three-dimensional exactly when it has more
   * than one layer or the descriptor says so, and holds one zero byte per byte
   * of every pixel of every layer; its extents are all positive.
   */
  lemma CreatedTexture(desc: TextureDescriptor)
    requires NewTexture(desc).Created?
    ensures var t := NewTexture(desc).texture;
            && PixelWidth(desc.format) == Some(t.pixelSize)
            && t.size == desc.size
            && (t.dimension == D3 <==> desc.size.depthOrArrayLayers > 1 || desc.dimension == D3)
            && (desc.size.depthOrArrayLayers <= 1 ==> t.dimension == desc.dimension)
            && |t.data| == t.pixelSize * desc.size.width as nat * desc.size.height as nat * desc.size.depthOrArrayLayers as nat
            && forall i :: 0 <= i < |t.data| ==> t.data[i] == 0
    ensures var t := NewTexture(desc).texture;
            |t.data| > 0 && desc.size.width > 0 && desc.size.height > 0 && desc.size.depthOrArrayLayers > 0
  {
    ZeroLength(PixelWidth(desc.format).value, desc.size);
  }

  /** The buffer is one run of `width * height` pixels per layer. */
  lemma {:induction false} LayerLength(pixelWidth: nat, size: Extent3d)
    ensures BufferLength(pixelWidth, size)
              == size.depthOrArrayLayers as nat * (pixelWidth * size.width as nat * size.height as nat)
  {
    var layer := pixelWidth * size.width as nat * size.height as nat;
    assert BufferLength(pixelWidth, size) == layer * size.depthOrArrayLayers as nat;
  }

  /**
   * A supported texture whose width, height and layer count are each between
   * 1 and 2^16 - 1 is created: its buffer length neither overflows nor
   * exceeds the layout bound (it stays below 2^52 bytes), and is not zero.
   */
  lemma {:induction false} SmallTexturesFit(desc: TextureDescriptor)
    requires PixelWidth(desc.format).Some?
    requires 0 < desc.size.width < 0x1_0000 && 0 < desc.size.height < 0x1_0000
    requires 0 < desc.size.depthOrArrayLayers < 0x1_0000
    ensures NewTexture(desc).Created?
  {
    var pw := PixelWidth(desc.format).value;
    var w, h, d := desc.size.width as nat, desc.size.height as nat, desc.size.depthOrArrayLayers as nat;
    ProductBound(pw, 16, w, 0x1_0000);
    ProductBound(pw * w, 16 * 0x1_0000, h, 0x1_0000);
    ProductBound(pw * w * h, 16 * 0x1_0000 * 0x1_0000, d, 0x1_0000);
    assert BufferLength(pw, desc.size) <= 16 * 0x1_0000 * 0x1_0000 * 0x1_0000;
    PositiveProduct(pw, w, h, d);
  }

  lemma PositiveProduct(a: nat, b: nat, c: nat, d: nat)
    requires a > 0 && b > 0 && c > 0 && d > 0
    ensures a * b * c * d > 0
  {
    assert a * b > 0;
    assert a * b * c > 0;
  }

  /**
   * The largest extent of a 16-byte format overflows the `usize` length:
   * `16 * (2^32 - 1)^3` is beyond 2^64.
   */
  lemma {:induction false} LargestExtentOverflows(format: TextureFormat)
    requires PixelWidth(format) == Some(16)
    ensures var max := Extent3d(0xFFFF_FFFF, 0xFFFF_FFFF, 0xFFFF_FFFF);
            NewTexture(TextureDescriptor(max, D2, format)).OverflowPanic?
  {
    var max := Extent3d(0xFFFF_FFFF, 0xFFFF_FFFF, 0xFFFF_FFFF);
    assert 16 * 0xFFFF_FFFF * 0xFFFF_FFFF >= UsizeLimit;
    assert LengthOverflows(16, max);
  }

  lemma ProductBound(a: nat, a': nat, b: nat, b': nat)
    requires a <= a' && b <= b'
    ensures a * b <= a' * b'
  {
    assert a * b <= a' * b;
  }
}
