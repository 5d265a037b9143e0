/**
 * The depth-to-image encoder of the vision service: a 16-bit depth frame read
 * from a `ShortBuffer` becomes a bitmap with the high byte of each unsigned
 * sample in the red channel, the low byte in green, blue 0 and alpha 255, so that
 * `depth_mm = red * 256 + green` recovers the sample.
 */
module GeminiVlmService {
  import opened Jvm
  import opened Raster

  /** A `java.nio.ShortBuffer` over fixed contents: the samples, a position and a limit. */
  class ShortBuffer {
    const data: array<Short>
    var position: nat
    var limit: nat

    ghost predicate Valid()
      reads this
    {
      position <= limit <= data.Length
    }

    constructor (data: array<Short>)
      ensures Valid() && this.data == data && position == 0 && limit == data.Length
    {
      this.data := data;
      position := 0;
      limit := data.Length;
    }

    function Remaining(): (n: int)
      reads this
      requires Valid()
      ensures n >= 0 && position + n == limit
    {
      limit - position
    }

    /** `position(newPosition)`. */
    method SetPosition(newPosition: nat)
      requires newPosition <= limit
      modifies this
      ensures position == newPosition && limit == old(limit)
    {
      position := newPosition;
    }

    /** `get(dst, 0, length)`: copies the next `length` samples and advances the position. */
    method GetInto(dst: array<Short>, length: nat)
      requires Valid() && length <= Remaining() && length <= dst.Length && dst != data
      modifies this, dst
      ensures Valid() && position == old(position) + length && limit == old(limit)
      ensures dst[..length] == data[old(position)..position]
    {
      var i := 0;
      while i < length
        invariant 0 <= i <= length && position == old(position) + i && limit == old(limit)
        invariant dst[..i] == data[old(position)..position]
      {
        dst[i] := data[position];
        assert dst[..i + 1] == dst[..i] + [dst[i]];
        position := position + 1;
        i := i + 1;
      }
    }
  }

  /** An ARGB pixel, one byte per channel. */
  datatype Color = Color(alpha: nat, red: nat, green: nat, blue: nat)

  /** The pixel a sample becomes: red = `(v shr 8) and 0xFF`, green = `v and 0xFF`, blue 0, opaque. */
  function EncodeDepth(s: Short): (c: Color)
    ensures c.alpha == 255 && c.blue == 0 && c.red < 256 && c.green < 256
  {
    var depthValue := U16(s);
    Color(255, (depthValue / 256) % 256, depthValue % 256, 0)
  }

  /** The decoding rule in the file's commented-out prompt text (`utils/GeminiVlmService.kt:174`): `depth_mm = Red * 256 + Green`. */
  function DecodeDepth(c: Color): nat {
    c.red * 256 + c.green
  }

  /** Decoding a pixel gives back the unsigned sample. */
  lemma EncodeDecodeRoundTrip(s: Short)
    ensures DecodeDepth(EncodeDepth(s)) == U16(s)
  {
    var v := U16(s);
    assert (v / 256) % 256 == v / 256;
  }

  /** `depthBufferToEncodedRgbBitmap`: `null` for a missing buffer, a non-positive size, or
      fewer than `width * height` remaining samples; otherwise the encoded image, pixel
      `(x, y)` from sample `RowStart(y, width) + x` (that is, `y * width + x`) after the
      position. The buffer position is the same afterwards in every case. */
  method DepthBufferToEncodedRgbBitmap(depthBuffer: ShortBuffer?, width: int, height: int)
    returns (bitmap: array2?<Color>)
    requires depthBuffer != null ==> depthBuffer.Valid()
    requires width > 0 && height > 0 ==> width * height <= INT_MAX
    modifies depthBuffer
    ensures depthBuffer != null ==>
      (depthBuffer.Valid() && depthBuffer.position == old(depthBuffer.position)
       && depthBuffer.limit == old(depthBuffer.limit))
    ensures bitmap == null <==>
      depthBuffer == null || width <= 0 || height <= 0 || old(depthBuffer.Remaining()) < width * height
    ensures bitmap != null ==> fresh(bitmap) && bitmap.Length0 == width && bitmap.Length1 == height
    ensures bitmap != null ==> forall x, y | 0 <= x < width && 0 <= y < height ::
      depthBuffer.position + RowStart(y, width) + x < depthBuffer.data.Length
      && bitmap[x, y] == EncodeDepth(depthBuffer.data[depthBuffer.position + RowStart(y, width) + x])
  {
    if depthBuffer == null || width <= 0 || height <= 0 {
      return null;
    }
    bitmap := new Color[width, height];
    var originalPosition := depthBuffer.position;
    if depthBuffer.Remaining() < width * height {
      depthBuffer.SetPosition(originalPosition);
      return null;
    }
    var depthArray := new Short[width * height];
    depthBuffer.GetInto(depthArray, width * height);
    depthBuffer.SetPosition(originalPosition);
    RowStartIsProduct(height, width);
    EncodePixels(bitmap, depthArray, width, height);
    forall x, y | 0 <= x < width && 0 <= y < height
      ensures originalPosition + RowStart(y, width) + x < depthBuffer.data.Length
      ensures bitmap[x, y] == EncodeDepth(depthBuffer.data[originalPosition + RowStart(y, width) + x])
    {
      var i := RowStart(y, width) + x;
      var pixel := bitmap[x, y];
      assert i < depthArray.Length && pixel == EncodeDepth(depthArray[i]);
      assert depthArray[i] == depthArray[..width * height][i];
    }
  }

  /** The pixel loops: pixel `(x, y)` is the encoding of the sample at `RowStart(y) + x`. */
  method EncodePixels(bitmap: array2<Color>, depthArray: array<Short>, width: nat, height: nat)
    requires bitmap.Length0 == width && bitmap.Length1 == height && depthArray.Length == RowStart(height, width)
    modifies bitmap
    ensures forall x, y | 0 <= x < width && 0 <= y < height ::
      RowStart(y, width) + x < depthArray.Length && bitmap[x, y] == EncodeDepth(depthArray[RowStart(y, width) + x])
  {
    AllRowsInside(height, width);
    for y := 0 to height
      invariant forall xx, yy | 0 <= xx < width && 0 <= yy < y ::
        bitmap[xx, yy] == EncodeDepth(depthArray[RowStart(yy, width) + xx])
    {
      EncodeRow(bitmap, depthArray, y, RowStart(y, width));
    }
  }

  /** One row of the pixel loops; the other rows are left as they are. */
  method EncodeRow(bitmap: array2<Color>, depthArray: array<Short>, y: nat, rowStart: nat)
    requires y < bitmap.Length1 && rowStart + bitmap.Length0 <= depthArray.Length
    modifies bitmap
    ensures forall xx | 0 <= xx < bitmap.Length0 :: bitmap[xx, y] == EncodeDepth(depthArray[rowStart + xx])
    ensures forall xx, yy | 0 <= xx < bitmap.Length0 && 0 <= yy < bitmap.Length1 && yy != y ::
      bitmap[xx, yy] == old(bitmap[xx, yy])
  {
    for x := 0 to bitmap.Length0
      invariant forall xx | 0 <= xx < x :: bitmap[xx, y] == EncodeDepth(depthArray[rowStart + xx])
      invariant forall xx, yy | 0 <= xx < bitmap.Length0 && 0 <= yy < bitmap.Length1 && yy != y ::
        bitmap[xx, yy] == old(bitmap[xx, yy])
    {
      var depthIndex := rowStart + x;
      var depthValue := U16(depthArray[depthIndex]);
      var red := (depthValue / 256) % 256;
      var green := depthValue % 256;
      var blue := 0;
      bitmap[x, y] := Color(255, red, green, blue);
    }
  }
}
