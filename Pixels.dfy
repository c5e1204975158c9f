/** The decoded image as plain data: a width x height grid of RGBA byte quadruples. */
module Pixels {
  import opened Types

  /** One pixel of an `image::Rgba<u8>`: red, green, blue and alpha channels. */
  datatype Rgba = Rgba(r: Byte, g: Byte, b: Byte, a: Byte)

  /** An image of `width` columns and `height` rows; `rows[y][x]` is the pixel at column x of row y. */
  datatype Image = Image(width: nat, height: nat, rows: seq<seq<Rgba>>) {

    /** The grid really has the stated dimensions. */
    predicate Valid() {
      |rows| == height && forall y :: 0 <= y < |rows| ==> |rows[y]| == width
    }

    /** `get_pixel(x, y)`; the image library panics outside the grid, so the caller must stay inside. */
    function Pixel(x: nat, y: nat): Rgba
      requires Valid() && x < width && y < height
    {
      rows[y][x]
    }
  }

  /** A pixel is empty (no voxel) exactly when its alpha channel is zero. */
  predicate IsEmptyPixel(pixel: Rgba) {
    pixel.a == 0
  }
}
