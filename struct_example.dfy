/** The rectangle-area walkthrough: the same `u32` product written three
    ways, on two loose parameters, on a `(u32, u32)` tuple and on a
    `Rectangle` struct. */
module StructExample {
  import opened RustPrelude

  datatype Rectangle = Rectangle(width: u32, height: u32)

  /** `area`: the product of the two sides, defined when it fits in `u32`. */
  function Area(width: u32, height: u32): u32
    requires MulFitsU32(width, height)
  {
    width * height
  }

  /** `area_tuple`: the sides read off the tuple by position. */
  function AreaTuple(dimensions: (u32, u32)): (a: u32)
    requires MulFitsU32(dimensions.0, dimensions.1)
    ensures a == Area(dimensions.0, dimensions.1)
  {
    dimensions.0 * dimensions.1
  }

  /** `area_struct`: the sides read off the struct by name. */
  function AreaStruct(rect: Rectangle): (a: u32)
    requires MulFitsU32(rect.width, rect.height)
    ensures a == Area(rect.width, rect.height)
  {
    rect.width * rect.height
  }

  /** Swapping the sides changes neither whether the area fits nor the
      area. */
  lemma AreaSymmetric(width: u32, height: u32)
    requires MulFitsU32(width, height)
    ensures MulFitsU32(height, width) && Area(width, height) == Area(height, width)
  {
  }

  /** The area is 0 exactly when one side is 0. */
  lemma AreaZeroIff(width: u32, height: u32)
    requires MulFitsU32(width, height)
    ensures Area(width, height) == 0 <==> width == 0 || height == 0
  {
    if width != 0 && height != 0 {
      assert width as int * height as int >= width as int;
    }
  }

  /** Growing the sides never shrinks the area; a rectangle inside one whose
      area fits has an area that fits too. */
  lemma AreaMonotone(width: u32, height: u32, width': u32, height': u32)
    requires width <= width' && height <= height'
    requires MulFitsU32(width', height')
    ensures MulFitsU32(width, height)
    ensures Area(width, height) <= Area(width', height')
  {
    assert width as int * height as int <= width as int * height' as int <= width' as int * height' as int;
  }

  /** The three calls in `main`: `area(50, 30)` and `area_tuple((50, 30))` are 1500, and the
      30 by 30 struct has area 900. */
  lemma AreaExamples()
    ensures Area(50, 30) == 1500
    ensures AreaTuple((50, 30)) == 1500
    ensures AreaStruct(Rectangle(30, 30)) == 900
  {
  }
}
