/** The `Rectangle` of the method-syntax walkthrough: `area` and `can_hold`
    as methods on `&self`, and `square` as an associated function. */
module RectangleMethods {
  import opened RustPrelude
  import StructExample

  datatype Rectangle = Rectangle(width: u32, height: u32) {
    /** `self.width * self.height` neither panics nor wraps. */
    predicate AreaFits() {
      MulFitsU32(width, height)
    }

    /** `area`. */
    function Area(): u32
      requires AreaFits()
    {
      width * height
    }

    /** `can_hold`: `other` fits strictly inside `self`, in both
        directions. */
    predicate CanHold(other: Rectangle) {
      width > other.width && height > other.height
    }

    /** `Rectangle::square`: width and height both `size`. */
    static function Square(size: u32): (r: Rectangle)
      ensures r.width == size && r.height == size
    {
      Rectangle(size, size)
    }
  }

  /** The method computes what the free function of the struct walkthrough
      computes: the refactoring into `impl Rectangle` keeps the area. */
  lemma AreaAgreesWithFunction(r: Rectangle)
    requires r.AreaFits()
    ensures r.Area() == StructExample.Area(r.width, r.height)
    ensures r.Area() == StructExample.AreaStruct(StructExample.Rectangle(r.width, r.height))
  {
  }

  /** No rectangle holds itself. */
  lemma CanHoldIrreflexive(r: Rectangle)
    ensures !r.CanHold(r)
  {
  }

  /** Two rectangles never hold each other. */
  lemma CanHoldAsymmetric(a: Rectangle, b: Rectangle)
    requires a.CanHold(b)
    ensures !b.CanHold(a)
  {
  }

  /** Holding is transitive. */
  lemma CanHoldTransitive(a: Rectangle, b: Rectangle, c: Rectangle)
    requires a.CanHold(b) && b.CanHold(c)
    ensures a.CanHold(c)
  {
  }

  /** A rectangle that holds another has a strictly larger area, and when
      its own area is a `u32` so is the other's. */
  lemma CanHoldShrinksArea(a: Rectangle, b: Rectangle)
    requires a.CanHold(b) && a.AreaFits()
    ensures b.AreaFits() && b.Area() < a.Area()
  {
    StructExample.AreaMonotone(b.width, b.height, a.width, a.height);
    assert b.width as int * b.height as int <= b.width as int * a.height as int;
    assert b.width as int * a.height as int < a.width as int * a.height as int;
  }

  /** The area of `square(size)` is `size * size`. */
  lemma SquareArea(size: u32)
    requires MulFitsU32(size, size)
    ensures Rectangle.Square(size).AreaFits()
    ensures Rectangle.Square(size).Area() as int == size as int * size as int
  {
  }

  /** Of two squares, the larger holds the smaller, and only it. */
  lemma SquareCanHoldIff(a: u32, b: u32)
    ensures Rectangle.Square(a).CanHold(Rectangle.Square(b)) <==> a > b
  {
  }

  /** The rectangles of `main`: the 50 by 30 `rect1` has area 1500, holds the 40 by 20
      `rect2` but not the 50 by 60 `rect3` (nor does `rect3` hold it), and
      `square(30)` is 30 by 30 with area 900. */
  lemma RectangleExamples()
    ensures Rectangle(50, 30).Area() == 1500
    ensures Rectangle(50, 30).CanHold(Rectangle(40, 20))
    ensures !Rectangle(50, 30).CanHold(Rectangle(50, 60))
    ensures !Rectangle(50, 60).CanHold(Rectangle(50, 30))
    ensures Rectangle.Square(30) == Rectangle(30, 30) && Rectangle.Square(30).Area() == 900
  {
  }
}
