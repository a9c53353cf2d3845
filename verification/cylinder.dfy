/** The tapered segment every group draws: a cylinder whose top radius is the
    given radius, whose bottom radius is 1.2 times that, which is lifted by half
    its length so that it runs from 0 to its length along its own axis, and
    whose colour is the palette entry of its level. */
module Cylinders {
  import opened Options
  import opened Palette

  /** Radial segments of every cylinder. */
  const SegmentNumber: nat := 32
  /** Bottom radius over top radius. */
  const Taper: real := 1.2

  datatype Cylinder = Cylinder(
    topRadius: real,
    bottomRadius: real,
    height: real,
    radialSegments: nat,
    colorLevel: int,
    color: Option<int>,
    lift: real,    // translation along the cylinder's own axis
    tilted: bool   // the 60 degree rotation about X applied after the lift
  )
  {
    /** Lowest point on the axis: the geometry is centred before the lift. */
    function Base(): real { lift - height / 2.0 }
    /** Highest point on the axis. */
    function Tip(): real { lift + height / 2.0 }
  }

  /** A fresh, untilted cylinder of the given radius, length and level. */
  function NewCylinder(radius: real, length: real, colorLevel: int): (c: Cylinder)
    ensures c.Base() == 0.0 && c.Tip() == length && c.height == length
    ensures c.topRadius == radius && c.bottomRadius == Taper * radius
    ensures c.colorLevel == colorLevel
    ensures c.color == PaletteColor(colorLevel)
    ensures c.color.Some? <==> 1 <= colorLevel <= 6
    ensures c.color.Some? ==> c.color.value == LevelColor[colorLevel - 1]
    ensures c.radialSegments == SegmentNumber
    ensures !c.tilted
  {
    Cylinder(radius, radius * Taper, length, SegmentNumber, colorLevel, PaletteColor(colorLevel), length / 2.0, false)
  }
}
