/** The recursive tree generator. A group of depth <= 1 is a leaf holding one
    tilted cylinder and its depth as user data; a deeper group holds an
    untilted trunk cylinder and branchNumber child subtrees, built one
    generation down with half the length and 0.4 of the radius, appended
    for slot i = branchNumber down to 1 and translated i / branchNumber of the
    way up the trunk. Every inner group except one whose depth equals the
    root level is tilted 60 degrees about X; a leaf group is never tilted
    itself, its cylinder is. */
module Branches {
  import opened Options
  import opened Cylinders

  /** A child's length is its parent's length divided by this. */
  const LengthDivisor: real := 2.0
  /** Radius of a child over the radius of its parent. */
  const RadiusRatio: real := 0.4

  /** A child subtree together with its translation along the parent trunk. */
  datatype Attachment = Attachment(offset: real, sub: Branch)

  /** One group of the tree: its depth, the cylinder it draws, whether the
      group itself carries the 60 degree tilt, its user data (the depth, on
      leaves only) and its attached children in insertion order. */
  datatype Branch = Branch(
    depth: int,
    trunk: Cylinder,
    groupTilted: bool,
    userData: Option<int>,
    children: seq<Attachment>
  )

  /** Translation along a trunk of length parentLength for the child in slot
      i of b. Only evaluated inside the loop, where b is not zero. */
  function AttachOffset(parentLength: real, b: nat, i: nat): real
    requires b > 0
  {
    parentLength / (b as real) * (i as real)
  }

  /** The cylinder a group of the given depth draws: tilted on leaves, where
      the rotation is applied to the cylinder, and untilted otherwise. */
  function TrunkFor(depth: int, radius: real, length: real): Cylinder
  {
    var c := NewCylinder(radius, length, depth);
    if depth <= 1 then c.(tilted := true) else c
  }

  /** The group built for (depth, b, length, radius) when the root level is
      level. The loop appends the children for slots b, b-1, ..., 1, so the
      k-th child in insertion order sits in slot b - k. */
  function Build(depth: int, b: nat, length: real, radius: real, level: int): Branch
    decreases depth
  {
    if depth <= 1 then
      Branch(depth, TrunkFor(depth, radius, length), false, Some(depth), [])
    else
      var sub := Build(depth - 1, b, length / LengthDivisor, radius * RadiusRatio, level);
      Branch(depth, TrunkFor(depth, radius, length), level != depth, None,
             seq(b, k requires 0 <= k < b => Attachment(AttachOffset(length, b, b - k), sub)))
  }

  /** The generator written as the source writes it: a counting-down loop that
      appends one freshly built child per slot. It builds exactly Build's tree. */
  method CreateBranches(depth: int, b: nat, parentLength: real, radius: real, level: int) returns (g: Branch)
    ensures g == Build(depth, b, parentLength, radius, level)
    decreases depth
  {
    if depth <= 1 {
      var cylinder := NewCylinder(radius, parentLength, depth);
      cylinder := cylinder.(tilted := true);
      return Branch(depth, cylinder, false, Some(depth), []);
    }
    var childRadius := radius * RadiusRatio;
    var parent := NewCylinder(radius, parentLength, depth);
    var children: seq<Attachment> := [];
    var i: nat := b;
    while i != 0
      invariant i <= b
      invariant |children| == b - i
      invariant forall k :: 0 <= k < |children| ==>
        children[k] == Attachment(AttachOffset(parentLength, b, b - k),
                                  Build(depth - 1, b, parentLength / LengthDivisor, childRadius, level))
    {
      var child := CreateBranches(depth - 1, b, parentLength / LengthDivisor, childRadius, level);
      children := children + [Attachment(AttachOffset(parentLength, b, i), child)];
      i := i - 1;
    }
    g := Branch(depth, parent, level != depth, None, children);
  }
}
