/** The tree the scene installs: built at the root level with the default
    trunk length and radius, so that the root is the one group never tilted. */
module Scene {
  import opened Arith
  import opened Branches
  import opened Shape
  import opened Counting

  const RadiusDefault: real := 0.2
  const BranchLengthDefault: real := 20.0
  /** The initial branch number and level of the component state. */
  const DefaultBranchNumber: nat := 6
  const DefaultLevel: int := 5

  /** The tree built for the current level and branch number. */
  function InitialTree(level: int, branchNumber: nat): Branch
  {
    Build(level, branchNumber, BranchLengthDefault, RadiusDefault, level)
  }

  /** The installed tree has 1 + b + ... + b^(level-1) groups, an untilted
      root of depth level, and colours in range exactly when level <= 6. */
  lemma InitialTreeShape(level: int, branchNumber: nat)
    requires level >= 1
    ensures GroupCount(InitialTree(level, branchNumber)) == GeomSum(branchNumber, level)
    ensures InitialTree(level, branchNumber).depth == level
    ensures !InitialTree(level, branchNumber).groupTilted
    ensures AllInPalette(InitialTree(level, branchNumber)) <==> level <= 6
  {
    GroupCountBuild(level, branchNumber, BranchLengthDefault, RadiusDefault, level);
    PaletteInRange(level, branchNumber, BranchLengthDefault, RadiusDefault, level);
  }

  /** With the initial settings (level 5, six branches) the scene holds 1555
      groups, 1296 of them leaves, all drawn with a palette colour. */
  lemma DefaultTreeShape()
    ensures GroupCount(InitialTree(DefaultLevel, DefaultBranchNumber)) == 1555
    ensures Depths(InitialTree(DefaultLevel, DefaultBranchNumber))[1] == 1296
    ensures AllInPalette(InitialTree(DefaultLevel, DefaultBranchNumber))
  {
    InitialTreeShape(DefaultLevel, DefaultBranchNumber);
    assert GeomSum(6, 5) == 1555 by {
      assert GeomSum(6, 1) == 1;
      assert GeomSum(6, 2) == 7;
      assert GeomSum(6, 3) == 43;
      assert GeomSum(6, 4) == 259;
    }
    LevelCountBuild(DefaultLevel, DefaultBranchNumber, BranchLengthDefault, RadiusDefault, DefaultLevel, 1);
    assert Pow(6, 4) == 1296;
  }
}
