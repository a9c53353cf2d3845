# Procedural branching tree: a Dafny model of the generator

The system draws a tree-like 3D structure. The structure is built recursively from two
settings: the root level (the subdivision depth) and the branch number. This project
models the one piece of algorithmic logic in the application component:

- `createBranchs`, the recursive generator.
- `newCylinder`, the cylinder factory it calls.

Both are modelled as pure functions over an immutable tree. The lemmas state the
structural facts the generator guarantees.

- **Group** (`Branches.Branch`). One `Group` of the scene graph. It records:
  - its `depth`;
  - the cylinder it draws (`trunk`);
  - whether the group itself carries the 60° tilt about X (`groupTilted`);
  - its user data (`Some(depth)` on leaves, `None` otherwise);
  - its attached children, in insertion order.
- **Attachment** (`Branches.Attachment`). A child subtree together with its translation
  along the parent trunk (`offset`).
- **Cylinder** (`Cylinders.Cylinder`). The parameters `newCylinder` hands to the geometry
  and material: top and bottom radius, height, radial segments, colour level, palette
  colour, the lift by half the length, and whether the 60° tilt is applied to the
  cylinder itself.
- **Generator** (`Branches.Build`).
  - A group of depth ≤ 1 is a leaf. It holds one tilted cylinder and its depth as user data.
  - A deeper group holds an untilted trunk and `branchNumber` children. Each child is
    built one generation down, with half the length and 0.4 of the radius.
  - The loop appends the children for slots `i = branchNumber … 1`. Slot `i` is
    translated by `parentLength / branchNumber * i` along the trunk.
    `Branches.AttachOffset` requires `branchNumber > 0`. Dafny checks that `Build` meets
    this, so with no branches no division happens.
  - An inner group is tilted unless its depth equals the root level. A leaf group is
    never tilted itself; its cylinder is, whatever its depth. That level is a closure
    variable in the source; here it is the explicit parameter `level`.
- **Loop** (`Branches.CreateBranches`). The same generator written as the source writes
  it, with the counting-down loop. It is proved to build exactly `Build`'s tree.
- **Addressing** (`Shape.NodeAt`). A group is addressed by the path of child positions
  from the root. `Shape` proves facts that hold at every group a path reaches.
- **Counting** (`Counting.Depths`). The depths of all groups, as a multiset. From it the
  model derives the number of groups and the number of groups at each depth.

Facts about the code that the model follows:

- A child gets half its parent's length (`src/App.tsx:72`) and 0.4 of its radius
  (`src/App.tsx:67`).
- The tilt is 60° about X (`src/App.tsx:61`, `src/App.tsx:81`).
- Each child gets a random rotation about the trunk (`src/App.tsx:73`).
- A leaf is any group of depth ≤ 1 (`src/App.tsx:57`), not only one of depth 1.
- An out-of-range palette index is not rejected (`src/App.tsx:48`). The table lookup
  yields no colour, which the model records as `None`.

## Model

| member | source | states |
|---|---|---|
| Palette.PaletteColor | src/App.tsx:48 | the palette lookup at `colorLevel - 1` yields a colour exactly when the level is in 1..6, and that colour is one of the six table entries |
| Palette.PaletteDistinct | src/App.tsx:9 | the six levels in range are drawn in six different colours |
| Cylinders.NewCylinder | src/App.tsx:46-53 | the cylinder has the given top radius and a bottom radius 1.2 times it, and 32 radial segments; the lift by half the length makes it span exactly [0, length] on its axis; it is untilted; its colour is the palette entry of its level, present exactly when the level is in 1..6 and then the table entry at `colorLevel - 1` |
| Branches.CreateBranches | src/App.tsx:55-86 | the loop version (children appended for i = branchNumber down to 1, translated by `parentLength / branchNumber * i`, tilt applied when depth differs from level) builds exactly the tree of the recursive definition |
| Shape.NodeAtBuild | src/App.tsx:67-78 | a path names a group exactly when it is at most d-1 steps long and each step picks one of the b children; the group k steps down is the tree built at depth d-k with the length and radius handed down k generations, so depth drops by exactly one per generation |
| Shape.DepthByGeneration | src/App.tsx:72 | every group k generations down has depth d-k; for a root depth d ≥ 1 every depth lies in [1, d] |
| Shape.LeafRule | src/App.tsx:57-65 | every group of depth ≤ 1 has no subtrees, carries its depth as user data, is not tilted as a group, and its cylinder is tilted |
| Shape.InnerRule | src/App.tsx:66-83 | every group of depth ≥ 2 has exactly b children, each one generation down; it has no user data and an untilted trunk; the group is tilted exactly when its depth differs from the level |
| Shape.MetadataOnLeaves | src/App.tsx:60 | a group carries user data exactly when it is a leaf, and the data is its depth |
| Shape.CylinderShape | src/App.tsx:46-53 | every group's cylinder has its depth as colour level and is drawn in that level's palette colour, with 32 radial segments and a bottom radius 1.2 times its top; it spans [0, length] on its axis; its length and radius are those handed down through the group's generation |
| Shape.LengthAtClosedForm | src/App.tsx:72 | halving the length once per generation for k generations gives L / 2^k |
| Shape.RadiusAtClosedForm | src/App.tsx:67 | scaling the radius by 0.4 once per generation for k generations gives r * 0.4^k |
| Shape.ShrinkStaysPositive | src/App.tsx:67-72 | with a positive root length and radius, every group's length and radius are positive and no larger than the root's |
| Shape.TiltByGeneration | src/App.tsx:80-83 | in a tree whose root depth is the level, the groups tilted as a whole are exactly those of generations 1 to level-2; the root never is; the cylinders tilted are exactly those of the leaves |
| Shape.AttachOffsetsBounded | src/App.tsx:71-77 | an inner group with b > 0 and a positive length L has b children; the first child sits at the tip L, the last at L / b, and every offset lies in (0, L] |
| Shape.AttachOffsetsDescending | src/App.tsx:71-78 | in insertion order the children's offsets strictly decrease, in equal steps of L / b |
| Shape.PaletteInRange | src/App.tsx:59-69 | every group of a built tree has its palette lookup in range exactly when the root depth is in 1..6 |
| Shape.DepthsDistinguishColours | src/App.tsx:48 | two groups of a built tree whose depths differ and lie in 1..6 are drawn in different colours |
| Shape.BuildWellFormed | src/App.tsx:55-86 | every built tree satisfies the group-by-group rules of the generator, for trunk, leaf, inner-group, tilt and child placement |
| Shape.WellFormedIsBuilt | src/App.tsx:55-86 | the group-by-group rules determine the tree: any tree satisfying them is the one built from its root's depth, length and radius |
| Counting.GroupCountBuild | src/App.tsx:68-79 | a tree built at depth d ≥ 1 has 1 + b + … + b^(d-1) groups, so (b - 1) times the count is b^d - 1; a root of depth ≤ 1 is one group |
| Counting.LevelCountBuild | src/App.tsx:68-79 | in a tree built at depth d ≥ 1, exactly b^(d-k) groups have depth k for each k in [1, d], and none has another depth |
| Counting.SingleBranchChain | src/App.tsx:71-72 | with one branch per group the tree has d groups, exactly one of each depth 1..d |
| Counting.NoBranchesSingleGroup | src/App.tsx:71 | with no branches the loop never runs, and the tree is a single group |
| Counting.DepthThreeTwoBranches | src/App.tsx:55-86 | depth 3 with 2 branches gives one group of depth 3, two of depth 2 and four of depth 1: seven in all |
| Scene.InitialTreeShape | src/App.tsx:100 | the installed tree, built at the level itself with length 20 and radius 0.2, has 1 + b + … + b^(level-1) groups and an untilted root of depth level; its colours are all in range exactly when the level is at most 6 |
| Scene.DefaultTreeShape | src/App.tsx:21-22 | with the initial level 5 and branch number 6 the scene holds 1555 groups, 1296 of them leaves, all with a palette colour |

## Left out

- The random rotation of each child about the trunk (`src/App.tsx:73`) is not modelled. It is nondeterministic trigonometry, and nothing else depends on it.
- The rotation and translation matrices are not modelled. Tilts are booleans, and translations are the `lift` and `offset` numbers.
- JavaScript numbers are modelled as Dafny `real` (exact), `int` and `nat`. Floating-point rounding of `parentLength / 2`, `radius * 0.4` and the offsets is not modelled.
- Branches.Build: `branchNumber` is a `nat`. In the source the loop `i !== 0; i -= 1` never ends for a negative or fractional branch number, so such inputs have no result to model.
- Branches.Build: `depth` is an `int`. A fractional depth is not modelled.
- The constant `angle` (`src/App.tsx:10`) is not used by the code, which writes the literal 60. The model records the tilt as a boolean.
- Renderer, camera, grid and axes helpers, orbit controls and the animation loop are not modelled (`src/App.tsx:14-44`, `src/App.tsx:106-134`, `src/camera.ts`, `src/control.ts`, `src/helper.ts`). They only configure the rendering library.
- Replacing the old tree in the scene (`src/App.tsx:96-102`), including the disposal left to do, is not modelled. It is scene-graph plumbing. Only the call that builds the new tree is modelled (`Scene.InitialTree`).
- The play button's `rotation.z += 0.01` (`src/App.tsx:136-140`) is not modelled. It is a floating-point increment on a library object.
- When the palette lookup is out of range, the material is handed an undefined colour (`src/App.tsx:48`). The rendering library then skips that parameter with a console warning and keeps its default colour. The model records only that the lookup yields no colour (`None`); the colour actually drawn and the warning are not modelled.
