/** Structural facts about built trees. A group is addressed by the path of
    child positions (insertion order) that leads to it from the root; the
    facts below hold at every group a path reaches. */
module Shape {
  import opened Options
  import opened Arith
  import opened Palette
  import opened Cylinders
  import opened Branches

  /** The group reached from t by following child positions p, if any. */
  function NodeAt(t: Branch, p: seq<nat>): Option<Branch>
    decreases |p|
  {
    if |p| == 0 then Some(t)
    else if p[0] < |t.children| then NodeAt(t.children[p[0]].sub, p[1..])
    else None
  }

  /** The paths into a tree built at depth d with b branches per group: at
      most d - 1 steps below the root, each choosing one of the b children. */
  predicate IsSlotPath(d: int, b: nat, p: seq<nat>)
  {
    (|p| == 0 || |p| < d) && forall j :: 0 <= j < |p| ==> p[j] < b
  }

  /** The k-th appended child of an inner group is the slot b - k subtree,
      built one generation down. */
  lemma ChildOfBuild(d: int, b: nat, L: real, r: real, level: int, k: nat)
    requires d >= 2 && k < b
    ensures |Build(d, b, L, r, level).children| == b
    ensures Build(d, b, L, r, level).children[k]
         == Attachment(AttachOffset(L, b, b - k), Build(d - 1, b, L / LengthDivisor, r * RadiusRatio, level))
  {
  }

  /** The length handed to a group k generations below a root of length L:
      each generation passes on half of its own. */
  function LengthAt(L: real, k: nat): real
    decreases k
  {
    if k == 0 then L else LengthAt(L / LengthDivisor, k - 1)
  }

  /** The radius handed to a group k generations below a root of radius r:
      each generation passes on 0.4 of its own. */
  function RadiusAt(r: real, k: nat): real
    decreases k
  {
    if k == 0 then r else RadiusAt(r * RadiusRatio, k - 1)
  }

  /** Halving k times is dividing by 2^k. */
  lemma {:induction false} LengthAtClosedForm(L: real, k: nat)
    ensures LengthAt(L, k) == L / RPow(LengthDivisor, k)
    decreases k
  {
    if k > 0 {
      LengthAtClosedForm(L / LengthDivisor, k - 1);
      var y := RPow(LengthDivisor, k - 1);
      assert RPow(LengthDivisor, k) == LengthDivisor * y;
      assert (L / LengthDivisor) / y == L / (LengthDivisor * y);
    }
  }

  /** Scaling by 0.4 k times is multiplying by 0.4^k. */
  lemma {:induction false} RadiusAtClosedForm(r: real, k: nat)
    ensures RadiusAt(r, k) == r * RPow(RadiusRatio, k)
    decreases k
  {
    if k > 0 {
      RadiusAtClosedForm(r * RadiusRatio, k - 1);
      var y := RPow(RadiusRatio, k - 1);
      assert RPow(RadiusRatio, k) == RadiusRatio * y;
      assert (r * RadiusRatio) * y == r * (RadiusRatio * y);
    }
  }

  /** Dropping the first step of a path lowers the depth bound by one. */
  lemma SlotPathTail(d: int, b: nat, p: seq<nat>)
    requires d >= 2 && |p| > 0 && p[0] < b
    ensures IsSlotPath(d, b, p) <==> IsSlotPath(d - 1, b, p[1..])
  {
    if IsSlotPath(d - 1, b, p[1..]) {
      forall j | 0 <= j < |p| ensures p[j] < b {
        if j > 0 { assert p[j] == p[1..][j - 1]; }
      }
    }
  }

  /** A path exists exactly when it is a slot path, and the group it reaches
      k = |p| generations down is the tree built at depth d - k with the
      length and radius handed down k generations: the depth drops by one per
      generation. */
  lemma {:induction false} NodeAtBuild(d: int, b: nat, L: real, r: real, level: int, p: seq<nat>)
    ensures NodeAt(Build(d, b, L, r, level), p).Some? <==> IsSlotPath(d, b, p)
    ensures IsSlotPath(d, b, p) ==>
      NodeAt(Build(d, b, L, r, level), p) == Some(Build(d - |p|, b, LengthAt(L, |p|), RadiusAt(r, |p|), level))
    decreases |p|
  {
    if |p| > 0 {
      var t := Build(d, b, L, r, level);
      if d >= 2 && p[0] < b {
        var sub := Build(d - 1, b, L / LengthDivisor, r * RadiusRatio, level);
        ChildOfBuild(d, b, L, r, level, p[0]);
        assert NodeAt(t, p) == NodeAt(sub, p[1..]);
        NodeAtBuild(d - 1, b, L / LengthDivisor, r * RadiusRatio, level, p[1..]);
        SlotPathTail(d, b, p);
      } else {
        assert NodeAt(t, p) == None;
      }
    }
  }

  /** Every group of a tree built at depth d sits at depth d - |p|. For d >= 1
      this lies in [1, d], so the root is the deepest group and leaves have
      depth 1. */
  lemma {:induction false} DepthByGeneration(d: int, b: nat, L: real, r: real, level: int, p: seq<nat>, n: Branch)
    requires NodeAt(Build(d, b, L, r, level), p) == Some(n)
    ensures n.depth == d - |p|
    ensures d >= 1 ==> 1 <= n.depth <= d
  {
    NodeAtBuild(d, b, L, r, level, p);
  }

  /** Leaves: a group of depth <= 1 holds only its cylinder, which carries the
      tilt; the group itself is untilted and carries its depth as user data. */
  lemma {:induction false} LeafRule(d: int, b: nat, L: real, r: real, level: int, p: seq<nat>, n: Branch)
    requires NodeAt(Build(d, b, L, r, level), p) == Some(n)
    requires n.depth <= 1
    ensures n.children == []
    ensures n.userData == Some(n.depth)
    ensures !n.groupTilted && n.trunk.tilted
  {
    NodeAtBuild(d, b, L, r, level, p);
  }

  /** Inner groups: a group of depth >= 2 holds an untilted trunk and exactly
      b children, each one generation down; it carries no user data, and the
      group is tilted exactly when its depth differs from the root level. */
  lemma {:induction false} InnerRule(d: int, b: nat, L: real, r: real, level: int, p: seq<nat>, n: Branch)
    requires NodeAt(Build(d, b, L, r, level), p) == Some(n)
    requires n.depth >= 2
    ensures |n.children| == b
    ensures forall k :: 0 <= k < b ==> n.children[k].sub.depth == n.depth - 1
    ensures n.userData == None
    ensures !n.trunk.tilted
    ensures n.groupTilted <==> n.depth != level
  {
    NodeAtBuild(d, b, L, r, level, p);
  }

  /** Only leaves carry depth metadata. */
  lemma {:induction false} MetadataOnLeaves(d: int, b: nat, L: real, r: real, level: int, p: seq<nat>, n: Branch)
    requires NodeAt(Build(d, b, L, r, level), p) == Some(n)
    ensures n.userData.Some? <==> n.depth <= 1
    ensures n.userData.Some? ==> n.userData.value == n.depth
  {
    NodeAtBuild(d, b, L, r, level, p);
  }

  /** Every cylinder is drawn with its group's depth as colour level, has a
      bottom radius 1.2 times its top radius and spans [0, length] on its axis,
      where length and radius are those handed down |p| generations
      (L / 2^k and r * 0.4^k, by the closed forms above). */
  lemma {:induction false} CylinderShape(d: int, b: nat, L: real, r: real, level: int, p: seq<nat>, n: Branch)
    requires NodeAt(Build(d, b, L, r, level), p) == Some(n)
    ensures n.trunk.colorLevel == n.depth
    ensures n.trunk.color == PaletteColor(n.depth)
    ensures n.trunk.radialSegments == SegmentNumber
    ensures n.trunk.bottomRadius == Taper * n.trunk.topRadius
    ensures n.trunk.topRadius == RadiusAt(r, |p|)
    ensures n.trunk.height == LengthAt(L, |p|)
    ensures n.trunk.Base() == 0.0 && n.trunk.Tip() == n.trunk.height
  {
    NodeAtBuild(d, b, L, r, level, p);
  }

  /** Positive initial length and radius stay positive at every generation
      and never grow. */
  lemma {:induction false} ShrinkStaysPositive(d: int, b: nat, L: real, r: real, level: int, p: seq<nat>, n: Branch)
    requires L > 0.0 && r > 0.0
    requires NodeAt(Build(d, b, L, r, level), p) == Some(n)
    ensures 0.0 < n.trunk.height <= L && 0.0 < n.trunk.topRadius <= r
  {
    CylinderShape(d, b, L, r, level, p, n);
    LengthAtBounds(L, |p|);
    RadiusAtBounds(r, |p|);
  }

  lemma {:induction false} LengthAtBounds(L: real, k: nat)
    requires L > 0.0
    ensures 0.0 < LengthAt(L, k) <= L
    decreases k
  {
    if k > 0 {
      LengthAtBounds(L / LengthDivisor, k - 1);
    }
  }

  lemma {:induction false} RadiusAtBounds(r: real, k: nat)
    requires r > 0.0
    ensures 0.0 < RadiusAt(r, k) <= r
    decreases k
  {
    if k > 0 {
      RadiusAtBounds(r * RadiusRatio, k - 1);
    }
  }

  /** For the tree the scene builds, whose root depth is the level itself, the
      groups tilted as a whole are exactly the inner groups below the root:
      generations 1 to level - 2. The root is never tilted; the cylinders of
      the last generation (the leaves) always are. */
  lemma {:induction false} TiltByGeneration(level: int, b: nat, L: real, r: real, p: seq<nat>, n: Branch)
    requires NodeAt(Build(level, b, L, r, level), p) == Some(n)
    ensures n.groupTilted <==> 1 <= |p| <= level - 2
    ensures n.trunk.tilted <==> |p| >= level - 1
  {
    DepthByGeneration(level, b, L, r, level, p, n);
    if n.depth <= 1 {
      LeafRule(level, b, L, r, level, p, n);
    } else {
      InnerRule(level, b, L, r, level, p, n);
    }
  }

  /** Slot offsets on a trunk of positive length: slot i sits i/b of the
      way up, so slot b is the tip and every slot lies in (0, L]. */
  lemma OffsetBounds(L: real, b: nat, i: nat)
    requires L > 0.0 && 0 < i <= b
    ensures 0.0 < AttachOffset(L, b, i) <= L
    ensures i == b ==> AttachOffset(L, b, i) == L
  {
    var q := L / (b as real);
    assert q * (i as real) <= q * (b as real);
  }

  /** Slot 1 sits one b-th of the way up. */
  lemma OffsetFirstSlot(L: real, b: nat)
    requires b > 0
    ensures AttachOffset(L, b, 1) == L / (b as real)
  {
  }

  /** Neighbouring slots are L / b apart. */
  lemma OffsetSpacing(L: real, b: nat, i: nat)
    requires b > 0
    ensures AttachOffset(L, b, i + 1) - AttachOffset(L, b, i) == L / (b as real)
  {
    var q := L / (b as real);
    assert q * ((i + 1) as real) == q * (i as real) + q;
  }

  /** A higher slot sits strictly higher on a trunk of positive length. */
  lemma OffsetIncreasing(L: real, b: nat, i: nat, j: nat)
    requires L > 0.0 && b > 0 && i < j
    ensures AttachOffset(L, b, i) < AttachOffset(L, b, j)
  {
    var q := L / (b as real);
    assert q * (j as real) - q * (i as real) == q * ((j - i) as real);
  }

  /** The children of an inner group are attached at i / b of its trunk for
      i = b down to 1: the first child sits at the tip and the last one at
      L / b, and every offset lies in (0, L]. */
  lemma AttachOffsetsBounded(d: int, b: nat, L: real, r: real, level: int)
    requires d >= 2 && b > 0 && L > 0.0
    ensures var cs := Build(d, b, L, r, level).children;
      && |cs| == b
      && cs[0].offset == L
      && cs[b - 1].offset == L / (b as real)
      && (forall k :: 0 <= k < b ==> 0.0 < cs[k].offset <= L)
  {
    var cs := Build(d, b, L, r, level).children;
    ChildOfBuild(d, b, L, r, level, 0);
    OffsetBounds(L, b, b);
    ChildOfBuild(d, b, L, r, level, b - 1);
    OffsetFirstSlot(L, b);
    assert cs[b - 1].offset == AttachOffset(L, b, 1);
    forall k | 0 <= k < b
      ensures 0.0 < cs[k].offset <= L
    {
      ChildOfBuild(d, b, L, r, level, k);
      OffsetBounds(L, b, b - k);
    }
  }

  /** In insertion order the offsets strictly decrease, in equal steps of
      L / b. */
  lemma AttachOffsetsDescending(d: int, b: nat, L: real, r: real, level: int)
    requires d >= 2 && b > 0 && L > 0.0
    ensures var cs := Build(d, b, L, r, level).children;
      && |cs| == b
      && (forall k :: 0 <= k < b - 1 ==> cs[k].offset - cs[k + 1].offset == L / (b as real))
      && (forall j, k :: 0 <= j < k < b ==> cs[j].offset > cs[k].offset)
  {
    var cs := Build(d, b, L, r, level).children;
    ChildOfBuild(d, b, L, r, level, 0);
    forall k | 0 <= k < b - 1
      ensures cs[k].offset - cs[k + 1].offset == L / (b as real)
    {
      ChildOfBuild(d, b, L, r, level, k);
      ChildOfBuild(d, b, L, r, level, k + 1);
      assert b - (k + 1) + 1 == b - k;
      OffsetSpacing(L, b, b - (k + 1));
    }
    forall j, k | 0 <= j < k < b
      ensures cs[j].offset > cs[k].offset
    {
      ChildOfBuild(d, b, L, r, level, j);
      ChildOfBuild(d, b, L, r, level, k);
      OffsetIncreasing(L, b, b - k, b - j);
    }
  }

  /** Every group of t has its palette lookup in range. */
  ghost predicate AllInPalette(t: Branch)
  {
    forall p :: NodeAt(t, p).Some? ==> PaletteColor(NodeAt(t, p).value.trunk.colorLevel).Some?
  }

  /** The palette lookup of every group's cylinder is in range exactly when
      the root depth is between 1 and 6; a root depth of 0 or less would
      look up entry -1 or below. */
  lemma PaletteInRange(d: int, b: nat, L: real, r: real, level: int)
    ensures AllInPalette(Build(d, b, L, r, level)) <==> 1 <= d <= 6
  {
    var t := Build(d, b, L, r, level);
    if 1 <= d <= 6 {
      forall p | NodeAt(t, p).Some?
        ensures PaletteColor(NodeAt(t, p).value.trunk.colorLevel).Some?
      {
        var n := NodeAt(t, p).value;
        DepthByGeneration(d, b, L, r, level, p, n);
        CylinderShape(d, b, L, r, level, p, n);
      }
    } else {
      var root: seq<nat> := [];
      assert NodeAt(t, root) == Some(t);
      assert t.trunk.colorLevel == d;
    }
  }

  /** Two groups of a built tree whose depths differ and both lie in 1..6 are
      drawn in different palette colours. */
  lemma {:induction false} DepthsDistinguishColours(d: int, b: nat, L: real, r: real, level: int,
                                                    p: seq<nat>, n: Branch, q: seq<nat>, m: Branch)
    requires NodeAt(Build(d, b, L, r, level), p) == Some(n)
    requires NodeAt(Build(d, b, L, r, level), q) == Some(m)
    requires 1 <= n.depth <= 6 && 1 <= m.depth <= 6 && n.depth != m.depth
    ensures n.trunk.color.Some? && m.trunk.color.Some?
    ensures n.trunk.color.value != m.trunk.color.value
  {
    CylinderShape(d, b, L, r, level, p, n);
    CylinderShape(d, b, L, r, level, q, m);
    PaletteDistinct(n.depth, m.depth);
  }

  /** The rules createBranchs follows, checked group by group: the trunk is
      the cylinder of the group's own depth, radius and length; a leaf has no
      children, carries its depth as user data and is not tilted; an inner
      group has b children, carries no user data and is tilted exactly when
      its depth is not the root level; its k-th child sits in slot b - k, one
      generation down, with half the length and 0.4 of the radius. */
  ghost predicate WellFormed(t: Branch, b: nat, level: int)
    decreases t
  {
    && t.trunk == TrunkFor(t.depth, t.trunk.topRadius, t.trunk.height)
    && (if t.depth <= 1 then t.children == [] && t.userData == Some(t.depth) && !t.groupTilted
        else |t.children| == b && t.userData == None && t.groupTilted == (t.depth != level))
    && forall k :: 0 <= k < |t.children| ==>
         && t.children[k].offset == AttachOffset(t.trunk.height, b, b - k)
         && t.children[k].sub.depth == t.depth - 1
         && t.children[k].sub.trunk.height == t.trunk.height / LengthDivisor
         && t.children[k].sub.trunk.topRadius == t.trunk.topRadius * RadiusRatio
         && WellFormed(t.children[k].sub, b, level)
  }

  /** Every built tree follows the rules. */
  lemma {:induction false} BuildWellFormed(d: int, b: nat, L: real, r: real, level: int)
    ensures WellFormed(Build(d, b, L, r, level), b, level)
    decreases d
  {
    if d >= 2 {
      BuildWellFormed(d - 1, b, L / LengthDivisor, r * RadiusRatio, level);
    }
  }

  /** The rules determine the tree: a tree that follows them is the one Build
      makes from its root's depth, length and radius. */
  lemma {:induction false} WellFormedIsBuilt(t: Branch, b: nat, level: int)
    requires WellFormed(t, b, level)
    ensures t == Build(t.depth, b, t.trunk.height, t.trunk.topRadius, level)
    decreases t, 1
  {
    var d, h, r := t.depth, t.trunk.height, t.trunk.topRadius;
    if d >= 2 {
      var sub := Build(d - 1, b, h / LengthDivisor, r * RadiusRatio, level);
      forall k | 0 <= k < b
        ensures t.children[k] == Attachment(AttachOffset(h, b, b - k), sub)
      {
        ChildIsBuilt(t, b, level, k);
      }
      var u := Build(d, b, h, r, level);
      forall k | 0 <= k < b
        ensures u.children[k] == Attachment(AttachOffset(h, b, b - k), sub)
      {
        ChildOfBuild(d, b, h, r, level, k);
      }
      assert |u.children| == b;
      assert t.children == u.children;
    }
  }

  /** One step of the above: a child of a group that follows the rules is the
      subtree built one generation down, placed in its slot. */
  lemma {:induction false} ChildIsBuilt(t: Branch, b: nat, level: int, k: nat)
    requires WellFormed(t, b, level) && t.depth >= 2 && k < b
    ensures t.children[k]
         == Attachment(AttachOffset(t.trunk.height, b, b - k),
                       Build(t.depth - 1, b, t.trunk.height / LengthDivisor, t.trunk.topRadius * RadiusRatio, level))
    decreases t, 0
  {
    var c := t.children[k];
    assert WellFormed(c.sub, b, level);
    WellFormedIsBuilt(c.sub, b, level);
  }
}
