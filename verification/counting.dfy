/** Counting the groups of a built tree, in total and per depth. */
module Counting {
  import opened Arith
  import opened Branches

  /** The depths of all groups of t, one entry per group. */
  function Depths(t: Branch): multiset<int>
    decreases t, |t.children| + 1
  {
    multiset{t.depth} + DepthsUpTo(t, |t.children|)
  }

  /** The depths of all groups of the first i subtrees attached to t. */
  function DepthsUpTo(t: Branch, i: nat): multiset<int>
    requires i <= |t.children|
    decreases t, i
  {
    if i == 0 then multiset{} else DepthsUpTo(t, i - 1) + Depths(t.children[i - 1].sub)
  }

  /** The number of groups of t. */
  function GroupCount(t: Branch): nat
  {
    |Depths(t)|
  }

  /** Children that are all the same subtree s contribute the groups of s
      once per child. */
  lemma {:induction false} DepthsOfCopies(t: Branch, s: Branch, i: nat, k: int)
    requires i <= |t.children|
    requires forall j :: 0 <= j < |t.children| ==> t.children[j].sub == s
    ensures DepthsUpTo(t, i)[k] == i * Depths(s)[k]
    ensures |DepthsUpTo(t, i)| == i * |Depths(s)|
    decreases i
  {
    if i > 0 {
      DepthsOfCopies(t, s, i - 1, k);
      var x, y := Depths(s)[k], |Depths(s)|;
      assert (i - 1) * x + x == i * x;
      assert (i - 1) * y + y == i * y;
    }
  }

  /** The children of an inner group are b copies of the subtree one
      generation down. */
  lemma ChildrenAreCopies(d: int, b: nat, L: real, r: real, level: int)
    requires d >= 2
    ensures var cs := Build(d, b, L, r, level).children;
      |cs| == b && forall j :: 0 <= j < b ==>
        cs[j].sub == Build(d - 1, b, L / LengthDivisor, r * RadiusRatio, level)
  {
  }

  /** An inner group contributes its own depth plus b copies of the groups
      one generation down. */
  lemma InnerDepths(d: int, b: nat, L: real, r: real, level: int, k: int)
    requires d >= 2
    ensures var below := Depths(Build(d - 1, b, L / LengthDivisor, r * RadiusRatio, level));
      && Depths(Build(d, b, L, r, level))[k] == (if k == d then 1 else 0) + b * below[k]
      && |Depths(Build(d, b, L, r, level))| == 1 + b * |below|
  {
    var t := Build(d, b, L, r, level);
    var sub := Build(d - 1, b, L / LengthDivisor, r * RadiusRatio, level);
    ChildrenAreCopies(d, b, L, r, level);
    DepthsOfCopies(t, sub, b, k);
  }

  /** A tree built at depth d >= 1 with b branches has 1 + b + ... + b^(d-1)
      groups; a root of depth <= 1 is a single group. */
  lemma {:induction false} GroupCountBuild(d: int, b: nat, L: real, r: real, level: int)
    ensures d <= 1 ==> GroupCount(Build(d, b, L, r, level)) == 1
    ensures d >= 1 ==> GroupCount(Build(d, b, L, r, level)) == GeomSum(b, d)
    ensures d >= 1 ==> (b - 1) * GroupCount(Build(d, b, L, r, level)) == Pow(b, d) - 1
    decreases d
  {
    if d >= 1 {
      GeomSumClosedForm(b, d);
    }
    if d >= 2 {
      InnerDepths(d, b, L, r, level, d);
      GroupCountBuild(d - 1, b, L / LengthDivisor, r * RadiusRatio, level);
      GeomSumUnroll(b, d - 1);
    } else {
      assert Depths(Build(d, b, L, r, level)) == multiset{d};
    }
  }

  /** Of a tree built at depth d >= 1, exactly b^(d-k) groups have depth k for
      every k in [1, d], and no group has any other depth. */
  lemma {:induction false} LevelCountBuild(d: int, b: nat, L: real, r: real, level: int, k: int)
    requires d >= 1
    ensures Depths(Build(d, b, L, r, level))[k] == if 1 <= k <= d then Pow(b, d - k) else 0
    decreases d
  {
    if d >= 2 {
      var below := Depths(Build(d - 1, b, L / LengthDivisor, r * RadiusRatio, level))[k];
      InnerDepths(d, b, L, r, level, k);
      LevelCountBuild(d - 1, b, L / LengthDivisor, r * RadiusRatio, level, k);
      if 1 <= k < d {
        assert below == Pow(b, d - 1 - k);
        assert Pow(b, d - k) == b * Pow(b, d - 1 - k);
      } else {
        assert below == 0;
      }
    } else {
      assert Depths(Build(d, b, L, r, level)) == multiset{d};
    }
  }

  /** With one branch per group the tree is a chain of d groups, one of each
      depth (and so one of each colour) from 1 to d. */
  lemma SingleBranchChain(d: int, L: real, r: real, level: int)
    requires d >= 1
    ensures GroupCount(Build(d, 1, L, r, level)) == d
    ensures forall k :: 1 <= k <= d ==> Depths(Build(d, 1, L, r, level))[k] == 1
  {
    GroupCountBuild(d, 1, L, r, level);
    GeomSumOfOne(d);
    forall k | 1 <= k <= d
      ensures Depths(Build(d, 1, L, r, level))[k] == 1
    {
      LevelCountBuild(d, 1, L, r, level, k);
      PowOfOne(d - k);
    }
  }

  /** With no branches every level is a bare trunk: one group in all. */
  lemma NoBranchesSingleGroup(d: int, L: real, r: real, level: int)
    ensures GroupCount(Build(d, 0, L, r, level)) == 1
  {
    GroupCountBuild(d, 0, L, r, level);
    if d >= 1 {
      GeomSumOfZero(d);
    }
  }

  /** Depth 3 with 2 branches: a root of depth 3, two groups of depth 2 and
      four leaves of depth 1, seven groups in all. */
  lemma DepthThreeTwoBranches(L: real, r: real, level: int)
    ensures Depths(Build(3, 2, L, r, level)) == multiset{3, 2, 2, 1, 1, 1, 1}
    ensures GroupCount(Build(3, 2, L, r, level)) == 7
  {
    var m := Depths(Build(3, 2, L, r, level));
    forall k
      ensures m[k] == multiset{3, 2, 2, 1, 1, 1, 1}[k]
    {
      LevelCountBuild(3, 2, L, r, level, k);
    }
    assert m == multiset{3, 2, 2, 1, 1, 1, 1};
  }
}
