/** Layouts: a layout is a list of groups, each group a list of sample (column)
    indexes. The layout helpers of the newer code base (`intersect_layouts`,
    `layout_is_paired`, `as_layout` in pade/layout.py) are not part of this
    model; what follows are the definitions the rest of the model assumes for
    them. */
module Layout {
  import opened Sequences

  type Layout = seq<seq<nat>>

  /** The members of `g` that also occur in `h`, in the order of `g`. */
  function Meet(g: seq<nat>, h: seq<nat>): (r: seq<nat>)
    ensures |r| <= |g|
    ensures forall k :: 0 <= k < |r| ==> r[k] in g && r[k] in h
  {
    if |g| == 0 then []
    else Meet(g[..|g| - 1], h) + (if g[|g| - 1] in h then [g[|g| - 1]] else [])
  }

  lemma {:induction false} MeetComplete(g: seq<nat>, h: seq<nat>, x: nat)
    requires x in g && x in h
    ensures x in Meet(g, h)
  {
    if g[|g| - 1] != x {
      assert x in g[..|g| - 1];
      MeetComplete(g[..|g| - 1], h, x);
    }
  }

  /** Meeting a group without repeated samples repeats none. */
  lemma {:induction false} MeetNoDuplicates(g: seq<nat>, h: seq<nat>)
    requires NoDuplicates(g)
    ensures NoDuplicates(Meet(g, h))
  {
    if |g| > 0 {
      var init := g[..|g| - 1];
      assert forall k :: 0 <= k < |init| ==> init[k] == g[k];
      MeetNoDuplicates(init, h);
      var front := Meet(init, h);
      assert forall k :: 0 <= k < |front| ==> front[k] in init;
      assert g[|g| - 1] !in init;
    }
  }

  /** The non-empty meets of one outer group with each inner group, in inner order. */
  function MeetAll(g: seq<nat>, b: Layout): (r: Layout)
    ensures forall k :: 0 <= k < |r| ==> |r[k]| > 0
  {
    if |b| == 0 then []
    else
      var m := Meet(g, b[|b| - 1]);
      MeetAll(g, b[..|b| - 1]) + (if |m| > 0 then [m] else [])
  }

  /** Assumed `intersect_layouts(a, b)`: every non-empty pairwise intersection of a
      group of `a` with a group of `b`, outer order first, then inner order. */
  function IntersectLayouts(a: Layout, b: Layout): (r: Layout)
  {
    if |a| == 0 then [] else IntersectLayouts(a[..|a| - 1], b) + MeetAll(a[|a| - 1], b)
  }

  /** No group of an intersection is empty. */
  lemma {:induction false} IntersectNonEmptyGroups(a: Layout, b: Layout)
    ensures forall k :: 0 <= k < |IntersectLayouts(a, b)| ==> |IntersectLayouts(a, b)[k]| > 0
  {
    if |a| > 0 { IntersectNonEmptyGroups(a[..|a| - 1], b); }
  }

  /** Every group of the intersection lies inside one group of each layout. */
  lemma {:induction false} IntersectGroupsInside(a: Layout, b: Layout, k: nat)
    requires k < |IntersectLayouts(a, b)|
    ensures exists i, j :: 0 <= i < |a| && 0 <= j < |b| &&
              forall x :: x in IntersectLayouts(a, b)[k] ==> x in a[i] && x in b[j]
  {
    var front := IntersectLayouts(a[..|a| - 1], b);
    if k < |front| {
      IntersectGroupsInside(a[..|a| - 1], b, k);
      var i, j :| 0 <= i < |a| - 1 && 0 <= j < |b| &&
                  forall x :: x in front[k] ==> x in a[..|a| - 1][i] && x in b[j];
      assert a[..|a| - 1][i] == a[i];
    } else {
      var j := MeetAllInside(a[|a| - 1], b, k - |front|);
      assert IntersectLayouts(a, b)[k] == MeetAll(a[|a| - 1], b)[k - |front|];
    }
  }

  lemma {:induction false} MeetAllInside(g: seq<nat>, b: Layout, k: nat) returns (j: nat)
    requires k < |MeetAll(g, b)|
    ensures j < |b| && forall x :: x in MeetAll(g, b)[k] ==> x in g && x in b[j]
  {
    var front := MeetAll(g, b[..|b| - 1]);
    if k < |front| {
      j := MeetAllInside(g, b[..|b| - 1], k);
      assert b[..|b| - 1][j] == b[j];
    } else {
      j := |b| - 1;
    }
  }

  /** A sample in a group of each layout lies in some group of the intersection. */
  lemma {:induction false} IntersectCovers(a: Layout, b: Layout, i: nat, j: nat, x: nat) returns (k: nat)
    requires i < |a| && j < |b| && x in a[i] && x in b[j]
    ensures k < |IntersectLayouts(a, b)| && x in IntersectLayouts(a, b)[k]
  {
    var init := a[..|a| - 1];
    var front := IntersectLayouts(init, b);
    var last := MeetAll(a[|a| - 1], b);
    assert IntersectLayouts(a, b) == front + last;
    if i < |a| - 1 {
      assert init[i] == a[i];
      k := IntersectCovers(init, b, i, j, x);
      assert (front + last)[k] == front[k];
    } else {
      var m := MeetAllCovers(a[i], b, j, x);
      k := |front| + m;
      assert (front + last)[k] == last[m];
    }
  }

  lemma {:induction false} MeetAllCovers(g: seq<nat>, b: Layout, j: nat, x: nat) returns (k: nat)
    requires j < |b| && x in g && x in b[j]
    ensures k < |MeetAll(g, b)| && x in MeetAll(g, b)[k]
  {
    var front := MeetAll(g, b[..|b| - 1]);
    if j < |b| - 1 {
      assert b[..|b| - 1][j] == b[j];
      k := MeetAllCovers(g, b[..|b| - 1], j, x);
      assert MeetAll(g, b)[k] == front[k];
    } else {
      MeetComplete(g, b[j], x);
      k := |front|;
    }
  }

  /** Intersecting one all-samples block with [[0, 1], [2, 3]] gives the condition
      groups back. */
  lemma IntersectExample()
    ensures IntersectLayouts([[0, 1, 2, 3]], [[0, 1], [2, 3]]) == [[0, 1], [2, 3]]
  {
    var g: seq<nat>, lo: seq<nat>, hi: seq<nat> := [0, 1, 2, 3], [0, 1], [2, 3];
    var both: Layout := [lo, hi];
    MeetExample();
    assert both[..1] == [lo] && [lo][..0] == [];
    assert MeetAll(g, [lo]) == MeetAll(g, []) + [lo];
    assert MeetAll(g, both) == MeetAll(g, [lo]) + [hi];
    assert [g][..0] == [];
    assert IntersectLayouts([g], both) == IntersectLayouts([], both) + MeetAll(g, both);
  }

  /** Helper of IntersectExample: the two meets it consists of. */
  lemma MeetExample()
    ensures Meet([0, 1, 2, 3], [0, 1]) == [0, 1]
    ensures Meet([0, 1, 2, 3], [2, 3]) == [2, 3]
  {
    var lo, hi := [0, 1], [2, 3];
    assert [0, 1, 2, 3] == lo + hi;
    MeetHalves(lo, hi, lo);
    MeetHalves(lo, hi, hi);
  }

  /** Helper of MeetExample: each half of [0, 1, 2, 3] meets only itself. */
  lemma MeetHalves(lo: seq<nat>, hi: seq<nat>, h: seq<nat>)
    requires lo == [0, 1] && hi == [2, 3] && (h == lo || h == hi)
    ensures Meet(lo + hi, h) == h
  {
    MeetAppend(lo, hi, h);
    if h == lo {
      MeetInside(lo, lo);
      MeetOutside(hi, lo);
    } else {
      MeetInside(hi, hi);
      MeetOutside(lo, hi);
    }
  }

  lemma {:induction false} MeetAppend(g1: seq<nat>, g2: seq<nat>, h: seq<nat>)
    ensures Meet(g1 + g2, h) == Meet(g1, h) + Meet(g2, h)
  {
    if |g2| == 0 {
      assert g1 + g2 == g1;
    } else {
      assert (g1 + g2)[..|g1 + g2| - 1] == g1 + g2[..|g2| - 1];
      MeetAppend(g1, g2[..|g2| - 1], h);
    }
  }

  /** Meeting a group with a superset keeps it whole. */
  lemma {:induction false} MeetInside(g: seq<nat>, h: seq<nat>)
    requires forall k :: 0 <= k < |g| ==> g[k] in h
    ensures Meet(g, h) == g
  {
    if |g| > 0 {
      MeetInside(g[..|g| - 1], h);
      assert g[..|g| - 1] + [g[|g| - 1]] == g;
    }
  }

  /** Meeting a group with a disjoint one leaves nothing. */
  lemma {:induction false} MeetOutside(g: seq<nat>, h: seq<nat>)
    requires forall k :: 0 <= k < |g| ==> g[k] !in h
    ensures Meet(g, h) == []
  {
    if |g| > 0 { MeetOutside(g[..|g| - 1], h); }
  }

  /** Assumed `layout_is_paired(layout)`: every group holds exactly two samples. */
  predicate LayoutIsPaired(layout: Layout)
  {
    forall i :: 0 <= i < |layout| ==> |layout[i]| == 2
  }

  /** Every index of the layout addresses one of `n` samples. */
  predicate Fits(layout: Layout, n: nat)
  {
    forall i, j :: 0 <= i < |layout| && 0 <= j < |layout[i]| ==> layout[i][j] < n
  }

  predicate NonEmptyGroups(layout: Layout)
  {
    forall i :: 0 <= i < |layout| ==> |layout[i]| > 0
  }
}
