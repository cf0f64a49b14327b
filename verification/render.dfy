/** What one render leaves on the table: the four layout passes of
    `didRender`, each run once, applied to the styles the table had.

    Every pass reads one set of measurements, taken before the first pass.
    The passes write to pairwise disjoint declarations, so for such
    measurements the order in which they are issued does not change the
    outcome. */
module Render {
  import opened Surfaces
  import opened Alignment
  import opened Layout

  /** Every declaration some pass of `ws` writes. */
  function Written(ws: seq<Writes>): (ds: set<Decl>)
    ensures forall d :: d in ds <==> exists k :: 0 <= k < |ws| && d in ws[k]
  {
    if |ws| == 0 then {}
    else
      var p := ws[..|ws| - 1];
      assert forall k :: 0 <= k < |p| ==> p[k] == ws[k];
      Written(p) + ws[|ws| - 1].Keys
  }

  /** Applying a sequence of passes in order, the last one last, as the
      successive `.css` calls of the passes do: the styles end up defined
      on what was styled before and on everything some pass writes. */
  function ApplyAll(st: Styles, ws: seq<Writes>): (r: Styles)
    ensures r.Keys == st.Keys + Written(ws)
  {
    if |ws| == 0 then st else Apply(ApplyAll(st, ws[..|ws| - 1]), ws[|ws| - 1])
  }

  /** No two passes write different values to the same declaration. */
  ghost predicate Agree(ws: seq<Writes>)
  {
    forall i, j, d :: 0 <= i < |ws| && 0 <= j < |ws| && d in ws[i] && d in ws[j] ==> ws[i][d] == ws[j][d]
  }

  /** Distinct passes write distinct declarations. */
  ghost predicate PairwiseDisjoint(ws: seq<Writes>)
  {
    forall i, j :: 0 <= i < j < |ws| ==> ws[i].Keys !! ws[j].Keys
  }

  /** Every declaration a pass writes carries, after all passes, the value
      that pass wrote. */
  lemma {:induction false} ApplyAllWritten(st: Styles, ws: seq<Writes>, k: nat, d: Decl)
    requires Agree(ws) && k < |ws| && d in ws[k]
    ensures d in ApplyAll(st, ws) && ApplyAll(st, ws)[d] == ws[k][d]
  {
    var last := |ws| - 1;
    var p := ws[..last];
    if d in ws[last] {
      assert ws[k][d] == ws[last][d];
    } else {
      assert p[k] == ws[k];
      AgreePrefix(ws);
      ApplyAllWritten(st, p, k, d);
    }
  }

  lemma AgreePrefix(ws: seq<Writes>)
    requires Agree(ws) && |ws| > 0
    ensures Agree(ws[..|ws| - 1])
  {
    var p := ws[..|ws| - 1];
    forall i, j, e | 0 <= i < |p| && 0 <= j < |p| && e in p[i] && e in p[j]
      ensures p[i][e] == p[j][e]
    {
      assert p[i] == ws[i] && p[j] == ws[j];
    }
  }

  /** A declaration no pass writes keeps its presence and value. */
  lemma {:induction false} ApplyAllUntouched(st: Styles, ws: seq<Writes>, d: Decl)
    requires forall k :: 0 <= k < |ws| ==> d !in ws[k]
    ensures d in ApplyAll(st, ws) <==> d in st
    ensures d in st ==> ApplyAll(st, ws)[d] == st[d]
  {
    if |ws| > 0 {
      var p := ws[..|ws| - 1];
      assert forall k :: 0 <= k < |p| ==> p[k] == ws[k];
      assert d !in ws[|ws| - 1];
      ApplyAllUntouched(st, p, d);
    }
  }

  /** Passes that agree can be issued in any order, and any repetition: only
      the set of passes issued matters. */
  lemma ApplyAllOrderFree(st: Styles, ws: seq<Writes>, ws': seq<Writes>)
    requires Agree(ws)
    requires forall w :: w in ws <==> w in ws'
    ensures ApplyAll(st, ws) == ApplyAll(st, ws')
  {
    assert Agree(ws') by {
      forall i, j, d | 0 <= i < |ws'| && 0 <= j < |ws'| && d in ws'[i] && d in ws'[j]
        ensures ws'[i][d] == ws'[j][d]
      {
        assert ws'[i] in ws && ws'[j] in ws;
      }
    }
    var a := ApplyAll(st, ws);
    var b := ApplyAll(st, ws');
    forall d
      ensures (d in a <==> d in b) && (d in a ==> a[d] == b[d])
    {
      if k :| 0 <= k < |ws| && d in ws[k] {
        assert ws[k] in ws';
        var k' :| 0 <= k' < |ws'| && ws'[k'] == ws[k];
        ApplyAllWritten(st, ws, k, d);
        ApplyAllWritten(st, ws', k', d);
      } else {
        forall k' | 0 <= k' < |ws'|
          ensures d !in ws'[k']
        {
          assert ws'[k'] in ws;
        }
        ApplyAllUntouched(st, ws, d);
        ApplyAllUntouched(st, ws', d);
      }
    }
  }

  /** Pairwise disjoint passes agree. */
  lemma DisjointAgree(ws: seq<Writes>)
    requires PairwiseDisjoint(ws)
    ensures Agree(ws)
  {
  }

  /** The margins `setupMiddleMargins` writes. */
  predicate IsMarginDecl(d: Decl)
  {
    d.prop == MarginLeft || d.prop == MarginRight
  }

  /** A declaration some layout pass may write. */
  predicate IsLayoutDecl(d: Decl)
  {
    IsBodyHeightDecl(d) || IsSideWidthDecl(d) || IsMarginDecl(d) || IsMiddleWidthDecl(d)
  }

  /** The position, in `RenderPasses`, of the pass that owns a layout
      declaration. */
  function Owner(d: Decl): nat
  {
    if d.prop == Height then 0
    else if IsMarginDecl(d) then 2
    else if IsCellOf(d.surface, Middle) || IsMiddleContent(d.surface) then 3
    else 1
  }

  /** Every declaration `w` writes is a layout declaration owned by pass
      `k`. */
  ghost predicate Owns(w: Writes, k: nat)
  {
    forall d :: d in w ==> IsLayoutDecl(d) && Owner(d) == k
  }

  lemma SideOwned(d: Decl)
    requires IsSideWidthDecl(d)
    ensures IsLayoutDecl(d) && Owner(d) == 1
  {
  }

  lemma BodyHeightsOwned(m: Measurements)
    ensures Owns(SetupBodyHeights(m), 0)
  {
  }

  lemma SideWidthsOwned(m: Measurements)
    ensures Owns(SetupLeftAndRightWidths(m), 1)
  {
    forall d | d in SetupLeftAndRightWidths(m)
      ensures IsLayoutDecl(d) && Owner(d) == 1
    {
      SideOwned(d);
    }
  }

  lemma MarginsOwned(m: Measurements)
    ensures Owns(SetupMiddleMargins(m), 2)
  {
  }

  lemma MiddleOwned(d: Decl)
    requires IsMiddleWidthDecl(d)
    ensures IsLayoutDecl(d) && Owner(d) == 3
  {
  }

  lemma MiddleWidthsOwned(m: Measurements)
    ensures Owns(SetupMiddleWidths(m), 3)
  {
    forall d | d in SetupMiddleWidths(m)
      ensures IsLayoutDecl(d) && Owner(d) == 3
    {
      MiddleOwned(d);
    }
  }

  lemma OwnedFour(ws: seq<Writes>, a: Writes, b: Writes, c: Writes, e: Writes)
    requires Owns(a, 0) && Owns(b, 1) && Owns(c, 2) && Owns(e, 3)
    requires ws == [a, b, c, e]
    ensures forall k :: 0 <= k < |ws| ==> Owns(ws[k], k)
  {
  }

  /** Passes that each own their position write disjoint declarations. */
  lemma OwnedDisjoint(ws: seq<Writes>)
    requires forall k :: 0 <= k < |ws| ==> Owns(ws[k], k)
    ensures PairwiseDisjoint(ws)
  {
    forall i, j | 0 <= i < j < |ws|
      ensures ws[i].Keys !! ws[j].Keys
    {
      assert Owns(ws[i], i) && Owns(ws[j], j);
    }
  }

  /** The passes `didRender` runs, each once: the body heights, the frozen
      strips' widths, the middle margins and the middle widths. */
  function RenderPasses(m: Measurements): (ws: seq<Writes>)
    ensures |ws| == 4
  {
    [SetupBodyHeights(m), SetupLeftAndRightWidths(m), SetupMiddleMargins(m), SetupMiddleWidths(m)]
  }

  /** Each pass writes only the layout declarations it owns, so that no two
      passes write the same declaration. */
  lemma RenderPassesDisjoint(m: Measurements)
    ensures forall k :: 0 <= k < |RenderPasses(m)| ==> Owns(RenderPasses(m)[k], k)
    ensures PairwiseDisjoint(RenderPasses(m))
  {
    BodyHeightsOwned(m);
    SideWidthsOwned(m);
    MarginsOwned(m);
    MiddleWidthsOwned(m);
    OwnedFour(RenderPasses(m), SetupBodyHeights(m), SetupLeftAndRightWidths(m), SetupMiddleMargins(m), SetupMiddleWidths(m));
    OwnedDisjoint(RenderPasses(m));
  }

  /** The pass that issues a region's alignment. */
  function AlignPass(r: Region): nat
  {
    if r == Middle then 3 else 1
  }

  /** The styles of the table after one render: defined on what was styled
      before and on the render's footprint. */
  function Rendered(st: Styles, m: Measurements): (r: Styles)
    ensures forall d :: d in r <==> d in st || InRenderFootprint(m, d)
  {
    forall d
      ensures d in Written(RenderPasses(m)) <==> InRenderFootprint(m, d)
    {
      RenderFootprint(m, d);
    }
    ApplyAll(st, RenderPasses(m))
  }

  /** For measurements taken once before the first pass, however the
      passes are ordered, the table ends the same. */
  lemma RenderOrderFree(st: Styles, m: Measurements, order: seq<Writes>)
    requires forall w :: w in order <==> w in RenderPasses(m)
    ensures ApplyAll(st, order) == Rendered(st, m)
  {
    RenderPassesDisjoint(m);
    DisjointAgree(RenderPasses(m));
    ApplyAllOrderFree(st, RenderPasses(m), order);
  }

  /** The strip `alignColumns` measures for a region. */
  function StripOf(m: Measurements, r: Region): Strip
  {
    match r
    case Left => m.left
    case Middle => m.middle
    case Right => m.right
  }

  /** The alignment writes of region `r` are among those of its pass. */
  lemma AlignIsIssued(m: Measurements, r: Region)
    ensures var a := AlignColumns(r, StripOf(m, r).headerCells, StripOf(m, r).bodyCells);
            var w := RenderPasses(m)[AlignPass(r)];
      forall d :: d in a ==> d in w && w[d] == a[d]
  {
    match r
    case Left => LeftAlignIssued(m);
    case Middle => MiddleAlignIssued(m);
    case Right => RightAlignIssued(m);
  }

  lemma LeftAlignIssued(m: Measurements)
    ensures var a := AlignColumns(Left, m.left.headerCells, m.left.bodyCells);
            var w := RenderPasses(m)[1];
      forall d :: d in a ==> d in w && w[d] == a[d]
  {
  }

  lemma MiddleAlignIssued(m: Measurements)
    ensures var a := AlignColumns(Middle, m.middle.headerCells, m.middle.bodyCells);
            var w := RenderPasses(m)[3];
      forall d :: d in a ==> d in w && w[d] == a[d]
  {
  }

  lemma RightAlignIssued(m: Measurements)
    ensures var a := AlignColumns(Right, m.right.headerCells, m.right.bodyCells);
            var w := RenderPasses(m)[1];
      forall d :: d in a ==> d in w && w[d] == a[d]
  {
  }

  /** Every declaration pass `k` writes carries, after a render, the value
      that pass wrote. */
  lemma PassLands(st: Styles, m: Measurements, k: nat)
    requires k < 4
    ensures Holds(Rendered(st, m), RenderPasses(m)[k])
  {
    var ws := RenderPasses(m);
    RenderPassesDisjoint(m);
    DisjointAgree(ws);
    forall d | d in ws[k]
      ensures d in ApplyAll(st, ws) && ApplyAll(st, ws)[d] == ws[k][d]
    {
      ApplyAllWritten(st, ws, k, d);
    }
  }

  /** Every declaration `w` writes is in `s` with the value `w` wrote. */
  ghost predicate Holds(s: Styles, w: Writes)
  {
    forall d :: d in w ==> d in s && s[d] == w[d]
  }

  lemma BodyHeightsHold(s: Styles, m: Measurements)
    requires Holds(s, SetupBodyHeights(m))
    ensures forall r: Region ::
      Decl(BodyPane(r), Height) in s && m.middleHeaderHeight + s[Decl(BodyPane(r), Height)] == m.tableHeight
    ensures m.rowCellHeight.Some? ==> Decl(EmptyRows, Height) in s && s[Decl(EmptyRows, Height)] == m.rowCellHeight.value
  {
    forall r: Region
      ensures Decl(BodyPane(r), Height) in s && m.middleHeaderHeight + s[Decl(BodyPane(r), Height)] == m.tableHeight
    {
      assert Decl(BodyPane(r), Height) in SetupBodyHeights(m);
    }
  }

  lemma MarginsHold(s: Styles, m: Measurements)
    requires Holds(s, SetupMiddleMargins(m))
    ensures forall p :: IsMiddlePane(p) ==>
      && Decl(p, MarginLeft) in s && s[Decl(p, MarginLeft)] == m.leftBodyWidth
      && Decl(p, MarginRight) in s && s[Decl(p, MarginRight)] == m.rightBodyWidth
  {
    forall p | IsMiddlePane(p)
      ensures Decl(p, MarginLeft) in SetupMiddleMargins(m) && Decl(p, MarginRight) in SetupMiddleMargins(m)
    {
    }
  }

  lemma MiddleContentHolds(s: Styles, m: Measurements)
    requires Holds(s, SetupMiddleWidths(m))
    ensures forall p :: IsMiddleContent(p) ==>
      && Decl(p, Width) in s && s[Decl(p, Width)] == m.middleWidth
      && Decl(p, FlexBasis) in s && s[Decl(p, FlexBasis)] == m.middleWidth
  {
  }

  /** After a render every body fills the table below the middle header,
      and the placeholder rows are as tall as a non-empty row's cell. */
  lemma BodiesFillTable(st: Styles, m: Measurements)
    ensures var s := Rendered(st, m);
      forall r: Region ::
        Decl(BodyPane(r), Height) in s && m.middleHeaderHeight + s[Decl(BodyPane(r), Height)] == m.tableHeight
    ensures var s := Rendered(st, m);
      m.rowCellHeight.Some? ==> Decl(EmptyRows, Height) in s && s[Decl(EmptyRows, Height)] == m.rowCellHeight.value
  {
    PassLands(st, m, 0);
    assert RenderPasses(m)[0] == SetupBodyHeights(m);
    BodyHeightsHold(Rendered(st, m), m);
  }

  /** After a render the middle header and body leave room for the frozen
      strips on both sides. */
  lemma MarginsReserveFrozenStrips(st: Styles, m: Measurements)
    ensures var s := Rendered(st, m);
      forall p :: IsMiddlePane(p) ==>
        && Decl(p, MarginLeft) in s && s[Decl(p, MarginLeft)] == m.leftBodyWidth
        && Decl(p, MarginRight) in s && s[Decl(p, MarginRight)] == m.rightBodyWidth
  {
    PassLands(st, m, 2);
    assert RenderPasses(m)[2] == SetupMiddleMargins(m);
    MarginsHold(Rendered(st, m), m);
  }

  /** After a render the middle header content and rows have the
      calculated width. */
  lemma MiddleContentSized(st: Styles, m: Measurements)
    ensures var s := Rendered(st, m);
      forall p :: IsMiddleContent(p) ==>
        && Decl(p, Width) in s && s[Decl(p, Width)] == m.middleWidth
        && Decl(p, FlexBasis) in s && s[Decl(p, FlexBasis)] == m.middleWidth
  {
    PassLands(st, m, 3);
    assert RenderPasses(m)[3] == SetupMiddleWidths(m);
    MiddleContentHolds(Rendered(st, m), m);
  }

  /** After a render, in every region, each column's header cell and body
      cell carry the same width, the wider of the two measured. */
  lemma ColumnsAligned(st: Styles, m: Measurements)
    ensures var s := Rendered(st, m);
      forall r: Region, i :: 0 <= i < Paired(StripOf(m, r).headerCells, StripOf(m, r).bodyCells) ==>
        SizesPosition(s, r, i, Wider(StripOf(m, r).headerCells[i], StripOf(m, r).bodyCells[i]))
  {
    var s := Rendered(st, m);
    forall r: Region, i | 0 <= i < Paired(StripOf(m, r).headerCells, StripOf(m, r).bodyCells)
      ensures SizesPosition(s, r, i, Wider(StripOf(m, r).headerCells[i], StripOf(m, r).bodyCells[i]))
    {
      var h, b := StripOf(m, r).headerCells, StripOf(m, r).bodyCells;
      AlignLands(st, m, r);
      assert SizesPosition(AlignColumns(r, h, b), r, i, Wider(h[i], b[i]));
    }
  }

  /** A region's alignment writes survive a render. */
  lemma AlignLands(st: Styles, m: Measurements, r: Region)
    ensures var a := AlignColumns(r, StripOf(m, r).headerCells, StripOf(m, r).bodyCells);
      forall d :: d in a ==> d in Rendered(st, m) && Rendered(st, m)[d] == a[d]
  {
    AlignIsIssued(m, r);
    PassLands(st, m, AlignPass(r));
  }

  /** The declarations one render writes, described independently of the
      passes: the three bodies' heights, the placeholder rows' height when
      a non-empty row was measured, the middle header's and middle body's
      margins, the middle content's width and flex-basis, and each strip's
      paired header and body cells. */
  predicate InRenderFootprint(m: Measurements, d: Decl)
  {
    || (d.prop == Height && (d.surface.BodyPane? || (d.surface == EmptyRows && m.rowCellHeight.Some?)))
    || (IsMiddlePane(d.surface) && IsMarginDecl(d))
    || (IsMiddleContent(d.surface) && (d.prop == Width || d.prop == FlexBasis))
    || InAlignDomain(d, Left, Paired(m.left.headerCells, m.left.bodyCells))
    || InAlignDomain(d, Middle, Paired(m.middle.headerCells, m.middle.bodyCells))
    || InAlignDomain(d, Right, Paired(m.right.headerCells, m.right.bodyCells))
  }

  lemma BodyHeightsFootprint(m: Measurements, d: Decl)
    ensures d in SetupBodyHeights(m) <==>
      d.prop == Height && (d.surface.BodyPane? || (d.surface == EmptyRows && m.rowCellHeight.Some?))
  {
    if d.prop == Height && d.surface.BodyPane? {
      assert d == Decl(BodyPane(d.surface.region), Height);
    }
  }

  lemma SideWidthsFootprint(m: Measurements, d: Decl)
    ensures d in SetupLeftAndRightWidths(m) <==>
      || InAlignDomain(d, Left, Paired(m.left.headerCells, m.left.bodyCells))
      || InAlignDomain(d, Right, Paired(m.right.headerCells, m.right.bodyCells))
  {
    AlignDomainMembers(Left, Paired(m.left.headerCells, m.left.bodyCells), d);
    AlignDomainMembers(Right, Paired(m.right.headerCells, m.right.bodyCells), d);
  }

  lemma MiddleWidthsFootprint(m: Measurements, d: Decl)
    ensures d in SetupMiddleWidths(m) <==>
      || (IsMiddleContent(d.surface) && (d.prop == Width || d.prop == FlexBasis))
      || InAlignDomain(d, Middle, Paired(m.middle.headerCells, m.middle.bodyCells))
  {
    AlignDomainMembers(Middle, Paired(m.middle.headerCells, m.middle.bodyCells), d);
  }

  lemma MarginsFootprint(m: Measurements, d: Decl)
    ensures d in SetupMiddleMargins(m) <==> IsMiddlePane(d.surface) && IsMarginDecl(d)
  {
  }

  lemma WrittenFour(ws: seq<Writes>, d: Decl)
    requires |ws| == 4
    ensures d in Written(ws) <==> d in ws[0] || d in ws[1] || d in ws[2] || d in ws[3]
  {
  }

  /** A render writes exactly the declarations of its footprint. */
  lemma RenderFootprint(m: Measurements, d: Decl)
    ensures d in Written(RenderPasses(m)) <==> InRenderFootprint(m, d)
  {
    WrittenFour(RenderPasses(m), d);
    BodyHeightsFootprint(m, d);
    SideWidthsFootprint(m, d);
    MarginsFootprint(m, d);
    MiddleWidthsFootprint(m, d);
  }

  /** A render leaves every declaration outside its footprint as it was:
      the frozen strips' panes, the other surfaces' margins, and the cells
      beyond the paired positions keep their presence and value. */
  lemma RenderKeepsOthers(st: Styles, m: Measurements, d: Decl)
    requires !InRenderFootprint(m, d)
    ensures d in Rendered(st, m) <==> d in st
    ensures d in st ==> Rendered(st, m)[d] == st[d]
  {
    RenderFootprint(m, d);
    ApplyAllUntouched(st, RenderPasses(m), d);
  }

  /** Passes that agree settle in one round: issuing them again changes
      nothing. */
  lemma ApplyAllIdempotent(st: Styles, ws: seq<Writes>)
    requires Agree(ws)
    ensures ApplyAll(ApplyAll(st, ws), ws) == ApplyAll(st, ws)
  {
    var s1 := ApplyAll(st, ws);
    var s2 := ApplyAll(s1, ws);
    forall d
      ensures (d in s2 <==> d in s1) && (d in s2 ==> s2[d] == s1[d])
    {
      if k :| 0 <= k < |ws| && d in ws[k] {
        ApplyAllWritten(st, ws, k, d);
        ApplyAllWritten(s1, ws, k, d);
      } else {
        ApplyAllUntouched(s1, ws, d);
      }
    }
  }

  /** Rendering again with the same measurements changes nothing. */
  lemma RenderIdempotent(st: Styles, m: Measurements)
    ensures Rendered(Rendered(st, m), m) == Rendered(st, m)
  {
    RenderPassesDisjoint(m);
    DisjointAgree(RenderPasses(m));
    ApplyAllIdempotent(st, RenderPasses(m));
  }
}
