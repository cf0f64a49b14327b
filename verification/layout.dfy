/** The layout passes the component runs after every render
    (`setupBodyHeights`, `setupLeftAndRightWidths`, `setupMiddleMargins`,
    `setupMiddleWidths`), each modelled as the style declarations it writes.

    Every measurement a pass reads from the DOM is a field of
    `Measurements`; `_calculateWidth` enters as the measured `middleWidth`. */
module Layout {
  import opened Wrappers
  import opened Surfaces
  import opened Alignment

  /** Measured outer widths of a region's header cells and body cells. */
  datatype Strip = Strip(headerCells: seq<int>, bodyCells: seq<int>)

  /** What the passes read from the rendered table. `rowCellHeight` is the
      outer height of a cell of a non-empty row, absent when no such row
      exists. */
  datatype Measurements = Measurements(
    tableHeight: int,
    middleHeaderHeight: int,
    rowCellHeight: Option<int>,
    leftBodyWidth: int,
    rightBodyWidth: int,
    middleWidth: int,
    left: Strip,
    middle: Strip,
    right: Strip)

  /** The declarations `setupBodyHeights` may write. */
  predicate IsBodyHeightDecl(d: Decl)
  {
    d.prop == Height && (d.surface.BodyPane? || d.surface == EmptyRows)
  }

  /** `setupBodyHeights`: each of the three bodies gets the table's height
      less the middle header's, so that header plus body fill the table;
      placeholder empty rows get the height of a non-empty row's cell when
      there is one. Only heights are written. */
  function SetupBodyHeights(m: Measurements): (w: Writes)
    ensures forall d :: d in w ==> IsBodyHeightDecl(d)
    ensures forall r: Region ::
      (Decl(BodyPane(r), Height) in w && m.middleHeaderHeight + w[Decl(BodyPane(r), Height)] == m.tableHeight)
    ensures Decl(EmptyRows, Height) in w <==> m.rowCellHeight.Some?
    ensures m.rowCellHeight.Some? ==> w[Decl(EmptyRows, Height)] == m.rowCellHeight.value
  {
    var h := m.tableHeight - m.middleHeaderHeight;
    RegionsComplete();
    var bodies := map r | r in Regions :: Decl(BodyPane(r), Height) := h;
    match m.rowCellHeight
    case Some(cell) => bodies[Decl(EmptyRows, Height) := cell]
    case None => bodies
  }

  /** The placeholder row height does not depend on the table or header
      height: only the non-empty row's cell decides it. */
  lemma EmptyRowsIgnoreTableHeight(m: Measurements, tableHeight: int, middleHeaderHeight: int)
    requires m.rowCellHeight.Some?
    ensures var m' := m.(tableHeight := tableHeight, middleHeaderHeight := middleHeaderHeight);
            SetupBodyHeights(m')[Decl(EmptyRows, Height)] == SetupBodyHeights(m)[Decl(EmptyRows, Height)]
  {
  }

  /** The middle strip's two scroll containers. */
  predicate IsMiddlePane(s: Surface)
  {
    s == HeaderPane(Middle) || s == BodyPane(Middle)
  }

  /** `setupMiddleMargins`: the middle header and middle body both get a
      left margin equal to the left body's outer width and a right margin
      equal to the right body's, reserving room for the frozen regions.
      Only those four margins are written. */
  function SetupMiddleMargins(m: Measurements): (w: Writes)
    ensures forall d :: d in w <==>
      IsMiddlePane(d.surface) && (d.prop == MarginLeft || d.prop == MarginRight)
    ensures forall s :: IsMiddlePane(s) ==>
      w[Decl(s, MarginLeft)] == m.leftBodyWidth && w[Decl(s, MarginRight)] == m.rightBodyWidth
  {
    map[Decl(HeaderPane(Middle), MarginLeft) := m.leftBodyWidth,
        Decl(HeaderPane(Middle), MarginRight) := m.rightBodyWidth,
        Decl(BodyPane(Middle), MarginLeft) := m.leftBodyWidth,
        Decl(BodyPane(Middle), MarginRight) := m.rightBodyWidth]
  }

  /** The declarations `setupMiddleWidths` may write: width and flex-basis of
      the middle header content, the middle rows, and the middle cells. */
  predicate IsMiddleWidthDecl(d: Decl)
  {
    && (d.prop == Width || d.prop == FlexBasis)
    && (d.surface == HeaderContent || d.surface == BodyRows || IsCellOf(d.surface, Middle))
  }

  /** The middle header content and the middle body rows. */
  predicate IsMiddleContent(s: Surface)
  {
    s == HeaderContent || s == BodyRows
  }

  /** The first half of `setupMiddleWidths`: the middle header content and
      the middle body rows get the calculated width, as width and as
      flex-basis, and nothing else is written. */
  function MiddleContentWidths(width: int): (w: Writes)
    ensures forall d :: d in w <==> IsMiddleContent(d.surface) && (d.prop == Width || d.prop == FlexBasis)
    ensures forall d :: d in w ==> w[d] == width
  {
    map[Decl(HeaderContent, Width) := width,
        Decl(HeaderContent, FlexBasis) := width,
        Decl(BodyRows, Width) := width,
        Decl(BodyRows, FlexBasis) := width]
  }

  /** `setupMiddleWidths`: the middle content sized to the calculated width,
      then the middle region's columns aligned. */
  function SetupMiddleWidths(m: Measurements): (w: Writes)
    ensures forall d :: d in w ==> IsMiddleWidthDecl(d)
    ensures forall s :: IsMiddleContent(s) ==>
      && Decl(s, Width) in w && w[Decl(s, Width)] == m.middleWidth
      && Decl(s, FlexBasis) in w && w[Decl(s, FlexBasis)] == m.middleWidth
    ensures var a := AlignColumns(Middle, m.middle.headerCells, m.middle.bodyCells);
      forall d :: d in a ==> d in w && w[d] == a[d]
    ensures w.Keys == AlignColumns(Middle, m.middle.headerCells, m.middle.bodyCells).Keys
                      + MiddleContentWidths(m.middleWidth).Keys
  {
    var a := AlignColumns(Middle, m.middle.headerCells, m.middle.bodyCells);
    var c := MiddleContentWidths(m.middleWidth);
    AlignFootprint(Middle, m.middle.headerCells, m.middle.bodyCells);
    assert a.Keys !! c.Keys by {
      forall d | d in c
        ensures d !in a
      {
        assert !IsCellOf(d.surface, Middle);
      }
    }
    Merge(a, c)
  }

  /** The declarations `setupLeftAndRightWidths` may write: width and
      flex-basis of the left and right cells. */
  predicate IsSideWidthDecl(d: Decl)
  {
    && (d.prop == Width || d.prop == FlexBasis)
    && (IsCellOf(d.surface, Left) || IsCellOf(d.surface, Right))
  }

  /** `setupLeftAndRightWidths`: align the left region's columns and the
      right region's columns. */
  function SetupLeftAndRightWidths(m: Measurements): (w: Writes)
    ensures forall d :: d in w ==> IsSideWidthDecl(d)
    ensures var a := AlignColumns(Left, m.left.headerCells, m.left.bodyCells);
      forall d :: d in a ==> d in w && w[d] == a[d]
    ensures var a := AlignColumns(Right, m.right.headerCells, m.right.bodyCells);
      forall d :: d in a ==> d in w && w[d] == a[d]
    ensures w.Keys == AlignColumns(Left, m.left.headerCells, m.left.bodyCells).Keys
                      + AlignColumns(Right, m.right.headerCells, m.right.bodyCells).Keys
  {
    var l := AlignColumns(Left, m.left.headerCells, m.left.bodyCells);
    var r := AlignColumns(Right, m.right.headerCells, m.right.bodyCells);
    AlignFootprint(Left, m.left.headerCells, m.left.bodyCells);
    AlignFootprint(Right, m.right.headerCells, m.right.bodyCells);
    Merge(l, r)
  }

  /** The unit test's measurements: a 100px table under a 20px middle
      header gives 80px bodies, and a 50px cell gives 50px placeholder
      rows. */
  lemma BodyHeightsFixture(m: Measurements)
    requires m.tableHeight == 100 && m.middleHeaderHeight == 20 && m.rowCellHeight == Some(50)
    ensures forall r: Region :: SetupBodyHeights(m)[Decl(BodyPane(r), Height)] == 80
    ensures SetupBodyHeights(m)[Decl(EmptyRows, Height)] == 50
  {
  }

  /** A corollary of `SetupMiddleMargins`, in the form the unit test checks
      it: the middle header and the middle body are offset identically, so
      the middle header's columns stay above the middle body's columns. */
  lemma MiddlePanesAligned(m: Measurements, p: Prop)
    requires p == MarginLeft || p == MarginRight
    ensures var w := SetupMiddleMargins(m);
      w[Decl(HeaderPane(Middle), p)] == w[Decl(BodyPane(Middle), p)]
  {
  }

  /** The unit test's measurements: 123px and 321px frozen bodies give
      123px left and 321px right margins. */
  lemma MarginsFixture(m: Measurements)
    requires m.leftBodyWidth == 123 && m.rightBodyWidth == 321
    ensures forall p :: IsMiddlePane(p) ==>
      SetupMiddleMargins(m)[Decl(p, MarginLeft)] == 123 && SetupMiddleMargins(m)[Decl(p, MarginRight)] == 321
  {
  }

  /** The unit test's calculated width of 12345 sizes the middle header
      content and the middle rows. */
  lemma MiddleWidthsFixture(m: Measurements)
    requires m.middleWidth == 12345
    ensures forall p :: IsMiddleContent(p) ==>
      SetupMiddleWidths(m)[Decl(p, Width)] == 12345 && SetupMiddleWidths(m)[Decl(p, FlexBasis)] == 12345
  {
  }
}
