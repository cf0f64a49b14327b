/** `alignColumns(headerSelector, bodySelector)`: header cell `i` and body
    cell `i` of a region are both given the width of the wider of the two,
    as `width` and as `flex-basis`, so that a header and the column under it
    line up although they live in separately scrolling strips.

    Header cells are addressed 0-based (`eq(i)`), body cells 1-based
    (`:nth-child(i + 1)`); the model keeps both numberings. */
module Alignment {
  import opened Surfaces

  /** The width both cells of a position receive: the least width at least
      as wide as either measured cell. */
  function Wider(a: int, b: int): (w: int)
    ensures a <= w && b <= w
    ensures w == a || w == b
  {
    if a >= b then a else b
  }

  /** Whether `d` is one of the declarations alignment writes for the first
      `n` positions of `region`: width or flex-basis of a header cell
      `0 <= pos < n`, or of a body cell `1 <= nth <= n`. */
  predicate InAlignDomain(d: Decl, region: Region, n: nat)
  {
    && (d.prop == Width || d.prop == FlexBasis)
    && match d.surface
       case HeaderCell(r, pos) => r == region && pos < n
       case BodyCell(r, nth) => r == region && 1 <= nth <= n
       case _ => false
  }

  /** The four declarations alignment writes for position `i`. */
  function PositionDecls(region: Region, i: nat): set<Decl>
  {
    { Decl(HeaderCell(region, i), Width), Decl(HeaderCell(region, i), FlexBasis),
      Decl(BodyCell(region, i + 1), Width), Decl(BodyCell(region, i + 1), FlexBasis) }
  }

  /** The declarations alignment writes for the first `n` positions. */
  function AlignDomain(region: Region, n: nat): (ds: set<Decl>)
  {
    if n == 0 then {} else AlignDomain(region, n - 1) + PositionDecls(region, n - 1)
  }

  /** `AlignDomain` holds exactly the declarations `InAlignDomain` admits. */
  lemma {:induction false} AlignDomainMembers(region: Region, n: nat, d: Decl)
    ensures d in AlignDomain(region, n) <==> InAlignDomain(d, region, n)
  {
    if n > 0 {
      AlignDomainMembers(region, n - 1, d);
      assert AlignDomain(region, n) == AlignDomain(region, n - 1) + PositionDecls(region, n - 1);
      assert d in PositionDecls(region, n - 1) <==>
        && (d.prop == Width || d.prop == FlexBasis)
        && (d.surface == HeaderCell(region, n - 1) || d.surface == BodyCell(region, n));
    }
  }

  /** Header cell `i` and body cell `i + 1` of `region` all carry width
      and flex-basis `v`. */
  ghost predicate SizesPosition(w: Writes, region: Region, i: nat, v: int)
  {
    && Decl(HeaderCell(region, i), Width) in w && w[Decl(HeaderCell(region, i), Width)] == v
    && Decl(HeaderCell(region, i), FlexBasis) in w && w[Decl(HeaderCell(region, i), FlexBasis)] == v
    && Decl(BodyCell(region, i + 1), Width) in w && w[Decl(BodyCell(region, i + 1), Width)] == v
    && Decl(BodyCell(region, i + 1), FlexBasis) in w && w[Decl(BodyCell(region, i + 1), FlexBasis)] == v
  }

  /** Every declaration in `AlignDomain` and nothing else is admitted by
      `InAlignDomain`. */
  lemma AlignDomainExactly(region: Region, n: nat)
    ensures forall d :: d in AlignDomain(region, n) <==> InAlignDomain(d, region, n)
  {
    forall d
      ensures d in AlignDomain(region, n) <==> InAlignDomain(d, region, n)
    {
      AlignDomainMembers(region, n, d);
    }
  }

  /** The position a cell declaration belongs to: a header cell's `pos`, a
      body cell's `nth - 1`. */
  function PositionOf(d: Decl): int
  {
    match d.surface
    case HeaderCell(_, pos) => pos
    case BodyCell(_, nth) => nth - 1
    case _ => -1
  }

  /** The number of positions present in both strips. */
  function Paired(header: seq<int>, body: seq<int>): (n: nat)
    ensures n <= |header| && n <= |body|
    ensures n == |header| || n == |body|
  {
    if |header| <= |body| then |header| else |body|
  }

  /** `alignColumns` for one region, from the measured outer widths of its
      header cells and of its body cells. Every position present in both
      strips gets the same size on the header cell and the body cell, at
      least as wide as each measured cell and equal to one of them; nothing
      outside those cells is written. */
  function AlignColumns(region: Region, header: seq<int>, body: seq<int>): (w: Writes)
    ensures w.Keys == AlignDomain(region, Paired(header, body))
    ensures forall i :: 0 <= i < Paired(header, body) ==>
      SizesPosition(w, region, i, Wider(header[i], body[i]))
  {
    var n := Paired(header, body);
    AlignDomainExactly(region, n);
    map d | d in AlignDomain(region, n) :: Wider(header[PositionOf(d)], body[PositionOf(d)])
  }

  /** The widths the header cells of `region` measure once `w` is applied
      (0 where `w` leaves a cell alone). */
  function RemeasuredHeader(w: Writes, region: Region, n: nat): (widths: seq<int>)
    ensures |widths| == n
    ensures forall i :: 0 <= i < n && Decl(HeaderCell(region, i), Width) in w ==>
      widths[i] == w[Decl(HeaderCell(region, i), Width)]
  {
    seq(n, i requires 0 <= i < n =>
      var d := Decl(HeaderCell(region, i), Width);
      if d in w then w[d] else 0)
  }

  /** The widths the body cells of `region` measure once `w` is applied,
      position `i` being body cell `i + 1` (0 where `w` leaves a cell
      alone). */
  function RemeasuredBody(w: Writes, region: Region, n: nat): (widths: seq<int>)
    ensures |widths| == n
    ensures forall i :: 0 <= i < n && Decl(BodyCell(region, i + 1), Width) in w ==>
      widths[i] == w[Decl(BodyCell(region, i + 1), Width)]
  {
    seq(n, i requires 0 <= i < n =>
      var d := Decl(BodyCell(region, i + 1), Width);
      if d in w then w[d] else 0)
  }

  /** Whether `s` is a header or body cell of `region`. */
  predicate IsCellOf(s: Surface, region: Region)
  {
    (s.HeaderCell? || s.BodyCell?) && s.cellRegion == region
  }

  /** Alignment writes only width and flex-basis, and only on cells of its
      own region. */
  lemma AlignFootprint(region: Region, header: seq<int>, body: seq<int>)
    ensures forall d :: d in AlignColumns(region, header, body) ==>
      IsCellOf(d.surface, region) && (d.prop == Width || d.prop == FlexBasis)
  {
    AlignDomainExactly(region, Paired(header, body));
  }

  /** The value alignment writes for a declaration of its domain is the
      wider width of that declaration's position. */
  lemma AlignValue(region: Region, header: seq<int>, body: seq<int>, d: Decl)
    requires d in AlignDomain(region, Paired(header, body))
    ensures 0 <= PositionOf(d) < Paired(header, body)
    ensures AlignColumns(region, header, body)[d]
         == Wider(header[PositionOf(d)], body[PositionOf(d)])
  {
    AlignDomainMembers(region, Paired(header, body), d);
  }

  /** Alignment settles in one pass: once its writes are applied, header and
      body cells measure the aligned width, and aligning those measurements
      again writes exactly the same declarations. */
  lemma RealignIsStable(region: Region, header: seq<int>, body: seq<int>)
    ensures var w := AlignColumns(region, header, body);
            var n := Paired(header, body);
            AlignColumns(region, RemeasuredHeader(w, region, n), RemeasuredBody(w, region, n)) == w
  {
    var w := AlignColumns(region, header, body);
    var n := Paired(header, body);
    var rh := RemeasuredHeader(w, region, n);
    var rb := RemeasuredBody(w, region, n);
    var w2 := AlignColumns(region, rh, rb);
    assert Paired(rh, rb) == n;
    forall d | d in w
      ensures w2[d] == w[d]
    {
      AlignValue(region, header, body, d);
      AlignValue(region, rh, rb, d);
      var i := PositionOf(d);
      assert SizesPosition(w, region, i, Wider(header[i], body[i]));
      assert rh[i] == Wider(header[i], body[i]) && rb[i] == Wider(header[i], body[i]);
    }
  }

  /** The unit test's case: header cells 100 and 20 wide, body cells 20 and
      100 wide; all four cells end at 100. */
  lemma AlignFixture(region: Region)
    ensures SizesPosition(AlignColumns(region, [100, 20], [20, 100]), region, 0, 100)
    ensures SizesPosition(AlignColumns(region, [100, 20], [20, 100]), region, 1, 100)
  {
  }
}
