/** The rendered surfaces of the frozen-column table and the inline style
    declarations the layout passes write onto them.

    Every pass of the component ends in jQuery `.css({...})` calls; the model
    records such a call as a finite map from (surface, property) to a pixel
    value, so that what a pass writes is a value that can be compared,
    combined and applied to a style state. */
module Surfaces {

  /** The three horizontal regions of the table. */
  datatype Region = Left | Middle | Right

  /** Every region. */
  const Regions: set<Region> := {Left, Middle, Right}

  lemma RegionsComplete()
    ensures forall r: Region :: r in Regions
  {
    forall r: Region
      ensures r in Regions
    {
      match r
      case Left =>
      case Middle =>
      case Right =>
    }
  }

  /** A surface, i.e. what one of the component's selectors matches.
      - HeaderPane(r): the header strip of region r (for the middle region,
        its `.frost-scroll` container).
      - BodyPane(r): the `.frost-scroll` body container of region r.
      - HeaderContent: the middle header's `.frost-table-header` element.
      - BodyRows: the middle body's `.frost-table-row` elements.
      - EmptyRows: every `.frost-table-row:empty` placeholder row.
      - NonEmptyCells: the leaf cells of the non-empty rows.
      - HeaderCell(r, pos): header cell `eq(pos)` of region r, 0-based.
      - BodyCell(r, nth): body cell `:nth-child(nth)` of every row of
        region r, 1-based. */
  datatype Surface =
    | HeaderPane(region: Region)
    | BodyPane(region: Region)
    | HeaderContent
    | BodyRows
    | EmptyRows
    | NonEmptyCells
    | HeaderCell(cellRegion: Region, pos: nat)
    | BodyCell(cellRegion: Region, nth: nat)

  /** The style properties the passes write. */
  datatype Prop = Height | Width | FlexBasis | MarginLeft | MarginRight

  /** One inline style declaration target. */
  datatype Decl = Decl(surface: Surface, prop: Prop)

  /** Pixel values written by one or more `.css` calls. */
  type Writes = map<Decl, int>

  /** The inline styles of the whole table. */
  type Styles = map<Decl, int>

  /** Applying writes to a style state: the written declarations take the
      written value, every other declaration keeps its value. */
  function Apply(st: Styles, w: Writes): (st': Styles)
    ensures st'.Keys == st.Keys + w.Keys
    ensures forall d :: d in w ==> st'[d] == w[d]
    ensures forall d :: d in st && d !in w ==> st'[d] == st[d]
  {
    st + w
  }

  /** Two sets of writes to disjoint declarations, issued together. */
  function Merge(w1: Writes, w2: Writes): (w: Writes)
    requires w1.Keys !! w2.Keys
    ensures w.Keys == w1.Keys + w2.Keys
    ensures forall d :: d in w1 ==> w[d] == w1[d]
    ensures forall d :: d in w2 ==> w[d] == w2[d]
  {
    w1 + w2
  }
}
