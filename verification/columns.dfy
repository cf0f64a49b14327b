/** The column partitioner of the frozen-column table: the computed
    properties `leftColumns`, `middleColumns` and `rightColumns`.

    Every column is first stamped with its zero-based position in the list
    the host supplied. `left` is the leading run of frozen columns, `right`
    is the trailing run of frozen columns among those `left` did not take,
    and `middle` is everything in between, in order. */
module Columns {
  import opened Wrappers

  /** A column definition as the host supplies it. An absent `frozen` flag
      reads as false. */
  datatype ColumnDef = ColumnDef(propertyName: string, frozen: bool, category: Option<string>)

  /** A column as the partitioner hands it out: the caller's definition,
      unchanged, plus the position `index` it had in the supplied list. */
  datatype Column = Column(def: ColumnDef, index: nat)

  /** The caller's definitions carried by a sequence of columns. */
  function Defs(cols: seq<Column>): (defs: seq<ColumnDef>)
    ensures |defs| == |cols|
    ensures forall i :: 0 <= i < |cols| ==> defs[i] == cols[i].def
  {
    seq(|cols|, i requires 0 <= i < |cols| => cols[i].def)
  }

  /** Every column carries its own position as `index`. */
  ghost predicate IndexedByPosition(cols: seq<Column>)
  {
    forall i :: 0 <= i < |cols| ==> cols[i].index == i
  }

  /** `_rewriteIndices`: each definition, in order, stamped with its
      position in `defs`. */
  function Stamp(defs: seq<ColumnDef>): (cols: seq<Column>)
    ensures |cols| == |defs|
    ensures forall i :: 0 <= i < |defs| ==> cols[i].def == defs[i] && cols[i].index == i
  {
    seq(|defs|, i requires 0 <= i < |defs| => Column(defs[i], i))
  }

  /** Stamping adds `index` and nothing else: stripping the stamps gives the
      definitions back, and stamping is the only way to obtain a
      position-indexed sequence carrying exactly the given definitions. */
  lemma StampCharacterized(defs: seq<ColumnDef>, cols: seq<Column>)
    ensures Defs(cols) == defs && IndexedByPosition(cols) <==> cols == Stamp(defs)
  {
    if cols == Stamp(defs) {
      assert Defs(cols) == defs;
    }
    if Defs(cols) == defs && IndexedByPosition(cols) {
      var s := Stamp(defs);
      forall i | 0 <= i < |cols|
        ensures cols[i] == s[i]
      {
        assert cols[i].def == Defs(cols)[i];
      }
    }
  }

  /** The end of the run of frozen definitions that starts at `from`. */
  function FrozenRunEnd(defs: seq<ColumnDef>, from: nat): (e: nat)
    requires from <= |defs|
    ensures from <= e <= |defs|
    ensures forall i :: from <= i < e ==> defs[i].frozen
    ensures e < |defs| ==> !defs[e].frozen
    decreases |defs| - from
  {
    if from == |defs| || !defs[from].frozen then from else FrozenRunEnd(defs, from + 1)
  }

  /** The start of the run of frozen definitions that ends at `upto`, not
      reaching below `floor`. */
  function FrozenRunStart(defs: seq<ColumnDef>, floor: nat, upto: nat): (b: nat)
    requires floor <= upto <= |defs|
    ensures floor <= b <= upto
    ensures forall i :: b <= i < upto ==> defs[i].frozen
    ensures floor < b ==> !defs[b - 1].frozen
    decreases upto - floor
  {
    if upto == floor || !defs[upto - 1].frozen then upto else FrozenRunStart(defs, floor, upto - 1)
  }

  /** The two cut points of the partition: `left` is `[0, lo)`, `middle`
      is `[lo, hi)` and `right` is `[hi, |defs|)`. The leading scan runs
      first; the trailing scan stops where the leading one stopped. */
  function Cuts(defs: seq<ColumnDef>): (c: (nat, nat))
    ensures c.0 <= c.1 <= |defs|
    ensures forall i :: 0 <= i < c.0 ==> defs[i].frozen
    ensures forall i :: c.1 <= i < |defs| ==> defs[i].frozen
    ensures c.0 < |defs| ==> !defs[c.0].frozen
    ensures c.0 < c.1 ==> !defs[c.1 - 1].frozen
  {
    var lo := FrozenRunEnd(defs, 0);
    (lo, FrozenRunStart(defs, lo, |defs|))
  }

  /** `leftColumns`: the stamped leading run of frozen columns. */
  function LeftColumns(defs: seq<ColumnDef>): (left: seq<Column>)
    ensures |left| <= |defs|
    ensures left == Stamp(defs)[..|left|]
    ensures forall i :: 0 <= i < |left| ==> left[i].def.frozen
    ensures |left| < |defs| ==> !defs[|left|].frozen
  {
    Stamp(defs)[..Cuts(defs).0]
  }

  /** `middleColumns`: everything between the two frozen runs, in order. */
  function MiddleColumns(defs: seq<ColumnDef>): (middle: seq<Column>)
    ensures |middle| > 0 ==> !middle[0].def.frozen && !middle[|middle| - 1].def.frozen
  {
    Stamp(defs)[Cuts(defs).0..Cuts(defs).1]
  }

  /** `rightColumns`: the stamped trailing run of frozen columns among the
      columns `leftColumns` did not take. */
  function RightColumns(defs: seq<ColumnDef>): (right: seq<Column>)
    ensures |right| <= |defs|
    ensures right == Stamp(defs)[|defs| - |right|..]
    ensures forall i :: 0 <= i < |right| ==> right[i].def.frozen
  {
    Stamp(defs)[Cuts(defs).1..]
  }

  /** The three groups tile the stamped input, in order: every column is in
      exactly one group, and no column is reordered or altered. */
  lemma PartitionTiles(defs: seq<ColumnDef>)
    ensures LeftColumns(defs) + MiddleColumns(defs) + RightColumns(defs) == Stamp(defs)
  {
    var (lo, hi) := Cuts(defs);
    var s := Stamp(defs);
    assert s == s[..lo] + s[lo..hi] + s[hi..];
  }

  /** The independent description of a partition: the three groups
      concatenate to the stamped input, the outer groups are frozen, `left`
      cannot be extended, and `middle` neither starts nor ends with a
      frozen column. */
  ghost predicate IsFrozenSplit(defs: seq<ColumnDef>, left: seq<Column>, middle: seq<Column>, right: seq<Column>)
  {
    && left + middle + right == Stamp(defs)
    && (forall i :: 0 <= i < |left| ==> left[i].def.frozen)
    && (forall i :: 0 <= i < |right| ==> right[i].def.frozen)
    && (|left| < |defs| ==> !defs[|left|].frozen)
    && (|middle| > 0 ==> !middle[0].def.frozen && !middle[|middle| - 1].def.frozen)
  }

  /** Two cut points with the properties `Cuts` promises are `Cuts`. */
  lemma CutsUnique(defs: seq<ColumnDef>, lo: nat, hi: nat)
    requires lo <= hi <= |defs|
    requires forall i :: 0 <= i < lo ==> defs[i].frozen
    requires forall i :: hi <= i < |defs| ==> defs[i].frozen
    requires lo < |defs| ==> !defs[lo].frozen
    requires lo < hi ==> !defs[hi - 1].frozen
    ensures (lo, hi) == Cuts(defs)
  {
  }

  /** The lengths of any frozen split are the cut points. */
  lemma SplitCuts(defs: seq<ColumnDef>, left: seq<Column>, middle: seq<Column>, right: seq<Column>)
    requires IsFrozenSplit(defs, left, middle, right)
    ensures left == LeftColumns(defs) && middle == MiddleColumns(defs) && right == RightColumns(defs)
  {
    var s := Stamp(defs);
    var lo, hi := |left|, |left| + |middle|;
    assert left == s[..lo] && middle == s[lo..hi] && right == s[hi..] by {
      assert s == left + middle + right;
    }
    assert forall i :: 0 <= i < lo ==> left[i].def == defs[i];
    assert forall i :: hi <= i < |defs| ==> right[i - hi].def == defs[i];
    assert lo < hi ==> middle[|middle| - 1].def == defs[hi - 1];
    CutsUnique(defs, lo, hi);
  }

  /** The partitioner's three groups are exactly the frozen split of the
      input: they satisfy it, and no other triple does. */
  lemma PartitionIsFrozenSplit(defs: seq<ColumnDef>, left: seq<Column>, middle: seq<Column>, right: seq<Column>)
    ensures IsFrozenSplit(defs, left, middle, right)
        <==> left == LeftColumns(defs) && middle == MiddleColumns(defs) && right == RightColumns(defs)
  {
    if left == LeftColumns(defs) && middle == MiddleColumns(defs) && right == RightColumns(defs) {
      PartitionTiles(defs);
    }
    if IsFrozenSplit(defs, left, middle, right) {
      SplitCuts(defs, left, middle, right);
    }
  }

  /** With no frozen column anywhere, every column lands in `middle`. */
  lemma NoFrozenAllMiddle(defs: seq<ColumnDef>)
    requires forall i :: 0 <= i < |defs| ==> !defs[i].frozen
    ensures LeftColumns(defs) == [] && RightColumns(defs) == []
    ensures MiddleColumns(defs) == Stamp(defs)
  {
    CutsUnique(defs, 0, |defs|);
  }

  /** With every column frozen, the leading scan consumes all of them:
      `left` is the whole stamped input and `middle` and `right` are empty. */
  lemma AllFrozenAllLeft(defs: seq<ColumnDef>)
    requires forall i :: 0 <= i < |defs| ==> defs[i].frozen
    ensures LeftColumns(defs) == Stamp(defs)
    ensures MiddleColumns(defs) == [] && RightColumns(defs) == []
  {
    CutsUnique(defs, |defs|, |defs|);
  }

  /** An unfrozen first column leaves `left` empty; an unfrozen last
      column leaves `right` empty. */
  lemma UnfrozenEndsEmpty(defs: seq<ColumnDef>)
    ensures |defs| > 0 && !defs[0].frozen ==> LeftColumns(defs) == []
    ensures |defs| > 0 && !defs[|defs| - 1].frozen ==> RightColumns(defs) == []
  {
  }

  /** Lowering the floor of the trailing scan changes nothing when an
      unfrozen definition lies between the old floor and `upto`. */
  lemma {:induction false} FrozenRunStartFloor(defs: seq<ColumnDef>, floor: nat, low: nat, upto: nat, k: nat)
    requires low <= floor <= k < upto <= |defs| && !defs[k].frozen
    ensures FrozenRunStart(defs, floor, upto) == FrozenRunStart(defs, low, upto)
    decreases upto
  {
    if defs[upto - 1].frozen {
      FrozenRunStartFloor(defs, floor, low, upto - 1, k);
    }
  }

  /** As soon as one column is unfrozen, `right` is the maximal trailing
      frozen run of the whole input, not only of what `left` left over. */
  lemma RightIsTrailingRun(defs: seq<ColumnDef>, k: nat)
    requires k < |defs| && !defs[k].frozen
    ensures RightColumns(defs) == Stamp(defs)[FrozenRunStart(defs, 0, |defs|)..]
  {
    FrozenRunStartFloor(defs, Cuts(defs).0, 0, |defs|, k);
  }

  /** The index is relative to the list actually supplied: the columns of
      any contiguous slice are re-stamped from 0, keeping their definitions. */
  lemma SliceRestamped(defs: seq<ColumnDef>, lo: nat, hi: nat)
    requires lo <= hi <= |defs|
    ensures forall i :: 0 <= i < hi - lo ==>
      Stamp(defs[lo..hi])[i] == Column(Stamp(defs)[lo + i].def, i)
  {
  }
}
