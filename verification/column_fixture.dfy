/** The seven-column fixture of the component's unit test and the
    partitions its assertions pin down, stated as lemmas over the model. */
module ColumnFixture {
  import opened Wrappers
  import opened Columns

  /** Two leading frozen columns, three unfrozen ones, two trailing frozen
      ones. */
  function Fixture(): (defs: seq<ColumnDef>)
    ensures |defs| == 7
  {
    [ ColumnDef("name", true, None),
      ColumnDef("description", true, Some("Infomation")),
      ColumnDef("info1", false, Some("Infomation")),
      ColumnDef("info2", false, Some("Infomation")),
      ColumnDef("info3", false, Some("Infomation")),
      ColumnDef("summary1", true, Some("Summary")),
      ColumnDef("summary2", true, Some("Summary")) ]
  }

  /** Properly ordered columns: the first two go left, the next three
      middle, the last two right, each keeping its index in the full list. */
  lemma OrderedColumnsSplit()
    ensures LeftColumns(Fixture()) == Stamp(Fixture())[..2]
    ensures MiddleColumns(Fixture()) == Stamp(Fixture())[2..5]
    ensures RightColumns(Fixture()) == Stamp(Fixture())[5..]
  {
    CutsUnique(Fixture(), 2, 5);
  }

  /** No leading frozen columns: `left` is empty and `middle` is the three
      unfrozen columns re-indexed from 0. */
  lemma NoLeadingFrozen()
    ensures LeftColumns(Fixture()[2..]) == []
    ensures MiddleColumns(Fixture()[2..]) == Stamp(Fixture()[2..5])
  {
    var defs := Fixture()[2..];
    CutsUnique(defs, 0, 3);
    assert Stamp(defs)[0..3] == Stamp(Fixture()[2..5]);
  }

  /** No trailing frozen columns: `right` is empty and `middle` is the
      three unfrozen columns with their original indices. */
  lemma NoTrailingFrozen()
    ensures RightColumns(Fixture()[..5]) == []
    ensures MiddleColumns(Fixture()[..5]) == Stamp(Fixture())[2..5]
  {
    var defs := Fixture()[..5];
    CutsUnique(defs, 2, 5);
    assert Stamp(defs)[2..5] == Stamp(Fixture())[2..5];
  }

  /** No unfrozen columns: `middle` is empty. */
  lemma NoUnfrozen()
    ensures MiddleColumns(Fixture()[..2]) == []
  {
    CutsUnique(Fixture()[..2], 2, 2);
  }

  /** No columns: all three groups are empty. */
  lemma NoColumns()
    ensures LeftColumns([]) == [] && MiddleColumns([]) == [] && RightColumns([]) == []
  {
  }
}
