/** Scroll synchronisation between the table's strips: `syncScrollLeft`,
    `syncScrollTop` and the wiring `setupScrollSync` installs.

    A binding is one scroll listener: when its source scrolls, the handler
    looks the source up again, reads its offset on the binding's axis and
    writes that offset to every destination. A selector that matches
    nothing reads and writes nothing, so offsets are kept only for the
    surfaces that are present. */
module ScrollSync {
  import opened Surfaces

  /** `scrollLeft` or `scrollTop`. */
  datatype Axis = Horizontal | Vertical

  /** One listener: the axis it syncs, its source and its destinations. */
  datatype Binding = Binding(axis: Axis, source: Surface, destinations: seq<Surface>)

  /** The scroll offset of every present surface on one axis. */
  type Offsets = map<Surface, int>

  /** Both axes' offsets. */
  datatype Scroll = Scroll(left: Offsets, top: Offsets)

  /** Writes `v` to every present destination, in order; absent ones are
      skipped and nothing else changes. */
  function WriteAll(o: Offsets, dests: seq<Surface>, v: int): (o': Offsets)
    ensures o'.Keys == o.Keys
    ensures forall s :: s in o && s in dests ==> o'[s] == v
    ensures forall s :: s in o && s !in dests ==> o'[s] == o[s]
    decreases |dests|
  {
    if |dests| == 0 then o
    else
      var o1 := if dests[0] in o then o[dests[0] := v] else o;
      WriteAll(o1, dests[1..], v)
  }

  /** The scroll handler: when the source is present, every present
      destination takes the source's offset; when it is absent, reading
      yields nothing and no offset changes. */
  function SyncOffsets(o: Offsets, src: Surface, dests: seq<Surface>): (o': Offsets)
    ensures o'.Keys == o.Keys
    ensures src in o ==> forall s :: s in o && s in dests ==> o'[s] == o[src]
    ensures forall s :: s in o && (src !in o || s !in dests) ==> o'[s] == o[s]
  {
    if src in o then WriteAll(o, dests, o[src]) else o
  }

  /** Running a binding's handler: only its own axis is touched. */
  function Fire(st: Scroll, b: Binding): (st': Scroll)
    ensures b.axis == Horizontal ==> st'.top == st.top && st'.left == SyncOffsets(st.left, b.source, b.destinations)
    ensures b.axis == Vertical ==> st'.left == st.left && st'.top == SyncOffsets(st.top, b.source, b.destinations)
  {
    match b.axis
    case Horizontal => st.(left := SyncOffsets(st.left, b.source, b.destinations))
    case Vertical => st.(top := SyncOffsets(st.top, b.source, b.destinations))
  }

  /** The offsets of a scroll state on one axis. */
  function OffsetsOn(st: Scroll, axis: Axis): Offsets
  {
    match axis
    case Horizontal => st.left
    case Vertical => st.top
  }

  /** The surfaces kept in step on an axis: the middle header and middle
      body horizontally, the three bodies vertically. */
  function Group(axis: Axis): set<Surface>
  {
    match axis
    case Horizontal => {HeaderPane(Middle), BodyPane(Middle)}
    case Vertical => {BodyPane(Left), BodyPane(Middle), BodyPane(Right)}
  }

  /** `setupScrollSync`: the middle header and middle body follow each
      other horizontally; each body drives the other two vertically. */
  function Wiring(): (bs: seq<Binding>)
    ensures |bs| == 5
    ensures forall k :: 0 <= k < |bs| ==>
      && bs[k].source !in bs[k].destinations
      && bs[k].source in Group(bs[k].axis)
      && (forall s :: s in bs[k].destinations <==> s in Group(bs[k].axis) && s != bs[k].source)
    ensures forall axis: Axis, s :: s in Group(axis) ==>
      exists k :: 0 <= k < |bs| && bs[k].axis == axis && bs[k].source == s
  {
    var bs := [
      Binding(Horizontal, HeaderPane(Middle), [BodyPane(Middle)]),
      Binding(Horizontal, BodyPane(Middle), [HeaderPane(Middle)]),
      Binding(Vertical, BodyPane(Left), [BodyPane(Middle), BodyPane(Right)]),
      Binding(Vertical, BodyPane(Middle), [BodyPane(Left), BodyPane(Right)]),
      Binding(Vertical, BodyPane(Right), [BodyPane(Left), BodyPane(Middle)])];
    assert forall s :: s in Group(Horizontal) ==> s == bs[0].source || s == bs[1].source;
    assert forall s :: s in Group(Vertical) ==> s == bs[2].source || s == bs[3].source || s == bs[4].source;
    bs
  }

  /** Every present surface of `group` has offset `v`. */
  ghost predicate Level(o: Offsets, group: set<Surface>, v: int)
  {
    forall s :: s in group && s in o ==> o[s] == v
  }

  /** Syncing surfaces that are already level changes nothing. */
  lemma SyncLevelIsNoop(o: Offsets, src: Surface, dests: seq<Surface>, group: set<Surface>, v: int)
    requires src in group && forall s :: s in dests ==> s in group
    requires Level(o, group, v)
    ensures SyncOffsets(o, src, dests) == o
  {
    var o' := SyncOffsets(o, src, dests);
    assert forall s :: s in o ==> o'[s] == o[s];
  }

  /** After a wired binding fires from a present source, its whole axis
      group shows the source's offset. */
  lemma FireLevels(st: Scroll, b: Binding)
    requires b in Wiring()
    requires b.source in OffsetsOn(st, b.axis)
    ensures Level(OffsetsOn(Fire(st, b), b.axis), Group(b.axis), OffsetsOn(st, b.axis)[b.source])
  {
    var bs := Wiring();
    var k :| 0 <= k < |bs| && bs[k] == b;
    var o := OffsetsOn(st, b.axis);
    var o' := OffsetsOn(Fire(st, b), b.axis);
    forall s | s in Group(b.axis) && s in o'
      ensures o'[s] == o[b.source]
    {
      if s != b.source {
        assert s in b.destinations;
      }
    }
  }

  /** The axis a binding does not sync. */
  function Other(axis: Axis): (o: Axis)
    ensures o != axis
  {
    match axis
    case Horizontal => Vertical
    case Vertical => Horizontal
  }

  /** Writing an offset makes the destinations scroll, which fires every
      listener on them, on both axes: the same `scroll` event runs the
      middle body's horizontal and vertical listeners. Echoes on the
      written axis change nothing; echoes on the other axis change nothing
      when that axis's group is already level. So a table whose strips are
      in step settles after one round instead of bouncing between strips. */
  lemma EchoIsNoop(st: Scroll, b: Binding, echo: Binding, v: int)
    requires b in Wiring() && echo in Wiring()
    requires b.source in OffsetsOn(st, b.axis)
    requires echo.axis == b.axis || Level(OffsetsOn(st, echo.axis), Group(echo.axis), v)
    ensures Fire(Fire(st, b), echo) == Fire(st, b)
  {
    var bs := Wiring();
    var k :| 0 <= k < |bs| && bs[k] == echo;
    var st1 := Fire(st, b);
    if echo.axis == b.axis {
      FireLevels(st, b);
      SyncLevelIsNoop(OffsetsOn(st1, b.axis), echo.source, echo.destinations, Group(b.axis), OffsetsOn(st, b.axis)[b.source]);
    } else {
      assert OffsetsOn(st1, echo.axis) == OffsetsOn(st, echo.axis);
      SyncLevelIsNoop(OffsetsOn(st1, echo.axis), echo.source, echo.destinations, Group(echo.axis), v);
    }
  }

  /** Without the other axis level, an echo on it does move offsets: a
      horizontal write to the middle body also runs the middle body's
      vertical listener, which drags the left and right bodies to the
      middle body's `scrollTop`. */
  lemma OtherAxisEchoMoves()
    ensures var st := Scroll(map[HeaderPane(Middle) := 0, BodyPane(Middle) := 0],
                             map[BodyPane(Left) := 0, BodyPane(Middle) := 50, BodyPane(Right) := 0]);
            var b := Binding(Horizontal, HeaderPane(Middle), [BodyPane(Middle)]);
            var echo := Binding(Vertical, BodyPane(Middle), [BodyPane(Left), BodyPane(Right)]);
      && b in Wiring() && echo in Wiring()
      && Fire(st, b).top[BodyPane(Left)] == 0
      && Fire(Fire(st, b), echo).top[BodyPane(Left)] == 50
  {
  }

  /** Firing a binding twice is firing it once. */
  lemma FireIdempotent(st: Scroll, b: Binding)
    requires b in Wiring()
    ensures Fire(Fire(st, b), b) == Fire(st, b)
  {
    if b.source in OffsetsOn(st, b.axis) {
      EchoIsNoop(st, b, b, 0);
    }
  }

  /** The unit tests' handlers, with four distinct surfaces standing for
      the selectors `src`, `dst1`, `dst2` and `dst3`: a source scrolled
      321 to the left moves the three destinations' `scrollLeft` to 321,
      and a source scrolled 123 down moves their `scrollTop` to 123. */
  lemma SyncFixture(st: Scroll)
    requires var ds := {HeaderPane(Left), BodyPane(Left), BodyPane(Middle), BodyPane(Right)};
      ds <= st.left.Keys && ds <= st.top.Keys
    requires st.left[HeaderPane(Left)] == 321 && st.top[HeaderPane(Left)] == 123
    ensures var st' := Fire(st, Binding(Horizontal, HeaderPane(Left), [BodyPane(Left), BodyPane(Middle), BodyPane(Right)]));
      st'.left[BodyPane(Left)] == 321 && st'.left[BodyPane(Middle)] == 321 && st'.left[BodyPane(Right)] == 321
    ensures var st' := Fire(st, Binding(Vertical, HeaderPane(Left), [BodyPane(Left), BodyPane(Middle), BodyPane(Right)]));
      st'.top[BodyPane(Left)] == 123 && st'.top[BodyPane(Middle)] == 123 && st'.top[BodyPane(Right)] == 123
  {
  }
}
