/** The hover proxy `setupHoverProxy` installs.

    Pointer events on one surface toggle the `ps-container-hover` class on
    another: entering or leaving the left body or the middle body toggles
    it on the right body, and entering or leaving the middle header toggles
    it on the middle body. What the class does on the page is not part of
    this model. */
module Hover {
  import opened Wrappers
  import opened Surfaces

  /** `mouseenter` or `mouseleave`. */
  datatype Pointer = Enter | Leave

  /** One pointer event on one surface. */
  datatype HoverEvent = HoverEvent(surface: Surface, pointer: Pointer)

  /** The surface whose hover class a pointer event on `s` toggles; `None`
      where no handler is installed. */
  function ProxyTarget(s: Surface): (t: Option<Surface>)
    ensures t.Some? <==> s in {BodyPane(Left), BodyPane(Middle), HeaderPane(Middle)}
    ensures t.Some? ==> t.value in {BodyPane(Right), BodyPane(Middle)} && t.value != s
  {
    match s
    case BodyPane(Left) => Some(BodyPane(Right))
    case BodyPane(Middle) => Some(BodyPane(Right))
    case HeaderPane(Middle) => Some(BodyPane(Middle))
    case _ => None
  }

  /** The handlers: entering adds the hover class to the target, leaving
      removes it; no other surface's class changes. `hovered` is the set of
      surfaces carrying the class. */
  function OnPointer(hovered: set<Surface>, e: HoverEvent): (r: set<Surface>)
    ensures ProxyTarget(e.surface).None? ==> r == hovered
    ensures ProxyTarget(e.surface).Some? ==>
      var t := ProxyTarget(e.surface).value;
      && (t in r <==> e.pointer == Enter)
      && (forall u :: u != t ==> (u in r <==> u in hovered))
  {
    match ProxyTarget(e.surface)
    case None => hovered
    case Some(t) => if e.pointer == Enter then hovered + {t} else hovered - {t}
  }

  /** The hover classes after a sequence of pointer events: surfaces that
      no handler targets keep their class. */
  function Replay(hovered: set<Surface>, events: seq<HoverEvent>): (r: set<Surface>)
    ensures forall u :: u != BodyPane(Right) && u != BodyPane(Middle) ==> (u in r <==> u in hovered)
  {
    if |events| == 0 then hovered
    else OnPointer(Replay(hovered, events[..|events| - 1]), events[|events| - 1])
  }

  /** Whether the handler of `e` toggles `t`. */
  predicate Toggles(e: HoverEvent, t: Surface)
  {
    ProxyTarget(e.surface) == Some(t)
  }

  /** The pointer kind of the last event whose handler targets `t`, if
      any: `None` exactly when no event targets `t`, and otherwise the kind
      of an event that targets `t` and that no later event does. */
  function LastToggle(events: seq<HoverEvent>, t: Surface): (p: Option<Pointer>)
    ensures p.None? <==> forall k :: 0 <= k < |events| ==> !Toggles(events[k], t)
    ensures p.Some? ==> exists k :: 0 <= k < |events| && Toggles(events[k], t) && events[k].pointer == p.value
                                    && forall j :: k < j < |events| ==> !Toggles(events[j], t)
  {
    if |events| == 0 then None
    else
      var e := events[|events| - 1];
      var prefix := events[..|events| - 1];
      assert forall k :: 0 <= k < |prefix| ==> prefix[k] == events[k];
      if Toggles(e, t) then Some(e.pointer)
      else LastToggle(prefix, t)
  }

  /** Whatever happened before, a surface carries the hover class exactly
      when the last event that toggles it was an enter; a surface no event
      toggles keeps its class. */
  lemma {:induction false} ReplayLastToggleWins(hovered: set<Surface>, events: seq<HoverEvent>, t: Surface)
    ensures t in Replay(hovered, events) <==>
      match LastToggle(events, t)
      case Some(p) => p == Enter
      case None => t in hovered
  {
    if |events| > 0 {
      ReplayLastToggleWins(hovered, events[..|events| - 1], t);
    }
  }

  /** Only the right body and the middle body ever gain the hover class
      through the proxy. */
  lemma ProxyOnlyRevealsScrollingStrips(hovered: set<Surface>, events: seq<HoverEvent>)
    ensures Replay(hovered, events) <= hovered + {BodyPane(Right), BodyPane(Middle)}
  {
    forall t | t in Replay(hovered, events)
      ensures t in hovered + {BodyPane(Right), BodyPane(Middle)}
    {
      ReplayLastToggleWins(hovered, events, t);
    }
  }

  /** Entering and then leaving a surface takes the hover class off its
      target and leaves every other surface as it was. */
  lemma EnterThenLeave(hovered: set<Surface>, s: Surface)
    requires ProxyTarget(s).Some?
    ensures OnPointer(OnPointer(hovered, HoverEvent(s, Enter)), HoverEvent(s, Leave))
         == hovered - {ProxyTarget(s).value}
  {
  }

  /** The unit tests' cases: entering the left body or the middle body
      marks the right body, entering the middle header marks the middle
      body, and leaving each unmarks the same target. */
  lemma HoverFixture(hovered: set<Surface>)
    ensures BodyPane(Right) in OnPointer(hovered, HoverEvent(BodyPane(Left), Enter))
    ensures BodyPane(Right) !in OnPointer(hovered, HoverEvent(BodyPane(Left), Leave))
    ensures BodyPane(Right) in OnPointer(hovered, HoverEvent(BodyPane(Middle), Enter))
    ensures BodyPane(Right) !in OnPointer(hovered, HoverEvent(BodyPane(Middle), Leave))
    ensures BodyPane(Middle) in OnPointer(hovered, HoverEvent(HeaderPane(Middle), Enter))
    ensures BodyPane(Middle) !in OnPointer(hovered, HoverEvent(HeaderPane(Middle), Leave))
  {
  }
}
