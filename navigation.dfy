/**
 * The active-section rule of the navigation bar: on every scroll event the
 * page picks the last `section[id]`, in document order, whose top minus
 * 200 px is at or above the scroll position, and marks as active exactly the
 * `.nav-links a` elements whose href names that section.
 */
module Navigation {
  import opened Wrappers

  /** A `section[id]` element: its id and its `offsetTop`, in pixels. */
  datatype Section = Section(id: string, offsetTop: int)

  /** How far above a section's top the page already counts it as current. */
  const HighlightOffset: int := 200

  predicate Reached(s: Section, scrollY: int)
  {
    scrollY >= s.offsetTop - HighlightOffset
  }

  /** The position of the last reached section, if any. */
  function LastReached(sections: seq<Section>, scrollY: int): (r: Option<nat>)
    ensures r.Some? ==> r.value < |sections| && Reached(sections[r.value], scrollY)
    ensures r.Some? ==> forall j :: r.value < j < |sections| ==> !Reached(sections[j], scrollY)
    ensures r.None? ==> forall j :: 0 <= j < |sections| ==> !Reached(sections[j], scrollY)
  {
    if sections == [] then None
    else if Reached(sections[|sections| - 1], scrollY) then Some(|sections| - 1)
    else LastReached(sections[..|sections| - 1], scrollY)
  }

  /** The id the handler settles on, '' when no section is reached. */
  function ActiveSection(sections: seq<Section>, scrollY: int): string
  {
    match LastReached(sections, scrollY)
    case Some(k) => sections[k].id
    case None => ""
  }

  /** Extending the list by one section: it wins when it is reached, and otherwise nothing changes. */
  lemma ActiveSectionSnoc(sections: seq<Section>, s: Section, scrollY: int)
    ensures ActiveSection(sections + [s], scrollY) ==
      if Reached(s, scrollY) then s.id else ActiveSection(sections, scrollY)
  {
  }

  /** The loop over the sections: `current` is reassigned for every reached section. */
  method CurrentSection(sections: seq<Section>, scrollY: int) returns (current: string)
    ensures current == ActiveSection(sections, scrollY)
  {
    current := "";
    var i := 0;
    while i < |sections|
      invariant 0 <= i <= |sections|
      invariant current == ActiveSection(sections[..i], scrollY)
    {
      ActiveSectionSnoc(sections[..i], sections[i], scrollY);
      assert sections[..i + 1] == sections[..i] + [sections[i]];
      if scrollY >= sections[i].offsetTop - HighlightOffset {
        current := sections[i].id;
      }
      i := i + 1;
    }
    assert sections[..i] == sections;
  }

  /** A `.nav-links a` element: its href and whether it carries the 'active' class. */
  class NavLink {
    const href: string
    var active: bool

    constructor (href: string, active: bool)
      ensures this.href == href && this.active == active
    {
      this.href := href;
      this.active := active;
    }
  }

  /** The second loop: every link loses 'active', and gets it back exactly when its href is '#' + current. */
  method MarkLinks(links: seq<NavLink>, current: string)
    modifies set l | l in links
    ensures forall l :: l in links ==> l.active == (l.href == "#" + current)
  {
    var i := 0;
    while i < |links|
      invariant 0 <= i <= |links|
      invariant forall j :: 0 <= j < i ==> links[j].active == (links[j].href == "#" + current)
    {
      links[i].active := false;
      if links[i].href == "#" + current {
        links[i].active := true;
      }
      i := i + 1;
    }
  }

  /** The scroll handler as a whole. */
  method OnScroll(sections: seq<Section>, scrollY: int, links: seq<NavLink>)
    modifies set l | l in links
    ensures forall l :: l in links ==> l.active == (l.href == "#" + ActiveSection(sections, scrollY))
  {
    var current := CurrentSection(sections, scrollY);
    MarkLinks(links, current);
  }
}
