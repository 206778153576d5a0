/** The page header's reaction to scrolling (assets/main.js): the
    `handleScroll` state, with its remembered `lastScrollTop`, and the
    `updateNavOnScroll` rule that picks the navigation link of the section
    under the viewport. */
module Header {
  import opened Wrappers

  /** The header's scroll classes and the last scroll offset seen. */
  class HeaderState {
    var lastScrollTop: int
    var scrolled: bool
    var hidden: bool
    var visible: bool

    /** The offset is never negative; the header is never both hidden and
        visible. */
    predicate Valid()
      reads this
    {
      lastScrollTop >= 0 && !(hidden && visible)
    }

    /** The page starts at the top; once the scroll listener is attached
        the header is marked `visible`, and no other class is set. */
    constructor ()
      ensures Valid()
      ensures lastScrollTop == 0 && !scrolled && !hidden && visible
    {
      lastScrollTop := 0;
      scrolled, hidden, visible := false, false, true;
    }

    /** `handleScroll()` for the offset `scrollTop`: `scrolled` past 50
        pixels; hidden while moving down below the first 100 pixels, visible
        otherwise; a negative offset is remembered as 0. */
    method HandleScroll(scrollTop: int)
      requires Valid()
      modifies this
      ensures Valid()
      ensures scrolled <==> scrollTop > 50
      ensures hidden <==> scrollTop > old(lastScrollTop) && scrollTop > 100
      ensures visible <==> !hidden
      ensures lastScrollTop == if scrollTop <= 0 then 0 else scrollTop
    {
      if scrollTop > 50 {
        scrolled := true;
      } else {
        scrolled := false;
      }
      if scrollTop > lastScrollTop && scrollTop > 100 {
        hidden := true;
        visible := false;
      } else {
        hidden := false;
        visible := true;
      }
      lastScrollTop := if scrollTop <= 0 then 0 else scrollTop;
    }
  }

  /** A `section[id]` of the page: its offset from the top, height and id. */
  datatype Section = Section(top: int, height: int, id: string)

  predicate Covers(s: Section, pos: int) {
    s.top <= pos < s.top + s.height
  }

  /** The last section, in document order, that covers `pos`. */
  function LastCovering(sections: seq<Section>, pos: int): (r: Option<nat>)
    ensures r.Some? ==> r.value < |sections| && Covers(sections[r.value], pos)
                        && forall k :: r.value < k < |sections| ==> !Covers(sections[k], pos)
    ensures r.None? ==> forall k :: 0 <= k < |sections| ==> !Covers(sections[k], pos)
  {
    if sections == [] then None
    else if Covers(sections[|sections| - 1], pos) then Some(|sections| - 1)
    else LastCovering(sections[..|sections| - 1], pos)
  }

  /** `updateNavOnScroll()`: the link to make active, if any. Nothing changes
      just after a navigation click, or when no section covers the point 150
      pixels below the top of the viewport; otherwise the link is "#" and the
      id of the last section covering that point. */
  method NavLinkOnScroll(sections: seq<Section>, scrollY: int, isManualClick: bool) returns (link: Option<string>)
    ensures isManualClick ==> link == None
    ensures !isManualClick ==>
              link == match LastCovering(sections, scrollY + 150)
                      case None => None
                      case Some(k) => Some("#" + sections[k].id)
  {
    if isManualClick {
      return None;
    }
    var pos := scrollY + 150;
    var current := "";
    ghost var found: Option<nat> := None;
    var i := 0;
    while i < |sections|
      invariant 0 <= i <= |sections|
      invariant found == LastCovering(sections[..i], pos)
      invariant current == match found case None => "" case Some(k) => "#" + sections[k].id
    {
      if pos >= sections[i].top && pos < sections[i].top + sections[i].height {
        current := "#" + sections[i].id;
        found := Some(i);
      }
      assert sections[..i + 1][..i] == sections[..i];
      i := i + 1;
    }
    assert sections[..i] == sections;
    if current != "" {
      link := Some(current);
    } else {
      link := None;
    }
  }
}
