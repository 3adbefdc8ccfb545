/** The site navigation (app/components/navigation.tsx): three link lists and
    two menus, the kebab's quick links (`openQuick`) and the hamburger's
    project pages (`openMore`), of which at most one is open. */
module Navigation {
  datatype NavLink = NavLink(href: string, caption: string)

  const PrimaryLinks: seq<NavLink> := [NavLink("/", "Home"), NavLink("/tabs", "Tabs"), NavLink("/about", "About")]
  const KebabLinks: seq<NavLink> := [NavLink("/todo", "Todo"), NavLink("/play", "Play"), NavLink("/blog", "Blog")]
  const HamburgerLinks: seq<NavLink> :=
    [NavLink("/escape-room", "Escape Room"), NavLink("/coding-races", "Coding Races"), NavLink("/court-room", "Court Room")]

  /** `pathname === href`: the link gets `aria-current="page"`. */
  predicate IsActive(pathname: string, l: NavLink) { pathname == l.href }

  predicate DistinctHrefs(links: seq<NavLink>) {
    forall i, j :: 0 <= i < j < |links| ==> links[i].href != links[j].href
  }

  /** How many links of the list are active. */
  function ActiveCount(pathname: string, links: seq<NavLink>): nat
  {
    if links == [] then 0 else (if IsActive(pathname, links[0]) then 1 else 0) + ActiveCount(pathname, links[1..])
  }

  lemma {:induction false} NoneActive(pathname: string, links: seq<NavLink>)
    requires forall k :: 0 <= k < |links| ==> links[k].href != pathname
    ensures ActiveCount(pathname, links) == 0
  {
    if links != [] {
      NoneActive(pathname, links[1..]);
    }
  }

  /** Within a list whose hrefs differ, at most one link is active, and
      exactly one when the page is one of the list's. */
  lemma {:induction false} AtMostOneActive(pathname: string, links: seq<NavLink>)
    requires DistinctHrefs(links)
    ensures ActiveCount(pathname, links) <= 1
    ensures ActiveCount(pathname, links) == 1 <==> exists k :: 0 <= k < |links| && IsActive(pathname, links[k])
  {
    if links != [] {
      AtMostOneActive(pathname, links[1..]);
      if IsActive(pathname, links[0]) {
        NoneActive(pathname, links[1..]);
      } else if exists k :: 0 <= k < |links| && IsActive(pathname, links[k]) {
        var k :| 0 <= k < |links| && IsActive(pathname, links[k]);
        assert IsActive(pathname, links[1..][k - 1]);
      }
    }
  }

  /** No two links of the whole menu bar share an href, so a page marks at
      most one link of all three lists. */
  lemma SiteLinksDistinct(pathname: string)
    ensures DistinctHrefs(PrimaryLinks + KebabLinks + HamburgerLinks)
    ensures ActiveCount(pathname, PrimaryLinks + KebabLinks + HamburgerLinks) <= 1
  {
    AtMostOneActive(pathname, PrimaryLinks + KebabLinks + HamburgerLinks);
  }

  /** The two menus' state. */
  class Nav {
    var openMore: bool
    var openQuick: bool

    /** The two menus are never open at the same time. */
    ghost predicate Valid()
      reads this
    {
      !(openMore && openQuick)
    }

    /** Both menus start closed. */
    constructor ()
      ensures !openMore && !openQuick && Valid()
    {
      openMore, openQuick := false, false;
    }

    /** The kebab's toggle: the quick links flip, the project pages close. */
    method ToggleQuick()
      requires Valid()
      modifies this
      ensures openQuick == !old(openQuick) && !openMore && Valid()
    {
      openQuick := !openQuick;
      openMore := false;
    }

    /** The hamburger's toggle: the project pages flip, the quick links close. */
    method ToggleMore()
      requires Valid()
      modifies this
      ensures openMore == !old(openMore) && !openQuick && Valid()
    {
      openMore := !openMore;
      openQuick := false;
    }

    /** A click anywhere in the document: outside the mounted nav it closes
        both menus; inside it, or before the nav is mounted, it changes
        nothing. */
    method DocumentClick(navMounted: bool, insideNav: bool)
      requires Valid()
      modifies this
      ensures navMounted && !insideNav ==> !openMore && !openQuick
      ensures !(navMounted && !insideNav) ==> openMore == old(openMore) && openQuick == old(openQuick)
      ensures Valid()
    {
      if !navMounted {
        return;
      }
      if !insideNav {
        openMore := false;
        openQuick := false;
      }
    }

    /** A click inside the quick-links list closes that menu only. */
    method QuickListClick()
      requires Valid()
      modifies this
      ensures !openQuick && openMore == old(openMore) && Valid()
    {
      openQuick := false;
    }

    /** A click inside the project-pages list closes that menu only. */
    method MoreListClick()
      requires Valid()
      modifies this
      ensures !openMore && openQuick == old(openQuick) && Valid()
    {
      openMore := false;
    }
  }
}
