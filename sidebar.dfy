/** The admin navigation (src/components/admin/AdminSidebar.tsx): which entry is highlighted. */
module Sidebar {
  import opened Common

  datatype NavItem = NavItem(href: string, name: string)

  const Dashboard := "/admin"

  const NavItems: seq<NavItem> := [
    NavItem("/admin", "Dashboard"),
    NavItem("/admin/services", "Services"),
    NavItem("/admin/projects", "Projects"),
    NavItem("/admin/blog", "Blog"),
    NavItem("/admin/testimonials", "Testimonials"),
    NavItem("/admin/team", "Team"),
    NavItem("/admin/contacts", "Contacts"),
    NavItem("/admin/settings", "Settings")
  ]

  /** The dashboard matches only itself; every other entry also matches any path it prefixes. */
  predicate IsActive(pathname: string, href: string)
  {
    pathname == href || (href != Dashboard && StartsWith(pathname, href))
  }

  lemma {:induction false} PrefixesNest(s: string, a: string, b: string)
    requires StartsWith(s, a) && StartsWith(s, b) && |a| <= |b|
    ensures StartsWith(b, a)
  {
    assert b[..|a|] == s[..|b|][..|a|];
  }

  /** No entry's link is a prefix of another's, the dashboard aside. */
  lemma NoNestedLinks()
    ensures forall i, j | 0 <= i < |NavItems| && 0 <= j < |NavItems| && i != j && 0 < i ::
      !StartsWith(NavItems[j].href, NavItems[i].href)
  {
    forall i, j | 0 <= i < |NavItems| && 0 <= j < |NavItems| && i != j && 0 < i
      ensures !StartsWith(NavItems[j].href, NavItems[i].href)
    {
      var a, b := NavItems[i].href, NavItems[j].href;
      if |a| <= |b| {
        // two distinct entries below the dashboard differ at position 7 or 9
        assert a[7] != b[7] || a[9] != b[9];
        assert b[..|a|][7] == b[7] && b[..|a|][9] == b[9];
      }
    }
  }

  /** At most one entry is highlighted for any path. */
  lemma {:induction false} AtMostOneActive(pathname: string, i: int, j: int)
    requires 0 <= i < |NavItems| && 0 <= j < |NavItems|
    requires IsActive(pathname, NavItems[i].href) && IsActive(pathname, NavItems[j].href)
    ensures i == j
  {
    NoNestedLinks();
    var a, b := NavItems[i].href, NavItems[j].href;
    if i != 0 && j != 0 {
      if |a| <= |b| { PrefixesNest(pathname, a, b); } else { PrefixesNest(pathname, b, a); }
    }
  }

  /** The dashboard is highlighted exactly on `/admin`. */
  lemma DashboardExact(pathname: string)
    ensures IsActive(pathname, NavItems[0].href) <==> pathname == Dashboard
  {
  }

  /** Matching is by text prefix, not by path segment: `/admin/blogging` highlights the blog entry. */
  lemma PrefixNotSegment()
    ensures IsActive("/admin/blogging", NavItems[3].href)
  {
    assert "/admin/blogging"[..|"/admin/blog"|] == "/admin/blog";
  }
}
