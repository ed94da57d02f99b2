/**
 * The links of the site menu (src/components/Menu.tsx): which links appear
 * for an anonymous visitor, a signed-in user and an administrator, and
 * which one is highlighted.
 */
module Menu {
  import opened Wrappers

  datatype Link = Link(caption: string, to: string)

  const HomeLink := Link("home", "/")
  const HikesLink := Link("hikes", "/hikes/list")
  const ProfileLink := Link("profile", "/dashboard")
  const AdminLink := Link("admin", "/admin")
  const SignInLink := Link("sign in", "/login")

  /**
   * `navLinks`: home and hikes always, in that order; then, for a signed-in
   * user, the profile and, for an administrator, the admin page.  The
   * sign-in link is never among them.
   */
  function NavLinks(hasUser: bool, isAdmin: bool): (links: seq<Link>)
    ensures |links| >= 2 && links[0] == HomeLink && links[1] == HikesLink
    ensures ProfileLink in links <==> hasUser
    ensures AdminLink in links <==> hasUser && isAdmin
    ensures SignInLink !in links
    ensures |links| == 2 + (if hasUser then 1 else 0) + (if hasUser && isAdmin then 1 else 0)
  {
    [HomeLink, HikesLink] + (if hasUser then [ProfileLink] + (if isAdmin then [AdminLink] else []) else [])
  }

  /** `authLink`: the sign-in link, for visitors only. */
  function AuthLink(hasUser: bool): (link: Option<Link>)
    ensures link.Some? <==> !hasUser
    ensures link.Some? ==> link.value == SignInLink
  {
    if hasUser then None else Some(SignInLink)
  }

  /** `allDesktopLinks`: the menu links, then the sign-in link when there is one. */
  function DesktopLinks(hasUser: bool, isAdmin: bool): (links: seq<Link>)
    ensures |links| == |NavLinks(hasUser, isAdmin)| + (if hasUser then 0 else 1)
    ensures links[..|NavLinks(hasUser, isAdmin)|] == NavLinks(hasUser, isAdmin)
    ensures SignInLink in links <==> !hasUser
    ensures !hasUser ==> links[|links| - 1] == SignInLink
  {
    var a := AuthLink(hasUser);
    if a.Some? then NavLinks(hasUser, isAdmin) + [a.value] else NavLinks(hasUser, isAdmin)
  }

  /** The list of the mobile menu, built from the same two parts by spreading. */
  function MobileLinks(hasUser: bool, isAdmin: bool): seq<Link> {
    var a := AuthLink(hasUser);
    NavLinks(hasUser, isAdmin) + (if a.Some? then [a.value] else [])
  }

  /** The mobile menu shows exactly the desktop links, in the same order. */
  lemma MobileSameAsDesktop(hasUser: bool, isAdmin: bool)
    ensures MobileLinks(hasUser, isAdmin) == DesktopLinks(hasUser, isAdmin)
  {
    if hasUser {
      assert NavLinks(hasUser, isAdmin) + [] == NavLinks(hasUser, isAdmin);
    }
  }

  /** An anonymous visitor sees home, hikes and sign in, and no admin link whatever the admin flag says. */
  lemma VisitorLinks(isAdmin: bool)
    ensures DesktopLinks(false, isAdmin) == [HomeLink, HikesLink, SignInLink]
    ensures AdminLink !in DesktopLinks(false, isAdmin)
  {
    assert NavLinks(false, isAdmin) == [HomeLink, HikesLink];
  }

  /** `isActive(path)`: the link whose target is exactly the current path. */
  predicate IsActive(pathname: string, path: string) {
    pathname == path
  }

  /** The indices of the links highlighted on `pathname`. */
  function ActiveIndices(pathname: string, links: seq<Link>): (r: set<int>)
    ensures forall i :: i in r <==> 0 <= i < |links| && IsActive(pathname, links[i].to)
  {
    set i | 0 <= i < |links| && IsActive(pathname, links[i].to)
  }

  /** No two links share a target, so the targets are valid keys. */
  predicate DistinctTargets(links: seq<Link>) {
    forall i, j :: 0 <= i < j < |links| ==> links[i].to != links[j].to
  }

  /**
   * Every combination of flags gives links with pairwise distinct targets;
   * hence at most one link is highlighted on any page, exactly one on a
   * page the menu links to, and none elsewhere.
   */
  lemma OneActiveLink(hasUser: bool, isAdmin: bool, pathname: string)
    ensures var links := DesktopLinks(hasUser, isAdmin);
            DistinctTargets(links)
            && |ActiveIndices(pathname, links)| <= 1
            && (|ActiveIndices(pathname, links)| == 1 <==> exists i :: 0 <= i < |links| && links[i].to == pathname)
  {
    var links := DesktopLinks(hasUser, isAdmin);
    assert DistinctTargets(links) by {
      if hasUser && isAdmin {
        assert links == [HomeLink, HikesLink, ProfileLink, AdminLink];
      } else if hasUser {
        assert links == [HomeLink, HikesLink, ProfileLink];
      } else {
        assert links == [HomeLink, HikesLink, SignInLink];
      }
    }
    var act := ActiveIndices(pathname, links);
    if i :| i in act {
      assert act == {i};
    } else {
      assert act == {};
    }
  }
}
