/** The site header's navigation (src/components/layout/Header.tsx): a fixed
    list of six links, each highlighted when the current pathname is under
    it. */
module Header {
  import opened Text

  /** The `href` of each navigation item, in display order. */
  const NavHrefs: seq<string> := ["/", "/about", "/services", "/portfolio", "/blog", "/contact"]

  /** `isActive`: the home link only on the home page itself, any other link
      on every pathname that starts with it. */
  predicate IsActive(pathname: string, href: string) {
    if href == "/" then pathname == "/" else StartsWith(pathname, href)
  }

  /** The home link is active on "/" and nowhere else. */
  lemma HomeOnlyAtRoot(pathname: string)
    ensures IsActive(pathname, "/") <==> pathname == "/"
  {
  }

  lemma StartsWithSelf(s: string)
    ensures StartsWith(s, s)
  {
    assert s[..|s|] == s;
  }

  /** Any other link is active exactly on the pathnames extending it, so a
      page below a section highlights that section. */
  lemma SectionActive(pathname: string, href: string, rest: string)
    requires href != "/"
    ensures IsActive(href + rest, href)
    ensures IsActive(pathname, href) ==> |href| <= |pathname| && pathname == href + pathname[|href|..]
  {
    assert (href + rest)[..|href|] == href;
  }

  lemma BlogPostActivatesBlog()
    ensures IsActive("/blog/x", "/blog")
  {
    SectionActive("/blog/x", "/blog", "/x");
    assert "/blog" + "/x" == "/blog/x";
  }

  /** The page a link leads to highlights that link. */
  lemma OwnPageActive(k: nat)
    requires k < |NavHrefs|
    ensures IsActive(NavHrefs[k], NavHrefs[k])
  {
    StartsWithSelf(NavHrefs[k]);
  }

  /** No link of the list but the home one is a prefix of another link;
      the home link is a prefix of all of them, which is why `isActive`
      treats it apart. */
  lemma NoHrefExtendsAnother()
    ensures forall i, j | 1 <= i < |NavHrefs| && 0 <= j < |NavHrefs| && i != j ::
              !StartsWith(NavHrefs[j], NavHrefs[i])
    ensures forall j | 0 <= j < |NavHrefs| :: StartsWith(NavHrefs[j], "/")
  {
    forall i, j | 1 <= i < |NavHrefs| && 0 <= j < |NavHrefs| && i != j
      ensures !StartsWith(NavHrefs[j], NavHrefs[i])
    {
      SecondCharsDiffer(i, j);
      if |NavHrefs[i]| <= |NavHrefs[j]| {
        assert NavHrefs[j][..|NavHrefs[i]|][1] == NavHrefs[j][1];
      }
    }
    forall j | 0 <= j < |NavHrefs| ensures StartsWith(NavHrefs[j], "/") {
      assert NavHrefs[j][..1] == [NavHrefs[j][0]];
    }
  }

  /** Each link but the home one has its own second character, and the home
      link is shorter than the others. */
  lemma SecondCharsDiffer(i: nat, j: nat)
    requires i < |NavHrefs| && j < |NavHrefs| && i != j
    ensures |NavHrefs[i]| == 1 ==> |NavHrefs[j]| > 1
    ensures |NavHrefs[i]| > 1 && |NavHrefs[j]| > 1 ==> NavHrefs[i][1] != NavHrefs[j][1]
    ensures (i == 0) == (|NavHrefs[i]| == 1)
  {
  }

  /** Whatever the pathname, at most one navigation item is highlighted. */
  lemma AtMostOneActive(pathname: string)
    ensures forall i, j | 0 <= i < j < |NavHrefs| ::
              !(IsActive(pathname, NavHrefs[i]) && IsActive(pathname, NavHrefs[j]))
  {
    forall i, j | 0 <= i < j < |NavHrefs|
      ensures !(IsActive(pathname, NavHrefs[i]) && IsActive(pathname, NavHrefs[j]))
    {
      SecondCharsDiffer(i, j);
      if i == 0 {
        assert !IsActive("/", NavHrefs[j]);
      } else {
        assert IsActive(pathname, NavHrefs[i]) ==> pathname[1] == NavHrefs[i][1];
        assert IsActive(pathname, NavHrefs[j]) ==> pathname[1] == NavHrefs[j][1];
      }
    }
  }
}
