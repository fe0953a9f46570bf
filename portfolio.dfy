/** The portfolio listing page (src/pages/Portfolio.tsx): the projects the
    content loader returns, narrowed to the chosen category unless "all" is
    chosen. */
module Portfolio {
  import opened FrontMatter
  import Tina
  import Listing

  /** The filter buttons, in display order. */
  const Categories: seq<string> := ["all", "ai", "branding", "web", "design"]

  /** `p.category === activeCategory`. */
  function InCategory(active: string): Tina.Project -> bool {
    (p: Tina.Project) => p.category == Str(active)
  }

  /** `filteredProjects`. */
  function FilteredProjects(projects: seq<Tina.Project>, active: string): (r: seq<Tina.Project>)
    ensures |r| <= |projects|
  {
    if active == "all" then projects else Listing.Select(projects, InCategory(active))
  }

  /** "all" shows every project, in the loader's order. */
  lemma AllShowsEverything(projects: seq<Tina.Project>)
    ensures FilteredProjects(projects, "all") == projects
  {
  }

  /** Any other category shows exactly the projects of that category, in
      their order, each as often as it was loaded; no other project. */
  lemma FilterExactly(projects: seq<Tina.Project>, active: string)
    requires active != "all"
    ensures Listing.IsSelection(FilteredProjects(projects, active), projects, InCategory(active))
    ensures forall p: Tina.Project | p.category == Str(active) ::
              multiset(FilteredProjects(projects, active))[p] == multiset(projects)[p]
    ensures forall p: Tina.Project | p.category != Str(active) :: p !in FilteredProjects(projects, active)
  {
    Listing.SelectIsSelection(projects, InCategory(active));
    Listing.SelectCounts(projects, InCategory(active));
    var r := FilteredProjects(projects, active);
    forall p: Tina.Project | p.category != Str(active) ensures p !in r {
      assert !InCategory(active)(p);
      assert multiset(r)[p] == 0;
    }
  }

  /** A project whose file names no category is listed under "web", which
      is one of the buttons. */
  lemma DefaultCategoryHasButton(file: Tina.File)
    requires !Truthy(Get(file.1.data, "category"))
    ensures var p := Tina.ProjectOf(file);
            p in FilteredProjects([p], "web") && "web" in Categories
  {
    Tina.ProjectFields(file);
    var p := Tina.ProjectOf(file);
    assert [p] == [] + [p];
    assert Listing.Select([p], InCategory("web")) == Listing.Select([], InCategory("web")) + [p];
    assert Categories[3] == "web";
  }
}
