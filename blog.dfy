/** The blog listing page (src/pages/Blog.tsx): the articles the content
    loader returns, narrowed to the chosen category unless "all" is
    chosen, or a message when nothing is left. */
module Blog {
  import opened FrontMatter
  import Tina
  import Listing

  /** The filter buttons, in display order. */
  const Categories: seq<string> := ["all", "ai", "automation", "design", "insights", "trends"]

  /** `a.category === activeCategory`: strict equality holds only for a
      string category with the same text. */
  function InCategory(active: string): Tina.Article -> bool {
    (a: Tina.Article) => a.category == Str(active)
  }

  /** `filteredArticles`. */
  function FilteredArticles(articles: seq<Tina.Article>, active: string): (r: seq<Tina.Article>)
    ensures |r| <= |articles|
  {
    if active == "all" then articles else Listing.Select(articles, InCategory(active))
  }

  /** "all" shows every article, in the loader's order. */
  lemma AllShowsEverything(articles: seq<Tina.Article>)
    ensures FilteredArticles(articles, "all") == articles
  {
  }

  /** Any other category shows exactly the articles of that category, in
      their order, each as often as it was loaded; no other article. */
  lemma FilterExactly(articles: seq<Tina.Article>, active: string)
    requires active != "all"
    ensures Listing.IsSelection(FilteredArticles(articles, active), articles, InCategory(active))
    ensures forall a: Tina.Article | a.category == Str(active) ::
              multiset(FilteredArticles(articles, active))[a] == multiset(articles)[a]
    ensures forall a: Tina.Article | a.category != Str(active) :: a !in FilteredArticles(articles, active)
  {
    Listing.SelectIsSelection(articles, InCategory(active));
    Listing.SelectCounts(articles, InCategory(active));
    var r := FilteredArticles(articles, active);
    forall a: Tina.Article | a.category != Str(active) ensures a !in r {
      assert !InCategory(active)(a);
      assert multiset(r)[a] == 0;
    }
  }

  datatype Grid = NoArticlesMessage | Cards(articles: seq<Tina.Article>)

  /** The articles section: the message for an empty result, the cards
      otherwise. */
  function GridOf(articles: seq<Tina.Article>, active: string): Grid {
    var shown := FilteredArticles(articles, active);
    if |shown| == 0 then NoArticlesMessage else Cards(shown)
  }

  /** The message appears exactly when no loaded article passes the
      filter. */
  lemma MessageIff(articles: seq<Tina.Article>, active: string)
    ensures GridOf(articles, active) == NoArticlesMessage <==>
              forall j | 0 <= j < |articles| :: active != "all" && articles[j].category != Str(active)
  {
    if active != "all" {
      Listing.SelectEmpty(articles, InCategory(active));
    } else if articles != [] {
      assert articles[0].category == articles[0].category;
    }
  }

  /** An article whose file names no category is listed under "insights",
      which is one of the buttons. */
  lemma DefaultCategoryHasButton(file: Tina.File, now: string)
    requires !Truthy(Get(file.1.data, "category"))
    ensures var a := Tina.ArticleOf(file, now);
            a in FilteredArticles([a], "insights") && "insights" in Categories
  {
    Tina.ArticleFields(file, now);
    var a := Tina.ArticleOf(file, now);
    assert [a] == [] + [a];
    assert Listing.Select([a], InCategory("insights")) == Listing.Select([], InCategory("insights")) + [a];
    assert Categories[4] == "insights";
  }

  /** An article whose category has no button is shown only under "all". */
  lemma UnlistedOnlyUnderAll(articles: seq<Tina.Article>, a: Tina.Article, active: string)
    requires forall c | c in Categories[1..] :: a.category != Str(c)
    requires active in Categories && active != "all"
    ensures a !in FilteredArticles(articles, active)
  {
    assert active in Categories[1..] by {
      var k :| 0 <= k < |Categories| && Categories[k] == active;
      assert k != 0;
      assert Categories[1..][k - 1] == active;
    }
    FilterExactly(articles, active);
  }
}
