/** The content loader (src/lib/tina.ts): it turns the MDX files bundled
    under content/portfolio and content/blog into records, applies the
    defaults, sorts blog articles newest first and looks a record up by its
    file name. The bundler's file list is a parameter, already parsed by the
    front-matter library; the record fields keep the front-matter value they
    were read from, since `||` passes any truthy value through unchanged. */
module Tina {
  import opened Wrappers
  import opened Text
  import opened FrontMatter
  import AdminEdit
  import Listing

  /** A bundled file: its path and its parsed content. */
  type File = (string, Document)

  /** The name under which a record is found: the last path segment with
      its first ".mdx" removed. */
  function Filename(path: string): string {
    ReplaceFirst(LastSegment(path), ".mdx", "")
  }

  lemma {:induction false} LastSegmentAfter(dir: string, name: string)
    requires '/' !in name
    ensures LastSegment(dir + "/" + name) == name
    decreases |name|
  {
    var p := dir + "/" + name;
    if name == [] {
      assert p[|p| - 1] == '/';
    } else {
      var init := name[..|name| - 1];
      assert p[..|p| - 1] == dir + "/" + init;
      assert '/' !in init by {
        assert forall k | 0 <= k < |init| :: init[k] == name[k];
      }
      LastSegmentAfter(dir, init);
      assert init + [name[|name| - 1]] == name;
    }
  }

  /** A file stored as `<dir>/<name>.mdx` is found under `name` when the
      name contains neither a slash nor a dot. */
  lemma FilenameOf(dir: string, name: string)
    requires '/' !in name && '.' !in name
    ensures Filename(dir + "/" + name + ".mdx") == name
  {
    var last := name + ".mdx";
    assert '/' !in last by {
      assert forall k | 0 <= k < |last| :: last[k] == (if k < |name| then name[k] else ".mdx"[k - |name|]);
    }
    assert dir + "/" + name + ".mdx" == dir + "/" + last;
    LastSegmentAfter(dir, last);
    assert OccursAt(last, ".mdx", |name|) by {
      assert last[|name|..|name| + 4] == ".mdx";
    }
    forall j: nat | j < |name| ensures !OccursAt(last, ".mdx", j) {
      assert last[j..j + 4][0] == last[j] == name[j];
    }
    match IndexOf(last, ".mdx")
    case None =>
    case Some(i) =>
      assert i == |name|;
      assert last[..i] == name;
  }

  /** A portfolio project saved from the editor under a new title is found
      by the slug of that title: the editor's path and the loader's file
      name agree. */
  lemma SavedProjectFound(title: string)
    ensures Filename("/" + AdminEdit.RecordPath(Some("portfolio"), AdminEdit.Slugify(title)))
            == AdminEdit.Slugify(title)
  {
    SlugFileFound(AdminEdit.Slugify(title));
  }

  /** The file the editor writes for a slug is named by that slug. */
  lemma SlugFileFound(slug: string)
    requires AdminEdit.SlugShaped(slug)
    ensures Filename("/" + AdminEdit.RecordPath(Some("portfolio"), slug)) == slug
  {
    assert '/' !in slug && '.' !in slug by {
      forall k | 0 <= k < |slug| ensures slug[k] != '/' && slug[k] != '.' {
        assert AdminEdit.IsSlugChar(slug[k]) || slug[k] == '-';
      }
    }
    assert "/" + AdminEdit.RecordPath(Some("portfolio"), slug) == "/content/portfolio" + "/" + slug + ".mdx";
    FilenameOf("/content/portfolio", slug);
  }

  // ---------------------------------------------------------------------
  // Portfolio
  // ---------------------------------------------------------------------

  datatype Project = Project(
    title: Value, client: Value, category: Value, tags: Value, excerpt: Value,
    featured: Value, body: Value, image: Value, link: Value,
    seoTitle: Value, seoDescription: Value, filename: string)

  /** The record for one portfolio file. `body` is the front-matter key of
      that name, not the text after the front matter. */
  function ProjectOf(file: File): Project {
    var d := file.1.data;
    Project(
      Or(Get(d, "title"), Str("")), Or(Get(d, "client"), Str("")), Or(Get(d, "category"), Str("web")),
      Or(Get(d, "tags"), StrList([])), Or(Get(d, "excerpt"), Str("")), Or(Get(d, "featured"), Bool(false)),
      Get(d, "body"), Or(Get(d, "image"), Str("/placeholder.svg")), Get(d, "link"),
      Get(d, "seoTitle"), Get(d, "seoDescription"), Filename(file.0))
  }

  /** A record field read as `v || d`: the front-matter value when it is
      truthy, the default otherwise. */
  predicate FallsBack(field: Value, v: Value, d: Value) {
    (Truthy(v) ==> field == v) && (!Truthy(v) ==> field == d)
  }

  /** A project keeps every truthy front-matter value and falls back to
      the defaults otherwise; `body`, `link` and the SEO fields pass through
      as they are. */
  lemma ProjectFields(file: File)
    ensures var d := file.1.data;
            var p := ProjectOf(file);
            p.filename == Filename(file.0)
            && FallsBack(p.title, Get(d, "title"), Str(""))
            && FallsBack(p.client, Get(d, "client"), Str(""))
            && FallsBack(p.category, Get(d, "category"), Str("web"))
            && FallsBack(p.tags, Get(d, "tags"), StrList([]))
            && FallsBack(p.excerpt, Get(d, "excerpt"), Str(""))
            && FallsBack(p.featured, Get(d, "featured"), Bool(false))
            && FallsBack(p.image, Get(d, "image"), Str("/placeholder.svg"))
            && p.body == Get(d, "body") && p.link == Get(d, "link")
            && p.seoTitle == Get(d, "seoTitle") && p.seoDescription == Get(d, "seoDescription")
  {
  }

  /** Every defaulted field whose default is truthy is truthy: category,
      tags and image; title, client, excerpt and featured may stay falsy. */
  lemma ProjectDefaultsTruthy(file: File)
    ensures var p := ProjectOf(file);
            Truthy(p.category) && Truthy(p.tags) && Truthy(p.image)
  {
  }

  /** `getPortfolioProjects`: one record per file, in the order given. */
  method GetPortfolioProjects(files: seq<File>) returns (projects: seq<Project>)
    ensures |projects| == |files|
    ensures forall i | 0 <= i < |files| :: projects[i] == ProjectOf(files[i])
  {
    projects := [];
    var k := 0;
    while k < |files|
      invariant 0 <= k <= |files|
      invariant |projects| == k
      invariant forall i | 0 <= i < k :: projects[i] == ProjectOf(files[i])
    {
      projects := projects + [ProjectOf(files[k])];
      k := k + 1;
    }
  }

  /** The first element whose name is `slug`, if any. */
  function FindFirst<T>(s: seq<T>, name: T -> string, slug: string): (r: Option<nat>)
    ensures r.None? <==> forall i | 0 <= i < |s| :: name(s[i]) != slug
    ensures r.Some? ==> r.value < |s| && name(s[r.value]) == slug
                        && forall i | 0 <= i < r.value :: name(s[i]) != slug
  {
    if s == [] then None
    else if name(s[0]) == slug then Some(0)
    else
      match FindFirst(s[1..], name, slug)
      case None =>
        assert forall i | 1 <= i < |s| :: s[i] == s[1..][i - 1];
        None
      case Some(j) =>
        assert forall i | 1 <= i < j + 1 :: s[i] == s[1..][i - 1];
        Some(j + 1)
  }

  function ProjectName(p: Project): string { p.filename }

  /** `getPortfolioProjectBySlug`: the record of the first file whose name
      is `slug`, or nothing when no file has that name. */
  method GetPortfolioProjectBySlug(files: seq<File>, slug: string) returns (r: Option<Project>)
    ensures r.None? <==> forall i | 0 <= i < |files| :: Filename(files[i].0) != slug
    ensures r.Some? ==> exists i | 0 <= i < |files| ::
              r.value == ProjectOf(files[i]) && Filename(files[i].0) == slug
              && forall j | 0 <= j < i :: Filename(files[j].0) != slug
  {
    var projects := GetPortfolioProjects(files);
    var found := FindFirst(projects, ProjectName, slug);
    assert forall i | 0 <= i < |files| :: ProjectName(projects[i]) == Filename(files[i].0);
    if found.Some? {
      r := Some(projects[found.value]);
    } else {
      r := None;
    }
  }

  // ---------------------------------------------------------------------
  // Blog
  // ---------------------------------------------------------------------

  datatype Article = Article(
    title: Value, excerpt: Value, category: Value, date: Value, readTime: Value,
    featured: Value, author: Value, image: Value, body: Value,
    seoTitle: Value, seoDescription: Value, filename: string)

  /** The record for one blog file; `now` is the current time in ISO form,
      the date of an article that gives none. */
  function ArticleOf(file: File, now: string): Article {
    var d := file.1.data;
    Article(
      Or(Get(d, "title"), Str("")), Or(Get(d, "excerpt"), Str("")), Or(Get(d, "category"), Str("insights")),
      Or(Get(d, "date"), Str(now)), Or(Get(d, "readTime"), Num(5)), Or(Get(d, "featured"), Bool(false)),
      Or(Get(d, "author"), Str("nordAi Team")), Or(Get(d, "image"), Str("/placeholder.svg")),
      Get(d, "body"), Get(d, "seoTitle"), Get(d, "seoDescription"), Filename(file.0))
  }

  /** An article keeps every truthy front-matter value and falls back to
      the defaults otherwise; an article without a date is dated `now`;
      `body` and the SEO fields pass through as they are. */
  lemma ArticleFields(file: File, now: string)
    ensures var d := file.1.data;
            var a := ArticleOf(file, now);
            a.filename == Filename(file.0)
            && FallsBack(a.title, Get(d, "title"), Str(""))
            && FallsBack(a.excerpt, Get(d, "excerpt"), Str(""))
            && FallsBack(a.category, Get(d, "category"), Str("insights"))
            && FallsBack(a.date, Get(d, "date"), Str(now))
            && FallsBack(a.readTime, Get(d, "readTime"), Num(5))
            && FallsBack(a.featured, Get(d, "featured"), Bool(false))
            && FallsBack(a.author, Get(d, "author"), Str("nordAi Team"))
            && FallsBack(a.image, Get(d, "image"), Str("/placeholder.svg"))
            && a.body == Get(d, "body")
            && a.seoTitle == Get(d, "seoTitle") && a.seoDescription == Get(d, "seoDescription")
  {
  }

  /** One record per file, in the order given, before sorting. */
  function ArticlesOf(files: seq<File>, now: string): (r: seq<Article>)
    ensures |r| == |files|
    ensures forall i | 0 <= i < |files| :: r[i] == ArticleOf(files[i], now)
  {
    if files == [] then [] else [ArticleOf(files[0], now)] + ArticlesOf(files[1..], now)
  }

  /** Newest first under `time`, the instant `new Date(...)` gives a date. */
  predicate NewestFirst(s: seq<Article>, time: Value -> int) {
    forall i, j | 0 <= i < j < |s| :: time(s[i].date) >= time(s[j].date)
  }

  /** Inserts `a` before the first article that is not newer than it. */
  function Insert(a: Article, s: seq<Article>, time: Value -> int): (r: seq<Article>)
    ensures |r| == |s| + 1
  {
    if s == [] || time(a.date) >= time(s[0].date) then [a] + s
    else [s[0]] + Insert(a, s[1..], time)
  }

  /** Inserting adds exactly the inserted article. */
  lemma {:induction false} InsertPermutes(a: Article, s: seq<Article>, time: Value -> int)
    ensures multiset(Insert(a, s, time)) == multiset(s) + multiset{a}
  {
    if s != [] && time(a.date) < time(s[0].date) {
      InsertPermutes(a, s[1..], time);
      assert s == [s[0]] + s[1..];
    }
  }

  /** Every article of the list that is newer than or as new as `x`. */
  predicate NoOlderThan(x: Article, s: seq<Article>, time: Value -> int) {
    forall k | 0 <= k < |s| :: time(x.date) >= time(s[k].date)
  }

  lemma {:induction false} InsertBound(x: Article, a: Article, s: seq<Article>, time: Value -> int)
    requires NoOlderThan(x, s, time) && time(x.date) >= time(a.date)
    ensures NoOlderThan(x, Insert(a, s, time), time)
  {
    if s != [] && time(a.date) < time(s[0].date) {
      InsertBound(x, a, s[1..], time);
      var r := Insert(a, s[1..], time);
      assert forall k | 1 <= k < |r| + 1 :: ([s[0]] + r)[k] == r[k - 1];
    } else {
      assert forall k | 1 <= k < |s| + 1 :: ([a] + s)[k] == s[k - 1];
    }
  }

  /** Inserting into a newest-first list keeps it newest first. */
  lemma {:induction false} InsertSorted(a: Article, s: seq<Article>, time: Value -> int)
    requires NewestFirst(s, time)
    ensures NewestFirst(Insert(a, s, time), time)
  {
    if s == [] || time(a.date) >= time(s[0].date) {
      var r := [a] + s;
      forall i, j | 0 <= i < j < |r| ensures time(r[i].date) >= time(r[j].date) {
        if i == 0 {
          assert r[j] == s[j - 1];
        } else {
          assert r[i] == s[i - 1] && r[j] == s[j - 1];
        }
      }
    } else {
      var rest := Insert(a, s[1..], time);
      assert NewestFirst(s[1..], time);
      InsertSorted(a, s[1..], time);
      assert NoOlderThan(s[0], s[1..], time) by {
        forall k | 0 <= k < |s| - 1 ensures time(s[0].date) >= time(s[1..][k].date) {
          assert s[1..][k] == s[k + 1];
        }
      }
      InsertBound(s[0], a, s[1..], time);
      var r := [s[0]] + rest;
      forall i, j | 0 <= i < j < |r| ensures time(r[i].date) >= time(r[j].date) {
        if i == 0 {
          assert r[j] == rest[j - 1];
        } else {
          assert r[i] == rest[i - 1] && r[j] == rest[j - 1];
        }
      }
    }
  }

  /** The order `getBlogArticles` returns: the array sort with the
      comparator `time(b) - time(a)`, which is stable, so articles of the
      same instant keep their file order. */
  function SortNewestFirst(s: seq<Article>, time: Value -> int): seq<Article> {
    if s == [] then [] else Insert(s[0], SortNewestFirst(s[1..], time), time)
  }

  /** The sorted list is newest first and holds exactly the articles it was
      given. */
  lemma {:induction false} SortNewestFirstCorrect(s: seq<Article>, time: Value -> int)
    ensures NewestFirst(SortNewestFirst(s, time), time)
    ensures multiset(SortNewestFirst(s, time)) == multiset(s)
  {
    if s != [] {
      SortNewestFirstCorrect(s[1..], time);
      InsertSorted(s[0], SortNewestFirst(s[1..], time), time);
      InsertPermutes(s[0], SortNewestFirst(s[1..], time), time);
      assert s == [s[0]] + s[1..];
    }
  }

  /** The articles dated `t` under `time`, in list order. */
  function DatedAt(s: seq<Article>, time: Value -> int, t: int): seq<Article> {
    Listing.Select(s, (a: Article) => time(a.date) == t)
  }

  /** Inserting `a` puts it before the other articles of its date and
      leaves the order of every date's articles otherwise as it was. */
  lemma {:induction false} InsertStable(a: Article, s: seq<Article>, time: Value -> int, t: int)
    ensures DatedAt(Insert(a, s, time), time, t) == DatedAt([a] + s, time, t)
  {
    var keep := (x: Article) => time(x.date) == t;
    if s != [] && time(a.date) < time(s[0].date) {
      InsertStable(a, s[1..], time, t);
      assert Insert(a, s, time) == [s[0]] + Insert(a, s[1..], time);
      Listing.SelectCons(s[0], Insert(a, s[1..], time), keep);
      Listing.SelectCons(a, s[1..], keep);
      Listing.SelectCons(a, s, keep);
      Listing.SelectCons(s[0], s[1..], keep);
      assert s == [s[0]] + s[1..];
    }
  }

  /** The sort is stable: the articles of any one date keep the order they
      were given in, since `Array.prototype.sort` is stable and the
      comparator ties them. */
  lemma {:induction false} SortStable(s: seq<Article>, time: Value -> int, t: int)
    ensures DatedAt(SortNewestFirst(s, time), time, t) == DatedAt(s, time, t)
  {
    if s != [] {
      var keep := (x: Article) => time(x.date) == t;
      SortStable(s[1..], time, t);
      InsertStable(s[0], SortNewestFirst(s[1..], time), time, t);
      Listing.SelectCons(s[0], SortNewestFirst(s[1..], time), keep);
      Listing.SelectCons(s[0], s[1..], keep);
      assert s == [s[0]] + s[1..];
    }
  }

  /** Sorting an already sorted list changes nothing. */
  lemma {:induction false} SortSorted(s: seq<Article>, time: Value -> int)
    requires NewestFirst(s, time)
    ensures SortNewestFirst(s, time) == s
  {
    if s != [] {
      assert NewestFirst(s[1..], time);
      SortSorted(s[1..], time);
      assert s == [s[0]] + s[1..];
    }
  }

  /** `getBlogArticles`: one record per file, newest first. */
  method GetBlogArticles(files: seq<File>, now: string, time: Value -> int) returns (articles: seq<Article>)
    ensures NewestFirst(articles, time)
    ensures multiset(articles) == multiset(ArticlesOf(files, now))
    ensures articles == SortNewestFirst(ArticlesOf(files, now), time)
  {
    var unsorted := [];
    var k := 0;
    while k < |files|
      invariant 0 <= k <= |files|
      invariant unsorted == ArticlesOf(files[..k], now)
    {
      assert files[..k + 1][..k] == files[..k];
      ArticlesOfSnoc(files[..k + 1], now);
      unsorted := unsorted + [ArticleOf(files[k], now)];
      k := k + 1;
    }
    assert files[..k] == files;
    articles := SortNewestFirst(unsorted, time);
    SortNewestFirstCorrect(unsorted, time);
  }

  lemma {:induction false} ArticlesOfSnoc(files: seq<File>, now: string)
    requires files != []
    ensures ArticlesOf(files, now) == ArticlesOf(files[..|files| - 1], now) + [ArticleOf(files[|files| - 1], now)]
  {
    var a := ArticlesOf(files, now);
    var b := ArticlesOf(files[..|files| - 1], now) + [ArticleOf(files[|files| - 1], now)];
    assert |a| == |b|;
    forall i | 0 <= i < |a| ensures a[i] == b[i] {
      if i < |files| - 1 {
        assert files[..|files| - 1][i] == files[i];
      }
    }
  }

  function ArticleName(a: Article): string { a.filename }

  /** `getBlogArticleBySlug`: the newest-first list's first article whose
      name is `slug`, or nothing when no file has that name. */
  method GetBlogArticleBySlug(files: seq<File>, slug: string, now: string, time: Value -> int)
    returns (r: Option<Article>)
    ensures r.None? <==> forall i | 0 <= i < |files| :: Filename(files[i].0) != slug
    ensures r.Some? ==> r.value.filename == slug && r.value in multiset(ArticlesOf(files, now))
    ensures r.Some? ==> exists i | 0 <= i < |SortNewestFirst(ArticlesOf(files, now), time)| ::
              r.value == SortNewestFirst(ArticlesOf(files, now), time)[i]
              && forall j | 0 <= j < i :: SortNewestFirst(ArticlesOf(files, now), time)[j].filename != slug
  {
    var articles := GetBlogArticles(files, now, time);
    var found := FindFirst(articles, ArticleName, slug);
    SameNames(files, now, articles, slug);
    FirstNamed(articles, slug);
    if found.Some? {
      r := Some(articles[found.value]);
      assert articles[found.value] in multiset(articles);
    } else {
      r := None;
    }
  }

  /** The search by name, read on the articles' `filename` field. */
  lemma FirstNamed(articles: seq<Article>, slug: string)
    ensures var f := FindFirst(articles, ArticleName, slug);
            (f.None? ==> forall i | 0 <= i < |articles| :: articles[i].filename != slug)
            && (f.Some? ==> articles[f.value].filename == slug
                            && forall j | 0 <= j < f.value :: articles[j].filename != slug)
  {
    var f := FindFirst(articles, ArticleName, slug);
    assert forall i | 0 <= i < |articles| :: ArticleName(articles[i]) == articles[i].filename;
  }

  /** A reordering of the loaded articles holds a file's name exactly when
      some file has that name. */
  lemma SameNames(files: seq<File>, now: string, articles: seq<Article>, slug: string)
    requires multiset(articles) == multiset(ArticlesOf(files, now))
    ensures (forall i | 0 <= i < |files| :: Filename(files[i].0) != slug)
            <==> (forall i | 0 <= i < |articles| :: articles[i].filename != slug)
  {
    var unsorted := ArticlesOf(files, now);
    var named := (a: Article) => a.filename == slug;
    SomeMember(articles, unsorted, named);
    assert forall i | 0 <= i < |files| :: unsorted[i].filename == Filename(files[i].0);
  }

  /** Two sequences with the same elements have an element with property
      `p` alike. */
  lemma SomeMember<T>(a: seq<T>, b: seq<T>, p: T -> bool)
    requires multiset(a) == multiset(b)
    ensures (exists i | 0 <= i < |a| :: p(a[i])) <==> (exists j | 0 <= j < |b| :: p(b[j]))
  {
    if exists i | 0 <= i < |a| :: p(a[i]) {
      var i :| 0 <= i < |a| && p(a[i]);
      assert a[i] in multiset(b);
      var j :| 0 <= j < |b| && b[j] == a[i];
    }
    if exists j | 0 <= j < |b| :: p(b[j]) {
      var j :| 0 <= j < |b| && p(b[j]);
      assert b[j] in multiset(a);
      var i :| 0 <= i < |a| && a[i] == b[j];
    }
  }


}
