/** The record editor page (src/pages/AdminEdit.tsx): the form's initial
    values, the mapping from a loaded file to the form, the slug of a new
    record, the front matter a save writes, the write and delete requests
    and the tag list editing. The repository calls are left out: a save or
    a delete is modelled as the request it would send, and the file
    versions the store holds at that moment are a parameter. */
module AdminEdit {
  import opened Wrappers
  import opened Text
  import opened FrontMatter

  // ---------------------------------------------------------------------
  // Form
  // ---------------------------------------------------------------------

  /** The form state. `None` is a field the loaded front matter left
      undefined. */
  datatype FormData = FormData(
    title: string, excerpt: string, category: string, date: string,
    readTime: Option<int>, author: Option<string>, client: Option<string>,
    tags: seq<string>, featured: bool, image: string, link: Option<string>,
    seoTitle: string, seoDescription: string, body: string)

  /** The `type` query parameter as a template literal prints it. */
  function TypeText(kind: Option<string>): string {
    if kind.Some? then kind.value else "null"
  }

  /** `type === 'blog'`; every other type, a missing one included, takes
      the portfolio branches. */
  predicate IsBlog(kind: Option<string>) {
    kind == Some("blog")
  }

  /** The initial form. `now` is the first sixteen characters of the
      current time in ISO form. */
  function InitialForm(kind: Option<string>, now: string): (f: FormData)
    ensures f.category == (if IsBlog(kind) then "ai" else "web")
    ensures f.title == "" && f.excerpt == "" && f.body == "" && f.tags == [] && !f.featured
    ensures f.date == now && f.readTime == Some(5) && f.author == Some("nordAi Team")
    ensures f.image == "/placeholder.svg" && f.client == Some("") && f.link == Some("")
  {
    FormData("", "", if IsBlog(kind) then "ai" else "web", now, Some(5), Some("nordAi Team"),
      Some(""), [], false, "/placeholder.svg", Some(""), "", "", "")
  }

  // ---------------------------------------------------------------------
  // Paths
  // ---------------------------------------------------------------------

  /** `content/${type}/${slug}.mdx`; a missing slug prints as "null". */
  function RecordPath(kind: Option<string>, slug: string): string {
    "content/" + TypeText(kind) + "/" + slug + ".mdx"
  }

  function SlugText(slug: Option<string>): string {
    if slug.Some? then slug.value else "null"
  }

  // ---------------------------------------------------------------------
  // Loading
  // ---------------------------------------------------------------------

  /** `v || d` for a text field. */
  function TextOr(v: Value, d: string): (r: string)
    ensures v.Str? && v.s != "" ==> r == v.s
    ensures !(v.Str? && v.s != "") ==> r == d
  {
    if v.Str? && v.s != "" then v.s else d
  }

  /** A text field passed through: `None` when it is not a text. */
  function OptText(v: Value): (r: Option<string>)
    ensures v.Str? <==> r.Some?
    ensures v.Str? ==> r.value == v.s
  {
    if v.Str? then Some(v.s) else None
  }

  /** `loadContent`'s mapping from the parsed file to the form. */
  function LoadForm(doc: Document): (f: FormData)
    ensures f.body == doc.content
    ensures f.title == TextOr(Get(doc.data, "title"), "") && f.excerpt == TextOr(Get(doc.data, "excerpt"), "")
    ensures f.category == TextOr(Get(doc.data, "category"), "") && f.date == TextOr(Get(doc.data, "date"), "")
    ensures f.seoTitle == TextOr(Get(doc.data, "seoTitle"), "")
    ensures f.seoDescription == TextOr(Get(doc.data, "seoDescription"), "")
    ensures f.image == TextOr(Get(doc.data, "image"), "/placeholder.svg")
    ensures Get(doc.data, "tags").StrList? ==> f.tags == Get(doc.data, "tags").items
    ensures !(Get(doc.data, "tags").StrList?) ==> f.tags == []
    ensures f.featured <==> Get(doc.data, "featured") == Bool(true)
    ensures Get(doc.data, "readTime").Num? <==> f.readTime.Some?
    ensures f.readTime.Some? ==> Get(doc.data, "readTime") == Num(f.readTime.value)
    ensures f.author == OptText(Get(doc.data, "author")) && f.client == OptText(Get(doc.data, "client"))
    ensures f.link == OptText(Get(doc.data, "link"))
  {
    var d := doc.data;
    var readTime := Get(d, "readTime");
    var tags := Get(d, "tags");
    FormData(
      TextOr(Get(d, "title"), ""), TextOr(Get(d, "excerpt"), ""), TextOr(Get(d, "category"), ""),
      TextOr(Get(d, "date"), ""),
      if readTime.Num? then Some(readTime.n) else None,
      OptText(Get(d, "author")), OptText(Get(d, "client")),
      if tags.StrList? then tags.items else [],
      Get(d, "featured") == Bool(true),
      TextOr(Get(d, "image"), "/placeholder.svg"),
      OptText(Get(d, "link")),
      TextOr(Get(d, "seoTitle"), ""), TextOr(Get(d, "seoDescription"), ""),
      doc.content)
  }

  /** A file whose front matter is empty loads as the defaults. */
  lemma EmptyFrontMatterLoads(content: string)
    ensures LoadForm(Document(map[], content)) == FormData(
              "", "", "", "", None, None, None, [], false, "/placeholder.svg", None, "", "", content)
  {
  }

  // ---------------------------------------------------------------------
  // Slug of a new record
  // ---------------------------------------------------------------------

  predicate IsSlugChar(c: char) {
    'a' <= c <= 'z' || '0' <= c <= '9'
  }

  /** What a slug may contain. */
  predicate SlugShaped(s: string) {
    (forall k | 0 <= k < |s| :: IsSlugChar(s[k]) || s[k] == '-')
    && (forall k | 0 <= k < |s| - 1 :: !(s[k] == '-' && s[k + 1] == '-'))
  }

  /** The text after the run of characters outside [a-z0-9] at the front. */
  function DropRun(s: string): (r: string)
    ensures |r| <= |s| && r == s[|s| - |r|..]
    ensures r == [] || IsSlugChar(r[0])
  {
    if s != [] && !IsSlugChar(s[0]) then
      var r := DropRun(s[1..]);
      assert s[1..][|s| - 1 - |r|..] == s[|s| - |r|..];
      r
    else s
  }

  /** `replace(/[^a-z0-9]+/g, '-')`: every maximal run of characters
      outside [a-z0-9] becomes one hyphen. */
  function Hyphenate(s: string): (r: string)
    ensures s == [] <==> r == []
    ensures s != [] && IsSlugChar(s[0]) ==> r[0] == s[0]
    ensures s != [] && !IsSlugChar(s[0]) ==> r[0] == '-'
    ensures SlugShaped(r)
    decreases |s|
  {
    if s == [] then []
    else if IsSlugChar(s[0]) then [s[0]] + Hyphenate(s[1..])
    else
      var rest := DropRun(s[1..]);
      var h := Hyphenate(rest);
      assert h == [] || IsSlugChar(h[0]);
      ['-'] + h
  }

  /** The slug of a new record: the lower-cased title, hyphenated. */
  function Slugify(title: string): (slug: string)
    ensures SlugShaped(slug)
    ensures |slug| <= |title| && (slug == [] <==> title == [])
  {
    HyphenateShorter(Lower(title));
    Hyphenate(Lower(title))
  }

  lemma {:induction false} HyphenateShorter(s: string)
    ensures |Hyphenate(s)| <= |s|
    decreases |s|
  {
    if s != [] {
      if IsSlugChar(s[0]) {
        HyphenateShorter(s[1..]);
      } else {
        HyphenateShorter(DropRun(s[1..]));
      }
    }
  }

  /** The characters of a text in [a-z0-9], in order. */
  function SlugChars(s: string): string {
    if s == [] then [] else (if IsSlugChar(s[0]) then [s[0]] else []) + SlugChars(s[1..])
  }

  lemma {:induction false} DropRunKeeps(s: string)
    ensures SlugChars(DropRun(s)) == SlugChars(s)
  {
    if s != [] && !IsSlugChar(s[0]) {
      DropRunKeeps(s[1..]);
    }
  }

  /** Hyphenating keeps every letter and digit, in order, and adds only
      hyphens. */
  lemma {:induction false} HyphenateKeeps(s: string)
    ensures SlugChars(Hyphenate(s)) == SlugChars(s)
    decreases |s|
  {
    if s != [] {
      if IsSlugChar(s[0]) {
        HyphenateKeeps(s[1..]);
        assert ([s[0]] + Hyphenate(s[1..]))[1..] == Hyphenate(s[1..]);
      } else {
        var rest := DropRun(s[1..]);
        HyphenateKeeps(rest);
        DropRunKeeps(s[1..]);
        assert (['-'] + Hyphenate(rest))[1..] == Hyphenate(rest);
      }
    }
  }

  /** A title that starts or ends outside [a-z0-9] once lower-cased gives a
      slug that starts or ends with a hyphen: the rule does not trim. */
  lemma {:induction false} HyphenateEnds(s: string)
    requires s != []
    ensures Hyphenate(s) != []
    ensures IsSlugChar(s[|s| - 1]) ==> Last(Hyphenate(s)) == s[|s| - 1]
    ensures !IsSlugChar(s[|s| - 1]) ==> Last(Hyphenate(s)) == '-'
    decreases |s|
  {
    var r := Hyphenate(s);
    if IsSlugChar(s[0]) {
      if |s| > 1 {
        var t := s[1..];
        HyphenateEnds(t);
        assert r == [s[0]] + Hyphenate(t);
        assert Last(r) == Last(Hyphenate(t));
        assert t[|t| - 1] == s[|s| - 1];
      }
    } else {
      var rest := DropRun(s[1..]);
      assert r == ['-'] + Hyphenate(rest);
      if rest != [] {
        HyphenateEnds(rest);
        assert Last(r) == Last(Hyphenate(rest));
        assert rest[|rest| - 1] == s[|s| - 1];
      } else if |s| > 1 {
        DropRunAll(s[1..]);
        assert s[|s| - 1] == s[1..][|s| - 2];
      }
    }
  }

  function Last(s: string): char
    requires s != []
  {
    s[|s| - 1]
  }

  lemma {:induction false} DropRunAll(s: string)
    requires DropRun(s) == []
    ensures forall k | 0 <= k < |s| :: !IsSlugChar(s[k])
  {
    if s != [] {
      DropRunAll(s[1..]);
      assert forall k | 1 <= k < |s| :: s[k] == s[1..][k - 1];
    }
  }

  lemma SlugEnds(title: string)
    requires title != []
    ensures !IsSlugChar(LowerChar(title[0])) ==> Slugify(title)[0] == '-'
    ensures !IsSlugChar(LowerChar(title[|title| - 1])) ==> Last(Slugify(title)) == '-'
  {
    HyphenateEnds(Lower(title));
  }

  /** A slug-shaped text is its own hyphenation. */
  lemma {:induction false} HyphenateShaped(s: string)
    requires SlugShaped(s)
    ensures Hyphenate(s) == s
    decreases |s|
  {
    if s != [] {
      assert SlugShaped(s[1..]) by {
        assert forall k | 0 <= k < |s| - 1 :: s[1..][k] == s[k + 1];
      }
      if IsSlugChar(s[0]) {
        HyphenateShaped(s[1..]);
      } else {
        assert DropRun(s[1..]) == s[1..] by {
          if |s| > 1 {
            assert s[1] != '-' && IsSlugChar(s[1]);
          }
        }
        HyphenateShaped(s[1..]);
        assert s == ['-'] + s[1..];
      }
    }
  }

  lemma LowerShaped(s: string)
    requires SlugShaped(s)
    ensures Lower(s) == s
  {
    assert forall k | 0 <= k < |s| :: LowerChar(s[k]) == s[k];
  }

  /** Deriving a slug from a slug changes nothing. */
  lemma SlugIdempotent(title: string)
    ensures Slugify(Slugify(title)) == Slugify(title)
  {
    var slug := Slugify(title);
    LowerShaped(slug);
    HyphenateShaped(slug);
  }

  /** The letters and digits of a slug are those of the lower-cased title. */
  lemma SlugKeepsLettersAndDigits(title: string)
    ensures SlugChars(Slugify(title)) == SlugChars(Lower(title))
  {
    HyphenateKeeps(Lower(title));
  }

  // ---------------------------------------------------------------------
  // Save
  // ---------------------------------------------------------------------

  /** An optional text written as a front-matter value. */
  function TextValue(o: Option<string>): Value {
    if o.Some? then Str(o.value) else Undefined
  }

  /** `if (formData.link)`. */
  predicate HasLink(f: FormData) {
    f.link.Some? && f.link.value != ""
  }

  /** The keys every saved record has. */
  const CommonKeys: set<string> := {"title", "excerpt", "category", "featured", "image", "seoTitle", "seoDescription"}

  /** The front matter a save writes. */
  function SavedFrontMatter(f: FormData, blog: bool): map<string, Value> {
    var common := map[
      "title" := Str(f.title), "excerpt" := Str(f.excerpt), "category" := Str(f.category),
      "featured" := Bool(f.featured), "image" := Str(f.image),
      "seoTitle" := Str(f.seoTitle), "seoDescription" := Str(f.seoDescription)];
    if blog then
      common["date" := Str(f.date)]["readTime" := if f.readTime.Some? then Num(f.readTime.value) else Undefined]
            ["author" := TextValue(f.author)]
    else
      var withTags := common["client" := TextValue(f.client)]["tags" := StrList(f.tags)];
      if HasLink(f) then withTags["link" := Str(f.link.value)] else withTags
  }

  /** The keys of the saved front matter: the common ones always, even when
      empty; a blog post adds exactly date, readTime and author; a portfolio
      project adds client and tags, and link only when it is non-empty. */
  lemma SavedKeys(f: FormData, blog: bool)
    ensures blog ==> SavedFrontMatter(f, blog).Keys == CommonKeys + {"date", "readTime", "author"}
    ensures !blog && HasLink(f) ==> SavedFrontMatter(f, blog).Keys == CommonKeys + {"client", "tags", "link"}
    ensures !blog && !HasLink(f) ==> SavedFrontMatter(f, blog).Keys == CommonKeys + {"client", "tags"}
  {
  }

  /** The request a save sends: where, with which message, the document
      (front matter and body) and the version being replaced, if any. */
  datatype PutRequest = PutRequest(path: string, message: string, doc: Document, sha: Option<string>)

  /** `handleSave`. `slug` is the query's slug and `shas` the versions the
      store holds when the save runs: an update reads the version of the
      file just before writing it. */
  method HandleSave(f: FormData, kind: Option<string>, slug: Option<string>, isNew: bool, shas: map<string, string>)
    returns (r: Option<PutRequest>)
    ensures r.None? <==> f.title == "" || f.excerpt == "" || f.body == ""
    ensures r.Some? ==>
      var fileSlug := if isNew then Slugify(f.title) else SlugText(slug);
      var path := RecordPath(kind, fileSlug);
      r.value.path == path
      && r.value.message == (if isNew then "Create " else "Update ") + TypeText(kind) + ": " + f.title
      && r.value.doc == Document(SavedFrontMatter(f, IsBlog(kind)), f.body)
      && r.value.sha == (if !isNew && path in shas then Some(shas[path]) else None)
  {
    if f.title == "" || f.excerpt == "" || f.body == "" {
      return None;
    }
    var fileSlug := if isNew then Slugify(f.title) else SlugText(slug);
    var path := RecordPath(kind, fileSlug);

    var frontmatter := map[];
    frontmatter := frontmatter["title" := Str(f.title)];
    frontmatter := frontmatter["excerpt" := Str(f.excerpt)];
    frontmatter := frontmatter["category" := Str(f.category)];
    frontmatter := frontmatter["featured" := Bool(f.featured)];
    frontmatter := frontmatter["image" := Str(f.image)];
    frontmatter := frontmatter["seoTitle" := Str(f.seoTitle)];
    frontmatter := frontmatter["seoDescription" := Str(f.seoDescription)];
    if IsBlog(kind) {
      frontmatter := frontmatter["date" := Str(f.date)];
      frontmatter := frontmatter["readTime" := if f.readTime.Some? then Num(f.readTime.value) else Undefined];
      frontmatter := frontmatter["author" := TextValue(f.author)];
    } else {
      frontmatter := frontmatter["client" := TextValue(f.client)];
      frontmatter := frontmatter["tags" := StrList(f.tags)];
      if HasLink(f) {
        frontmatter := frontmatter["link" := Str(f.link.value)];
      }
    }

    var sha: Option<string> := None;
    if !isNew {
      sha := if path in shas then Some(shas[path]) else None;
    }
    var message := (if isNew then "Create " else "Update ") + TypeText(kind) + ": " + f.title;
    r := Some(PutRequest(path, message, Document(frontmatter, f.body), sha));
  }

  /** The values the common keys hold in the saved front matter. */
  lemma SavedCommon(f: FormData, blog: bool)
    ensures var d := SavedFrontMatter(f, blog);
            Get(d, "title") == Str(f.title) && Get(d, "excerpt") == Str(f.excerpt)
            && Get(d, "category") == Str(f.category) && Get(d, "featured") == Bool(f.featured)
            && Get(d, "image") == Str(f.image) && Get(d, "seoTitle") == Str(f.seoTitle)
            && Get(d, "seoDescription") == Str(f.seoDescription)
  {
  }

  /** The values the blog-specific keys hold in a saved blog post, which
      has none of the project keys. */
  lemma SavedBlogKeys(f: FormData)
    ensures var d := SavedFrontMatter(f, true);
            Get(d, "date") == Str(f.date) && Get(d, "author") == TextValue(f.author)
            && Get(d, "readTime") == (if f.readTime.Some? then Num(f.readTime.value) else Undefined)
            && Get(d, "client") == Undefined && Get(d, "tags") == Undefined && Get(d, "link") == Undefined
  {
    
  }

  /** The values the project-specific keys hold in a saved project. */
  lemma SavedProjectKeys(f: FormData)
    ensures var d := SavedFrontMatter(f, false);
            Get(d, "client") == TextValue(f.client) && Get(d, "tags") == StrList(f.tags)
            && Get(d, "link") == (if HasLink(f) then Str(f.link.value) else Undefined)
  {
    if !HasLink(f) {
      SavedKeys(f, false);
    }
  }

  /** A saved project has none of the blog keys. */
  lemma SavedProjectLacksBlogKeys(f: FormData)
    ensures var d := SavedFrontMatter(f, false);
            Get(d, "date") == Undefined && Get(d, "readTime") == Undefined && Get(d, "author") == Undefined
  {
  }

  /** Loading what a save wrote for a blog post gives the form back, except
      the fields a blog post does not write: client, link and tags. */
  lemma LoadSavedBlog(f: FormData)
    requires f.image != ""
    ensures LoadForm(Document(SavedFrontMatter(f, true), f.body)) == f.(client := None, tags := [], link := None)
  {
    SavedCommon(f, true);
    SavedBlogKeys(f);
  }

  /** Loading what a save wrote for a portfolio project gives the form back,
      except the fields a project does not write: date, readTime, author,
      and a link that was empty. */
  lemma LoadSavedPortfolio(f: FormData)
    requires f.image != ""
    ensures LoadForm(Document(SavedFrontMatter(f, false), f.body))
            == f.(date := "", readTime := None, author := None, link := if HasLink(f) then f.link else None)
  {
    SavedCommon(f, false);
    SavedProjectKeys(f);
    SavedProjectLacksBlogKeys(f);
  }

  // ---------------------------------------------------------------------
  // Delete
  // ---------------------------------------------------------------------

  datatype DeleteRequest = DeleteRequest(path: string, message: string, sha: Option<string>)

  /** `handleDelete`: nothing unless the user confirms; the version sent is
      the one the store holds at that moment. */
  function HandleDelete(confirmed: bool, f: FormData, kind: Option<string>, slug: Option<string>, shas: map<string, string>)
    : (r: Option<DeleteRequest>)
    ensures r.None? <==> !confirmed
    ensures r.Some? ==> r.value.path == RecordPath(kind, SlugText(slug))
                        && r.value.message == "Delete " + TypeText(kind) + ": " + f.title
  {
    if !confirmed then None
    else
      var path := RecordPath(kind, SlugText(slug));
      Some(DeleteRequest(path, "Delete " + TypeText(kind) + ": " + f.title, if path in shas then Some(shas[path]) else None))
  }

  /** Load, update and delete of an existing record address one file:
      `loadContent` reads the path the update then writes and the delete
      removes. */
  method SamePath(f: FormData, kind: Option<string>, slug: string, shas: map<string, string>)
    returns (loadPath: string, putPath: string, deletePath: string)
    requires f.title != "" && f.excerpt != "" && f.body != ""
    ensures loadPath == RecordPath(kind, slug)
    ensures putPath == loadPath && deletePath == loadPath
  {
    loadPath := RecordPath(kind, SlugText(Some(slug)));
    var put := HandleSave(f, kind, Some(slug), false, shas);
    var del := HandleDelete(true, f, kind, Some(slug), shas);
    putPath := put.value.path;
    deletePath := del.value.path;
  }

  // ---------------------------------------------------------------------
  // Tags
  // ---------------------------------------------------------------------

  predicate NoDuplicates(s: seq<string>) {
    forall i, j | 0 <= i < j < |s| :: s[i] != s[j]
  }

  /** `addTag`: the new tag is appended and the input cleared only when it
      is non-empty and not yet in the list; otherwise nothing changes. */
  function AddTag(f: FormData, newTag: string): (r: (FormData, string))
    ensures newTag != "" && newTag !in f.tags ==> r == (f.(tags := f.tags + [newTag]), "")
    ensures !(newTag != "" && newTag !in f.tags) ==> r == (f, newTag)
  {
    if newTag != "" && newTag !in f.tags then (f.(tags := f.tags + [newTag]), "") else (f, newTag)
  }

  /** `removeTag`: `tags.filter(t => t !== tag)`. */
  function RemoveTag(f: FormData, tag: string): (r: FormData)
    ensures r.(tags := f.tags) == f
  {
    f.(tags := Without(f.tags, tag))
  }

  function Without(tags: seq<string>, tag: string): (r: seq<string>)
    ensures |r| <= |tags|
  {
    if tags == [] then []
    else (if tags[0] == tag then [] else [tags[0]]) + Without(tags[1..], tag)
  }

  /** A duplicate-free list stays duplicate-free when a tag is added. */
  lemma AddTagNoDuplicates(f: FormData, newTag: string)
    requires NoDuplicates(f.tags)
    ensures NoDuplicates(AddTag(f, newTag).0.tags)
  {
    if newTag != "" && newTag !in f.tags {
      var t := f.tags + [newTag];
      forall i, j | 0 <= i < j < |t| ensures t[i] != t[j] {
        if j == |t| - 1 {
          assert t[i] == f.tags[i];
        }
      }
    }
  }

  /** Removing a tag removes every occurrence of it and keeps every other
      tag, as often as it was there. */
  lemma {:induction false} WithoutCounts(tags: seq<string>, tag: string)
    ensures tag !in Without(tags, tag)
    ensures forall x | x != tag :: multiset(Without(tags, tag))[x] == multiset(tags)[x]
  {
    if tags != [] {
      WithoutCounts(tags[1..], tag);
      assert tags == [tags[0]] + tags[1..];
    }
  }

  /** Removing distributes over concatenation: it is a filter, so the
      remaining tags keep their order. */
  lemma {:induction false} WithoutAppend(a: seq<string>, b: seq<string>, tag: string)
    ensures Without(a + b, tag) == Without(a, tag) + Without(b, tag)
  {
    if a != [] {
      WithoutAppend(a[1..], b, tag);
      assert (a + b)[0] == a[0];
      assert (a + b)[1..] == a[1..] + b;
      ConcatAssoc(if a[0] == tag then [] else [a[0]], Without(a[1..], tag), Without(b, tag));
    } else {
      assert a + b == b;
    }
  }

  lemma {:induction false} WithoutSubsequence(tags: seq<string>, tag: string)
    ensures multiset(Without(tags, tag)) <= multiset(tags)
  {
    if tags != [] {
      WithoutSubsequence(tags[1..], tag);
      assert tags == [tags[0]] + tags[1..];
    }
  }

  /** A duplicate-free list stays duplicate-free when a tag is removed. */
  lemma RemoveTagNoDuplicates(f: FormData, tag: string)
    requires NoDuplicates(f.tags)
    ensures NoDuplicates(RemoveTag(f, tag).tags)
  {
    var r := Without(f.tags, tag);
    WithoutSubsequence(f.tags, tag);
    NoDuplicatesMultiset(f.tags);
    forall x ensures multiset(r)[x] <= 1 {
      assert multiset(r)[x] <= multiset(f.tags)[x];
    }
    MultisetNoDuplicates(r);
  }

  lemma {:induction false} NoDuplicatesMultiset(s: seq<string>)
    requires NoDuplicates(s)
    ensures forall x :: multiset(s)[x] <= 1
  {
    if s != [] {
      NoDuplicatesMultiset(s[1..]);
      assert s == [s[0]] + s[1..];
      assert s[0] !in s[1..] by {
        forall j | 0 <= j < |s| - 1 ensures s[1..][j] != s[0] {
          assert s[1..][j] == s[j + 1];
        }
      }
    }
  }

  lemma {:induction false} MultisetNoDuplicates(s: seq<string>)
    requires forall x :: multiset(s)[x] <= 1
    ensures NoDuplicates(s)
  {
    if s != [] {
      assert s == [s[0]] + s[1..];
      assert forall x :: multiset(s[1..])[x] <= multiset(s)[x];
      MultisetNoDuplicates(s[1..]);
      assert s[0] !in s[1..] by {
        assert multiset(s)[s[0]] == 1 + multiset(s[1..])[s[0]];
      }
      forall i, j | 0 <= i < j < |s| ensures s[i] != s[j] {
        if i > 0 {
          assert s[i] == s[1..][i - 1] && s[j] == s[1..][j - 1];
        } else {
          assert s[j] in s[1..];
        }
      }
    }
  }
}
