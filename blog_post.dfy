/** The article page (src/pages/BlogPost.tsx): which file it asks the
    content client for, the label shown for the article's category, and how
    the rich-text body becomes page blocks. The request itself is a call
    into the content client; its outcome is a parameter. */
module BlogPost {
  import opened Wrappers
  import opened Text
  import opened Markdown
  import Tina
  import Blog

  // ---------------------------------------------------------------------
  // Request
  // ---------------------------------------------------------------------

  /** The `relativePath` requested for the route's slug; `None` when there
      is no slug (an absent or empty one), in which case nothing is asked. */
  function RequestPath(slug: Option<string>): (p: Option<string>)
    ensures p.None? <==> slug.None? || slug.value == ""
  {
    if slug.None? || slug.value == "" then None else Some(slug.value + ".mdx")
  }

  /** The file requested for a slug is the one the blog loader lists under
      that slug, for a slug with neither a slash nor a dot. */
  lemma RequestedFileFound(slug: string)
    requires slug != "" && '/' !in slug && '.' !in slug
    ensures RequestPath(Some(slug)) == Some(slug + ".mdx")
    ensures Tina.Filename("content/blog/" + RequestPath(Some(slug)).value) == slug
  {
    Tina.FilenameOf("content/blog", slug);
    assert "content/blog/" + (slug + ".mdx") == "content/blog" + "/" + slug + ".mdx";
  }

  datatype Screen = Loading | NotFound | ArticlePage

  /** The screen once the fetch effect has run. `found` says whether the
      client answered with an article; an error counts as not found. */
  function ScreenAfterFetch(slug: Option<string>, found: bool): (s: Screen)
  {
    match RequestPath(slug)
    case None => Loading
    case Some(_) => if found then ArticlePage else NotFound
  }

  /** Without a slug the effect returns before the `finally` that ends
      loading, so the spinner stays; with one, the page or "Article Not
      Found" follows the answer. */
  lemma ScreenCases(slug: Option<string>, found: bool)
    ensures ScreenAfterFetch(slug, found) == Loading <==> slug.None? || slug.value == ""
    ensures ScreenAfterFetch(slug, found) == ArticlePage <==> RequestPath(slug).Some? && found
  {
  }

  // ---------------------------------------------------------------------
  // Category label
  // ---------------------------------------------------------------------

  /** The `labels` record's own entries. */
  const Labels: map<string, string> :=
    map["ai" := "AI", "automation" := "Automation", "design" := "Design",
        "insights" := "Insights", "trends" := "Trends"]

  /** The properties every plain object inherits from `Object.prototype`;
      each is a function, or the prototype object itself for `__proto__`,
      so each is truthy. */
  const PrototypeKeys: set<string> :=
    {"constructor", "hasOwnProperty", "isPrototypeOf", "propertyIsEnumerable",
     "toLocaleString", "toString", "valueOf", "__proto__",
     "__defineGetter__", "__defineSetter__", "__lookupGetter__", "__lookupSetter__"}

  lemma PrototypeKeysNotLabels()
    ensures forall c | c in PrototypeKeys :: c !in Labels
  {
  }

  /** What `labels[category] || category` yields: a label text, or an
      inherited member, which is not text. */
  datatype Label = Shown(text: string) | PrototypeMember(name: string)

  /** The lookup as written: an own entry, else an inherited property, which
      is truthy and so wins over the fallback, else the category itself. */
  function CategoryLabelAsWritten(category: string): (l: Label)
  {
    if category in Labels then Shown(Labels[category])
    else if category in PrototypeKeys then PrototypeMember(category)
    else Shown(category)
  }

  /** The lookup as intended: the own entry, or the category itself. */
  function CategoryLabel(category: string): (l: string)
  {
    if category in Labels then Labels[category] else category
  }

  /** The five known categories get their display names. */
  lemma KnownLabels()
    ensures CategoryLabel("ai") == "AI" && CategoryLabel("automation") == "Automation"
    ensures CategoryLabel("design") == "Design" && CategoryLabel("insights") == "Insights"
    ensures CategoryLabel("trends") == "Trends"
  {
  }

  /** Any other category is shown as it is, and a label is empty only for
      the empty category. */
  lemma UnknownShownAsItself(category: string)
    ensures category !in Labels ==> CategoryLabel(category) == category
    ensures CategoryLabel(category) == "" <==> category == ""
  {
  }

  /** Every filter button of the blog listing but "all" has a label of its
      own, different from its key. */
  lemma BlogCategoriesLabelled()
    ensures forall c | c in Blog.Categories[1..] :: c in Labels && CategoryLabel(c) != c
  {
    assert Blog.Categories[1..] == ["ai", "automation", "design", "insights", "trends"];
  }

  /** The lookup as written agrees with the intended one on every category
      that is not an inherited property name. */
  lemma AsWrittenAgrees(category: string)
    ensures category !in PrototypeKeys <==> CategoryLabelAsWritten(category) == Shown(CategoryLabel(category))
  {
  }

  /** A category spelled "toString" yields the inherited function instead of
      the text "toString", and React renders a function as nothing. */
  lemma ToStringNotShown()
    ensures CategoryLabelAsWritten("toString") == PrototypeMember("toString")
    ensures CategoryLabel("toString") == "toString"
  {
    assert "toString" !in Labels;
  }

  // ---------------------------------------------------------------------
  // Body
  // ---------------------------------------------------------------------

  /** A rendered block: a heading of some level, a paragraph, or a list of
      item texts. */
  datatype Block =
    | Heading(level: nat, text: string)
    | Para(text: string)
    | BulletList(items: seq<string>)
    | NumberedList(items: seq<string>)

  /** The `switch` of `renderBody` for one node; `None` is `null`. */
  function RenderBlock(node: Node): Option<Block> {
    match node
    case H1(c) => Some(Heading(1, Texts(c)))
    case H2(c) => Some(Heading(2, Texts(c)))
    case H3(c) => Some(Heading(3, Texts(c)))
    case P(c) => Some(Para(Texts(c)))
    case Ul(items) => Some(BulletList(seq(|items|, k requires 0 <= k < |items| => ItemText(items[k]))))
    case Ol(items) => Some(NumberedList(seq(|items|, k requires 0 <= k < |items| => ItemText(items[k]))))
    case Unknown(_) => None
  }

  /** `renderBody`: `null` for a missing body or missing children (`None`),
      else one entry per child node. */
  function RenderBody(body: Option<seq<Node>>): (r: Option<seq<Option<Block>>>)
    ensures r.None? <==> body.None?
    ensures r.Some? ==> |r.value| == |body.value|
  {
    match body
    case None => None
    case Some(nodes) => Some(seq(|nodes|, k requires 0 <= k < |nodes| => RenderBlock(nodes[k])))
  }

  /** Only a node of an unknown type renders nothing; each known node
      shows the same text the admin editor's Markdown shows for it, and a
      list one entry per item. */
  lemma BlockMatchesMarkdown(node: Node)
    ensures RenderBlock(node).None? <==> node.Unknown?
    ensures match RenderBlock(node)
            case None => RenderNode(node) == ""
            case Some(Heading(1, t)) => RenderNode(node) == "# " + t + "\n\n"
            case Some(Heading(2, t)) => RenderNode(node) == "## " + t + "\n\n"
            case Some(Heading(_, t)) => RenderNode(node) == "### " + t + "\n\n"
            case Some(Para(t)) => RenderNode(node) == t + "\n\n"
            case Some(BulletList(ts)) => (|ts| == |node.items| && RenderBullets(node.items) + "\n" == RenderNode(node)
                && forall k | 0 <= k < |ts| :: ts[k] == ItemText(node.items[k]))
            case Some(NumberedList(ts)) => (|ts| == |node.items| && RenderNumbered(node.items, 1) + "\n" == RenderNode(node)
                && forall k | 0 <= k < |ts| :: ts[k] == ItemText(node.items[k]))
  {
  }

  /** A body saved from the admin editor's Markdown renders every one of
      its blocks. */
  lemma SavedBodyFullyShown(markdown: string)
    ensures var r := RenderBody(Some(MarkdownToBody(markdown)));
            r.Some? && forall k | 0 <= k < |r.value| :: r.value[k].Some?
  {
    ParseShape(Split(markdown, '\n'));
    var nodes := MarkdownToBody(markdown);
    forall k | 0 <= k < |nodes| ensures RenderBlock(nodes[k]).Some? {
      assert ParsedShape(nodes[k]);
    }
  }

  /** Opening a well-formed body in the admin editor and saving it unchanged
      leaves the article page as it was. */
  lemma UnchangedSaveSamePage(nodes: seq<Node>)
    requires WellFormed(nodes)
    ensures RenderBody(Some(MarkdownToBody(BodyToMarkdown(Some(nodes))))) == RenderBody(Some(nodes))
  {
    RoundTrip(nodes);
  }
}
