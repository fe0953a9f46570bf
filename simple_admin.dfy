/** The single-collection administration page (src/pages/SimpleAdmin.tsx).
    It edits portfolio projects only; its Markdown box is a controlled
    text area whose value is always the serialised body and whose change
    event stores the parsed text straight into the project. Its codec is
    the same code as the full page's: the parser is
    `FullAdmin.ConvertMarkdownToBody`; the serialiser is written here in
    the page's own map-and-join form and proved equal to
    `Markdown.BodyToMarkdown`. */
module SimpleAdmin {
  import opened Wrappers
  import opened Text
  import opened Markdown
  import opened FullAdmin

  // ---------------------------------------------------------------------
  // convertBodyToMarkdown, as map and join
  // ---------------------------------------------------------------------

  /** `children.map(child => child.text)`. */
  function LeafStrings(leaves: seq<Leaf>): (r: seq<string>)
    ensures |r| == |leaves| && forall k | 0 <= k < |r| :: r[k] == leaves[k].text
  {
    seq(|leaves|, k requires 0 <= k < |leaves| => leaves[k].text)
  }

  /** `li.children.map(lic => lic.children.map(...).join(''))`. */
  function LicStrings(lics: seq<Lic>): (r: seq<string>)
    ensures |r| == |lics| && forall k | 0 <= k < |r| :: r[k] == Concat(LeafStrings(lics[k].children))
  {
    seq(|lics|, k requires 0 <= k < |lics| => Concat(LeafStrings(lics[k].children)))
  }

  /** The text of an item: its `lic` texts joined. */
  function LiText(li: ListItem): string {
    Concat(LicStrings(li.children))
  }

  /** The `ul` case: one "- text\n" per item. */
  function BulletStrings(items: seq<ListItem>): (r: seq<string>)
    ensures |r| == |items| && forall k | 0 <= k < |r| :: r[k] == "- " + LiText(items[k]) + "\n"
  {
    seq(|items|, k requires 0 <= k < |items| => "- " + LiText(items[k]) + "\n")
  }

  /** The `ol` case: "n. text\n" with `n` the index plus `first`. */
  function NumberedStrings(items: seq<ListItem>, first: nat): (r: seq<string>)
    ensures |r| == |items| && forall k | 0 <= k < |r| :: r[k] == NatToString(k + first) + ". " + LiText(items[k]) + "\n"
  {
    seq(|items|, k requires 0 <= k < |items| => NatToString(k + first) + ". " + LiText(items[k]) + "\n")
  }

  function NodeMarkdown(node: Node): string {
    match node
    case H1(c) => "# " + Concat(LeafStrings(c)) + "\n\n"
    case H2(c) => "## " + Concat(LeafStrings(c)) + "\n\n"
    case H3(c) => "### " + Concat(LeafStrings(c)) + "\n\n"
    case P(c) => Concat(LeafStrings(c)) + "\n\n"
    case Ul(items) => Concat(BulletStrings(items)) + "\n"
    case Ol(items) => Concat(NumberedStrings(items, 1)) + "\n"
    case Unknown(_) => ""
  }

  function NodeStrings(nodes: seq<Node>): (r: seq<string>)
    ensures |r| == |nodes| && forall k | 0 <= k < |r| :: r[k] == NodeMarkdown(nodes[k])
  {
    seq(|nodes|, k requires 0 <= k < |nodes| => NodeMarkdown(nodes[k]))
  }

  /** `convertBodyToMarkdown` in the page's form: the blocks mapped to
      their text and joined. It agrees with the recursive serialiser the
      parser's round trip is proved against. */
  function ConvertBodyToMarkdown(body: Option<seq<Node>>): (md: string)
    ensures md == BodyToMarkdown(body)
  {
    match body
    case None => ""
    case Some(nodes) =>
      NodesAgree(nodes);
      Concat(NodeStrings(nodes))
  }

  lemma {:induction false} LeafTextsAgree(leaves: seq<Leaf>)
    ensures Concat(LeafStrings(leaves)) == Texts(leaves)
  {
    if leaves != [] {
      LeafTextsAgree(leaves[1..]);
      assert LeafStrings(leaves)[1..] == LeafStrings(leaves[1..]);
    }
  }

  lemma {:induction false} LicsAgree(lics: seq<Lic>)
    ensures Concat(LicStrings(lics)) == LicTexts(lics)
  {
    if lics != [] {
      LicsAgree(lics[1..]);
      LeafTextsAgree(lics[0].children);
      assert LicStrings(lics)[1..] == LicStrings(lics[1..]);
    }
  }

  lemma {:induction false} UlAgree(items: seq<ListItem>)
    ensures Concat(BulletStrings(items)) == RenderBullets(items)
  {
    if items != [] {
      UlAgree(items[1..]);
      LicsAgree(items[0].children);
      assert BulletStrings(items)[1..] == BulletStrings(items[1..]);
    }
  }

  lemma {:induction false} OlAgree(items: seq<ListItem>, first: nat)
    ensures Concat(NumberedStrings(items, first)) == RenderNumbered(items, first)
  {
    if items != [] {
      var f, g := NumberedStrings(items, first), NumberedStrings(items[1..], first + 1);
      forall k | 0 <= k < |g| ensures f[1..][k] == g[k] {
        assert k + 1 + first == k + (first + 1);
      }
      assert f[1..] == g;
      OlAgree(items[1..], first + 1);
      LicsAgree(items[0].children);
    }
  }

  lemma NodeAgrees(node: Node)
    ensures NodeMarkdown(node) == RenderNode(node)
  {
    match node
    case H1(c) => LeafTextsAgree(c);
    case H2(c) => LeafTextsAgree(c);
    case H3(c) => LeafTextsAgree(c);
    case P(c) => LeafTextsAgree(c);
    case Ul(items) => UlAgree(items);
    case Ol(items) => OlAgree(items, 1);
    case Unknown(_) =>
  }

  lemma {:induction false} NodesAgree(nodes: seq<Node>)
    ensures Concat(NodeStrings(nodes)) == RenderNodes(nodes)
  {
    if nodes != [] {
      NodesAgree(nodes[1..]);
      NodeAgrees(nodes[0]);
      assert NodeStrings(nodes)[1..] == NodeStrings(nodes[1..]);
    }
  }

  // ---------------------------------------------------------------------
  // Field updates
  // ---------------------------------------------------------------------

  /** The calls `updateField(field, value)` the form makes: one of the
      text fields, or the body with the text now in the Markdown box. */
  datatype FieldEdit = Field(e: ProjectEdit) | BodyText(text: string)

  /** `updateField`. The Markdown box's change event stores
      `convertMarkdownToBody(text)`, a root that always has children. */
  function UpdateField(editing: Option<Project>, f: FieldEdit): (r: Option<Project>)
    ensures editing.None? ==> r.None?
    ensures f.Field? ==> r == UpdateProjectField(editing, f.e)
    ensures editing.Some? && f.BodyText? ==> r.Some? && forall g: ProjectField ::
      ProjectValue(r.value, g) == (if g == PBody then Rich(Some(MarkdownToBody(f.text))) else ProjectValue(editing.value, g))
  {
    match f
    case Field(e) => UpdateProjectField(editing, e)
    case BodyText(text) =>
      if editing.None? then None else Some(editing.value.(body := Some(MarkdownToBody(text))))
  }

  /** The value of the controlled Markdown box. */
  function Shown(p: Project): string {
    ConvertBodyToMarkdown(p.body)
  }

  /** A key typed at the end of the Markdown box: the change event receives
      the shown text with the character added. */
  function TypeAtEnd(p: Project, c: char): (r: Project)
    ensures r.body.Some? && r.(body := p.body) == p
  {
    UpdateField(Some(p), BodyText(Shown(p) + [c])).value
  }

  /** As written, a white-space key typed at the end of the Markdown box of
      a project with a well-formed body changes nothing: the project, and
      so the box, stay as they were, and the key is lost. */
  lemma WhiteSpaceKeyLost(p: Project, c: char)
    requires p.body.Some? && WellFormed(p.body.value)
    requires IsSpace(c)
    ensures TypeAtEnd(p, c) == p
  {
    if c == '\n' {
      TrailingNewlineIgnored(p.body.value);
    } else {
      TrailingBlankIgnored(p.body.value, c);
    }
  }

  /** As written, the heading "# A" cannot be typed key by key into an
      empty box: the space after '#' is lost, so the keys '#', ' ', 'A'
      give two paragraphs instead of one heading. */
  lemma HeadingNotTypeable(p: Project)
    requires p.body.None?
    ensures var p1 := TypeAtEnd(p, '#');
            var p2 := TypeAtEnd(p1, ' ');
            var p3 := TypeAtEnd(p2, 'A');
            p1.body == Some([P([Leaf("#")])]) && p2 == p1
            && p3.body == Some([P([Leaf("#")]), P([Leaf("A")])])
  {
    var hash := [P([Leaf("#")])];
    assert GoodText("#") && !StartsWithMarker("#");
    assert GoodText("A") && !StartsWithMarker("A");
    ParagraphAfter([], "#");
    assert Shown(p) + ['#'] == BodyToMarkdown(Some([])) + "#";
    assert [] + hash == hash;
    var p1 := TypeAtEnd(p, '#');
    assert p1.body == Some(hash);
    assert WellFormed(hash);
    WhiteSpaceKeyLost(p1, ' ');
    var p2 := TypeAtEnd(p1, ' ');
    assert p2 == p1;
    ParagraphAfter(hash, "A");
    assert Shown(p2) + ['A'] == BodyToMarkdown(Some(hash)) + "A";
    assert hash + [P([Leaf("A")])] == [P([Leaf("#")]), P([Leaf("A")])];
  }

  // ---------------------------------------------------------------------
  // Opening and saving
  // ---------------------------------------------------------------------

  /** `handleEdit`: the file to load, as on the full page. */
  function EditFile(projectId: string): (r: Option<string>)
    ensures r == EditTarget(projectId)
    ensures r.None? <==> (projectId == [] || projectId[|projectId| - 1] == '/')
  {
    EditTarget(projectId)
  }

  /** The parameters `handleSave` sends: the body is the stored one, absent
      when the project has none. */
  datatype PortfolioParams = PortfolioParams(
    title: string, client: string, category: string, tags: seq<string>, excerpt: string,
    image: string, link: string, seoTitle: string, seoDescription: string, body: Option<seq<Node>>)

  datatype PortfolioUpdate = PortfolioUpdate(relativePath: string, params: PortfolioParams)

  /** `handleSave`: nothing is sent when no project is open. */
  function HandleSave(editing: Option<Project>): (r: Option<PortfolioUpdate>)
    ensures r.None? <==> editing.None?
    ensures r.Some? ==> r.value.relativePath == editing.value.filename && r.value.params.body == editing.value.body
  {
    match editing
    case None => None
    case Some(p) =>
      Some(PortfolioUpdate(p.filename, PortfolioParams(
        p.title, p.client, p.category, p.tags, p.excerpt,
        OrEmpty(p.image), OrEmpty(p.link), OrEmpty(p.seoTitle), OrEmpty(p.seoDescription), p.body)))
  }

  /** Whatever was last typed into the Markdown box is what a save sends,
      parsed. */
  lemma SaveSendsTypedText(p: Project, text: string)
    ensures var r := HandleSave(UpdateField(Some(p), BodyText(text)));
            r.Some? && r.value.params.body == Some(MarkdownToBody(text))
  {
  }

  // ---------------------------------------------------------------------
  // The Markdown box with its own text, as intended
  // ---------------------------------------------------------------------

  /** The box keeps the text typed into it; the project holds its parse. */
  datatype Editor = Editor(editing: Option<Project>, text: string)

  /** The stored body is the parse of the box's text. */
  predicate Synced(s: Editor) {
    s.editing.Some? ==> s.editing.value.body == Some(MarkdownToBody(s.text))
  }

  /** Opening a project fills the box with its serialised body. */
  function Open(p: Project): (s: Editor)
    ensures s.editing == Some(p) && s.text == Shown(p)
  {
    Editor(Some(p), Shown(p))
  }

  /** A key typed at the end of the box, kept in the box's own text. */
  function TypeKey(s: Editor, c: char): (r: Editor)
    requires s.editing.Some?
    ensures r.text == s.text + [c] && Synced(r)
    ensures r.editing.Some? && r.editing.value.(body := s.editing.value.body) == s.editing.value
  {
    Editor(UpdateField(s.editing, BodyText(s.text + [c])), s.text + [c])
  }

  /** Opening a project with a well-formed body starts in sync. */
  lemma OpenSynced(p: Project)
    requires p.body.Some? && WellFormed(p.body.value)
    ensures Synced(Open(p))
  {
    RoundTrip(p.body.value);
  }

  /** Field edits other than the body keep the box in sync. */
  lemma FieldEditSynced(s: Editor, e: ProjectEdit)
    requires Synced(s)
    ensures Synced(Editor(UpdateField(s.editing, Field(e)), s.text))
  {
  }

  /** With the box keeping its own text, typing '#', ' ', 'A' into an empty
      box gives the heading. */
  lemma HeadingTypeable(p: Project)
    requires p.body.None?
    ensures var s := TypeKey(TypeKey(TypeKey(Open(p), '#'), ' '), 'A');
            s.text == "# A" && s.editing.value.body == Some([H1([Leaf("A")])])
  {
    assert Shown(p) + ['#'] + [' '] + ['A'] == "# A";
    assert "# " + "A" == "# A";
    HeadingAlone("A");
  }
}
