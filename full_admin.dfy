/** The content administration page (src/pages/FullAdmin.tsx): the
    Markdown parser loop, the records being edited, the field updaters,
    the tag text field, the id-to-filename step of opening a record and
    the mutation a save sends. Network calls are left out; a save is
    modelled as the request it would send. */
module FullAdmin {
  import opened Wrappers
  import opened Text
  import opened Markdown

  // ---------------------------------------------------------------------
  // convertMarkdownToBody
  // ---------------------------------------------------------------------

  /** `convertMarkdownToBody`: the children of the root it returns. */
  method ConvertMarkdownToBody(markdown: string) returns (children: seq<Node>)
    ensures children == MarkdownToBody(markdown)
    ensures forall k | 0 <= k < |children| :: ParsedShape(children[k])
  {
    var lines := Split(markdown, '\n');
    children := [];
    var i := 0;
    assert lines[i..] == lines;
    assert children + ParseLines(lines) == ParseLines(lines);
    while i < |lines|
      invariant 0 <= i <= |lines|
      invariant children + ParseLines(lines[i..]) == ParseLines(lines)
      decreases |lines| - i
    {
      var line := Trim(lines[i]);
      StepOfLine(lines, i);
      if line == "" {
        SkipAt(children, lines, i, ParseLines(lines));
        i := i + 1;
        continue;
      }
      var node: Node;
      if StartsWith(line, "### ") {
        node := H3([Leaf(line[4..])]);
      } else if StartsWith(line, "## ") {
        node := H2([Leaf(line[3..])]);
      } else if StartsWith(line, "# ") {
        node := H1([Leaf(line[2..])]);
      } else if IsBullet(line) {
        var listItems, next := CollectBulletItems(lines, i);
        PushAt(children, lines, i, Ul(listItems), next, ParseLines(lines));
        children, i := children + [Ul(listItems)], next;
        continue;
      } else if IsNumbered(line) {
        var listItems, next := CollectNumberedItems(lines, i);
        PushAt(children, lines, i, Ol(listItems), next, ParseLines(lines));
        children, i := children + [Ol(listItems)], next;
        continue;
      } else {
        node := P([Leaf(line)]);
      }
      PushAt(children, lines, i, node, i + 1, ParseLines(lines));
      children := children + [node];
      i := i + 1;
    }
    assert lines[i..] == [];
    assert children + [] == children;
    ParseShape(lines);
  }

  /** The inner loop over a run of bullet lines starting at `start`: one
      item per line, up to the first line that is not a bullet line. The
      list it builds is the parser's step at `start`. */
  method CollectBulletItems(lines: seq<string>, start: nat) returns (listItems: seq<ListItem>, i: nat)
    requires start < |lines| && IsBullet(Trim(lines[start]))
    ensures start < i <= |lines| && i == start + BulletRun(lines[start..])
    ensures listItems == BulletItems(lines[start..i])
    ensures ParseStep(lines[start..]) == Step(Some(Ul(listItems)), i - start)
  {
    listItems, i := ScanBullets(lines, start);
    BulletCollected(lines, start, i, listItems);
  }

  /** The `while` loop itself: it stops at the first line that is not a
      bullet line and has taken one item from each line before it. */
  method ScanBullets(lines: seq<string>, start: nat) returns (listItems: seq<ListItem>, i: nat)
    requires start < |lines| && IsBullet(Trim(lines[start]))
    ensures start < i <= |lines|
    ensures forall k | start <= k < i :: IsBullet(Trim(lines[k]))
    ensures i < |lines| ==> !IsBullet(Trim(lines[i]))
    ensures |listItems| == i - start
    ensures forall k | 0 <= k < |listItems| :: listItems[k] == BulletItem(lines[start + k])
  {
    i := start;
    listItems := [];
    while i < |lines| && IsBullet(Trim(lines[i]))
      invariant start <= i <= |lines|
      invariant forall k | start <= k < i :: IsBullet(Trim(lines[k]))
      invariant |listItems| == i - start
      invariant forall k | 0 <= k < |listItems| :: listItems[k] == BulletItem(lines[start + k])
    {
      BulletItemPushed(lines, start, i, listItems);
      listItems := listItems + [BulletItem(lines[i])];
      i := i + 1;
    }
  }

  /** One turn of that loop keeps its invariant. */
  lemma BulletItemPushed(lines: seq<string>, start: nat, i: nat, items: seq<ListItem>)
    requires start <= i < |lines|
    requires forall k | start <= k <= i :: IsBullet(Trim(lines[k]))
    requires |items| == i - start
    requires forall k | 0 <= k < |items| :: items[k] == BulletItem(lines[start + k])
    ensures forall k | 0 <= k < |items| + 1 :: (items + [BulletItem(lines[i])])[k] == BulletItem(lines[start + k])
  {
  }

  /** The inner loop over a run of numbered lines. */
  method CollectNumberedItems(lines: seq<string>, start: nat) returns (listItems: seq<ListItem>, i: nat)
    requires start < |lines| && IsNumbered(Trim(lines[start]))
    ensures start < i <= |lines| && i == start + NumberedRun(lines[start..])
    ensures listItems == NumberedItems(lines[start..i])
    ensures ParseStep(lines[start..]) == Step(Some(Ol(listItems)), i - start)
  {
    listItems, i := ScanNumbered(lines, start);
    NumberedCollected(lines, start, i, listItems);
  }

  /** The `while` loop itself: it stops at the first line that is not
      numbered and has taken one item from each line before it. */
  method ScanNumbered(lines: seq<string>, start: nat) returns (listItems: seq<ListItem>, i: nat)
    requires start < |lines| && IsNumbered(Trim(lines[start]))
    ensures start < i <= |lines|
    ensures forall k | start <= k < i :: IsNumbered(Trim(lines[k]))
    ensures i < |lines| ==> !IsNumbered(Trim(lines[i]))
    ensures |listItems| == i - start
    ensures forall k | 0 <= k < |listItems| :: listItems[k] == NumberedItem(lines[start + k])
  {
    i := start;
    listItems := [];
    while i < |lines| && IsNumbered(Trim(lines[i]))
      invariant start <= i <= |lines|
      invariant forall k | start <= k < i :: IsNumbered(Trim(lines[k]))
      invariant |listItems| == i - start
      invariant forall k | 0 <= k < |listItems| :: listItems[k] == NumberedItem(lines[start + k])
    {
      NumberedItemPushed(lines, start, i, listItems);
      listItems := listItems + [NumberedItem(lines[i])];
      i := i + 1;
    }
  }

  /** One turn of that loop keeps its invariant. */
  lemma NumberedItemPushed(lines: seq<string>, start: nat, i: nat, items: seq<ListItem>)
    requires start <= i < |lines|
    requires forall k | start <= k <= i :: IsNumbered(Trim(lines[k]))
    requires |items| == i - start
    requires forall k | 0 <= k < |items| :: items[k] == NumberedItem(lines[start + k])
    ensures forall k | 0 <= k < |items| + 1 :: (items + [NumberedItem(lines[i])])[k] == NumberedItem(lines[start + k])
  {
  }

  // ---------------------------------------------------------------------
  // Records and field updates
  // ---------------------------------------------------------------------

  /** A portfolio project as the page holds it. Optional fields are `None`
      when absent; `body` is `None` when there is no rich-text root with
      children. */
  datatype Project = Project(
    id: string, filename: string, title: string, client: string, category: string,
    tags: seq<string>, excerpt: string, image: Option<string>, link: Option<string>,
    seoTitle: Option<string>, seoDescription: Option<string>, body: Option<seq<Node>>)

  /** A blog article as the page holds it. */
  datatype Article = Article(
    id: string, filename: string, title: string, excerpt: string, category: string,
    date: string, readTime: int, author: string, image: Option<string>,
    seoTitle: Option<string>, seoDescription: Option<string>, body: Option<seq<Node>>)

  /** The value of one field, whatever its type. */
  datatype FieldValue =
    | Str(s: string)
    | OptStr(o: Option<string>)
    | StrList(l: seq<string>)
    | Int(n: int)
    | Rich(b: Option<seq<Node>>)

  datatype ProjectField =
    PId | PFilename | PTitle | PClient | PCategory | PTags | PExcerpt | PImage | PLink | PSeoTitle | PSeoDescription | PBody

  datatype ArticleField =
    AId | AFilename | ATitle | AExcerpt | ACategory | ADate | AReadTime | AAuthor | AImage | ASeoTitle | ASeoDescription | ABody

  function ProjectValue(p: Project, f: ProjectField): FieldValue {
    match f
    case PId => Str(p.id)
    case PFilename => Str(p.filename)
    case PTitle => Str(p.title)
    case PClient => Str(p.client)
    case PCategory => Str(p.category)
    case PTags => StrList(p.tags)
    case PExcerpt => Str(p.excerpt)
    case PImage => OptStr(p.image)
    case PLink => OptStr(p.link)
    case PSeoTitle => OptStr(p.seoTitle)
    case PSeoDescription => OptStr(p.seoDescription)
    case PBody => Rich(p.body)
  }

  function ArticleValue(a: Article, f: ArticleField): FieldValue {
    match f
    case AId => Str(a.id)
    case AFilename => Str(a.filename)
    case ATitle => Str(a.title)
    case AExcerpt => Str(a.excerpt)
    case ACategory => Str(a.category)
    case ADate => Str(a.date)
    case AReadTime => Int(a.readTime)
    case AAuthor => Str(a.author)
    case AImage => OptStr(a.image)
    case ASeoTitle => OptStr(a.seoTitle)
    case ASeoDescription => OptStr(a.seoDescription)
    case ABody => Rich(a.body)
  }

  /** The fields determine the record: the frame-style contracts below pin
      down the updated record completely. */
  lemma ProjectFieldsDetermine(p: Project, q: Project)
    requires forall f: ProjectField :: ProjectValue(p, f) == ProjectValue(q, f)
    ensures p == q
  {
    assert ProjectValue(p, PId) == ProjectValue(q, PId);
    assert ProjectValue(p, PFilename) == ProjectValue(q, PFilename);
    assert ProjectValue(p, PTitle) == ProjectValue(q, PTitle);
    assert ProjectValue(p, PClient) == ProjectValue(q, PClient);
    assert ProjectValue(p, PCategory) == ProjectValue(q, PCategory);
    assert ProjectValue(p, PTags) == ProjectValue(q, PTags);
    assert ProjectValue(p, PExcerpt) == ProjectValue(q, PExcerpt);
    assert ProjectValue(p, PImage) == ProjectValue(q, PImage);
    assert ProjectValue(p, PLink) == ProjectValue(q, PLink);
    assert ProjectValue(p, PSeoTitle) == ProjectValue(q, PSeoTitle);
    assert ProjectValue(p, PSeoDescription) == ProjectValue(q, PSeoDescription);
    assert ProjectValue(p, PBody) == ProjectValue(q, PBody);
  }

  lemma ArticleFieldsDetermine(a: Article, b: Article)
    requires forall f: ArticleField :: ArticleValue(a, f) == ArticleValue(b, f)
    ensures a == b
  {
    assert ArticleValue(a, AId) == ArticleValue(b, AId);
    assert ArticleValue(a, AFilename) == ArticleValue(b, AFilename);
    assert ArticleValue(a, ATitle) == ArticleValue(b, ATitle);
    assert ArticleValue(a, AExcerpt) == ArticleValue(b, AExcerpt);
    assert ArticleValue(a, ACategory) == ArticleValue(b, ACategory);
    assert ArticleValue(a, ADate) == ArticleValue(b, ADate);
    assert ArticleValue(a, AReadTime) == ArticleValue(b, AReadTime);
    assert ArticleValue(a, AAuthor) == ArticleValue(b, AAuthor);
    assert ArticleValue(a, AImage) == ArticleValue(b, AImage);
    assert ArticleValue(a, ASeoTitle) == ArticleValue(b, ASeoTitle);
    assert ArticleValue(a, ASeoDescription) == ArticleValue(b, ASeoDescription);
    assert ArticleValue(a, ABody) == ArticleValue(b, ABody);
  }

  /** The calls `updateProjectField(field, value)` the form makes. A text
      input always passes a string, so `image` and `link` become present. */
  datatype ProjectEdit =
    | ProjectTitle(title: string)
    | ProjectClient(client: string)
    | ProjectCategory(category: string)
    | ProjectTags(tags: seq<string>)
    | ProjectExcerpt(excerpt: string)
    | ProjectImage(image: string)
    | ProjectLink(link: string)
    | ProjectSeoTitle(seoTitle: string)
    | ProjectSeoDescription(seoDescription: string)

  /** The calls `updateArticleField(field, value)` the form makes. */
  datatype ArticleEdit =
    | ArticleTitle(title: string)
    | ArticleCategory(category: string)
    | ArticleAuthor(author: string)
    | ArticleDate(date: string)
    | ArticleReadTime(readTime: int)
    | ArticleExcerpt(excerpt: string)
    | ArticleImage(image: string)
    | ArticleSeoTitle(seoTitle: string)
    | ArticleSeoDescription(seoDescription: string)

  function ProjectEditField(e: ProjectEdit): ProjectField {
    match e
    case ProjectTitle(_) => PTitle
    case ProjectClient(_) => PClient
    case ProjectCategory(_) => PCategory
    case ProjectTags(_) => PTags
    case ProjectExcerpt(_) => PExcerpt
    case ProjectImage(_) => PImage
    case ProjectLink(_) => PLink
    case ProjectSeoTitle(_) => PSeoTitle
    case ProjectSeoDescription(_) => PSeoDescription
  }

  function ProjectEditValue(e: ProjectEdit): FieldValue {
    match e
    case ProjectTitle(v) => Str(v)
    case ProjectClient(v) => Str(v)
    case ProjectCategory(v) => Str(v)
    case ProjectTags(v) => StrList(v)
    case ProjectExcerpt(v) => Str(v)
    case ProjectImage(v) => OptStr(Some(v))
    case ProjectLink(v) => OptStr(Some(v))
    case ProjectSeoTitle(v) => OptStr(Some(v))
    case ProjectSeoDescription(v) => OptStr(Some(v))
  }

  function ArticleEditField(e: ArticleEdit): ArticleField {
    match e
    case ArticleTitle(_) => ATitle
    case ArticleCategory(_) => ACategory
    case ArticleAuthor(_) => AAuthor
    case ArticleDate(_) => ADate
    case ArticleReadTime(_) => AReadTime
    case ArticleExcerpt(_) => AExcerpt
    case ArticleImage(_) => AImage
    case ArticleSeoTitle(_) => ASeoTitle
    case ArticleSeoDescription(_) => ASeoDescription
  }

  function ArticleEditValue(e: ArticleEdit): FieldValue {
    match e
    case ArticleTitle(v) => Str(v)
    case ArticleCategory(v) => Str(v)
    case ArticleAuthor(v) => Str(v)
    case ArticleDate(v) => Str(v)
    case ArticleReadTime(v) => Int(v)
    case ArticleExcerpt(v) => Str(v)
    case ArticleImage(v) => OptStr(Some(v))
    case ArticleSeoTitle(v) => OptStr(Some(v))
    case ArticleSeoDescription(v) => OptStr(Some(v))
  }

  /** `{ ...editingProject, [field]: value }`, or nothing when no project
      is open. */
  function UpdateProject(p: Project, e: ProjectEdit): Project {
    match e
    case ProjectTitle(v) => p.(title := v)
    case ProjectClient(v) => p.(client := v)
    case ProjectCategory(v) => p.(category := v)
    case ProjectTags(v) => p.(tags := v)
    case ProjectExcerpt(v) => p.(excerpt := v)
    case ProjectImage(v) => p.(image := Some(v))
    case ProjectLink(v) => p.(link := Some(v))
    case ProjectSeoTitle(v) => p.(seoTitle := Some(v))
    case ProjectSeoDescription(v) => p.(seoDescription := Some(v))
  }

  function UpdateArticle(a: Article, e: ArticleEdit): Article {
    match e
    case ArticleTitle(v) => a.(title := v)
    case ArticleCategory(v) => a.(category := v)
    case ArticleAuthor(v) => a.(author := v)
    case ArticleDate(v) => a.(date := v)
    case ArticleReadTime(v) => a.(readTime := v)
    case ArticleExcerpt(v) => a.(excerpt := v)
    case ArticleImage(v) => a.(image := Some(v))
    case ArticleSeoTitle(v) => a.(seoTitle := Some(v))
    case ArticleSeoDescription(v) => a.(seoDescription := Some(v))
  }

  /** `updateProjectField`: the named field takes the new value, every
      other field keeps its value, and nothing happens when no project is
      open. */
  function UpdateProjectField(editing: Option<Project>, e: ProjectEdit): (r: Option<Project>)
    ensures editing.None? ==> r.None?
    ensures editing.Some? ==> r.Some? && forall f: ProjectField ::
      ProjectValue(r.value, f) == (if f == ProjectEditField(e) then ProjectEditValue(e) else ProjectValue(editing.value, f))
  {
    match editing
    case None => None
    case Some(p) => Some(UpdateProject(p, e))
  }

  /** `updateArticleField`, with the same frame. */
  function UpdateArticleField(editing: Option<Article>, e: ArticleEdit): (r: Option<Article>)
    ensures editing.None? ==> r.None?
    ensures editing.Some? ==> r.Some? && forall f: ArticleField ::
      ArticleValue(r.value, f) == (if f == ArticleEditField(e) then ArticleEditValue(e) else ArticleValue(editing.value, f))
  {
    match editing
    case None => None
    case Some(a) => Some(UpdateArticle(a, e))
  }

  /** Updating a field to the value it already has changes nothing. */
  lemma UpdateProjectIdempotent(p: Project, e: ProjectEdit)
    ensures UpdateProject(UpdateProject(p, e), e) == UpdateProject(p, e)
    ensures ProjectValue(p, ProjectEditField(e)) == ProjectEditValue(e) ==> UpdateProject(p, e) == p
  {
    var once := UpdateProjectField(Some(p), e);
    if ProjectValue(p, ProjectEditField(e)) == ProjectEditValue(e) {
      ProjectFieldsDetermine(once.value, p);
    }
  }

  // ---------------------------------------------------------------------
  // The tag text field
  // ---------------------------------------------------------------------

  /** The text shown in the tags input: `tags.join(', ')`. */
  function JoinTags(tags: seq<string>): string {
    JoinWith(tags, ", ")
  }

  /** What the tags input stores: `value.split(',').map(t => t.trim())`. */
  function SplitTags(text: string): (tags: seq<string>)
    ensures |tags| > 0
    ensures forall k | 0 <= k < |tags| :: Trimmed(tags[k]) && ',' !in tags[k]
  {
    var parts := Split(text, ',');
    var tags := seq(|parts|, k requires 0 <= k < |parts| => Trim(parts[k]));
    assert forall k | 0 <= k < |tags| :: ',' !in tags[k] by {
      forall k | 0 <= k < |tags| ensures ',' !in tags[k] {
        TrimKeepsOut(parts[k], ',');
      }
    }
    tags
  }

  function Spaced(parts: seq<string>): (r: seq<string>)
    ensures |r| == |parts|
  {
    seq(|parts|, k requires 0 <= k < |parts| => " " + parts[k])
  }

  lemma SplitCons(c: char, s: string, sep: char)
    requires c != sep
    ensures Split([c] + s, sep) == [[c] + Split(s, sep)[0]] + Split(s, sep)[1..]
  {
    assert ([c] + s)[1..] == s;
  }

  lemma SplitAfterComma(first: string, rest: string)
    requires ',' !in first
    ensures Split(first + ", " + rest, ',') == [first] + [" " + Split(rest, ',')[0]] + Split(rest, ',')[1..]
  {
    assert first + ", " + rest == first + [','] + ([' '] + rest);
    SplitPrefix(first, ',', [' '] + rest);
    SplitCons(' ', rest, ',');
  }

  lemma {:induction false} SplitJoinedTags(tags: seq<string>)
    requires |tags| > 0
    requires forall k | 0 <= k < |tags| :: ',' !in tags[k]
    ensures Split(JoinTags(tags), ',') == [tags[0]] + Spaced(tags[1..])
  {
    if |tags| == 1 {
      SplitNoSep(tags[0], ',');
      assert Spaced(tags[1..]) == [];
    } else {
      var rest := JoinTags(tags[1..]);
      SplitJoinedTags(tags[1..]);
      assert tags[1..][0] == tags[1] && tags[1..][1..] == tags[2..];
      assert Split(rest, ',') == [tags[1]] + Spaced(tags[2..]);
      assert JoinTags(tags) == tags[0] + ", " + rest;
      SplitAfterComma(tags[0], rest);
      assert Spaced(tags[1..]) == [" " + tags[1]] + Spaced(tags[2..]);
    }
  }

  lemma TrimAfterSpace(t: string)
    requires Trimmed(t)
    ensures Trim(" " + t) == t
  {
    assert (" " + t)[1..] == t;
    assert TrimStart(" " + t) == TrimStart(t);
    TrimOfTrimmed(t);
  }

  /** Editing the tags field without changing its text stores the same
      tags, provided every tag is trimmed and free of commas and there is
      at least one. */
  lemma TagsRoundTrip(tags: seq<string>)
    requires |tags| > 0
    requires forall k | 0 <= k < |tags| :: Trimmed(tags[k]) && ',' !in tags[k]
    ensures SplitTags(JoinTags(tags)) == tags
  {
    SplitJoinedTags(tags);
    var parts := Split(JoinTags(tags), ',');
    forall k | 0 <= k < |tags| ensures Trim(parts[k]) == tags[k] {
      if k == 0 {
        TrimOfTrimmed(tags[0]);
      } else {
        assert parts[k] == " " + tags[k];
        TrimAfterSpace(tags[k]);
      }
    }
  }

  /** An empty tag list is shown as an empty field, which is stored back as
      one empty tag. */
  lemma EmptyTagsField()
    ensures JoinTags([]) == ""
    ensures SplitTags("") == [""]
  {
    assert Trim("") == "";
  }

  // ---------------------------------------------------------------------
  // Editor state
  // ---------------------------------------------------------------------

  /** The page state that editing touches: the open record (at most one
      of the two) and the Markdown text in the editor. */
  datatype AdminState = AdminState(editingProject: Option<Project>, editingArticle: Option<Article>, markdown: string)

  predicate AtMostOneOpen(s: AdminState) {
    !(s.editingProject.Some? && s.editingArticle.Some?)
  }

  /** `id.split('/').pop()` with the `if (!filename) return` guard: the
      file to load, or nothing when the id is empty or ends with '/'. */
  function EditTarget(id: string): (r: Option<string>)
    ensures r.None? <==> (id == [] || id[|id| - 1] == '/')
    ensures r.Some? ==> r.value != [] && '/' !in r.value && |r.value| <= |id|
                        && id[|id| - |r.value|..] == r.value
                        && (|r.value| == |id| || id[|id| - |r.value| - 1] == '/')
  {
    var name := LastSegment(id);
    LastSegmentShape(id);
    if name == "" then None else Some(name)
  }

  /** The effect on `[editingProject, editingArticle]`: the editor text is
      reset to the open record's serialised body. */
  function SyncMarkdown(s: AdminState): (r: AdminState)
    ensures r.editingProject == s.editingProject && r.editingArticle == s.editingArticle
    ensures s.editingProject.Some? ==> r.markdown == BodyToMarkdown(s.editingProject.value.body)
    ensures s.editingProject.None? && s.editingArticle.Some? ==> r.markdown == BodyToMarkdown(s.editingArticle.value.body)
    ensures s.editingProject.None? && s.editingArticle.None? ==> r.markdown == s.markdown
  {
    if s.editingProject.Some? then s.(markdown := BodyToMarkdown(s.editingProject.value.body))
    else if s.editingArticle.Some? then s.(markdown := BodyToMarkdown(s.editingArticle.value.body))
    else s
  }

  /** `handleEditProject` once the query has returned project `p`. */
  function OpenProject(s: AdminState, p: Project): (r: AdminState)
    ensures AtMostOneOpen(r)
    ensures r.editingProject == Some(p) && r.markdown == BodyToMarkdown(p.body)
  {
    SyncMarkdown(AdminState(Some(p), None, s.markdown))
  }

  /** `handleEditArticle` once the query has returned article `a`. */
  function OpenArticle(s: AdminState, a: Article): (r: AdminState)
    ensures AtMostOneOpen(r)
    ensures r.editingArticle == Some(a) && r.markdown == BodyToMarkdown(a.body)
  {
    SyncMarkdown(AdminState(None, Some(a), s.markdown))
  }

  /** The editor's change event. */
  function SetMarkdown(s: AdminState, text: string): AdminState {
    s.(markdown := text)
  }

  /** A project field edit as the page performs it: the new record object
      re-runs the effect, which re-serialises the unchanged body and
      discards the Markdown typed since the record was opened. */
  function EditProjectAsWritten(s: AdminState, e: ProjectEdit): (r: AdminState)
    ensures r.editingProject == UpdateProjectField(s.editingProject, e)
    ensures r.editingArticle == s.editingArticle
    ensures s.editingProject.Some? ==> r.markdown == BodyToMarkdown(s.editingProject.value.body)
  {
    if s.editingProject.None? then s
    else SyncMarkdown(s.(editingProject := UpdateProjectField(s.editingProject, e)))
  }

  /** An article field edit as the page performs it: as for a project, the
      new record object re-runs the effect, and with no project open the
      editor text becomes the stored article body's Markdown again. */
  function EditArticleAsWritten(s: AdminState, e: ArticleEdit): (r: AdminState)
    ensures r.editingArticle == UpdateArticleField(s.editingArticle, e)
    ensures r.editingProject == s.editingProject
    ensures s.editingProject.None? && s.editingArticle.Some? ==>
              r.markdown == BodyToMarkdown(s.editingArticle.value.body)
  {
    if s.editingArticle.None? then s
    else SyncMarkdown(s.(editingArticle := UpdateArticleField(s.editingArticle, e)))
  }

  /** A project field edit that leaves the editor text alone, as intended:
      the Markdown is re-derived only when a different record is opened. */
  function EditProject(s: AdminState, e: ProjectEdit): (r: AdminState)
    ensures r.editingProject == UpdateProjectField(s.editingProject, e)
    ensures r.editingArticle == s.editingArticle && r.markdown == s.markdown
    ensures AtMostOneOpen(s) ==> AtMostOneOpen(r)
  {
    s.(editingProject := UpdateProjectField(s.editingProject, e))
  }

  function EditArticle(s: AdminState, e: ArticleEdit): (r: AdminState)
    ensures r.editingArticle == UpdateArticleField(s.editingArticle, e)
    ensures r.editingProject == s.editingProject && r.markdown == s.markdown
    ensures AtMostOneOpen(s) ==> AtMostOneOpen(r)
  {
    s.(editingArticle := UpdateArticleField(s.editingArticle, e))
  }

  // ---------------------------------------------------------------------
  // Save
  // ---------------------------------------------------------------------

  /** The timer two seconds after a successful save closes both editors;
      the effect then runs with nothing open and leaves the editor text. */
  function CloseAfterSave(s: AdminState): (r: AdminState)
    ensures r.editingProject.None? && r.editingArticle.None? && r.markdown == s.markdown
    ensures HandleSave(r).None?
  {
    SyncMarkdown(s.(editingProject := None, editingArticle := None))
  }

  datatype ProjectParams = ProjectParams(
    title: string, client: string, category: string, tags: seq<string>, excerpt: string,
    image: string, link: string, seoTitle: string, seoDescription: string, body: seq<Node>)

  datatype ArticleParams = ArticleParams(
    title: string, excerpt: string, category: string, date: string, readTime: int, author: string,
    image: string, seoTitle: string, seoDescription: string, body: seq<Node>)

  /** The GraphQL mutation a save posts. */
  datatype SaveRequest =
    | UpdatePortfolio(relativePath: string, project: ProjectParams)
    | UpdateBlog(relativePath: string, article: ArticleParams)

  /** `x || ''` on an optional string. */
  function OrEmpty(o: Option<string>): (r: string)
    ensures o.Some? ==> r == o.value
    ensures o.None? ==> r == ""
  {
    if o.Some? then o.value else ""
  }

  function SavedBody(r: SaveRequest): seq<Node> {
    match r
    case UpdatePortfolio(_, p) => p.body
    case UpdateBlog(_, a) => a.body
  }

  /** `handleSave`: nothing is sent when no record is open; otherwise the
      open record's fields are sent with the parsed editor text as body. */
  function HandleSave(s: AdminState): (r: Option<SaveRequest>)
    ensures r.None? <==> s.editingProject.None? && s.editingArticle.None?
    ensures r.Some? ==> SavedBody(r.value) == MarkdownToBody(s.markdown)
    ensures s.editingProject.Some? ==> r.Some? && r.value.UpdatePortfolio? && r.value.relativePath == s.editingProject.value.filename
    ensures s.editingProject.None? && s.editingArticle.Some? ==>
              r.Some? && r.value.UpdateBlog? && r.value.relativePath == s.editingArticle.value.filename
  {
    if s.editingProject.Some? then
      var p := s.editingProject.value;
      Some(UpdatePortfolio(p.filename, ProjectParams(
        p.title, p.client, p.category, p.tags, p.excerpt,
        OrEmpty(p.image), OrEmpty(p.link), OrEmpty(p.seoTitle), OrEmpty(p.seoDescription),
        MarkdownToBody(s.markdown))))
    else if s.editingArticle.Some? then
      var a := s.editingArticle.value;
      Some(UpdateBlog(a.filename, ArticleParams(
        a.title, a.excerpt, a.category, a.date, a.readTime, a.author,
        OrEmpty(a.image), OrEmpty(a.seoTitle), OrEmpty(a.seoDescription),
        MarkdownToBody(s.markdown))))
    else None
  }

  /** Opening a project with a well-formed body and saving it at once sends
      that body back unchanged, together with the project's own fields. */
  lemma OpenThenSaveProject(s: AdminState, p: Project)
    requires p.body.Some? && WellFormed(p.body.value)
    ensures HandleSave(OpenProject(s, p)) == Some(UpdatePortfolio(p.filename, ProjectParams(
              p.title, p.client, p.category, p.tags, p.excerpt,
              OrEmpty(p.image), OrEmpty(p.link), OrEmpty(p.seoTitle), OrEmpty(p.seoDescription),
              p.body.value)))
  {
    RoundTrip(p.body.value);
  }

  lemma OpenThenSaveArticle(s: AdminState, a: Article)
    requires a.body.Some? && WellFormed(a.body.value)
    ensures HandleSave(OpenArticle(s, a)) == Some(UpdateBlog(a.filename, ArticleParams(
              a.title, a.excerpt, a.category, a.date, a.readTime, a.author,
              OrEmpty(a.image), OrEmpty(a.seoTitle), OrEmpty(a.seoDescription),
              a.body.value)))
  {
    RoundTrip(a.body.value);
  }

  /** With the intended field update, Markdown typed into the editor is
      what a later save sends, whatever fields are edited in between. */
  lemma EditKeepsDraft(s: AdminState, text: string, e: ProjectEdit)
    requires s.editingProject.Some?
    ensures var r := HandleSave(EditProject(SetMarkdown(s, text), e));
            r.Some? && SavedBody(r.value) == MarkdownToBody(text)
  {
  }

  /** As written, a field edit makes a later save send the open record's
      stored body again, whatever Markdown was typed before the edit. */
  lemma EditResetsDraft(s: AdminState, text: string, e: ProjectEdit)
    requires s.editingProject.Some?
    ensures var r := HandleSave(EditProjectAsWritten(SetMarkdown(s, text), e));
            r.Some? && SavedBody(r.value) == MarkdownToBody(BodyToMarkdown(s.editingProject.value.body))
  {
  }

  /** A text with a level-1 heading marker alone parses as that heading. */
  lemma HeadingAlone(t: string)
    requires GoodText(t)
    ensures MarkdownToBody("# " + t) == [H1([Leaf(t)])]
  {
    var line := "# " + t;
    assert '\n' !in line;
    SplitNoSep(line, '\n');
    StepH1(t, []);
    assert [line] + [] == [line];
    ParseFront(line, []);
  }

  lemma ParseDraftHeading()
    ensures MarkdownToBody("# Draft") == [H1([Leaf("Draft")])]
  {
    assert GoodText("Draft");
    HeadingAlone("Draft");
    assert "# " + "Draft" == "# Draft";
  }

  lemma ParseNothing()
    ensures MarkdownToBody("") == []
  {
    assert Split("", '\n') == [""];
    BlankLine([]);
    assert [""] + [] == [""];
  }

  /** As written, typing a heading into the editor of a project without a
      body and then editing the title makes a save send an empty body: the
      typed heading is lost. */
  lemma EditDiscardsDraft(s: AdminState, p: Project)
    requires p.body.None?
    ensures var d := SetMarkdown(OpenProject(s, p), "# Draft");
            MarkdownToBody(d.markdown) == [H1([Leaf("Draft")])]
            && HandleSave(EditProjectAsWritten(d, ProjectTitle("B"))).Some?
            && SavedBody(HandleSave(EditProjectAsWritten(d, ProjectTitle("B"))).value) == []
  {
    ParseDraftHeading();
    ParseNothing();
    EditResetsDraft(OpenProject(s, p), "# Draft", ProjectTitle("B"));
  }
}
