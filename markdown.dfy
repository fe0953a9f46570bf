/** The Markdown block codec of the admin editor (src/pages/FullAdmin.tsx
    `convertBodyToMarkdown` and `convertMarkdownToBody`).

    A rich-text body is a root whose children are block nodes. Headings and
    paragraphs hold text leaves; lists hold items (`li`), each holding
    `lic` nodes that hold text leaves. The serialiser renders a body as
    Markdown text; the parser reads Markdown line by line back into blocks.
    The parser's `while` loop is `FullAdmin.ConvertMarkdownToBody`; this
    module gives the function it is proved against and the properties of
    the pair. */
module Markdown {
  import opened Text
  import opened Wrappers

  datatype Leaf = Leaf(text: string)
  datatype Lic = Lic(children: seq<Leaf>)
  datatype ListItem = ListItem(children: seq<Lic>)

  /** A block node. `Unknown` is any node whose type is none of the six. */
  datatype Node =
    | H1(children: seq<Leaf>)
    | H2(children: seq<Leaf>)
    | H3(children: seq<Leaf>)
    | P(children: seq<Leaf>)
    | Ul(items: seq<ListItem>)
    | Ol(items: seq<ListItem>)
    | Unknown(kind: string)

  // ---------------------------------------------------------------------
  // Serialiser
  // ---------------------------------------------------------------------

  /** `children.map(child => child.text).join('')`. */
  function Texts(leaves: seq<Leaf>): string {
    if leaves == [] then "" else leaves[0].text + Texts(leaves[1..])
  }

  /** The text of a list item: the texts of all its `lic` children. */
  function LicTexts(lics: seq<Lic>): string {
    if lics == [] then "" else Texts(lics[0].children) + LicTexts(lics[1..])
  }

  function ItemText(item: ListItem): string {
    LicTexts(item.children)
  }

  /** Bullet items, each as "- text\n". */
  function RenderBullets(items: seq<ListItem>): string {
    if items == [] then "" else "- " + ItemText(items[0]) + "\n" + RenderBullets(items[1..])
  }

  /** Numbered items, the first numbered `k`, each as "k. text\n". */
  function RenderNumbered(items: seq<ListItem>, k: nat): string {
    if items == [] then ""
    else NatToString(k) + ". " + ItemText(items[0]) + "\n" + RenderNumbered(items[1..], k + 1)
  }

  function RenderNode(node: Node): string {
    match node
    case H1(c) => "# " + Texts(c) + "\n\n"
    case H2(c) => "## " + Texts(c) + "\n\n"
    case H3(c) => "### " + Texts(c) + "\n\n"
    case P(c) => Texts(c) + "\n\n"
    case Ul(items) => RenderBullets(items) + "\n"
    case Ol(items) => RenderNumbered(items, 1) + "\n"
    case Unknown(_) => ""
  }

  function RenderNodes(nodes: seq<Node>): string {
    if nodes == [] then "" else RenderNode(nodes[0]) + RenderNodes(nodes[1..])
  }

  /** `convertBodyToMarkdown`. `None` stands for a missing body or a body
      without a `children` array. */
  function BodyToMarkdown(body: Option<seq<Node>>): (md: string)
    ensures body.None? ==> md == ""
  {
    match body
    case None => ""
    case Some(nodes) => RenderNodes(nodes)
  }

  // ---------------------------------------------------------------------
  // Parser
  // ---------------------------------------------------------------------

  /** A trimmed line that opens a bullet list: it starts with "- " or
      "* " (see `IsBulletStartsWith`). */
  predicate IsBullet(line: string) {
    |line| >= 2 && (line[0] == '-' || line[0] == '*') && line[1] == ' '
  }

  lemma IsBulletStartsWith(line: string)
    ensures IsBullet(line) <==> StartsWith(line, "- ") || StartsWith(line, "* ")
  {
    if StartsWith(line, "- ") {
      assert line[0] == '-' && line[1] == ' ';
    }
    if StartsWith(line, "* ") {
      assert line[0] == '*' && line[1] == ' ';
    }
  }

  /** A trimmed line matching `^\d+\.\s`. */
  predicate IsNumbered(line: string) {
    var d := LeadingDigits(line);
    d > 0 && d + 1 < |line| && line[d] == '.' && IsSpace(line[d + 1])
  }

  /** `line.replace(/^\d+\.\s/, '')`. */
  function NumberedText(line: string): string
    requires IsNumbered(line)
  {
    line[LeadingDigits(line) + 2..]
  }

  /** The node shape the parser gives every list item. */
  function Item(text: string): ListItem {
    ListItem([Lic([Leaf(text)])])
  }

  /** Number of leading lines that are bullet lines once trimmed. */
  function BulletRun(lines: seq<string>): (n: nat)
    ensures n <= |lines|
    ensures forall k | 0 <= k < n :: IsBullet(Trim(lines[k]))
    ensures n < |lines| ==> !IsBullet(Trim(lines[n]))
  {
    if lines != [] && IsBullet(Trim(lines[0])) then 1 + BulletRun(lines[1..]) else 0
  }

  /** Number of leading lines that are numbered lines once trimmed. */
  function NumberedRun(lines: seq<string>): (n: nat)
    ensures n <= |lines|
    ensures forall k | 0 <= k < n :: IsNumbered(Trim(lines[k]))
    ensures n < |lines| ==> !IsNumbered(Trim(lines[n]))
  {
    if lines != [] && IsNumbered(Trim(lines[0])) then 1 + NumberedRun(lines[1..]) else 0
  }

  /** The item of one bullet line: the trimmed line without its marker. */
  function BulletItem(line: string): ListItem
    requires IsBullet(Trim(line))
  {
    Item(Trim(line)[2..])
  }

  function NumberedItem(line: string): ListItem
    requires IsNumbered(Trim(line))
  {
    Item(NumberedText(Trim(line)))
  }

  function BulletItems(lines: seq<string>): (items: seq<ListItem>)
    requires forall k | 0 <= k < |lines| :: IsBullet(Trim(lines[k]))
    ensures |items| == |lines|
  {
    seq(|lines|, k requires 0 <= k < |lines| => BulletItem(lines[k]))
  }

  function NumberedItems(lines: seq<string>): (items: seq<ListItem>)
    requires forall k | 0 <= k < |lines| :: IsNumbered(Trim(lines[k]))
    ensures |items| == |lines|
  {
    seq(|lines|, k requires 0 <= k < |lines| => NumberedItem(lines[k]))
  }

  /** One step of the parse: the node produced by the lines at the front
      (none for a blank line) and the number of lines it consumes. */
  datatype Step = Step(node: Option<Node>, used: nat)

  /** One turn of the outer `while` loop of `convertMarkdownToBody`. Heading
      markers are tried longest first; a bullet or numbered line takes the
      whole run of such lines that starts there. */
  function ParseStep(lines: seq<string>): (s: Step)
    requires lines != []
    ensures 1 <= s.used <= |lines|
  {
    var line := Trim(lines[0]);
    if line == "" then Step(None, 1)
    else if StartsWith(line, "### ") then Step(Some(H3([Leaf(line[4..])])), 1)
    else if StartsWith(line, "## ") then Step(Some(H2([Leaf(line[3..])])), 1)
    else if StartsWith(line, "# ") then Step(Some(H1([Leaf(line[2..])])), 1)
    else if IsBullet(line) then
      var n := BulletRun(lines);
      Step(Some(Ul(BulletItems(lines[..n]))), n)
    else if IsNumbered(line) then
      var n := NumberedRun(lines);
      Step(Some(Ol(NumberedItems(lines[..n]))), n)
    else Step(Some(P([Leaf(line)])), 1)
  }

  function Emit(node: Option<Node>): seq<Node> {
    if node.Some? then [node.value] else []
  }

  /** The parser over a sequence of lines: the specification of the
      `while` loop in `convertMarkdownToBody`. */
  function ParseLines(lines: seq<string>): seq<Node>
    decreases |lines|
  {
    if lines == [] then []
    else
      var s := ParseStep(lines);
      Emit(s.node) + ParseLines(lines[s.used..])
  }

  /** `convertMarkdownToBody`: the children of the root it returns. */
  function MarkdownToBody(markdown: string): seq<Node> {
    ParseLines(Split(markdown, '\n'))
  }

  // ---------------------------------------------------------------------
  // What the parser produces
  // ---------------------------------------------------------------------

  /** The only shapes the parser builds: a heading or paragraph holds one
      text leaf, a list holds at least one item, each item one `lic` with
      one text leaf, and no node is of an unknown type. */
  predicate ParsedShape(node: Node) {
    match node
    case H1(c) => |c| == 1
    case H2(c) => |c| == 1
    case H3(c) => |c| == 1
    case P(c) => |c| == 1 && c[0].text != ""
    case Ul(items) => |items| > 0 && forall k | 0 <= k < |items| :: items[k] == Item(ItemLeafText(items[k]))
    case Ol(items) => |items| > 0 && forall k | 0 <= k < |items| :: items[k] == Item(ItemLeafText(items[k]))
    case Unknown(_) => false
  }

  /** The text of the first leaf of the first `lic` of an item, if any. */
  function ItemLeafText(item: ListItem): string {
    if item.children != [] && item.children[0].children != [] then item.children[0].children[0].text else ""
  }

  /** Number of lines that are not blank once trimmed. */
  function NonBlank(lines: seq<string>): nat {
    if lines == [] then 0 else (if Trim(lines[0]) == "" then 0 else 1) + NonBlank(lines[1..])
  }

  lemma {:induction false} NonBlankPrefix(lines: seq<string>, n: nat)
    requires n <= |lines|
    requires forall k | 0 <= k < n :: Trim(lines[k]) != ""
    ensures NonBlank(lines) == n + NonBlank(lines[n..])
  {
    if n > 0 {
      NonBlankPrefix(lines[1..], n - 1);
      assert lines[1..][n - 1..] == lines[n..];
    }
  }

  lemma BulletStepShape(lines: seq<string>)
    requires lines != [] && IsBullet(Trim(lines[0]))
    ensures var n := BulletRun(lines);
            ParsedShape(Ul(BulletItems(lines[..n]))) && 1 + NonBlank(lines[n..]) <= NonBlank(lines)
  {
    var n := BulletRun(lines);
    NonBlankPrefix(lines, n);
    var items := BulletItems(lines[..n]);
    assert forall k | 0 <= k < |items| :: items[k] == BulletItem(lines[k]);
  }

  lemma NumberedStepCount(lines: seq<string>)
    requires lines != [] && IsNumbered(Trim(lines[0]))
    ensures 1 + NonBlank(lines[NumberedRun(lines)..]) <= NonBlank(lines)
  {
    var n := NumberedRun(lines);
    forall k | 0 <= k < n ensures Trim(lines[k]) != "" {
      assert IsNumbered(Trim(lines[k]));
    }
    NonBlankPrefix(lines, n);
  }

  lemma NumberedStepShape(lines: seq<string>)
    requires lines != [] && IsNumbered(Trim(lines[0]))
    ensures ParsedShape(Ol(NumberedItems(lines[..NumberedRun(lines)])))
  {
    var n := NumberedRun(lines);
    var items := NumberedItems(lines[..n]);
    forall k | 0 <= k < |items| ensures items[k] == Item(ItemLeafText(items[k])) {
      assert items[k] == NumberedItem(lines[k]);
    }
  }

  lemma StepShape(lines: seq<string>)
    requires lines != []
    ensures var s := ParseStep(lines);
            (s.node.Some? ==> ParsedShape(s.node.value))
            && |Emit(s.node)| + NonBlank(lines[s.used..]) <= NonBlank(lines)
  {
    var line := Trim(lines[0]);
    if line != "" && !StartsWith(line, "### ") && !StartsWith(line, "## ") && !StartsWith(line, "# ") {
      if IsBullet(line) {
        BulletStepShape(lines);
      } else if IsNumbered(line) {
        NumberedStepShape(lines);
        NumberedStepCount(lines);
      }
    }
  }

  /** Every node the parser returns is one of the six block kinds in the
      shape above, and there are at most as many nodes as non-blank lines. */
  lemma {:induction false} ParseShape(lines: seq<string>)
    ensures forall k | 0 <= k < |ParseLines(lines)| :: ParsedShape(ParseLines(lines)[k])
    ensures |ParseLines(lines)| <= NonBlank(lines)
  {
    if lines != [] {
      var s := ParseStep(lines);
      StepShape(lines);
      ParseShape(lines[s.used..]);
    }
  }

  /** A parse step that consumes one line. */
  lemma ParseFront(line: string, rest: seq<string>)
    requires ParseStep([line] + rest).used == 1
    ensures ParseLines([line] + rest) == Emit(ParseStep([line] + rest).node) + ParseLines(rest)
  {
    assert ([line] + rest)[1..] == rest;
  }

  /** A parse step that consumes a whole run of lines. */
  lemma ParseRun(run: seq<string>, rest: seq<string>)
    requires run != [] && ParseStep(run + rest).used == |run|
    ensures ParseLines(run + rest) == Emit(ParseStep(run + rest).node) + ParseLines(rest)
  {
    assert (run + rest)[|run|..] == rest;
  }

  /** Lines that are blank or white space only produce no node. */
  lemma BlankLineSkipped(line: string, rest: seq<string>)
    requires forall k | 0 <= k < |line| :: IsSpace(line[k])
    ensures ParseLines([line] + rest) == ParseLines(rest)
  {
    TrimEmpty(line);
    ParseFront(line, rest);
  }

  /** A line that opens with a block marker. */
  predicate StartsWithMarker(t: string) {
    StartsWith(t, "### ") || StartsWith(t, "## ") || StartsWith(t, "# ") || IsBullet(t) || IsNumbered(t)
  }

  /** Heading markers are tried longest first, so a line opening "### "
      is a level-3 heading and not a level-2 one; a non-blank line with no
      marker becomes one paragraph of its trimmed text. */
  lemma LineClassification(line: string, rest: seq<string>)
    ensures var t := Trim(line);
            StartsWith(t, "### ") ==> ParseLines([line] + rest) == [H3([Leaf(t[4..])])] + ParseLines(rest)
    ensures var t := Trim(line);
            StartsWith(t, "## ") && !StartsWith(t, "### ") ==> ParseLines([line] + rest) == [H2([Leaf(t[3..])])] + ParseLines(rest)
    ensures var t := Trim(line);
            StartsWith(t, "# ") ==> ParseLines([line] + rest) == [H1([Leaf(t[2..])])] + ParseLines(rest)
    ensures var t := Trim(line);
            t != "" && !StartsWithMarker(t) ==> ParseLines([line] + rest) == [P([Leaf(t)])] + ParseLines(rest)
  {
    var t := Trim(line);
    assert ([line] + rest)[1..] == rest;
    if StartsWith(t, "# ") {
      assert t[1] == ' ';
    }
  }

  lemma {:induction false} BulletRunExact(lines: seq<string>, n: nat)
    requires n <= |lines|
    requires forall k | 0 <= k < n :: IsBullet(Trim(lines[k]))
    requires n < |lines| ==> !IsBullet(Trim(lines[n]))
    ensures BulletRun(lines) == n
  {
    if n > 0 {
      BulletRunExact(lines[1..], n - 1);
    }
  }

  lemma {:induction false} NumberedRunExact(lines: seq<string>, n: nat)
    requires n <= |lines|
    requires forall k | 0 <= k < n :: IsNumbered(Trim(lines[k]))
    requires n < |lines| ==> !IsNumbered(Trim(lines[n]))
    ensures NumberedRun(lines) == n
  {
    if n > 0 {
      NumberedRunExact(lines[1..], n - 1);
    }
  }

  /** One step of the parse, unfolded. */
  lemma ParseFirst(tail: seq<string>, node: Option<Node>, used: nat)
    requires tail != [] && ParseStep(tail) == Step(node, used)
    ensures used <= |tail| && ParseLines(tail) == Emit(node) + ParseLines(tail[used..])
  {
  }

  /** One turn of the outer loop: when the nodes gathered so far followed
      by the parse of the lines from `i` on give the parse of all lines,
      so do the nodes with this step's node added followed by the parse of
      the lines after the step. */
  lemma PushAt(children: seq<Node>, lines: seq<string>, i: nat, node: Node, next: nat, whole: seq<Node>)
    requires i < next <= |lines|
    requires ParseStep(lines[i..]) == Step(Some(node), next - i)
    requires children + ParseLines(lines[i..]) == whole
    ensures (children + [node]) + ParseLines(lines[next..]) == whole
  {
    ParseFirst(lines[i..], Some(node), next - i);
    assert lines[i..][next - i..] == lines[next..];
    ConcatAssoc(children, [node], ParseLines(lines[next..]));
  }

  /** A blank line adds no node. */
  lemma SkipAt(children: seq<Node>, lines: seq<string>, i: nat, whole: seq<Node>)
    requires i < |lines|
    requires ParseStep(lines[i..]) == Step(None, 1)
    requires children + ParseLines(lines[i..]) == whole
    ensures children + ParseLines(lines[i + 1..]) == whole
  {
    ParseFirst(lines[i..], None, 1);
    assert lines[i..][1..] == lines[i + 1..];
  }

  /** The step taken at line `i` for each single-line kind, read off the
      trimmed line. */
  lemma StepOfLine(lines: seq<string>, i: nat)
    requires i < |lines|
    ensures var t := Trim(lines[i]);
            t == "" ==> ParseStep(lines[i..]) == Step(None, 1)
    ensures var t := Trim(lines[i]);
            t != "" && StartsWith(t, "### ") ==> ParseStep(lines[i..]) == Step(Some(H3([Leaf(t[4..])])), 1)
    ensures var t := Trim(lines[i]);
            t != "" && !StartsWith(t, "### ") && StartsWith(t, "## ") ==> ParseStep(lines[i..]) == Step(Some(H2([Leaf(t[3..])])), 1)
    ensures var t := Trim(lines[i]);
            t != "" && !StartsWith(t, "### ") && !StartsWith(t, "## ") && StartsWith(t, "# ") ==> ParseStep(lines[i..]) == Step(Some(H1([Leaf(t[2..])])), 1)
    ensures var t := Trim(lines[i]);
            t != "" && !StartsWithMarker(t) ==> ParseStep(lines[i..]) == Step(Some(P([Leaf(t)])), 1)
  {
    assert lines[i..][0] == lines[i];
  }

  /** The bullet items the inner loop gathers from `start` up to the first
      line `i` that is not a bullet line are the parser's step at `start`. */
  lemma BulletCollected(lines: seq<string>, start: nat, i: nat, items: seq<ListItem>)
    requires start < i <= |lines|
    requires forall k | start <= k < i :: IsBullet(Trim(lines[k]))
    requires i < |lines| ==> !IsBullet(Trim(lines[i]))
    requires |items| == i - start
    requires forall k | 0 <= k < |items| :: items[k] == BulletItem(lines[start + k])
    ensures i == start + BulletRun(lines[start..])
    ensures items == BulletItems(lines[start..i])
    ensures ParseStep(lines[start..]) == Step(Some(Ul(items)), i - start)
  {
    BulletRunAt(lines, start, i);
    assert items == BulletItems(lines[start..i]);
    assert lines[start..][0] == lines[start];
    BulletNotHeading(Trim(lines[start]));
  }

  lemma NumberedCollected(lines: seq<string>, start: nat, i: nat, items: seq<ListItem>)
    requires start < i <= |lines|
    requires forall k | start <= k < i :: IsNumbered(Trim(lines[k]))
    requires i < |lines| ==> !IsNumbered(Trim(lines[i]))
    requires |items| == i - start
    requires forall k | 0 <= k < |items| :: items[k] == NumberedItem(lines[start + k])
    ensures i == start + NumberedRun(lines[start..])
    ensures items == NumberedItems(lines[start..i])
    ensures ParseStep(lines[start..]) == Step(Some(Ol(items)), i - start)
  {
    NumberedRunAt(lines, start, i);
    assert items == NumberedItems(lines[start..i]);
    assert lines[start..][0] == lines[start];
    NumberedNotOther(Trim(lines[start]));
  }

  /** When the inner loop over bullet lines stops at `i`, it has consumed
      exactly the run that starts at `start`. */
  lemma BulletRunAt(lines: seq<string>, start: nat, i: nat)
    requires start <= i <= |lines|
    requires forall k | start <= k < i :: IsBullet(Trim(lines[k]))
    requires i < |lines| ==> !IsBullet(Trim(lines[i]))
    ensures BulletRun(lines[start..]) == i - start
    ensures lines[start..][..i - start] == lines[start..i]
  {
    BulletRunExact(lines[start..], i - start);
  }

  lemma NumberedRunAt(lines: seq<string>, start: nat, i: nat)
    requires start <= i <= |lines|
    requires forall k | start <= k < i :: IsNumbered(Trim(lines[k]))
    requires i < |lines| ==> !IsNumbered(Trim(lines[i]))
    ensures NumberedRun(lines[start..]) == i - start
    ensures lines[start..][..i - start] == lines[start..i]
  {
    NumberedRunExact(lines[start..], i - start);
  }

  lemma BulletNotHeading(t: string)
    requires IsBullet(t)
    ensures !StartsWith(t, "### ") && !StartsWith(t, "## ") && !StartsWith(t, "# ")
  {
    assert t[0] == '-' || t[0] == '*';
  }

  lemma NumberedNotOther(t: string)
    requires IsNumbered(t)
    ensures !StartsWith(t, "### ") && !StartsWith(t, "## ") && !StartsWith(t, "# ") && !IsBullet(t)
  {
    assert IsDigit(t[0]);
  }

  /** A maximal run of bullet lines ('- ' or '* ') becomes exactly one
      bullet list whose items are the lines without their markers. */
  lemma BulletRunIsOneList(run: seq<string>, rest: seq<string>)
    requires |run| > 0
    requires forall k | 0 <= k < |run| :: IsBullet(Trim(run[k]))
    requires rest == [] || !IsBullet(Trim(rest[0]))
    ensures ParseLines(run + rest) == [Ul(BulletItems(run))] + ParseLines(rest)
  {
    var lines := run + rest;
    BulletRunExact(lines, |run|);
    assert lines[..|run|] == run;
    BulletNotHeading(Trim(run[0]));
    ParseRun(run, rest);
  }

  /** A maximal run of numbered lines becomes exactly one ordered list. */
  lemma NumberedRunIsOneList(run: seq<string>, rest: seq<string>)
    requires |run| > 0
    requires forall k | 0 <= k < |run| :: IsNumbered(Trim(run[k]))
    requires rest == [] || !IsNumbered(Trim(rest[0]))
    ensures ParseLines(run + rest) == [Ol(NumberedItems(run))] + ParseLines(rest)
  {
    var lines := run + rest;
    NumberedRunExact(lines, |run|);
    assert lines[..|run|] == run;
    NumberedNotOther(Trim(run[0]));
    ParseRun(run, rest);
  }

  // ---------------------------------------------------------------------
  // Round trip
  // ---------------------------------------------------------------------

  /** A text that survives being written on a line and read back: non-empty,
      without white space at either end and without a newline. */
  predicate GoodText(t: string) {
    t != "" && Trimmed(t) && '\n' !in t
  }

  predicate OneText(leaves: seq<Leaf>) {
    |leaves| == 1 && GoodText(leaves[0].text)
  }

  predicate GoodItem(item: ListItem) {
    |item.children| == 1 && OneText(item.children[0].children)
  }

  /** A well-formed block: one good text per heading, paragraph or item, a
      paragraph not opening with a block marker, lists not empty. */
  predicate WellFormedNode(node: Node) {
    match node
    case H1(c) => OneText(c)
    case H2(c) => OneText(c)
    case H3(c) => OneText(c)
    case P(c) => OneText(c) && !StartsWithMarker(c[0].text)
    case Ul(items) => |items| > 0 && forall k | 0 <= k < |items| :: GoodItem(items[k])
    case Ol(items) => |items| > 0 && forall k | 0 <= k < |items| :: GoodItem(items[k])
    case Unknown(_) => false
  }

  predicate WellFormed(nodes: seq<Node>) {
    forall k | 0 <= k < |nodes| :: WellFormedNode(nodes[k])
  }

  /** The lines of a rendered list. */
  function BulletLines(items: seq<ListItem>): (lines: seq<string>)
    ensures |lines| == |items|
  {
    seq(|items|, k requires 0 <= k < |items| => "- " + ItemText(items[k]))
  }

  function NumberedLines(items: seq<ListItem>, first: nat): (lines: seq<string>)
    ensures |lines| == |items|
  {
    seq(|items|, k requires 0 <= k < |items| => NatToString(first + k) + ". " + ItemText(items[k]))
  }

  /** The lines a node renders to, each followed by a newline. */
  function NodeLines(node: Node): seq<string> {
    match node
    case H1(c) => ["# " + Texts(c), ""]
    case H2(c) => ["## " + Texts(c), ""]
    case H3(c) => ["### " + Texts(c), ""]
    case P(c) => [Texts(c), ""]
    case Ul(items) => BulletLines(items) + [""]
    case Ol(items) => NumberedLines(items, 1) + [""]
    case Unknown(_) => []
  }

  function AllLines(nodes: seq<Node>): seq<string> {
    if nodes == [] then [] else NodeLines(nodes[0]) + AllLines(nodes[1..])
  }

  lemma {:induction false} TerminatedAppend(a: seq<string>, b: seq<string>)
    ensures Terminated(a + b) == Terminated(a) + Terminated(b)
  {
    if a == [] {
      assert a + b == b;
    } else {
      TerminatedAppend(a[1..], b);
      assert (a + b)[1..] == a[1..] + b;
      ConcatAssoc(a[0] + "\n", Terminated(a[1..]), Terminated(b));
    }
  }

  lemma TerminatedPair(x: string)
    ensures Terminated([x, ""]) == x + "\n\n"
  {
    assert [x, ""][1..] == [""];
    assert [""][1..] == [];
  }

  lemma {:induction false} RenderBulletsLines(items: seq<ListItem>)
    ensures RenderBullets(items) == Terminated(BulletLines(items))
  {
    if items != [] {
      RenderBulletsLines(items[1..]);
      assert BulletLines(items)[1..] == BulletLines(items[1..]);
    }
  }

  lemma {:induction false} RenderNumberedLines(items: seq<ListItem>, first: nat)
    ensures RenderNumbered(items, first) == Terminated(NumberedLines(items, first))
  {
    if items != [] {
      RenderNumberedLines(items[1..], first + 1);
      assert NumberedLines(items, first)[1..] == NumberedLines(items[1..], first + 1);
    }
  }

  lemma NodeRendersLines(node: Node)
    ensures RenderNode(node) == Terminated(NodeLines(node))
  {
    match node
    case H1(c) => TerminatedPair("# " + Texts(c));
    case H2(c) => TerminatedPair("## " + Texts(c));
    case H3(c) => TerminatedPair("### " + Texts(c));
    case P(c) => TerminatedPair(Texts(c));
    case Ul(items) =>
      RenderBulletsLines(items);
      TerminatedAppend(BulletLines(items), [""]);
    case Ol(items) =>
      RenderNumberedLines(items, 1);
      TerminatedAppend(NumberedLines(items, 1), [""]);
    case Unknown(_) =>
  }

  /** Rendering a body writes out its lines, each ended by a newline. */
  lemma {:induction false} NodesRenderLines(nodes: seq<Node>)
    ensures RenderNodes(nodes) == Terminated(AllLines(nodes))
  {
    if nodes != [] {
      NodesRenderLines(nodes[1..]);
      NodeRendersLines(nodes[0]);
      TerminatedAppend(NodeLines(nodes[0]), AllLines(nodes[1..]));
    }
  }

  /** An ordered list is numbered 1..n by position, whatever numbers its
      items were parsed from. */
  lemma OrderedListNumbering(items: seq<ListItem>, k: nat)
    requires k < |items|
    ensures NodeLines(Ol(items))[k] == NatToString(k + 1) + ". " + ItemText(items[k])
    ensures NodeLines(Ol(items))[|items|] == ""
  {
  }

  lemma NoNewlineConcat(a: string, b: string)
    requires '\n' !in a && '\n' !in b
    ensures '\n' !in a + b
  {
    assert forall c | c in a + b :: c in a || c in b;
  }

  lemma OneTextIs(c: seq<Leaf>)
    requires OneText(c)
    ensures Texts(c) == c[0].text
    ensures c == [Leaf(c[0].text)]
  {
    assert Texts(c[1..]) == "";
  }

  lemma GoodItemIs(item: ListItem)
    requires GoodItem(item)
    ensures ItemText(item) == item.children[0].children[0].text
    ensures item == Item(ItemText(item))
  {
    var lic := item.children[0];
    OneTextIs(lic.children);
    assert LicTexts(item.children[1..]) == "";
    assert item.children == [lic];
  }

  lemma NodeLinesNoNewline(node: Node)
    requires WellFormedNode(node)
    ensures forall k | 0 <= k < |NodeLines(node)| :: '\n' !in NodeLines(node)[k]
  {
    match node
    case H1(c) => OneTextIs(c); NoNewlineConcat("# ", c[0].text);
    case H2(c) => OneTextIs(c); NoNewlineConcat("## ", c[0].text);
    case H3(c) => OneTextIs(c); NoNewlineConcat("### ", c[0].text);
    case P(c) => OneTextIs(c);
    case Ul(items) =>
      forall k | 0 <= k < |items| ensures '\n' !in BulletLines(items)[k] {
        GoodItemIs(items[k]);
        NoNewlineConcat("- ", ItemText(items[k]));
      }
    case Ol(items) =>
      forall k | 0 <= k < |items| ensures '\n' !in NumberedLines(items, 1)[k] {
        GoodItemIs(items[k]);
        var digits := NatToString(1 + k);
        assert '\n' !in digits;
        NoNewlineConcat(digits, ". ");
        NoNewlineConcat(digits + ". ", ItemText(items[k]));
      }
  }

  lemma {:induction false} AllLinesNoNewline(nodes: seq<Node>)
    requires WellFormed(nodes)
    ensures forall k | 0 <= k < |AllLines(nodes)| :: '\n' !in AllLines(nodes)[k]
  {
    if nodes != [] {
      NodeLinesNoNewline(nodes[0]);
      AllLinesNoNewline(nodes[1..]);
    }
  }

  /** A marker followed by a good text is its own trim. */
  lemma MarkedLineTrimmed(marker: string, t: string)
    requires GoodText(t) && marker != [] && !IsSpace(marker[0])
    ensures Trim(marker + t) == marker + t
  {
    TrimOfTrimmed(marker + t);
  }

  lemma StepBlank(rest: seq<string>)
    ensures ParseStep([""] + rest) == Step(None, 1)
  {
    assert Trim("") == "";
  }

  lemma StepH1(t: string, rest: seq<string>)
    requires GoodText(t)
    ensures ParseStep(["# " + t] + rest) == Step(Some(H1([Leaf(t)])), 1)
  {
    var line := "# " + t;
    MarkedLineTrimmed("# ", t);
    assert line[1] == ' ';
    assert line[2..] == t;
  }

  lemma StepH2(t: string, rest: seq<string>)
    requires GoodText(t)
    ensures ParseStep(["## " + t] + rest) == Step(Some(H2([Leaf(t)])), 1)
  {
    var line := "## " + t;
    MarkedLineTrimmed("## ", t);
    assert line[2] == ' ';
    assert line[3..] == t;
  }

  lemma StepH3(t: string, rest: seq<string>)
    requires GoodText(t)
    ensures ParseStep(["### " + t] + rest) == Step(Some(H3([Leaf(t)])), 1)
  {
    var line := "### " + t;
    MarkedLineTrimmed("### ", t);
    assert line[4..] == t;
  }

  lemma StepP(t: string, rest: seq<string>)
    requires GoodText(t) && !StartsWithMarker(t)
    ensures ParseStep([t] + rest) == Step(Some(P([Leaf(t)])), 1)
  {
    TrimOfTrimmed(t);
  }

  lemma StepUl(items: seq<ListItem>, rest: seq<string>)
    requires |items| > 0 && forall k | 0 <= k < |items| :: GoodItem(items[k])
    requires rest == [] || !IsBullet(Trim(rest[0]))
    ensures ParseStep(BulletLines(items) + rest) == Step(Some(Ul(items)), |items|)
  {
    var run := BulletLines(items);
    var lines := run + rest;
    forall k | 0 <= k < |run| ensures IsBullet(Trim(run[k])) && BulletItem(run[k]) == items[k] {
      GoodItemIs(items[k]);
      MarkedLineTrimmed("- ", ItemText(items[k]));
      assert run[k][2..] == ItemText(items[k]);
    }
    assert BulletItems(run) == items;
    BulletRunExact(lines, |run|);
    assert lines[..|run|] == run;
    BulletNotHeading(Trim(run[0]));
  }

  lemma NumberedLine(t: string, n: nat)
    requires GoodText(t)
    ensures var line := NatToString(n) + ". " + t;
            IsNumbered(Trim(line)) && NumberedText(Trim(line)) == t
  {
    var digits := NatToString(n);
    var rest := ". " + t;
    var line := digits + rest;
    assert NatToString(n) + ". " + t == line;
    LeadingDigitsOf(digits, rest);
    assert line[|digits|] == '.' && line[|digits| + 1] == ' ';
    assert line[|digits| + 2..] == t;
    assert IsNumbered(line);
    assert IsDigit(line[0]) && line[|line| - 1] == t[|t| - 1];
    TrimOfTrimmed(line);
  }

  lemma NumberedLineItem(items: seq<ListItem>, k: nat)
    requires k < |items| && GoodItem(items[k])
    ensures IsNumbered(Trim(NumberedLines(items, 1)[k]))
    ensures NumberedItem(NumberedLines(items, 1)[k]) == items[k]
  {
    var t := ItemText(items[k]);
    var line := NumberedLines(items, 1)[k];
    assert line == NatToString(1 + k) + ". " + t;
    GoodItemIs(items[k]);
    NumberedLine(t, 1 + k);
    assert NumberedItem(line) == Item(t);
  }

  lemma NumberedLinesItems(items: seq<ListItem>)
    requires forall k | 0 <= k < |items| :: GoodItem(items[k])
    ensures forall k | 0 <= k < |items| :: IsNumbered(Trim(NumberedLines(items, 1)[k]))
    ensures NumberedItems(NumberedLines(items, 1)) == items
  {
    var run := NumberedLines(items, 1);
    forall k | 0 <= k < |run| ensures IsNumbered(Trim(run[k])) && NumberedItem(run[k]) == items[k] {
      NumberedLineItem(items, k);
    }
    assert NumberedItems(run) == items;
  }

  lemma StepOl(items: seq<ListItem>, rest: seq<string>)
    requires |items| > 0 && forall k | 0 <= k < |items| :: GoodItem(items[k])
    requires rest == [] || !IsNumbered(Trim(rest[0]))
    ensures ParseStep(NumberedLines(items, 1) + rest) == Step(Some(Ol(items)), |items|)
  {
    var run := NumberedLines(items, 1);
    var lines := run + rest;
    NumberedLinesItems(items);
    NumberedRunExact(lines, |run|);
    assert lines[..|run|] == run;
    NumberedNotOther(Trim(run[0]));
  }

  lemma BlankLine(tail: seq<string>)
    ensures ParseLines([""] + tail) == ParseLines(tail)
  {
    StepBlank(tail);
    ParseFront("", tail);
  }

  lemma SingleLineRoundTrip(line: string, node: Node, tail: seq<string>)
    requires ParseStep([line] + ([""] + tail)) == Step(Some(node), 1)
    ensures ParseLines([line, ""] + tail) == [node] + ParseLines(tail)
  {
    assert [line, ""] + tail == [line] + ([""] + tail);
    ParseFront(line, [""] + tail);
    BlankLine(tail);
  }

  lemma RunRoundTrip(run: seq<string>, node: Node, tail: seq<string>)
    requires run != [] && ParseStep(run + ([""] + tail)) == Step(Some(node), |run|)
    ensures ParseLines(run + [""] + tail) == [node] + ParseLines(tail)
  {
    assert run + [""] + tail == run + ([""] + tail);
    ParseRun(run, [""] + tail);
    BlankLine(tail);
  }

  /** Parsing the lines of one well-formed node gives that node back,
      whatever lines follow. */
  lemma NodeRoundTrip(node: Node, tail: seq<string>)
    requires WellFormedNode(node)
    ensures ParseLines(NodeLines(node) + tail) == [node] + ParseLines(tail)
  {
    match node
    case H1(c) =>
      OneTextIs(c);
      StepH1(c[0].text, [""] + tail);
      SingleLineRoundTrip("# " + c[0].text, node, tail);
    case H2(c) =>
      OneTextIs(c);
      StepH2(c[0].text, [""] + tail);
      SingleLineRoundTrip("## " + c[0].text, node, tail);
    case H3(c) =>
      OneTextIs(c);
      StepH3(c[0].text, [""] + tail);
      SingleLineRoundTrip("### " + c[0].text, node, tail);
    case P(c) =>
      OneTextIs(c);
      StepP(c[0].text, [""] + tail);
      SingleLineRoundTrip(c[0].text, node, tail);
    case Ul(items) =>
      StepUl(items, [""] + tail);
      RunRoundTrip(BulletLines(items), node, tail);
    case Ol(items) =>
      StepOl(items, [""] + tail);
      RunRoundTrip(NumberedLines(items, 1), node, tail);
  }

  lemma {:induction false} AllLinesRoundTrip(nodes: seq<Node>, tail: seq<string>)
    requires WellFormed(nodes)
    ensures ParseLines(AllLines(nodes) + tail) == nodes + ParseLines(tail)
  {
    if nodes != [] {
      var rest := AllLines(nodes[1..]) + tail;
      AllLinesRoundTrip(nodes[1..], tail);
      NodeRoundTrip(nodes[0], rest);
      ConcatAssoc(NodeLines(nodes[0]), AllLines(nodes[1..]), tail);
      ConcatAssoc([nodes[0]], nodes[1..], ParseLines(tail));
      assert nodes == [nodes[0]] + nodes[1..];
    } else {
      assert AllLines(nodes) + tail == tail;
      assert nodes + ParseLines(tail) == ParseLines(tail);
    }
  }

  /** The Markdown of a well-formed body splits into its lines, followed by
      the empty piece after the final newline. */
  lemma MarkdownLines(nodes: seq<Node>)
    requires WellFormed(nodes)
    ensures Split(BodyToMarkdown(Some(nodes)), '\n') == AllLines(nodes) + [""]
  {
    NodesRenderLines(nodes);
    AllLinesNoNewline(nodes);
    SplitTerminated(AllLines(nodes), "");
    assert Terminated(AllLines(nodes)) + "" == Terminated(AllLines(nodes));
  }

  lemma ParseAllLines(nodes: seq<Node>)
    requires WellFormed(nodes)
    ensures ParseLines(AllLines(nodes) + [""]) == nodes
  {
    AllLinesRoundTrip(nodes, [""]);
    BlankLine([]);
    assert [""] + [] == [""];
    assert nodes + [] == nodes;
  }

  /** A white-space character other than a newline after the Markdown of
      a well-formed body is parsed away. */
  lemma TrailingBlankIgnored(nodes: seq<Node>, c: char)
    requires WellFormed(nodes) && IsSpace(c) && c != '\n'
    ensures MarkdownToBody(BodyToMarkdown(Some(nodes)) + [c]) == nodes
  {
    var lines := AllLines(nodes);
    NodesRenderLines(nodes);
    AllLinesNoNewline(nodes);
    SplitTerminated(lines, [c]);
    AllLinesRoundTrip(nodes, [[c]]);
    BlankLineSkipped([c], []);
    assert [[c]] + [] == [[c]];
    assert nodes + [] == nodes;
  }

  lemma SplitNewlineAfter(lines: seq<string>)
    requires forall k | 0 <= k < |lines| :: '\n' !in lines[k]
    ensures Split(Terminated(lines) + "\n", '\n') == lines + ["", ""]
  {
    SplitTerminated(lines, "");
    assert Terminated(lines) + "" == Terminated(lines);
    SplitAppendSep(Terminated(lines), '\n');
    assert lines + [""] + [""] == lines + ["", ""];
  }

  /** So is a newline after it. */
  lemma TrailingNewlineIgnored(nodes: seq<Node>)
    requires WellFormed(nodes)
    ensures MarkdownToBody(BodyToMarkdown(Some(nodes)) + "\n") == nodes
  {
    NodesRenderLines(nodes);
    AllLinesNoNewline(nodes);
    SplitNewlineAfter(AllLines(nodes));
    AllLinesRoundTrip(nodes, ["", ""]);
    BlankLine([""]);
    BlankLine([]);
    assert [""] + [] == [""];
    assert [""] + [""] == ["", ""];
    assert nodes + [] == nodes;
  }

  /** A paragraph text typed after the Markdown of a well-formed body adds
      that paragraph. */
  lemma ParagraphAfter(nodes: seq<Node>, t: string)
    requires WellFormed(nodes) && GoodText(t) && !StartsWithMarker(t)
    ensures MarkdownToBody(BodyToMarkdown(Some(nodes)) + t) == nodes + [P([Leaf(t)])]
  {
    var lines := AllLines(nodes);
    NodesRenderLines(nodes);
    AllLinesNoNewline(nodes);
    SplitTerminated(lines, t);
    AllLinesRoundTrip(nodes, [t]);
    StepP(t, []);
    assert [t] + [] == [t];
    ParseFront(t, []);
  }

  /** Round trip: parsing the Markdown of a well-formed body gives the body
      back. The editor shows the serialised body and saves the parsed text,
      so an unedited well-formed body is saved unchanged. */
  lemma RoundTrip(nodes: seq<Node>)
    requires WellFormed(nodes)
    ensures MarkdownToBody(BodyToMarkdown(Some(nodes))) == nodes
  {
    MarkdownLines(nodes);
    ParseAllLines(nodes);
  }
}
