/** The Markdown editor component (src/components/admin/RichTextEditor.tsx):
    the toolbar's splice of a prefix and a suffix around the selection, the
    selection it restores, and the line-by-line classification of the
    preview. Focusing the text area and the deferred selection update are
    browser effects; the model returns the selection they would set. */
module RichTextEditor {
  import opened Wrappers
  import opened Text
  import opened Markdown

  // ---------------------------------------------------------------------
  // Splice
  // ---------------------------------------------------------------------

  /** An index clamped to [0, n], as `substring` treats its arguments. */
  function Clamp(i: int, n: nat): (r: nat)
    ensures r <= n
    ensures 0 <= i <= n ==> r == i
    ensures i < 0 ==> r == 0
    ensures i > n ==> r == n
  {
    if i < 0 then 0 else if i > n then n else i
  }

  /** `String.prototype.substring(a, b)`: both ends clamped to the string,
      and swapped when the first is the larger. */
  function Substring(s: string, a: int, b: int): (r: string)
    ensures 0 <= a <= b <= |s| ==> r == s[a..b]
    ensures 0 <= b <= a <= |s| ==> r == s[b..a]
    ensures |r| <= |s|
  {
    var x := Clamp(a, |s|);
    var y := Clamp(b, |s|);
    if x <= y then s[x..y] else s[y..x]
  }

  /** The selection the text area reports. */
  datatype Selection = Selection(start: int, end: int)

  /** A splice: the text handed to `onChange` and the selection restored
      afterwards. */
  datatype Splice = Splice(text: string, selStart: int, selEnd: int)

  /** `insertMarkdown(before, after)`: nothing when there is no editor text
      area; otherwise the selected text wrapped in `before` and `after`,
      with the selection moved onto the wrapped text. */
  function InsertMarkdown(area: Option<Selection>, value: string, before: string, after: string): (r: Option<Splice>)
    ensures area.None? <==> r.None?
    ensures area.Some? && 0 <= area.value.start <= area.value.end <= |value| ==>
              var start := area.value.start;
              var end := area.value.end;
              r.value.text == value[..start] + before + value[start..end] + after + value[end..]
              && |r.value.text| == |value| + |before| + |after|
              && r.value.selStart == start + |before|
              && r.value.selEnd == start + |before| + (end - start)
  {
    match area
    case None => None
    case Some(sel) =>
      var selected := Substring(value, sel.start, sel.end);
      var beforeText := Substring(value, 0, sel.start);
      var afterText := value[Clamp(sel.end, |value|)..];
      Some(Splice(beforeText + before + selected + after + afterText,
                  sel.start + |before|, sel.start + |before| + |selected|))
  }

  /** The text outside the selection is kept, the restored selection
      covers exactly the originally selected text, and removing the prefix
      and the suffix again gives back the original value. */
  lemma SpliceUndone(sel: Selection, value: string, before: string, after: string)
    requires 0 <= sel.start <= sel.end <= |value|
    ensures var r := InsertMarkdown(Some(sel), value, before, after).value;
            0 <= r.selStart <= r.selEnd <= |r.text|
            && r.text[..sel.start] == value[..sel.start]
            && r.text[r.selStart..r.selEnd] == value[sel.start..sel.end]
            && r.text[r.selStart - |before|..r.selStart] == before
            && r.text[r.selEnd..r.selEnd + |after|] == after
            && r.text[r.selEnd + |after|..] == value[sel.end..]
            && r.text[..sel.start] + r.text[r.selStart..r.selEnd] + r.text[r.selEnd + |after|..] == value
  {
    var r := InsertMarkdown(Some(sel), value, before, after).value;
    var a := value[..sel.start];
    var m := value[sel.start..sel.end];
    var z := value[sel.end..];
    assert r.text == a + before + m + after + z;
    assert r.text[..sel.start] == a;
    assert r.text[r.selStart - |before|..r.selStart] == before;
    assert r.text[r.selStart..r.selEnd] == m;
    assert r.text[r.selEnd..r.selEnd + |after|] == after;
    assert r.text[r.selEnd + |after|..] == z;
    assert a + m + z == value;
  }

  /** What JavaScript does with a selection outside the text: `substring`
      clamps, so an end past the text selects up to its end. */
  lemma SelectionPastEnd(value: string, before: string, after: string, start: nat, end: int)
    requires start <= |value| < end
    ensures InsertMarkdown(Some(Selection(start, end)), value, before, after).value.text
            == value[..start] + before + value[start..] + after
  {
    assert value[|value|..] == [];
  }

  // ---------------------------------------------------------------------
  // Toolbar
  // ---------------------------------------------------------------------

  datatype Button = Heading2 | Heading3 | Bold | Italic | BulletList | NumberedList | Image

  /** The prefix and the suffix each toolbar button wraps around the
      selection. */
  function Wrapping(b: Button): (string, string) {
    match b
    case Heading2 => ("## ", "\n\n")
    case Heading3 => ("### ", "\n\n")
    case Bold => ("**", "**")
    case Italic => ("*", "*")
    case BulletList => ("- ", "\n")
    case NumberedList => ("1. ", "\n")
    case Image => ("![alt text](", ")")
  }

  /** Pressing a button with the whole text selected. */
  function PressOnAll(b: Button, t: string): (text: string)
    ensures text == Wrapping(b).0 + t + Wrapping(b).1
  {
    var sel := Selection(0, |t|);
    assert t[..0] == [] && t[0..|t|] == t && t[|t|..] == [];
    InsertMarkdown(Some(sel), t, Wrapping(b).0, Wrapping(b).1).value.text
  }

  lemma SplitTwoBlank(line: string)
    requires '\n' !in line
    ensures Split(line + "\n\n", '\n') == [line, "", ""]
  {
    SplitTerminated([line, ""], "");
    assert [line, ""][1..] == [""] && [""][1..] == [];
    assert Terminated([line, ""]) + "" == line + "\n\n";
    assert [line, ""] + [""] == [line, "", ""];
  }

  lemma SplitOneBlank(line: string)
    requires '\n' !in line
    ensures Split(line + "\n", '\n') == [line, ""]
  {
    SplitTerminated([line], "");
    assert [line][1..] == [];
    assert Terminated([line]) + "" == line + "\n";
    assert [line] + [""] == [line, ""];
  }

  lemma TrailingBlanks()
    ensures ParseLines(["", ""]) == [] && ParseLines([""]) == []
  {
    BlankLine([""]);
    BlankLine([]);
    assert [""] + [""] == ["", ""];
    assert [""] + [] == [""];
  }

  /** A trimmed heading line followed by blank lines is that heading. */
  lemma HeadingLineParses(line: string, blanks: seq<string>)
    requires Trimmed(line) && (blanks == [""] || blanks == ["", ""])
    ensures StartsWith(line, "### ") ==> ParseLines([line] + blanks) == [H3([Leaf(line[4..])])]
    ensures StartsWith(line, "## ") && !StartsWith(line, "### ") ==> ParseLines([line] + blanks) == [H2([Leaf(line[3..])])]
  {
    TrimOfTrimmed(line);
    TrailingBlanks();
    LineClassification(line, blanks);
  }

  /** The Heading 2 button, pressed on a text that is a line of its own,
      gives the Markdown of a level-2 heading: the parser reads it back as
      that heading. */
  lemma Heading2Parses(t: string)
    requires GoodText(t)
    ensures MarkdownToBody(PressOnAll(Heading2, t)) == [H2([Leaf(t)])]
  {
    var line := "## " + t;
    assert '\n' !in line && Trimmed(line) && line[3..] == t by {
      assert forall k | 3 <= k < |line| :: line[k] == t[k - 3];
    }
    assert StartsWith(line, "## ") && !StartsWith(line, "### ") by {
      assert line[2] == ' ';
    }
    assert [line] + ["", ""] == [line, "", ""];
    HeadingLineParses(line, ["", ""]);
    SplitTwoBlank(line);
    assert PressOnAll(Heading2, t) == line + "\n\n";
  }

  /** The Heading 3 button, likewise, gives a level-3 heading. */
  lemma Heading3Parses(t: string)
    requires GoodText(t)
    ensures MarkdownToBody(PressOnAll(Heading3, t)) == [H3([Leaf(t)])]
  {
    var line := "### " + t;
    assert '\n' !in line && Trimmed(line) && line[4..] == t && StartsWith(line, "### ") by {
      assert forall k | 4 <= k < |line| :: line[k] == t[k - 4];
    }
    assert [line] + ["", ""] == [line, "", ""];
    HeadingLineParses(line, ["", ""]);
    SplitTwoBlank(line);
    assert PressOnAll(Heading3, t) == line + "\n\n";
  }

  lemma BlankNotListed()
    ensures !IsBullet(Trim("")) && !IsNumbered(Trim(""))
  {
    TrimEmpty("");
  }

  /** A trimmed bullet line and a blank line are a one-item list. */
  lemma BulletLineParses(line: string)
    requires Trimmed(line) && IsBullet(line)
    ensures ParseLines([line, ""]) == [Ul([Item(line[2..])])]
  {
    TrimOfTrimmed(line);
    BlankNotListed();
    TrailingBlanks();
    BulletRunIsOneList([line], [""]);
    assert [line] + [""] == [line, ""];
    var items := BulletItems([line]);
    assert |items| == 1 && items[0] == BulletItem(line) == Item(line[2..]);
    assert items == [Item(line[2..])];
  }

  /** A trimmed numbered line and a blank line are a one-item ordered
      list. */
  lemma NumberedLineParses(line: string)
    requires Trimmed(line) && IsNumbered(line)
    ensures ParseLines([line, ""]) == [Ol([Item(NumberedText(line))])]
  {
    TrimOfTrimmed(line);
    BlankNotListed();
    TrailingBlanks();
    NumberedRunIsOneList([line], [""]);
    assert [line] + [""] == [line, ""];
    var items := NumberedItems([line]);
    assert |items| == 1 && items[0] == NumberedItem(line) == Item(NumberedText(line));
    assert items == [Item(NumberedText(line))];
  }

  /** The Bullet List button, pressed on a text that is a line of its own,
      gives a one-item list the parser reads back with that text as its
      item. */
  lemma BulletParses(t: string)
    requires GoodText(t)
    ensures MarkdownToBody(PressOnAll(BulletList, t)) == [Ul([Item(t)])]
  {
    var line := "- " + t;
    assert '\n' !in line;
    assert PressOnAll(BulletList, t) == line + "\n";
    SplitOneBlank(line);
    assert Trimmed(line) && IsBullet(line);
    BulletLineParses(line);
    assert line[2..] == t;
  }

  /** The Numbered List button, likewise, gives a one-item ordered list. */
  lemma NumberedParses(t: string)
    requires GoodText(t)
    ensures MarkdownToBody(PressOnAll(NumberedList, t)) == [Ol([Item(t)])]
  {
    var line := "1. " + t;
    assert '\n' !in line;
    assert PressOnAll(NumberedList, t) == line + "\n";
    SplitOneBlank(line);
    assert Trimmed(line);
    LeadingDigitsOf("1", ". " + t);
    assert "1" + (". " + t) == line;
    assert IsNumbered(line);
    NumberedLineParses(line);
    assert NumberedText(line) == line[3..] == t;
  }

  // ---------------------------------------------------------------------
  // Preview
  // ---------------------------------------------------------------------

  /** The element the preview shows for one line. */
  datatype PreviewLine =
    | PH3(text: string)
    | PH2(text: string)
    | PH1(text: string)
    | PBullet(text: string)
    | PNumbered(text: string)
    | PImage(src: string, alt: string)
    | PPara(text: string)
    | PBreak

  /** No character of `s` between `i` and `j` ends a line. */
  predicate NoTerminator(s: string, i: nat, j: nat)
    requires i <= j <= |s|
  {
    forall k | i <= k < j :: !IsLineTerminator(s[k])
  }

  /** The lazy group `(.*?)\]\(` from `i`: the first "](" at or after `i`
      reached without crossing a line terminator. */
  function FindClose(s: string, i: nat): (r: Option<nat>)
    requires i <= |s|
    ensures r.Some? ==> i <= r.value && r.value + 2 <= |s| && s[r.value] == ']' && s[r.value + 1] == '('
                        && NoTerminator(s, i, r.value)
                        && forall k | i <= k < r.value :: !(s[k] == ']' && s[k + 1] == '(')
    ensures r.None? ==> forall j | i <= j && j + 2 <= |s| && s[j] == ']' && s[j + 1] == '(' :: !NoTerminator(s, i, j)
    decreases |s| - i
  {
    if i + 2 > |s| then None
    else if s[i] == ']' && s[i + 1] == '(' then Some(i)
    else if IsLineTerminator(s[i]) then None
    else FindClose(s, i + 1)
  }

  /** The lazy group `(.*?)\)` from `i`: the first ")" at or after `i`
      reached without crossing a line terminator. */
  function FindParen(s: string, i: nat): (r: Option<nat>)
    requires i <= |s|
    ensures r.Some? ==> i <= r.value < |s| && s[r.value] == ')' && NoTerminator(s, i, r.value)
                        && forall k | i <= k < r.value :: s[k] != ')'
    ensures r.None? ==> forall j | i <= j < |s| && s[j] == ')' :: !NoTerminator(s, i, j)
    decreases |s| - i
  {
    if i >= |s| then None
    else if s[i] == ')' then Some(i)
    else if IsLineTerminator(s[i]) then None
    else FindParen(s, i + 1)
  }

  /** A match of `!\[(.*?)\]\((.*?)\)` starting at `p`: the alt text and
      the source. Taking the first "](" and then the first ")" is what the
      lazy groups do: when no ")" follows the first "](" on the line, no
      later "](" can be followed by one either. */
  function MatchAt(s: string, p: nat): (r: Option<(string, string)>)
    requires p + 2 <= |s|
  {
    if s[p] != '!' || s[p + 1] != '[' then None
    else
      match FindClose(s, p + 2)
      case None => None
      case Some(a) =>
        match FindParen(s, a + 2)
        case None => None
        case Some(b) => Some((s[p + 2..a], s[a + 2..b]))
  }

  /** `line.match(/!\[(.*?)\]\((.*?)\)/)`: the leftmost match. */
  function ImageMatch(s: string, p: nat): (r: Option<(string, string)>)
    requires p <= |s|
    decreases |s| - p
  {
    if p + 2 > |s| then None
    else if MatchAt(s, p).Some? then MatchAt(s, p)
    else ImageMatch(s, p + 1)
  }

  /** The preview of one line, markers tried in the component's order. */
  function ClassifyLine(line: string): PreviewLine {
    var t := Trim(line);
    if StartsWith(t, "### ") then PH3(t[4..])
    else if StartsWith(t, "## ") then PH2(t[3..])
    else if StartsWith(t, "# ") then PH1(t[2..])
    else if IsBullet(t) then PBullet(t[2..])
    else if IsNumbered(t) then PNumbered(NumberedText(t))
    else if StartsWith(t, "![") && ImageMatch(t, 0).Some? then
      PImage(ImageMatch(t, 0).value.1, ImageMatch(t, 0).value.0)
    else if t != "" then PPara(t)
    else PBreak
  }

  /** `renderPreview`: one element per line of the text. */
  function RenderPreview(markdown: string): (r: seq<PreviewLine>)
    ensures var lines := Split(markdown, '\n');
            |r| == |lines| && forall i | 0 <= i < |r| :: r[i] == ClassifyLine(lines[i])
  {
    var lines := Split(markdown, '\n');
    seq(|lines|, i requires 0 <= i < |lines| => ClassifyLine(lines[i]))
  }

  /** A line shows as a line break exactly when it is blank. */
  lemma BreakIffBlank(line: string)
    ensures ClassifyLine(line) == PBreak <==> forall k | 0 <= k < |line| :: IsSpace(line[k])
  {
    TrimEmpty(line);
  }

  /** The preview shows headings and paragraphs as the parser reads them:
      the same level and the same text. */
  lemma PreviewAgreesWithParser(line: string)
    ensures var t := Trim(line);
            (ClassifyLine(line).PH3? ==> ParseLines([line]) == [H3([Leaf(ClassifyLine(line).text)])])
            && (ClassifyLine(line).PH2? ==> ParseLines([line]) == [H2([Leaf(ClassifyLine(line).text)])])
            && (ClassifyLine(line).PH1? ==> ParseLines([line]) == [H1([Leaf(ClassifyLine(line).text)])])
            && (ClassifyLine(line).PPara? ==> ParseLines([line]) == [P([Leaf(t)])])
  {
    LineClassification(line, []);
    assert [line] + [] == [line];
  }

  function ImageLineText(alt: string, src: string): string {
    "![" + alt + "](" + src + ")"
  }

  lemma ImageLineMatches(alt: string, src: string)
    requires forall k | 0 <= k < |alt| :: !IsLineTerminator(alt[k])
    requires forall k | 0 <= k < |src| :: !IsLineTerminator(src[k]) && src[k] != ')'
    requires forall k | 0 <= k && k + 1 < |alt| :: !(alt[k] == ']' && alt[k + 1] == '(')
    ensures MatchAt(ImageLineText(alt, src), 0) == Some((alt, src))
  {
    var s := ImageLineText(alt, src);
    var a := 2 + |alt|;
    var b := a + 2 + |src|;
    CloseAfterAlt(alt, src);
    ParenAfterSrc(alt, src);
    assert s[2..a] == alt && s[a + 2..b] == src;
  }

  /** The first "](" of an image line is the one after the alt text. */
  lemma CloseAfterAlt(alt: string, src: string)
    requires forall k | 0 <= k < |alt| :: !IsLineTerminator(alt[k])
    requires forall k | 0 <= k && k + 1 < |alt| :: !(alt[k] == ']' && alt[k + 1] == '(')
    ensures FindClose(ImageLineText(alt, src), 2) == Some(2 + |alt|)
  {
    var s := ImageLineText(alt, src);
    var a := 2 + |alt|;
    assert s[a] == ']' && s[a + 1] == '(';
    assert forall k | 2 <= k < a :: s[k] == alt[k - 2];
    assert forall k | 2 <= k <= a - 1 :: !(s[k] == ']' && s[k + 1] == '(') by {
      forall k | 2 <= k <= a - 1 ensures !(s[k] == ']' && s[k + 1] == '(') {
        if k + 1 < a {
          assert s[k + 1] == alt[k - 1];
        } else {
          assert s[k + 1] == ']';
        }
      }
    }
    FindCloseReaches(s, 2, a);
  }

  /** The scan for "](" stops at the first one it reaches. */
  lemma {:induction false} FindCloseReaches(s: string, i: nat, j: nat)
    requires i <= j && j + 2 <= |s| && s[j] == ']' && s[j + 1] == '('
    requires forall k | i <= k < j :: !IsLineTerminator(s[k]) && !(s[k] == ']' && s[k + 1] == '(')
    ensures FindClose(s, i) == Some(j)
    decreases j - i
  {
    if i < j {
      FindCloseReaches(s, i + 1, j);
    }
  }

  /** The first ")" after the "](" of an image line ends the source. */
  lemma ParenAfterSrc(alt: string, src: string)
    requires forall k | 0 <= k < |src| :: !IsLineTerminator(src[k]) && src[k] != ')'
    ensures FindParen(ImageLineText(alt, src), 4 + |alt|) == Some(4 + |alt| + |src|)
  {
    var s := ImageLineText(alt, src);
    var a := 2 + |alt|;
    var b := a + 2 + |src|;
    assert s[b] == ')';
    assert forall k | a + 2 <= k < b :: !IsLineTerminator(s[k]) && s[k] != ')' by {
      forall k | a + 2 <= k < b ensures !IsLineTerminator(s[k]) && s[k] != ')' {
        assert s[k] == src[k - a - 2];
      }
    }
    FindParenReaches(s, a + 2, b);
  }

  /** The scan for ")" stops at the first one it reaches. */
  lemma {:induction false} FindParenReaches(s: string, i: nat, j: nat)
    requires i <= j < |s| && s[j] == ')'
    requires forall k | i <= k < j :: !IsLineTerminator(s[k]) && s[k] != ')'
    ensures FindParen(s, i) == Some(j)
    decreases j - i
  {
    if i < j {
      FindParenReaches(s, i + 1, j);
    }
  }

  /** A line holding one image link, whose alt text has no "](" and whose
      source has no ")", shows as that image. */
  lemma ImageLineShown(alt: string, src: string)
    requires forall k | 0 <= k < |alt| :: !IsLineTerminator(alt[k])
    requires forall k | 0 <= k < |src| :: !IsLineTerminator(src[k]) && src[k] != ')'
    requires forall k | 0 <= k && k + 1 < |alt| :: !(alt[k] == ']' && alt[k + 1] == '(')
    ensures ClassifyLine(ImageLineText(alt, src)) == PImage(src, alt)
  {
    var s := ImageLineText(alt, src);
    assert s[0] == '!' && s[1] == '[' && s[|s| - 1] == ')';
    TrimOfTrimmed(s);
    ImageLineMatches(alt, src);
    assert ImageMatch(s, 0) == Some((alt, src));
    ImageLineClass(s);
  }

  /** A trimmed line opening "![" that the pattern matches is an image. */
  lemma ImageLineClass(s: string)
    requires |s| >= 2 && s[0] == '!' && s[1] == '[' && Trim(s) == s && ImageMatch(s, 0).Some?
    ensures ClassifyLine(s) == PImage(ImageMatch(s, 0).value.1, ImageMatch(s, 0).value.0)
  {
    assert !StartsWith(s, "### ") && !StartsWith(s, "## ") && !StartsWith(s, "# ");
    assert !IsBullet(s);
    assert LeadingDigits(s) == 0;
    assert !IsNumbered(s);
    assert StartsWith(s, "![");
  }
}
