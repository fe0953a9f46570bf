# nordai-portfolio in Dafny

A model of the logic of the nordAi portfolio site: a React front end with a
public part (a navigation header, blog and portfolio listings with
category filters, an article page) and an admin part (a password gate, two
content editors that convert a rich-text body to Markdown and back, a
front-matter editor that saves records to a Git repository, a Markdown
editor with a toolbar and a preview, an image picker), plus the contact
form's serverless endpoint and the content loader that turns `.mdx` files
into project and article records.

One module per source file, plus shared ones:

- `Wrappers` (`Option`).
- `Text`: the JavaScript string operations the code relies on: `trim` and
  its white-space set, `split`, `join`, `startsWith`, the last path segment,
  replacing the first occurrence, ASCII lower-casing, and numbers as
  decimal text.
- `FrontMatter`: front-matter values with JavaScript truthiness and `||`.
- `Markdown`: the body codec shared by the two editors, with its round trip.
- `Listing`: the category filter of the two listing pages.
- One module per page or component: `FullAdmin`, `SimpleAdmin`,
  `AdminEdit`, `Tina`, `RichTextEditor`, `ImageUploader`, `AdminGuard`,
  `Header`, `Blog`, `Portfolio`, `BlogPost` and `Contact`.

Algorithms with loops are methods with loop invariants, proved against
functions:

- the Markdown parser's nested `while` loops;
- the loaders' `for` loops;
- the save handler that builds the front matter step by step.

The two components modelled as classes are `AdminGuard` and `ImageUploader`:
their handlers update the component's own fields. The admin pages
(`FullAdmin`, `SimpleAdmin`, `AdminEdit`) also update their own state;
they are modelled as functions from the old state record to the new one.
Everything else is functions and lemmas.

Places where the code and the design description differ; the model follows
the code:

- A new record's slug is the lower-cased title with every run of characters
  outside `[a-z0-9]` replaced by one hyphen. Leading and trailing hyphens
  stay, and there is no language suffix.
- The Git blob hash needed to update a file is fetched just before the
  write. It is not kept from the load.
- The content loader's `body` field is the front-matter key `body`. It is
  not the text after the front matter.
- The simple admin page carries its own copies of the Markdown parser and
  serialiser, and both are the same code as the full page's. The parser loop
  is modelled once, as `FullAdmin.ConvertMarkdownToBody`. The serialiser (a
  map over the nodes and a join) is given in two forms: the recursive
  `Markdown.BodyToMarkdown` and the map-and-join
  `SimpleAdmin.ConvertBodyToMarkdown`. `SimpleAdmin.NodesAgree` proves the
  two equal.

## Model

| member | source | states |
|---|---|---|
| FrontMatter.Get | src/lib/tina.ts:62-75 | reading a missing front-matter key gives `undefined`, and a present key gives its value |
| FrontMatter.Or | src/lib/tina.ts:62-75 | `a \|\| b` yields `a` when `a` is truthy (not `undefined`, `false`, `0` or the empty string) and `b` otherwise |
| Markdown.BodyToMarkdown | src/pages/FullAdmin.tsx:39-40 | a missing body or a body without children serialises to the empty text |
| Markdown.BulletRun | src/pages/FullAdmin.tsx:77 | the run of a bullet list is the longest prefix of lines that are bullet lines once trimmed |
| Markdown.NumberedRun | src/pages/FullAdmin.tsx:85 | the run of an ordered list is the longest prefix of lines that match `^\d+\.\s` once trimmed |
| Markdown.ParseStep | src/pages/FullAdmin.tsx:65-95 | one turn of the outer loop consumes at least one line and no more than there are |
| Markdown.ParseShape | src/pages/FullAdmin.tsx:60-97 | every parsed node is a heading, a non-empty paragraph or a non-empty list of one-leaf items, never an unknown node, and there are at most as many nodes as non-blank lines |
| Markdown.LineClassification | src/pages/FullAdmin.tsx:69-93 | a trimmed line opening "### ", "## " or "# " is a heading of that level, markers being tried longest first; any other non-blank line without a marker is one paragraph of its trimmed text |
| Markdown.BlankLineSkipped | src/pages/FullAdmin.tsx:66-67 | a blank or white-space-only line produces no node |
| Markdown.BulletRunIsOneList | src/pages/FullAdmin.tsx:75-82 | a maximal run of "- " or "* " lines becomes exactly one bullet list of the lines without their markers |
| Markdown.NumberedRunIsOneList | src/pages/FullAdmin.tsx:83-90 | a maximal run of numbered lines becomes exactly one ordered list |
| Markdown.OrderedListNumbering | src/pages/FullAdmin.tsx:51-54 | an ordered list is written numbered 1 to n by position, whatever numbers it was parsed from |
| Markdown.NodeRoundTrip | src/pages/FullAdmin.tsx:39-97 | the lines a well-formed node serialises to parse back to exactly that node, whatever lines follow |
| Markdown.RoundTrip | src/pages/FullAdmin.tsx:39-97 | parsing the Markdown of a well-formed body gives the body back |
| Markdown.TrailingNewlineIgnored | src/pages/FullAdmin.tsx:60-67 | a newline typed after the Markdown of a well-formed body parses away |
| Markdown.TrailingBlankIgnored | src/pages/FullAdmin.tsx:60-67 | so does any other white-space character |
| Markdown.ParagraphAfter | src/pages/FullAdmin.tsx:60-97 | a marker-free text typed after the Markdown of a well-formed body adds exactly one paragraph of that text |
| FullAdmin.ConvertMarkdownToBody | src/pages/FullAdmin.tsx:60-97 | the nested `while` loops compute the parse function, and every node they push has the parsed shape |
| FullAdmin.CollectBulletItems | src/pages/FullAdmin.tsx:75-82 | the inner loop stops at the end of the bullet run and collects one item per line of it |
| FullAdmin.ScanBullets | src/pages/FullAdmin.tsx:77-80 | the `while` loop stops at the first line that is not a bullet line and has taken each earlier line's text without its marker |
| FullAdmin.ScanNumbered | src/pages/FullAdmin.tsx:85-88 | the `while` loop stops at the first line that is not numbered and has taken each earlier line's text without its number |
| FullAdmin.CollectNumberedItems | src/pages/FullAdmin.tsx:83-90 | the same for a numbered run |
| FullAdmin.ProjectFieldsDetermine | src/pages/FullAdmin.tsx:8-21 | two projects that agree on every field are equal |
| FullAdmin.ArticleFieldsDetermine | src/pages/FullAdmin.tsx:23-36 | two articles that agree on every field are equal |
| FullAdmin.UpdateProjectField | src/pages/FullAdmin.tsx:250-253 | with no open project nothing changes; otherwise the named field takes the new value and every other field keeps its value |
| FullAdmin.UpdateArticleField | src/pages/FullAdmin.tsx:255-258 | the same for an article |
| FullAdmin.UpdateProjectIdempotent | src/pages/FullAdmin.tsx:250-253 | repeating a field update changes nothing more, and setting a field to its current value changes nothing |
| FullAdmin.SplitTags | src/pages/FullAdmin.tsx:374 | the tags input stores at least one tag, each trimmed and free of commas |
| FullAdmin.TagsRoundTrip | src/pages/FullAdmin.tsx:373-374 | storing the shown text of a list of trimmed, comma-free tags gives the same tags back |
| FullAdmin.EmptyTagsField | src/pages/FullAdmin.tsx:373-374 | an empty tag list shows as an empty field, which is stored back as one empty tag |
| FullAdmin.EditTarget | src/pages/FullAdmin.tsx:139-140 | no file is opened exactly when the id is empty or ends in '/'; otherwise the file is the last path segment, non-empty and slash-free |
| FullAdmin.SyncMarkdown | src/pages/FullAdmin.tsx:115-121 | the effect sets the editor text to the open project's Markdown, else the open article's, else leaves it |
| FullAdmin.OpenProject | src/pages/FullAdmin.tsx:138-148 | opening a project closes any open article and shows the project's Markdown |
| FullAdmin.OpenArticle | src/pages/FullAdmin.tsx:150-160 | opening an article closes any open project and shows the article's Markdown |
| FullAdmin.EditProjectAsWritten | src/pages/FullAdmin.tsx:115-121 | a field edit produces a new record object, so the effect runs again and the editor text is reset to the stored body's Markdown (the edit is at lines 250-253); the open article is kept |
| FullAdmin.EditArticleAsWritten | src/pages/FullAdmin.tsx:115-121 | an article field edit likewise re-runs the effect: with no project open, the editor text is reset to the stored article body's Markdown (the edit is at lines 255-258); the open project is kept |
| FullAdmin.EditProject | src/pages/FullAdmin.tsx:250-253 | the intended field edit changes the record and leaves the editor text and the other record alone |
| FullAdmin.EditArticle | src/pages/FullAdmin.tsx:255-258 | the same for an article |
| FullAdmin.OrEmpty | src/pages/FullAdmin.tsx:188-191 | an optional text `x \|\| ''` is its value when present and empty otherwise |
| FullAdmin.CloseAfterSave | src/pages/FullAdmin.tsx:236-241 | the timer after a successful save closes both editors and keeps the editor text, after which a save sends nothing |
| FullAdmin.HandleSave | src/pages/FullAdmin.tsx:162-201 | nothing is sent exactly when no record is open; the open project wins over the open article; the request names the record's file and carries the parse of the editor text |
| FullAdmin.OpenThenSaveProject | src/pages/FullAdmin.tsx:138-199 | opening a project with a well-formed body and saving at once sends the project back unchanged |
| FullAdmin.OpenThenSaveArticle | src/pages/FullAdmin.tsx:150-231 | the same for an article |
| FullAdmin.EditKeepsDraft | src/pages/FullAdmin.tsx:162-193 | with the intended field update, the typed Markdown is what a later save sends |
| FullAdmin.EditResetsDraft | src/pages/FullAdmin.tsx:115-121 | as written, a save after a field edit sends the stored body again, whatever was typed (the body is sent at line 193) |
| FullAdmin.EditDiscardsDraft | src/pages/FullAdmin.tsx:115-121 | as written, "# Draft" typed into a project without a body, followed by a title edit and a save, sends an empty body (the title edit runs lines 250-253) |
| SimpleAdmin.LeafStrings | src/pages/SimpleAdmin.tsx:22-47 | one text per leaf, in order |
| SimpleAdmin.BulletStrings | src/pages/SimpleAdmin.tsx:34-38 | one "- text\n" line per bullet item |
| SimpleAdmin.NumberedStrings | src/pages/SimpleAdmin.tsx:39-43 | one "n. text\n" line per item, numbered by position |
| SimpleAdmin.ConvertBodyToMarkdown | src/pages/SimpleAdmin.tsx:22-47 | the simple page's serialiser equals the full page's |
| SimpleAdmin.NodesAgree | src/pages/SimpleAdmin.tsx:22-47 | block by block, the map-and-join form renders what the shared serialiser renders |
| SimpleAdmin.UpdateField | src/pages/SimpleAdmin.tsx:229-235 | with no open project nothing changes; a field edit is the full page's; a change of the Markdown box stores the parse of its text and keeps every other field (the box's handler is line 389) |
| SimpleAdmin.TypeAtEnd | src/pages/SimpleAdmin.tsx:388-389 | a key typed at the end of the box changes only the body |
| SimpleAdmin.WhiteSpaceKeyLost | src/pages/SimpleAdmin.tsx:388-389 | as written, a white-space key typed at the end of a well-formed body changes nothing, so the key is lost |
| SimpleAdmin.HeadingNotTypeable | src/pages/SimpleAdmin.tsx:388-389 | as written, the keys '#', ' ', 'A' typed into an empty box give two paragraphs, "#" and "A", instead of a heading |
| SimpleAdmin.EditFile | src/pages/SimpleAdmin.tsx:152-154 | the file to load is chosen as on the full page |
| SimpleAdmin.HandleSave | src/pages/SimpleAdmin.tsx:167-203 | nothing is sent exactly when no project is open; the request names the project's file and carries its stored body |
| SimpleAdmin.SaveSendsTypedText | src/pages/SimpleAdmin.tsx:203 | a save sends the parse of what was last typed into the box (the box's handler is line 389) |
| SimpleAdmin.Open | src/pages/SimpleAdmin.tsx:152-165 | opening a project fills the box with its serialised body |
| SimpleAdmin.TypeKey | src/pages/SimpleAdmin.tsx:388-389 | a box that keeps its own text appends the key, stays in sync with the stored body and changes no other field |
| SimpleAdmin.OpenSynced | src/pages/SimpleAdmin.tsx:152-165 | a project with a well-formed body opens in sync (the box shows line 388's value) |
| SimpleAdmin.FieldEditSynced | src/pages/SimpleAdmin.tsx:229-235 | edits of other fields keep the box in sync |
| SimpleAdmin.HeadingTypeable | src/pages/SimpleAdmin.tsx:388-389 | with the box keeping its own text, '#', ' ', 'A' give the heading "A" |
| AdminEdit.InitialForm | src/pages/AdminEdit.tsx:33-48 | a new record starts empty, with category "ai" for a blog article and "web" otherwise, and the defaults for date, reading time, author, client, image and link |
| AdminEdit.TextOr | src/pages/AdminEdit.tsx:78-90 | `v \|\| d` on a text field is `v` when it is a non-empty text and the default otherwise |
| AdminEdit.OptText | src/pages/AdminEdit.tsx:83-88 | an optional text field is present exactly when the value is text |
| AdminEdit.LoadForm | src/pages/AdminEdit.tsx:75-92 | field by field: the body is the text after the front matter; title, excerpt, category, date and the two SEO fields are the front-matter text or the empty text; the image is its text or the placeholder; tags are the listed texts or none; featured holds exactly when the front matter says `true`; the reading time has no default and is present exactly when the front matter gives a number, and then is that number; author, client and link are the text when one is given |
| AdminEdit.EmptyFrontMatterLoads | src/pages/AdminEdit.tsx:77-92 | a file with empty front matter loads as the empty form with its defaults |
| AdminEdit.Hyphenate | src/pages/AdminEdit.tsx:110 | `replace(/[^a-z0-9]+/g, '-')` gives text of only `[a-z0-9-]` with no two hyphens in a row, empty exactly for empty input |
| AdminEdit.Slugify | src/pages/AdminEdit.tsx:110 | the slug of a title is slug-shaped, no longer than the title, and empty exactly for an empty title |
| AdminEdit.HyphenateShorter | src/pages/AdminEdit.tsx:110 | replacing runs never lengthens the text |
| AdminEdit.HyphenateKeeps | src/pages/AdminEdit.tsx:110 | replacing runs keeps every letter and digit, in order |
| AdminEdit.HyphenateEnds | src/pages/AdminEdit.tsx:110 | the last character is kept when it is a slug character and becomes a hyphen otherwise |
| AdminEdit.SlugEnds | src/pages/AdminEdit.tsx:110 | a title opening or ending with a character outside `[a-z0-9]` gives a slug opening or ending with a hyphen |
| AdminEdit.SlugIdempotent | src/pages/AdminEdit.tsx:110 | the slug of a slug is itself |
| AdminEdit.SlugKeepsLettersAndDigits | src/pages/AdminEdit.tsx:110 | the slug keeps exactly the letters and digits of the lower-cased title |
| AdminEdit.SavedKeys | src/pages/AdminEdit.tsx:115-133 | the saved front matter has the seven common keys; a blog article adds date, reading time and author; a project adds client and tags, and link only when it is non-empty |
| AdminEdit.SavedCommon | src/pages/AdminEdit.tsx:115-123 | the common keys hold the form's values |
| AdminEdit.SavedBlogKeys | src/pages/AdminEdit.tsx:125-128 | an article's extra keys hold the form's values |
| AdminEdit.SavedProjectKeys | src/pages/AdminEdit.tsx:129-133 | a project's extra keys hold the form's values |
| AdminEdit.SavedProjectLacksBlogKeys | src/pages/AdminEdit.tsx:125-133 | a project's front matter has no date, reading time or author |
| AdminEdit.LoadSavedBlog | src/pages/AdminEdit.tsx:75-136 | loading a saved article gives the form back, less the project-only fields |
| AdminEdit.LoadSavedPortfolio | src/pages/AdminEdit.tsx:75-136 | loading a saved project gives the form back, less the article-only fields |
| AdminEdit.HandleSave | src/pages/AdminEdit.tsx:100-171 | nothing is written exactly when title, excerpt or body is empty; otherwise the file is at the slug's path, the message says Create or Update, the front matter is the saved one, and the blob hash is sent only for an existing record |
| AdminEdit.HandleDelete | src/pages/AdminEdit.tsx:188-220 | nothing is deleted exactly when the confirmation is refused; otherwise the record's path is deleted with the message "Delete type: title" |
| AdminEdit.SamePath | src/pages/AdminEdit.tsx:112 | for an existing record, the path `loadContent` reads (line 61) is the one the update writes (line 112) and the delete removes (line 194) |
| AdminEdit.AddTag | src/pages/AdminEdit.tsx:239-244 | a new non-empty tag is appended and the input cleared; otherwise nothing changes |
| AdminEdit.RemoveTag | src/pages/AdminEdit.tsx:246-251 | removing a tag changes only the tags |
| AdminEdit.AddTagNoDuplicates | src/pages/AdminEdit.tsx:239-244 | adding keeps a duplicate-free tag list duplicate-free |
| AdminEdit.WithoutCounts | src/pages/AdminEdit.tsx:249 | every occurrence of the removed tag goes and every other tag stays as often as it was |
| AdminEdit.WithoutAppend | src/pages/AdminEdit.tsx:249 | removal distributes over concatenation, so the remaining tags keep their order |
| AdminEdit.RemoveTagNoDuplicates | src/pages/AdminEdit.tsx:246-251 | removing keeps a duplicate-free tag list duplicate-free |
| Tina.FilenameOf | src/lib/tina.ts:60 | a file stored as `dir/name.mdx` is named `name` when the name has no slash and no dot |
| Tina.SavedProjectFound | src/lib/tina.ts:60 | the loader names a project saved from the editor by its slug (the editor's path is built in src/pages/AdminEdit.tsx lines 109-112) |
| Tina.ProjectFields | src/lib/tina.ts:60-75 | a project record takes its file's name; title, client, category, tags, excerpt, featured and image are each the front-matter value when it is truthy and otherwise the field's default (category "web"); body, link and the SEO fields are passed through as given |
| Tina.ProjectDefaultsTruthy | src/lib/tina.ts:62-75 | category, tags and image of a project are always truthy |
| Tina.GetPortfolioProjects | src/lib/tina.ts:54-79 | one record per file, in file order, each the record of that file |
| Tina.FindFirst | src/lib/tina.ts:83 | `find` gives nothing exactly when no entry has the name, else the first entry that has it (and line 116) |
| Tina.GetPortfolioProjectBySlug | src/lib/tina.ts:81-84 | nothing exactly when no file has the slug as its name, else the record of the first such file |
| Tina.ArticleFields | src/lib/tina.ts:92-107 | an article record takes its file's name; title, excerpt, category, date, reading time, featured, author and image are each the front-matter value when it is truthy and otherwise the default (category "insights", the given current time, 5, "nordAi Team"); body and the SEO fields are passed through as given |
| Tina.ArticlesOf | src/lib/tina.ts:89-108 | one article per file, in file order |
| Tina.InsertPermutes | src/lib/tina.ts:111 | inserting an article adds exactly that article |
| Tina.InsertSorted | src/lib/tina.ts:111 | inserting into a newest-first list keeps it newest first |
| Tina.SortNewestFirstCorrect | src/lib/tina.ts:110-111 | the sort gives a newest-first permutation of its input |
| Tina.SortSorted | src/lib/tina.ts:110-111 | the sort leaves a newest-first list as it is |
| Tina.InsertStable | src/lib/tina.ts:110-111 | inserting an article keeps it ahead of the articles of the same time, in the order of `[a] + s` |
| Tina.SortStable | src/lib/tina.ts:110-111 | the sort is stable: for every time, the articles of that time come in their loaded order |
| Tina.GetBlogArticles | src/lib/tina.ts:86-112 | the articles come newest first, each file's article exactly once, as the sort of the loaded articles, which is stable (`Tina.SortStable`) |
| Tina.GetBlogArticleBySlug | src/lib/tina.ts:114-117 | nothing exactly when no file has the slug as its name, else an article of that name among the loaded ones, and the first one of that name in the newest-first list |
| RichTextEditor.Clamp | src/components/admin/RichTextEditor.tsx:18-20 | a `substring` bound is clamped into 0 to the text's length |
| RichTextEditor.Substring | src/components/admin/RichTextEditor.tsx:18-20 | `substring` is the slice between its bounds in either order, never longer than the text |
| RichTextEditor.InsertMarkdown | src/components/admin/RichTextEditor.tsx:12-33 | without the text area nothing happens; otherwise the selection is wrapped in the two markers and stays selected inside them |
| RichTextEditor.SpliceUndone | src/components/admin/RichTextEditor.tsx:16-31 | the text before and after the selection is kept, the new selection covers the old selected text, and removing the markers gives the original text back |
| RichTextEditor.SelectionPastEnd | src/components/admin/RichTextEditor.tsx:18-22 | a selection end past the text is clamped to the text's end |
| RichTextEditor.PressOnAll | src/components/admin/RichTextEditor.tsx:35-43 | a toolbar button pressed with the whole text selected wraps it in that button's markers |
| RichTextEditor.Heading2Parses | src/components/admin/RichTextEditor.tsx:36 | Heading 2 on a clean one-line text gives a level-2 heading in the saved body (parsed by src/pages/FullAdmin.tsx lines 71-72) |
| RichTextEditor.Heading3Parses | src/components/admin/RichTextEditor.tsx:37 | Heading 3 gives a level-3 heading (parsed by src/pages/FullAdmin.tsx lines 69-70) |
| RichTextEditor.BulletParses | src/components/admin/RichTextEditor.tsx:40 | Bullet List gives a one-item bullet list (parsed by src/pages/FullAdmin.tsx lines 75-82) |
| RichTextEditor.NumberedParses | src/components/admin/RichTextEditor.tsx:41 | Numbered List gives a one-item ordered list (parsed by src/pages/FullAdmin.tsx lines 83-90) |
| RichTextEditor.FindClose | src/components/admin/RichTextEditor.tsx:66 | the lazy group before "](" ends at the first "](" on the line, and there is none when no "](" is reachable without crossing a line end |
| RichTextEditor.FindParen | src/components/admin/RichTextEditor.tsx:66 | the lazy group before ")" ends at the first ")" on the line |
| RichTextEditor.RenderPreview | src/components/admin/RichTextEditor.tsx:45-81 | the preview has one element per line of the text, each the line's classification |
| RichTextEditor.BreakIffBlank | src/components/admin/RichTextEditor.tsx:71-79 | a line shows as a line break exactly when it is blank |
| RichTextEditor.PreviewAgreesWithParser | src/components/admin/RichTextEditor.tsx:50-78 | a line previewed as a heading or a paragraph is saved as that heading or paragraph with the same text (the parser is src/pages/FullAdmin.tsx lines 66-93) |
| RichTextEditor.ImageLineMatches | src/components/admin/RichTextEditor.tsx:66 | the image pattern matches `![alt](src)` with that alt text and source |
| RichTextEditor.ImageLineShown | src/components/admin/RichTextEditor.tsx:65-70 | such a line is previewed as that image |
| Contact.EmailOkIff | api/contact.ts:18-19 | the handler's scan accepts exactly the texts `^[^\s@]+@[^\s@]+\.[^\s@]+$` matches |
| Contact.NumbersNeverPass | api/contact.ts:18-19 | a number or truth value given as e-mail never passes |
| Contact.Handle | api/contact.ts:5-60 | a method other than POST gets 405; a request without a body gets 500 |
| Contact.AcceptedIff | api/contact.ts:3-56 | a submission is accepted, with the thank-you message, exactly when it is a POST whose name, e-mail and message are truthy and whose e-mail matches the pattern |
| Contact.FirstFailureDecides | api/contact.ts:13-21 | missing fields are reported before a bad e-mail; a bad e-mail only when every field is present |
| Contact.CompanyIgnored | api/contact.ts:10 | the company never changes the response |
| ImageUploader.CheckFile | src/components/admin/ImageUploader.tsx:18-28 | a file is accepted exactly when its type opens "image/" and it has at most 5 MiB; the type is checked first |
| ImageUploader.SizeBoundary | src/components/admin/ImageUploader.tsx:25 | a file of exactly 5 MiB passes, one byte more does not |
| ImageUploader.PreviewOf | src/components/admin/ImageUploader.tsx:138-158 | no preview for an empty URL, the image for a URL opening "data:" or "http", "Invalid image URL" otherwise |
| ImageUploader.RelativePathInvalid | src/components/admin/ImageUploader.tsx:142 | a site-relative path, the editor's default image among them, shows as an invalid URL |
| ImageUploader.PlaceholderInvalid | src/components/admin/ImageUploader.tsx:142 | the editor's placeholder image shows as an invalid URL (the default is set in src/pages/AdminEdit.tsx line 43) |
| ImageUploader.Uploader.constructor | src/components/admin/ImageUploader.tsx:9-11 | the preview starts as the current image or empty, and nothing is uploading |
| ImageUploader.Uploader.HandleUrlInput | src/components/admin/ImageUploader.tsx:64-67 | the URL is shown and reported to the parent |
| ImageUploader.Uploader.ClearImage | src/components/admin/ImageUploader.tsx:69-75 | the preview and the parent's image become empty and a mounted file input is emptied |
| ImageUploader.Uploader.HandleFileSelect | src/components/admin/ImageUploader.tsx:13-62 | no file does nothing; a rejected file raises its alert; an accepted file starts the reader, and the handler ends with the uploading flag lowered |
| ImageUploader.Uploader.StartFileSelect | src/components/admin/ImageUploader.tsx:13-30 | the intended handler keeps the flag raised while the reader works |
| ImageUploader.Uploader.FinishFileSelect | src/components/admin/ImageUploader.tsx:35-39 | the reader's completion shows and reports the data URL and lowers the flag |
| ImageUploader.SpinnerNeverShown | src/components/admin/ImageUploader.tsx:30-60 | as written, "Uploading..." is never rendered for an accepted file |
| ImageUploader.SpinnerShownWhileReading | src/components/admin/ImageUploader.tsx:30-39 | with the intended handler it is rendered until the reader completes, and then the data URL is previewed |
| AdminGuard.ExpectedPassword | src/components/AdminGuard.tsx:34 | the configured password when it is non-empty, else "admin123" |
| AdminGuard.ViewOf | src/components/AdminGuard.tsx:47-118 | a production build shows nothing; otherwise the admin pages show exactly when authenticated, the login form with the error otherwise |
| AdminGuard.Guard.constructor | src/components/AdminGuard.tsx:10-12 | the guard starts unauthenticated with an empty password and no error |
| AdminGuard.Guard.Mount | src/components/AdminGuard.tsx:16-28 | a stored flag of exactly "true" restores authentication, and a production build is sent home |
| AdminGuard.Guard.Type | src/components/AdminGuard.tsx:76 | typing sets the password field and nothing else |
| AdminGuard.Guard.Submit | src/components/AdminGuard.tsx:30-44 | the right password authenticates, stores the flag and clears the error; a wrong one shows "Incorrect password" and clears the field; authentication always has the stored flag behind it |
| AdminGuard.DefaultPasswordOpens | src/components/AdminGuard.tsx:34-49 | without a configured password, "admin123" opens a development build; a production build shows nothing |
| AdminGuard.WrongPasswordRefused | src/components/AdminGuard.tsx:40-52 | a wrong password leaves the login form up with the error and an empty field |
| Header.HomeOnlyAtRoot | src/components/layout/Header.tsx:23 | the home link is active exactly on "/" |
| Header.SectionActive | src/components/layout/Header.tsx:24 | any other link is active on every pathname it opens, and only there |
| Header.BlogPostActivatesBlog | src/components/layout/Header.tsx:24 | "/blog/x" activates "/blog" |
| Header.OwnPageActive | src/components/layout/Header.tsx:13-25 | each link is active on its own page |
| Header.NoHrefExtendsAnother | src/components/layout/Header.tsx:13-20 | no link but the home one opens another link, and the home one opens all of them |
| Header.AtMostOneActive | src/components/layout/Header.tsx:13-25 | on any pathname at most one navigation item is active |
| Listing.SelectIsSelection | src/pages/Blog.tsx:23 | the filter keeps exactly the accepted entries, each once, in their order |
| Listing.SelectCounts | src/pages/Blog.tsx:23 | an accepted entry is kept as often as it occurs, any other is dropped |
| Listing.SelectAppend | src/pages/Blog.tsx:23 | filtering two lists joined is joining their filtered lists |
| Listing.SelectCons | src/pages/Blog.tsx:23 | filtering a list with one more entry in front keeps that entry in front exactly when it is accepted |
| Listing.SelectAll | src/pages/Portfolio.tsx:24 | a filter that accepts everything keeps the list as it is |
| Listing.SelectEmpty | src/pages/Blog.tsx:23 | the result is empty exactly when no entry is accepted |
| Blog.FilteredArticles | src/pages/Blog.tsx:21-23 | the filtered list is never longer than the loaded one |
| Blog.AllShowsEverything | src/pages/Blog.tsx:21-22 | "all" shows the loaded articles unchanged |
| Blog.FilterExactly | src/pages/Blog.tsx:23 | any other category shows exactly the articles of that category, in their order, each as often as loaded, and no other article |
| Blog.MessageIff | src/pages/Blog.tsx:97-99 | "No articles found" shows exactly when no loaded article passes the filter |
| Blog.DefaultCategoryHasButton | src/pages/Blog.tsx:10 | an article without a category is listed under "insights", which has a button (the default comes from src/lib/tina.ts line 97) |
| Blog.UnlistedOnlyUnderAll | src/pages/Blog.tsx:10-23 | an article whose category has no button shows only under "all" |
| Portfolio.FilteredProjects | src/pages/Portfolio.tsx:22-24 | the filtered list is never longer than the loaded one |
| Portfolio.AllShowsEverything | src/pages/Portfolio.tsx:22-23 | "all" shows the loaded projects unchanged |
| Portfolio.FilterExactly | src/pages/Portfolio.tsx:24 | any other category shows exactly the projects of that category, in their order, and no other |
| Portfolio.DefaultCategoryHasButton | src/pages/Portfolio.tsx:11 | a project without a category is listed under "web", which has a button (the default comes from src/lib/tina.ts line 65) |
| BlogPost.RequestPath | src/pages/BlogPost.tsx:26-31 | nothing is requested exactly when the slug is absent or empty; otherwise `slug.mdx` |
| BlogPost.RequestedFileFound | src/pages/BlogPost.tsx:29-31 | the file requested for a slug is the one the blog loader names by that slug (named as in src/lib/tina.ts line 92) |
| BlogPost.ScreenCases | src/pages/BlogPost.tsx:24-139 | without a slug the page stays on "Loading article..."; with one it shows the article or "Article Not Found" by the answer |
| BlogPost.PrototypeKeysNotLabels | src/pages/BlogPost.tsx:52-59 | no inherited property name is one of the table's own keys |
| BlogPost.KnownLabels | src/pages/BlogPost.tsx:52-59 | ai, automation, design, insights and trends show as AI, Automation, Design, Insights and Trends |
| BlogPost.UnknownShownAsItself | src/pages/BlogPost.tsx:60 | any other category is shown as it is, and a label is empty only for the empty category |
| BlogPost.BlogCategoriesLabelled | src/pages/BlogPost.tsx:52-59 | every blog filter category but "all" has a label of its own (the buttons are in src/pages/Blog.tsx line 10) |
| BlogPost.AsWrittenAgrees | src/pages/BlogPost.tsx:52-60 | the lookup as written gives the intended label exactly for the categories that are not inherited property names |
| BlogPost.ToStringNotShown | src/pages/BlogPost.tsx:60 | as written, the category "toString" yields an inherited function instead of the text, so no label is shown |
| BlogPost.RenderBody | src/pages/BlogPost.tsx:64-66 | a missing body or missing children render as nothing; otherwise one entry per child node |
| BlogPost.BlockMatchesMarkdown | src/pages/BlogPost.tsx:67-113 | only an unknown node renders nothing; each known node shows the text the editors' Markdown shows for it, a list one entry per item (the serialiser is src/pages/FullAdmin.tsx lines 41-56) |
| BlogPost.SavedBodyFullyShown | src/pages/BlogPost.tsx:64-113 | each block of a body saved from the editor's Markdown is rendered (the parser is src/pages/FullAdmin.tsx lines 60-97) |
| BlogPost.UnchangedSaveSamePage | src/pages/BlogPost.tsx:64-113 | opening a well-formed body in the editor and saving it unchanged leaves the article page as it was (through src/pages/FullAdmin.tsx lines 39-97) |

## Left out

- Network and storage calls are left out:
  - the Git hosting API (fetching a file, PUT, DELETE);
  - the content client;
  - the local GraphQL endpoint;
  - the token and session storage reads.
  The model covers the requests the code builds and the state changes that
  follow. The answers are parameters.
- Front matter is given as a parsed document; parsing and `matter.stringify` are not modelled. The base-64 encoding of the written file is left out too.
- `AdminEdit.LoadSavedBlog` and `AdminEdit.LoadSavedPortfolio`: the round trip is stated on the parsed document. gray-matter's `stringify` ends the content with a newline, and its parse keeps it, so a body without a trailing newline loads back with one; that is not modelled.
- Alerts, the save message and `console` logging are left out, because they do not change the modelled state. Navigation is modelled only for the admin guard's redirect home (`AdminGuard.Guard.Mount`).
- The timer that closes the editor two seconds after a successful save is `FullAdmin.CloseAfterSave` on the full page (src/pages/FullAdmin.tsx lines 236-241). On the simple page (src/pages/SimpleAdmin.tsx lines 216-220) it sets the open project to none, which the model does not give a member of its own. The list reload both timers start is left out with the content client.
- Dates: `new Date(...).getTime()` is a parameter of the blog sort, and the current time is a parameter of the loader. Invalid dates (NaN) are not modelled. `formatDate` in Blog.tsx and BlogPost.tsx is locale formatting and is left out.
- `Text.Lower`: only ASCII letters are lower-cased, while `toLowerCase` also maps other letters. Slugs of non-ASCII titles are therefore not modelled faithfully.
- Record fields: a front-matter value of a type other than the record's field type is treated as missing in `AdminEdit.LoadForm`, while JavaScript would keep it.
- `Contact.AsText`: covers the front-matter value kinds only. A JSON object or nested array given as a field is not modelled.
- `RichTextEditor.ClassifyLine`: a paragraph keeps its trimmed text. The inline bold and italic replacement into an HTML string, set through `dangerouslySetInnerHTML`, is not modelled.
- `RichTextEditor.InsertMarkdown`: the refocus and selection after `setTimeout` are returned as the new selection. The text area is looked up by element id, and its absence is the `None` input.
- Bold, Italic and Image buttons: only their wrapping is modelled. No Markdown parse is proved for them, because the parser has no inline or image nodes.
- `ImageUploader`: the `FileReader` is external. In the as-written component its `onload` is modelled as a call to `HandleUrlInput`. Image load errors are not modelled.
- `AdminEdit.LoadSavedBlog` and `AdminEdit.LoadSavedPortfolio`: require a non-empty image, because an empty image loads back as the placeholder.
- `FullAdmin` and `AdminEdit` reading time: the form parses it with `parseInt` (src/pages/FullAdmin.tsx line 445, src/pages/AdminEdit.tsx line 366), which gives NaN for a text that is not a number. `FormData.readTime` and `ArticleReadTime` hold an `int`, so NaN is not modelled.
- `RichTextEditor.Clamp`, `Substring` and `InsertMarkdown`: JavaScript indexes strings by UTF-16 code units, while the model indexes by Dafny characters. Text with characters outside the Basic Multilingual Plane is not modelled faithfully.
- `FrontMatter.Num`: holds integers only. YAML floats and the `Date` values a YAML parser makes of unquoted dates are not represented.
- Header's mobile menu toggle, the listing pages' card markup and the page layouts are presentation only.
- The repository's copy of `renderBody` in `CaseStudy.tsx` is not part of this model.
- The full admin page's `fetchData` and the simple page's `fetchProjects` only load lists through the content client, so they are left out.

## Findings

| source | as written | input that shows it | evidently intended | confidence | as-written member | corrected member |
|---|---|---|---|---|---|---|
| src/pages/FullAdmin.tsx:115-121 | the effect that fills the Markdown editor depends on the open record object, and every field edit (250-253) makes a new one, so the typed Markdown is replaced by the stored body's | open a project without a body, type "# Draft", edit the title, save: the body sent is empty | field edits leave the typed Markdown alone; the article editor (255-258) behaves the same way | not executed; high | FullAdmin.EditProjectAsWritten, FullAdmin.EditArticleAsWritten, FullAdmin.EditDiscardsDraft | FullAdmin.EditProject, FullAdmin.EditKeepsDraft |
| src/pages/SimpleAdmin.tsx:388-389 | the Markdown box shows the serialised stored body and each change stores the parse, so trailing white space is parsed away before the next key | keys '#', ' ', 'A' typed into an empty box give the paragraphs "#" and "A" | the box keeps its own text and "# A" becomes a heading | not executed; high | SimpleAdmin.TypeAtEnd, SimpleAdmin.HeadingNotTypeable | SimpleAdmin.TypeKey, SimpleAdmin.HeadingTypeable |
| src/pages/BlogPost.tsx:52-60 | `labels[category] \|\| category` also finds properties inherited from `Object.prototype` | an article with category "toString" shows no label, because React renders a function as nothing; with category `__proto__` the page fails to render, because the lookup yields an object | only the table's own entries are labels, any other category shows as itself | not executed; medium | BlogPost.CategoryLabelAsWritten, BlogPost.ToStringNotShown | BlogPost.CategoryLabel, BlogPost.AsWrittenAgrees |
| src/components/admin/ImageUploader.tsx:30-60 | the uploading flag is raised and lowered in the same synchronous handler, before the reader completes | select any image file of at most 5 MiB: "Uploading..." never appears | the flag is lowered when the reader completes | not executed; high | ImageUploader.Uploader.HandleFileSelect, ImageUploader.SpinnerNeverShown | ImageUploader.Uploader.StartFileSelect, ImageUploader.Uploader.FinishFileSelect, ImageUploader.SpinnerShownWhileReading |
