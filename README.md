# simple-static, modelled in Dafny

simple-static is a static-site generator. A build reads a tree of Markdown files with front
matter, turns each file into a page record (slug, title, URL path, rendered HTML, excerpt,
tags), sorts the pages newest first, and writes one HTML file per page, an index, one file
per distinct tag and a tags index. The development server rebuilds the site when files
change. A change that arrives during a build is remembered, and the server runs one
follow-up build once the current build ends.

This project models the decisions the build makes and the server's rebuild coordination:

- `common.dfy` (`Common`): an option type, prefix and suffix tests, and JavaScript
  truthiness of optional strings.
- `paths.dfy` (`Paths`): Node's POSIX `path.join` and `path.normalize`, written out
  segment by segment. Every URL path and output path is built with them.
- `types.dfy` (`Types`): the page record, the directory tree, the configuration, the
  template contexts, and the `Libraries` record of foreign functions.
- `excerpt.dfy` (`Excerpt`): `extractExcerpt`, covering the newline collapsing, the
  ECMAScript `trim` and the truncation with `...`.
- `markdown.dfy` (`Markdown`): `setupMarkdown`, covering the option merge and the
  highlight callback with its escaped fallback.
- `pages.dfy` (`Pages`): the page record with its defaulting rules, the recursive
  directory walk (`processDirectory`) and `processMarkdownFiles`.
- `datesort.dfy` (`DateSort`): the date-descending sort.
- `tags.dfy` (`Tags`): the tag set in first-seen order, the per-tag page filter and the
  tag counts.
- `output.dfy` (`Output`): `generateHtmlFiles`, giving the sequence of file writes and
  their paths. It also folds the writes into the final directory contents.
- `build.dfy` (`Build`): `buildSite`, from the Markdown setup to the page count.
- `serve.dfy` (`Serve`): the `rebuilding` / `pendingRebuild` coordinator as a class with
  an invariant, plus a whole event sequence driven through it.

The foreign libraries (gray-matter, markdown-it, highlight.js, ejs) and the
markup-stripping regular expressions are fields of a `Libraries` value. Every property
holds whatever those functions compute. gray-matter and `hljs.highlight` can throw; their
fields return `None` for that case. The file system is a value: the content tree is an
`Entry` tree, and the writes are returned as a sequence.

## Model

| member | source | states |
|---|---|---|
| Paths.Normalize | src/build.js:121 | `path.normalize` never returns the empty string, and an absolute path stays absolute. Paths.NormalizeClean and Paths.NormalizePlainAbsolute say which segments it keeps |
| Paths.PathJoin | src/build.js:105-121 | `path.join` never returns the empty string, and a join whose first part is absolute is absolute. Paths.SubdirUrl, Paths.PageUrl, Paths.JoinPlainOnto and Output.PageOutputPathSegments give its exact result on plain segments |
| Paths.JoinPlainOnto | src/build.js:221 | joining a plain name onto an absolute path of plain segments appends one segment, as for `path.join(outputDir, 'tags')` |
| Paths.SubdirUrl | src/build.js:109 | `path.join(baseUrl, name, '/')` on the URL of directory path `dirs` gives the URL of `dirs + [name]`: one more segment, with a trailing '/' |
| Paths.PageUrl | src/build.js:121 | under the directory URL of `dirs`, a plain slug gets URL path "/" followed by the directory names and the slug, joined with '/' |
| Paths.PageUrlEmptySlug | src/build.js:121 | an empty slug (the file named ".md") gets the directory's own URL |
| Paths.JoinOntoAbsolute | src/build.js:109-121 | whatever segments are joined onto an absolute base, the result starts with '/' |
| Paths.NormalizePlainAbsolute | src/build.js:191 | an absolute path made of plain segments is already normal: normalising it changes nothing |
| Paths.DirUrlSegments | src/build.js:109 | a directory URL is the directory names joined with '/', between an empty first and an empty last segment |
| Paths.SplitJoin | src/build.js:109-121 | splitting on '/' undoes joining with '/' when no segment holds a '/' |
| Paths.NormalizeClean | src/build.js:121 | normalising an absolute path of plain and empty segments keeps the plain segments in order, and keeps a trailing '/' exactly when the path ends with one |
| Excerpt.Trim | src/build.js:163 | the result of `trim()` has no white space (ECMAScript's set) at either end |
| Excerpt.TrimSpec | src/build.js:163 | `trim()` returns a contiguous slice of the input, and everything cut off on either side of it is white space |
| Excerpt.TrimTrimmed | src/build.js:163 | text with no white space at either end is its own trim, so trimming twice is trimming once |
| Excerpt.TrimKeepsOut | src/build.js:163 | a character absent from the input is absent from the trimmed text |
| Excerpt.CollapseHasNoNewline | src/build.js:162 | after `replace(/\n+/g, ' ')` no '\n' is left |
| Excerpt.CollapseWithoutNewlines | src/build.js:162 | text without newlines is left unchanged by the replacement |
| Excerpt.CollapseNewlines | src/build.js:162 | `replace(/\n+/g, ' ')` never makes the text longer. What it removes and keeps is stated by the CollapseHasNoNewline, CollapseWithoutNewlines, CollapseNewlineRun and CollapseKeepsVisible lemmas |
| Excerpt.CollapseNewlineRun | src/build.js:162 | a newline-free prefix, then a run of one or more newlines, then text not starting with a newline: the prefix stays, the whole run becomes one space, and the rest is collapsed on its own |
| Excerpt.CollapsePlainPrefix | src/build.js:162 | a newline-free prefix passes through unchanged, and the rest is collapsed on its own |
| Excerpt.CollapseTwoParagraphs | src/build.js:162 | two newline-free lines separated by a blank line become the two lines separated by one space |
| Excerpt.PlainText | src/build.js:154-163 | the stripped, collapsed and trimmed text has no '\n' and no white space at either end |
| Excerpt.CollapseKeepsVisible | src/build.js:162 | collapsing newlines changes only white space; the other characters stay, in order |
| Excerpt.ExtractExcerpt | src/build.js:152-171 | the excerpt has no '\n'. If the plain text fits in `length`, the excerpt is that text, with no white space at either end. Otherwise it is its first `length` characters trimmed, plus "...", at most `length + 3` long |
| Excerpt.ExcerptOfTwoParagraphs | src/build.js:154-170 | a stripped heading and paragraph separated by a blank line become "heading paragraph" when they fit in 160 characters |
| Markdown.MergeOptions | src/build.js:64-69 | the options hold every default key and every user key; the user's value wins where both give one; with no user options they are the defaults |
| Markdown.HighlightBlock | src/build.js:76-84 | the output is wrapped in `<pre class="hljs"><code>`…`</code></pre>`. It holds the escaped source when the language is missing or unknown, or when highlighting throws; otherwise it holds highlight.js's markup |
| Markdown.HighlightEnabled | src/build.js:74 | highlighting is on when the configuration has no `markdown` object, and otherwise exactly when the merged options do not set `highlightCode` to the boolean `false` |
| Markdown.SetupMarkdown | src/build.js:63-89 | the renderer carries the merged options, and a highlight callback exactly when `highlightCode` is not `false`; the callback behaves as HighlightBlock |
| Common.OrElse | src/build.js:118-133 | the JavaScript or-operator on an optional string and a fallback, as for the slug, title and excerpt defaults: the result is one of the two operands, it is the first when that is truthy, and it is truthy exactly when one of them is |
| Pages.BaseName | src/build.js:117 | `path.basename(name, '.md')` is the name without the ".md" suffix |
| Pages.MakePage | src/build.js:113-136 | the slug is the front-matter slug if truthy, else the file name minus ".md". The title is the front-matter title if truthy, else the slug. A truthy front-matter excerpt is used verbatim, else the excerpt is computed from the body. Missing tags become []. The URL path is `path.join(baseUrl, slug)` and is absolute when the base is. The result is None exactly when the front matter cannot be parsed |
| Pages.ProcessDirectory | src/build.js:101-139 | after the loop, the shared page list is the list it started with plus the tree's pages in listing order, subdirectories in place; if some front matter cannot be parsed the call fails |
| Pages.ProcessEntry | src/build.js:105-137 | one iteration of the loop: a directory appends its subtree's pages, a Markdown file appends its one page, any other entry appends nothing; a file whose front matter cannot be parsed fails |
| Pages.FilePage | src/build.js:111-136 | a Markdown file contributes exactly one page, unless its front matter cannot be parsed |
| Pages.MarkdownFiles | src/build.js:104-111 | the files the walk visits, in walk order, are Markdown files: every name ends with ".md" |
| Pages.FilesUnder | src/build.js:109-110 | each file found below a directory reached through `dirs` sits under `dirs` followed by plain directory names |
| Pages.WalkIsFileMap | src/build.js:101-139 | `processDirectory` (ScanEntries over the entries, EntryPages for one entry) called on a directory with base URL `DirUrl(dirs)` builds, in walk order, the pages of its Markdown files one by one, each from the URL of the directory that holds it |
| Pages.MapFilesAt | src/build.js:104-136 | when each file yields one page, the k-th page of the walk is the page of the k-th Markdown file |
| Pages.ScanPageUrls | src/build.js:101-136 | from the content root, the k-th page is made from the k-th Markdown file with the URL of its own directory; its URL path is `path.join` of that URL and the slug, and for a plain slug it is "/" followed by the directory names and the slug |
| Pages.ConcatAssoc | src/build.js:101-139 | pages collected in one list in several steps are the same as the steps' results joined, failure included |
| Pages.ProcessMarkdownFiles | src/build.js:94-147 | a missing content directory gives no pages; otherwise the result is the tree's pages sorted newest first, or a failure |
| Pages.ScanCount | src/build.js:107-111 | a successful walk yields exactly one page per Markdown file in the tree; other files, special entries and directories yield none |
| Pages.ScanFailsIff | src/build.js:114 | the walk fails if and only if some Markdown file in the tree has unparseable front matter |
| Pages.ScanUrlsAbsolute | src/build.js:109-121 | from the root URL "/", every page's URL path starts with '/', at any depth and whatever the slugs |
| Pages.ScanStep | src/build.js:103-138 | the loop invariant step: after entry i the shared list is the starting list plus the pages of the entries up to and including i |
| Pages.FailurePersists | src/build.js:114 | once the entries up to some point have failed, the whole directory fails |
| DateSort.SortByDateDesc | src/build.js:144 | the sort keeps the number of pages. DateSort.SortPermutes, DateSort.SortOrders and DateSort.SortStable state what it does to them |
| DateSort.SortPermutes | src/build.js:144 | the sort loses and adds no page, dated or not: the result is a permutation of the input |
| DateSort.SortOrders | src/build.js:144 | when every page has a date, every page is at least as new as all the pages after it |
| DateSort.SortStable | src/build.js:144 | pages that share a date keep their original relative order |
| Tags.AllTags | src/build.js:214-218 | a tag occurs in the concatenation exactly when some page carries it |
| Tags.Dedup | src/build.js:213-216 | the deduplicated sequence has the same elements as its input, each exactly once |
| Tags.DedupFirstSeenOrder | src/build.js:213-216 | `Set` insertion order: of two distinct tags, the one first met earlier comes earlier |
| Tags.DistinctTags | src/build.js:213-218 | the tag set holds no tag twice, and holds exactly the tags some page carries |
| Tags.DistinctTagsSpec | src/build.js:213-218 | the tag set holds each tag that some page carries exactly once, and no other tag, in first-seen order |
| Tags.AddTags | src/build.js:215-217 | the inner `forEach` turns the set of the tags seen so far into the set of those tags followed by the page's tags |
| Tags.CollectTags | src/build.js:213-218 | the nested `forEach` loops build exactly the distinct tags in first-seen order |
| Tags.TagPages | src/build.js:233 | a page is on a tag's page exactly when it is one of the pages and carries the tag |
| Tags.TagPagesInOrder | src/build.js:233 | a tag page lists its pages in the order of the page list |
| Tags.TagPagesAppend | src/build.js:233 | filtering a concatenation filters each part |
| Tags.TagPagesAll | src/build.js:233 | when every page carries the tag, the tag page lists all the pages |
| Tags.TagPagesNonEmpty | src/build.js:233 | every tag in the set has at least one page |
| Tags.TagSummaries | src/build.js:247-250 | one entry per tag, in set order, named after the tag, whose count is the size of its tag page |
| Tags.TagIndexCounts | src/build.js:247-250 | on the tags index, each count is between 1 and the number of pages and equals the length of the tag page |
| Tags.NoTagsNoSet | src/build.js:213-220 | when no page has a tag, the tag set is empty |
| Tags.TagIndexExample | src/build.js:213-250 | pages tagged ["a"], ["a", "b"] and ["b"] give the tag set ["a", "b"] and the summary a: 2, b: 2 |
| Output.StripLeadingSlash | src/build.js:191 | `replace(/^\//, '')` removes exactly one leading '/', and leaves a path without one unchanged |
| Output.PageOutputPath | src/build.js:191 | a page's output path is never empty and is absolute when the output directory is |
| Output.PageOutputPathSegments | src/build.js:191 | a page with URL "/u1/…/un" is written to "<outputDir>/u1/…/un/index.html" |
| Output.NestedPageFile | src/build.js:191 | a page with a plain slug under plain directories `dirs` is written to "<outputDir>/<dirs>/<slug>/index.html", the URL being built as `path.join(baseUrl, slug)` (src/build.js:121) |
| Output.TagFilePath | src/build.js:234 | a tag file's path is never empty and is absolute when the output directory is |
| Output.TagFilePathSegments | src/build.js:221-234 | a tag without '/' is written to "<outputDir>/tags/<tag>.html" |
| Output.TagsIndexPathSegments | src/build.js:246 | the tags index is written to "<outputDir>/tags/index.html" |
| Output.WritePages | src/build.js:190-201 | one write per page, in page order, to the page's output path, rendered with `page.ejs` and the page, site and all pages |
| Output.WriteTagPages | src/build.js:232-243 | one write per tag, in set order, to `tags/<tag>.html`, rendered from the tag's pages with `tag.ejs` (or `index.ejs` when it is missing) |
| Output.GenerateHtmlFiles | src/build.js:176-266 | the page files, then the index. Then, only when some page has a tag, one file per distinct tag in set order, and the tags index last, rendered with `tags.ejs` or `index.ejs`. No tag file is written when the tag set is empty |
| Output.Files | src/build.js:200 | a path is in the output directory exactly when some write went to it |
| Output.LastWriteWins | src/build.js:200-264 | a write that no later write overwrites determines the file's content |
| Build.BuildSite | src/build.js:43-52 | a missing content directory gives a build with no pages. Otherwise the build fails exactly when some front matter cannot be parsed, reports one page per Markdown file, and writes at least one file per page plus the index. No write fails in the model (see "## Left out") |
| Serve.RebuildCoordinator.constructor | src/serve.js:50-51 | the coordinator starts idle with nothing pending |
| Serve.RebuildCoordinator.Request | src/serve.js:53-60 | during a build, a request only sets `pendingRebuild`; the state after one or many such requests is the same. When idle, a request sets `rebuilding` and starts exactly one build. The invariant is kept |
| Serve.RebuildCoordinator.Complete | src/serve.js:62-78 | completion, whether the build succeeded or failed, clears `rebuilding`. With a request pending, it clears `pendingRebuild` and starts exactly one follow-up build; otherwise it goes idle. Afterwards every request has been followed by a build start |
| Serve.Run | src/serve.js:53-94 | over any event sequence: no more builds start than there were change events, and at least one starts if there was any change. `pendingRebuild` implies `rebuilding`. A change always leaves a build in flight |

The class invariant `Serve.RebuildCoordinator.Valid` states what holds at every event
boundary: `pendingRebuild` implies `rebuilding`; a request not yet followed by a build
start is remembered as pending; builds started plus the pending one never exceed the
requests.

The excerpt keeps punctuation. For `# Title\n\nSome **bold** text with a [link](http://x).`
the excerpt ends with the period (`Excerpt.ExcerptOfTwoParagraphs`).

Directory-entry names from `readdir` are never empty, never "." or "..", and never hold
a '/'. The lemmas about the walk's URLs (`Pages.WalkIsFileMap`, `Pages.ScanPageUrls`)
assume exactly this of the content tree, through `Pages.PlainEntries`.

## Left out

- File-system I/O. This covers `readdir`, `readFile`, `writeFile`, `ensureDir`, `emptyDir`, `pathExists` and the copy of `public/`. The content tree and the layouts are inputs; the writes are returned.
- Configuration loading (the dynamic `import`), `path.resolve` against the working directory, the theme-directory choice and the fall-back to the bundled layouts. A `Layouts` value stands for the templates that were read.
- gray-matter, markdown-it rendering, highlight.js, `escapeHtml` and ejs. These are functions supplied in `Libraries`. A template error, which aborts the build, is not modelled.
- The regular-expression markup stripping in `extractExcerpt` (src/build.js:155-161). It is the supplied `stripMarkup` function.
- JavaScript strings are UTF-16. The model counts Dafny characters, so lengths differ for text outside the Basic Multilingual Plane.
- Front-matter values of unexpected types. Examples are a numeric slug or title, or a `tags` value that is not an array of strings. The record reads those fields as optional strings and an optional string list.
- DateSort.SortOrders: requires every page to be dated. `new Date(undefined)` is NaN, so comparisons with an undated page count as equal. The engine's order is then implementation-defined. The model fixes one order (a stable insertion sort) and states no ordering property for undated pages.
- Dates are integers, and `new Date` parsing is not modelled.
- URL paths and output paths need not be unique. Two pages, or a page with slug "tags" and the tags index, can write the same file. The model claims no uniqueness; `Output.LastWriteWins` says which write survives.
- Tag names are used as file names as they are, with no sanitisation.
- Build.BuildSite: reports a successful build even when a write would fail. A tag holding a '/' (such as "a/b") names a file in a directory below `tags/`. src/build.js:222 creates only `tags/`, so the `writeFile` at src/build.js:242 throws and `buildSite` rethrows (src/build.js:53-56). The model has no failing writes.
- Output.Files: holds every write, including one into a directory that was never created (the tag "a/b" above). `writeFile` would throw there instead.
- The development server's HTTP serving, file watching, spinner and console output, SIGINT handling and asynchronous interleaving. The coordinator is driven by discrete request and completion events.
- src/index.js (command-line wiring and project scaffolding) is not part of this model.
