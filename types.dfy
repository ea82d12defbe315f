/** The records the build passes around, and the foreign libraries it calls.
    Front-matter parsing (gray-matter), Markdown rendering (markdown-it),
    syntax highlighting (highlight.js), HTML escaping and template rendering
    (ejs) are not modelled: a `Libraries` value supplies them as functions,
    and every property below holds whichever functions it supplies. */
module Types {
  import opened Common

  /** A configuration or front-matter value that the core passes through. */
  datatype Value = Bool(b: bool) | Number(n: int) | Text(s: string) | Null

  /** `config.site`: opaque site metadata handed to every template. */
  type Site = map<string, Value>

  /** `config`: the site metadata and the optional `markdown` options object. */
  datatype Config = Config(site: Site, markdown: Option<map<string, Value>>)

  /** The front-matter fields the core reads. A field that is missing, or that
      holds a falsy value, is None; `extra` carries every other field. */
  datatype FrontMatter = FrontMatter(
    title: Option<string>,
    date: Option<int>,
    tags: Option<seq<string>>,
    slug: Option<string>,
    excerpt: Option<string>,
    extra: map<string, Value>)

  /** The page record pushed for each Markdown file (src/build.js:126-136).
      A date is a comparable timestamp. */
  datatype Page = Page(
    title: string,
    date: Option<int>,
    tags: seq<string>,
    slug: string,
    urlPath: string,
    content: string,
    excerpt: string,
    frontmatter: FrontMatter,
    sourcePath: string)

  /** A directory entry as `fs.readdir(dir, { withFileTypes: true })` reports it:
      a regular file with its text, a directory with its entries in the order the
      file system lists them, or anything else (a socket, a device, ...). */
  datatype Entry =
    | File(name: string, text: string)
    | Directory(name: string, entries: seq<Entry>)
    | Special(name: string)

  /** The markdown-it instance `setupMarkdown` returns: its options and the
      `highlight` callback installed on it, if any. */
  datatype Renderer = Renderer(
    options: map<string, Value>,
    highlight: Option<(string, string) -> string>)

  /** One entry of the tags index: a tag and how many pages carry it. */
  datatype TagSummary = TagSummary(name: string, count: nat)

  /** The data object handed to `ejs.render` for each kind of output file. */
  datatype TemplateContext =
    | PageContext(page: Page, site: Site, pages: seq<Page>)
    | IndexContext(pages: seq<Page>, site: Site)
    | TagContext(pages: seq<Page>, tag: string, site: Site)
    | TagsIndexContext(tags: seq<TagSummary>, site: Site)

  /** The template texts read from the layouts directory. `tag` and `tags` are
      None when `tag.ejs` or `tags.ejs` cannot be read. */
  datatype Layouts = Layouts(page: string, index: string, tag: Option<string>, tags: Option<string>)

  /** The foreign functions the core calls.
      - parseFrontMatter: gray-matter; None when it throws on malformed front matter.
      - renderMarkdown: `md.render`.
      - stripMarkup: the chain of regular-expression replacements at the start of
        `extractExcerpt` (src/build.js:155-161), which removes headings, images,
        links, emphasis and code.
      - escapeHtml: `md.utils.escapeHtml`.
      - isKnownLanguage: `hljs.getLanguage(lang)` is truthy.
      - highlight: `hljs.highlight(...).value`; None when it throws.
      - renderTemplate: `ejs.render`. */
  datatype Libraries = Libraries(
    parseFrontMatter: string -> Option<(FrontMatter, string)>,
    renderMarkdown: (Renderer, string) -> string,
    stripMarkup: string -> string,
    escapeHtml: string -> string,
    isKnownLanguage: string -> bool,
    highlight: (string, string) -> Option<string>,
    renderTemplate: (string, TemplateContext) -> string)
}
