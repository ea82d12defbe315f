/** `processMarkdownFiles` (src/build.js:94-147): the content tree becomes one page
    record per Markdown file, in directory-listing order, then sorted newest first.
    The page record and its defaulting rules are at src/build.js:113-136. */
module Pages {
  import opened Common
  import opened Types
  import opened Paths
  import Excerpt
  import DateSort

  const MarkdownSuffix: string := ".md"

  /** `path.basename(name, '.md')` for a directory entry's name, which never holds
      a '/': the name without its ".md" suffix (the empty string for ".md" itself). */
  function BaseName(name: string): (r: string)
    requires EndsWith(name, MarkdownSuffix)
    ensures r + MarkdownSuffix == name
  {
    var r := name[..|name| - 3];
    assert name == name[..|name| - 3] + name[|name| - 3..];
    r
  }

  /** The page built from one Markdown file `name` with text `text`, found in the
      directory `dir` whose URL prefix is `baseUrl`; None when the front matter
      cannot be parsed, which aborts the build. */
  function MakePage(libs: Libraries, md: Renderer, dir: string, baseUrl: string, name: string, text: string): (r: Option<Page>)
    requires EndsWith(name, MarkdownSuffix)
    ensures r.None? <==> libs.parseFrontMatter(text).None?
    ensures r.Some? ==>
      var (data, body) := libs.parseFrontMatter(text).value;
      var p := r.value;
      // the slug: the front-matter slug if truthy, else the file name without ".md"
      (Truthy(data.slug) ==> p.slug == data.slug.value) &&
      (!Truthy(data.slug) ==> p.slug + MarkdownSuffix == name) &&
      // the title: the front-matter title if truthy, else the slug
      p.title == (if Truthy(data.title) then data.title.value else p.slug) &&
      // the excerpt: the front-matter excerpt verbatim if truthy, else computed from the body
      p.excerpt == (if Truthy(data.excerpt) then data.excerpt.value
                    else Excerpt.ExtractExcerpt(libs.stripMarkup, body, Excerpt.DefaultLength)) &&
      // tags default to the empty list
      p.tags == (if data.tags.Some? then data.tags.value else []) &&
      p.date == data.date && p.frontmatter == data &&
      p.urlPath == PathJoin([baseUrl, p.slug]) &&
      p.content == libs.renderMarkdown(md, body) &&
      p.sourcePath == PathJoin([dir, name])
    ensures r.Some? && baseUrl != "" && baseUrl[0] == '/' ==>
      r.value.urlPath != "" && r.value.urlPath[0] == '/'
  {
    match libs.parseFrontMatter(text)
    case None => None
    case Some((data, body)) =>
      var slug := OrElse(data.slug, BaseName(name));
      assert baseUrl != "" && baseUrl[0] == '/' ==>
        PathJoin([baseUrl, slug]) != "" && PathJoin([baseUrl, slug])[0] == '/' by {
        if baseUrl != "" && baseUrl[0] == '/' {
          JoinOntoAbsolute(baseUrl, [slug]);
          assert [baseUrl] + [slug] == [baseUrl, slug];
        }
      }
      Some(Page(
        title := OrElse(data.title, slug),
        date := data.date,
        tags := if data.tags.Some? then data.tags.value else [],
        slug := slug,
        urlPath := PathJoin([baseUrl, slug]),
        content := libs.renderMarkdown(md, body),
        excerpt := OrElse(data.excerpt, Excerpt.ExtractExcerpt(libs.stripMarkup, body, Excerpt.DefaultLength)),
        frontmatter := data,
        sourcePath := PathJoin([dir, name])))
  }

  /** The URL prefix handed to a subdirectory: `path.join(baseUrl, name, '/')`. */
  function SubdirBase(baseUrl: string, name: string): string
  {
    PathJoin([baseUrl, name, "/"])
  }

  /** The page of one Markdown file, as a list of one page. */
  function FilePage(libs: Libraries, md: Renderer, dir: string, baseUrl: string, name: string, text: string): (r: Option<seq<Page>>)
    requires EndsWith(name, MarkdownSuffix)
    ensures r.Some? ==> |r.value| == 1
  {
    match MakePage(libs, md, dir, baseUrl, name, text)
    case None => None
    case Some(p) => Some([p])
  }

  /** Two page lists one after the other; a failure of either is a failure. */
  function Concat(a: Option<seq<Page>>, b: Option<seq<Page>>): (r: Option<seq<Page>>)
    ensures r.Some? <==> a.Some? && b.Some?
    ensures r.Some? ==> r.value == a.value + b.value
  {
    if a.Some? && b.Some? then Some(a.value + b.value) else None
  }

  /** The pages of a directory's entries, in order, with each subdirectory's pages
      in place of the subdirectory; None as soon as one file's front matter fails. */
  function ScanEntries(libs: Libraries, md: Renderer, dir: string, baseUrl: string, entries: seq<Entry>): Option<seq<Page>>
    decreases entries
  {
    if entries == [] then Some([])
    else
      Concat(ScanEntries(libs, md, dir, baseUrl, entries[..|entries| - 1]),
             EntryPages(libs, md, dir, baseUrl, entries[|entries| - 1]))
  }

  /** The pages one entry of the directory `dir` contributes: a subdirectory's
      pages, one page for a Markdown file, none for anything else. */
  function EntryPages(libs: Libraries, md: Renderer, dir: string, baseUrl: string, e: Entry): Option<seq<Page>>
    decreases e
  {
    match e
    case Directory(name, children) =>
      ScanEntries(libs, md, PathJoin([dir, name]), SubdirBase(baseUrl, name), children)
    case File(name, text) =>
      if EndsWith(name, MarkdownSuffix) then FilePage(libs, md, dir, baseUrl, name, text) else Some([])
    case Special(_) => Some([])
  }

  lemma ScanPrefix(libs: Libraries, md: Renderer, dir: string, baseUrl: string, entries: seq<Entry>, i: nat)
    requires i < |entries|
    ensures ScanEntries(libs, md, dir, baseUrl, entries[..i + 1]) ==
      Concat(ScanEntries(libs, md, dir, baseUrl, entries[..i]), EntryPages(libs, md, dir, baseUrl, entries[i]))
  {
    assert entries[..i + 1][..i] == entries[..i];
  }

  /** The number of Markdown files in the tree, subdirectories included. */
  function MarkdownCount(entries: seq<Entry>): nat
    decreases entries
  {
    if entries == [] then 0
    else
      MarkdownCount(entries[..|entries| - 1]) +
      match entries[|entries| - 1]
      case Directory(_, children) => MarkdownCount(children)
      case File(name, _) => if EndsWith(name, MarkdownSuffix) then 1 else 0
      case Special(_) => 0
  }

  /** Some Markdown file in the tree has front matter that cannot be parsed. */
  predicate HasUnparsable(libs: Libraries, entries: seq<Entry>)
    decreases entries
  {
    entries != [] &&
    (HasUnparsable(libs, entries[..|entries| - 1]) ||
     match entries[|entries| - 1]
     case Directory(_, children) => HasUnparsable(libs, children)
     case File(name, text) => EndsWith(name, MarkdownSuffix) && libs.parseFrontMatter(text).None?
     case Special(_) => false)
  }

  /** Exactly one page per Markdown file: no other entry yields a page. */
  lemma {:induction false} ScanCount(libs: Libraries, md: Renderer, dir: string, baseUrl: string, entries: seq<Entry>)
    requires ScanEntries(libs, md, dir, baseUrl, entries).Some?
    ensures |ScanEntries(libs, md, dir, baseUrl, entries).value| == MarkdownCount(entries)
    decreases entries
  {
    if entries != [] {
      ScanCount(libs, md, dir, baseUrl, entries[..|entries| - 1]);
      match entries[|entries| - 1]
      case Directory(name, children) =>
        ScanCount(libs, md, PathJoin([dir, name]), SubdirBase(baseUrl, name), children);
      case File(_, _) =>
      case Special(_) =>
    }
  }

  /** The build fails exactly when some Markdown file's front matter cannot be parsed. */
  lemma {:induction false} ScanFailsIff(libs: Libraries, md: Renderer, dir: string, baseUrl: string, entries: seq<Entry>)
    ensures ScanEntries(libs, md, dir, baseUrl, entries).None? <==> HasUnparsable(libs, entries)
    decreases entries
  {
    if entries != [] {
      ScanFailsIff(libs, md, dir, baseUrl, entries[..|entries| - 1]);
      match entries[|entries| - 1]
      case Directory(name, children) =>
        ScanFailsIff(libs, md, PathJoin([dir, name]), SubdirBase(baseUrl, name), children);
      case File(_, _) =>
      case Special(_) =>
    }
  }

  /** Every page's URL path starts with '/', whatever the slugs and directory names. */
  lemma {:induction false} ScanUrlsAbsolute(libs: Libraries, md: Renderer, dir: string, baseUrl: string, entries: seq<Entry>)
    requires baseUrl != "" && baseUrl[0] == '/'
    requires ScanEntries(libs, md, dir, baseUrl, entries).Some?
    ensures forall p | p in ScanEntries(libs, md, dir, baseUrl, entries).value ::
      p.urlPath != "" && p.urlPath[0] == '/'
    decreases entries
  {
    if entries != [] {
      var init := entries[..|entries| - 1];
      ScanUrlsAbsolute(libs, md, dir, baseUrl, init);
      match entries[|entries| - 1]
      case Directory(name, children) =>
        JoinOntoAbsolute(baseUrl, [name, "/"]);
        assert [baseUrl] + [name, "/"] == [baseUrl, name, "/"];
        ScanUrlsAbsolute(libs, md, PathJoin([dir, name]), SubdirBase(baseUrl, name), children);
      case File(_, _) =>
      case Special(_) =>
    }
  }

  // ---------------------------------------------------------------------------
  // The walk as a list of Markdown files

  /** A Markdown file met by the walk: the directory path it was read from, the
      names of the directories on the way to it from the content root, its name
      and its text. */
  datatype SourceFile = SourceFile(dir: string, dirs: seq<string>, name: string, text: string)

  /** The Markdown files of the entries of `dir`, reached through the directories
      `dirs`, in the order the walk meets them. */
  function MarkdownFiles(dir: string, dirs: seq<string>, entries: seq<Entry>): (r: seq<SourceFile>)
    ensures forall k | 0 <= k < |r| :: EndsWith(r[k].name, MarkdownSuffix)
    decreases entries
  {
    if entries == [] then []
    else
      var a := MarkdownFiles(dir, dirs, entries[..|entries| - 1]);
      var b := EntryFiles(dir, dirs, entries[|entries| - 1]);
      assert forall k | |a| <= k < |a + b| :: (a + b)[k] == b[k - |a|];
      a + b
  }

  function EntryFiles(dir: string, dirs: seq<string>, e: Entry): (r: seq<SourceFile>)
    ensures forall k | 0 <= k < |r| :: EndsWith(r[k].name, MarkdownSuffix)
    decreases e
  {
    match e
    case Directory(name, children) => MarkdownFiles(PathJoin([dir, name]), dirs + [name], children)
    case File(name, text) => if EndsWith(name, MarkdownSuffix) then [SourceFile(dir, dirs, name, text)] else []
    case Special(_) => []
  }

  /** Every directory in the tree has a plain name. */
  predicate PlainTree(e: Entry)
  {
    match e
    case Directory(name, children) => Plain(name) && forall i | 0 <= i < |children| :: PlainTree(children[i])
    case File(_, _) => true
    case Special(_) => true
  }

  predicate PlainEntries(entries: seq<Entry>)
  {
    forall i | 0 <= i < |entries| :: PlainTree(entries[i])
  }

  /** The page list of one Markdown file: its page under the URL of its
      directories (`MarkdownFiles` lists no other file). */
  function FileOf(libs: Libraries, md: Renderer, f: SourceFile): (r: Option<seq<Page>>)
    ensures r.Some? ==> |r.value| == 1
  {
    if EndsWith(f.name, MarkdownSuffix) then FilePage(libs, md, f.dir, DirUrl(f.dirs), f.name, f.text) else None
  }

  /** `FileOf` as a value, to hand to `MapFiles`. */
  function FileOfFn(libs: Libraries, md: Renderer): SourceFile -> Option<seq<Page>>
  {
    f => FileOf(libs, md, f)
  }

  /** The pages `build` makes of the files, one after the other; a failure of one
      is a failure of all. */
  function MapFiles(build: SourceFile -> Option<seq<Page>>, files: seq<SourceFile>): Option<seq<Page>>
  {
    if files == [] then Some([])
    else Concat(MapFiles(build, files[..|files| - 1]), build(files[|files| - 1]))
  }

  /** With a builder that makes one page per file, the k-th page is the page of
      the k-th file alone. */
  lemma {:induction false} MapFilesAt(build: SourceFile -> Option<seq<Page>>, files: seq<SourceFile>, k: nat)
    requires forall f :: build(f).Some? ==> |build(f).value| == 1
    requires MapFiles(build, files).Some? && k < |files|
    ensures |MapFiles(build, files).value| == |files|
    ensures build(files[k]) == Some([MapFiles(build, files).value[k]])
    decreases |files|
  {
    var init := files[..|files| - 1];
    var a := MapFiles(build, init);
    var z := build(files[|files| - 1]);
    var r := MapFiles(build, files);
    assert r.value == a.value + z.value;
    if k < |init| {
      MapFilesAt(build, init, k);
      assert files[k] == init[k];
      assert r.value[k] == a.value[k];
    } else {
      if init != [] {
        MapFilesAt(build, init, 0);
      }
      assert |z.value| == 1;
      assert z.value == [z.value[0]];
      assert r.value[k] == z.value[0];
    }
  }

  lemma {:induction false} MapFilesAppend(build: SourceFile -> Option<seq<Page>>, a: seq<SourceFile>, b: seq<SourceFile>)
    ensures MapFiles(build, a + b) == Concat(MapFiles(build, a), MapFiles(build, b))
    decreases |b|
  {
    if b == [] {
      assert a + b == a;
      assert MapFiles(build, a).Some? ==> MapFiles(build, a).value + [] == MapFiles(build, a).value;
    } else {
      var init := b[..|b| - 1];
      var f := b[|b| - 1];
      assert (a + b)[..|a + b| - 1] == a + init;
      assert (a + b)[|a + b| - 1] == f;
      MapFilesAppend(build, a, init);
      var x := MapFiles(build, a);
      var y := MapFiles(build, init);
      var z := build(f);
      if x.Some? && y.Some? && z.Some? {
        assert x.value + y.value + z.value == x.value + (y.value + z.value);
      }
    }
  }

  /** The walk passes each directory the URL of the directories above it: with
      plain directory names, scanning the entries of a directory reached through
      `dirs` from base URL `DirUrl(dirs)` builds exactly one page per Markdown file
      it contains, in walk order, each with the base URL of its own directory. */
  lemma {:induction false} WalkIsFileMap(libs: Libraries, md: Renderer, dir: string, dirs: seq<string>, entries: seq<Entry>)
    requires AllPlain(dirs) && PlainEntries(entries)
    ensures ScanEntries(libs, md, dir, DirUrl(dirs), entries) == MapFiles(FileOfFn(libs, md), MarkdownFiles(dir, dirs, entries))
    decreases entries
  {
    if entries != [] {
      var init := entries[..|entries| - 1];
      var last := entries[|entries| - 1];
      assert PlainEntries(init) by {
        assert forall i | 0 <= i < |init| :: init[i] == entries[i];
      }
      WalkIsFileMap(libs, md, dir, dirs, init);
      EntryIsFileMap(libs, md, dir, dirs, last);
      MapFilesAppend(FileOfFn(libs, md), MarkdownFiles(dir, dirs, init), EntryFiles(dir, dirs, last));
    }
  }

  lemma {:induction false} EntryIsFileMap(libs: Libraries, md: Renderer, dir: string, dirs: seq<string>, e: Entry)
    requires AllPlain(dirs) && PlainTree(e)
    ensures EntryPages(libs, md, dir, DirUrl(dirs), e) == MapFiles(FileOfFn(libs, md), EntryFiles(dir, dirs, e))
    decreases e
  {
    match e
    case Directory(name, children) =>
      SubdirUrl(dirs, name);
      assert AllPlain(dirs + [name]) by {
        assert forall i | 0 <= i < |dirs + [name]| :: (dirs + [name])[i] == if i < |dirs| then dirs[i] else name;
      }
      WalkIsFileMap(libs, md, PathJoin([dir, name]), dirs + [name], children);
    case File(name, text) =>
      if EndsWith(name, MarkdownSuffix) {
        var f := SourceFile(dir, dirs, name, text);
        assert [f][..0] == [];
        var z := FileOf(libs, md, f);
        assert MapFiles(FileOfFn(libs, md), [f]) == Concat(Some([]), z);
        assert z.Some? ==> [] + z.value == z.value;
      }
    case Special(_) =>
  }

  /** The directories on the way to each file are plain and extend `dirs`. */
  lemma {:induction false} FilesUnder(dir: string, dirs: seq<string>, entries: seq<Entry>)
    requires AllPlain(dirs) && PlainEntries(entries)
    ensures forall f | f in MarkdownFiles(dir, dirs, entries) ::
      AllPlain(f.dirs) && |dirs| <= |f.dirs| && f.dirs[..|dirs|] == dirs
    decreases entries
  {
    if entries != [] {
      var init := entries[..|entries| - 1];
      assert PlainEntries(init) by {
        assert forall i | 0 <= i < |init| :: init[i] == entries[i];
      }
      FilesUnder(dir, dirs, init);
      EntryFilesUnder(dir, dirs, entries[|entries| - 1]);
    }
  }

  lemma {:induction false} EntryFilesUnder(dir: string, dirs: seq<string>, e: Entry)
    requires AllPlain(dirs) && PlainTree(e)
    ensures forall f | f in EntryFiles(dir, dirs, e) ::
      AllPlain(f.dirs) && |dirs| <= |f.dirs| && f.dirs[..|dirs|] == dirs
    decreases e
  {
    match e
    case Directory(name, children) =>
      var sub := dirs + [name];
      assert AllPlain(sub) by {
        assert forall i | 0 <= i < |sub| :: sub[i] == if i < |dirs| then dirs[i] else name;
      }
      FilesUnder(PathJoin([dir, name]), sub, children);
      forall f | f in EntryFiles(dir, dirs, e)
        ensures f.dirs[..|dirs|] == dirs
      {
        assert f.dirs[..|sub|][..|dirs|] == f.dirs[..|dirs|];
      }
    case File(_, _) =>
    case Special(_) =>
  }

  /** The URL of every page of the content tree: with plain directory names, the
      page of the k-th Markdown file is the page of that file alone, built under
      the URL of the directories on the way to it, so its URL path is
      `path.join` of that URL and the slug; with a plain slug it is "/" followed
      by those directory names and the slug. */
  lemma ScanPageUrls(libs: Libraries, md: Renderer, contentDir: string, content: seq<Entry>)
    requires PlainEntries(content)
    requires ScanEntries(libs, md, contentDir, "/", content).Some?
    ensures var pages := ScanEntries(libs, md, contentDir, "/", content).value;
      var files := MarkdownFiles(contentDir, [], content);
      |pages| == |files| &&
      forall k | 0 <= k < |files| ::
        MakePage(libs, md, files[k].dir, DirUrl(files[k].dirs), files[k].name, files[k].text) == Some(pages[k]) &&
        AllPlain(files[k].dirs) &&
        pages[k].urlPath == PathJoin([DirUrl(files[k].dirs), pages[k].slug]) &&
        (Plain(pages[k].slug) ==> pages[k].urlPath == "/" + Join(files[k].dirs + [pages[k].slug]))
  {
    assert DirUrl([]) == "/";
    WalkIsFileMap(libs, md, contentDir, [], content);
    FilesUnder(contentDir, [], content);
    var pages := ScanEntries(libs, md, contentDir, "/", content).value;
    var files := MarkdownFiles(contentDir, [], content);
    var build := FileOfFn(libs, md);
    forall f
      ensures build(f).Some? ==> |build(f).value| == 1
    {
      assert build(f) == FileOf(libs, md, f);
    }
    if files != [] {
      MapFilesAt(build, files, 0);
    }
    forall k | 0 <= k < |files|
      ensures MakePage(libs, md, files[k].dir, DirUrl(files[k].dirs), files[k].name, files[k].text) == Some(pages[k])
      ensures AllPlain(files[k].dirs)
      ensures Plain(pages[k].slug) ==> pages[k].urlPath == "/" + Join(files[k].dirs + [pages[k].slug])
    {
      MapFilesAt(build, files, k);
      assert FileOf(libs, md, files[k]) == Some([pages[k]]);
      assert files[k] in files;
      if Plain(pages[k].slug) {
        PageUrl(files[k].dirs, pages[k].slug);
      }
    }
  }

  /** Once a prefix of the entries has failed, the whole directory fails. */
  lemma {:induction false} FailurePersists(libs: Libraries, md: Renderer, dir: string, baseUrl: string, entries: seq<Entry>, i: nat)
    requires i <= |entries|
    requires ScanEntries(libs, md, dir, baseUrl, entries[..i]).None?
    ensures ScanEntries(libs, md, dir, baseUrl, entries).None?
    decreases |entries| - i
  {
    if i < |entries| {
      ScanPrefix(libs, md, dir, baseUrl, entries, i);
      FailurePersists(libs, md, dir, baseUrl, entries, i + 1);
    } else {
      assert entries[..i] == entries;
    }
  }

  /** One more entry processed: the pages so far are extended to those of one
      more entry, or the prefix including it fails. */
  lemma ScanStep(libs: Libraries, md: Renderer, dir: string, baseUrl: string, entries: seq<Entry>, i: nat,
                 pages: seq<Page>, acc: seq<Page>, next: Option<seq<Page>>)
    requires i < |entries|
    requires Some(acc) == Concat(Some(pages), ScanEntries(libs, md, dir, baseUrl, entries[..i]))
    requires next == Concat(Some(acc), EntryPages(libs, md, dir, baseUrl, entries[i]))
    ensures next == Concat(Some(pages), ScanEntries(libs, md, dir, baseUrl, entries[..i + 1]))
  {
    ScanPrefix(libs, md, dir, baseUrl, entries, i);
    ConcatAssoc(pages, ScanEntries(libs, md, dir, baseUrl, entries[..i]), EntryPages(libs, md, dir, baseUrl, entries[i]));
  }

  lemma ConcatAssoc(pages: seq<Page>, b: Option<seq<Page>>, c: Option<seq<Page>>)
    ensures Concat(Some(pages), Concat(b, c)) == Concat(Concat(Some(pages), b), c)
  {
    if b.Some? && c.Some? {
      assert pages + (b.value + c.value) == (pages + b.value) + c.value;
    }
  }

  /** `processDirectory(dir, baseUrl)` appending to the shared `pages` array, which
      holds `pages` on entry: the pages of the tree are appended in order, or the
      call fails when a file's front matter cannot be parsed. */
  method ProcessDirectory(libs: Libraries, md: Renderer, dir: string, baseUrl: string, entries: seq<Entry>, pages: seq<Page>)
    returns (result: Option<seq<Page>>)
    ensures result == Concat(Some(pages), ScanEntries(libs, md, dir, baseUrl, entries))
    decreases entries, 1
  {
    var acc := pages;
    assert pages + [] == pages;
    for i := 0 to |entries|
      invariant Some(acc) == Concat(Some(pages), ScanEntries(libs, md, dir, baseUrl, entries[..i]))
    {
      var next := ProcessEntry(libs, md, dir, baseUrl, entries[i], acc);
      ScanStep(libs, md, dir, baseUrl, entries, i, pages, acc, next);
      if next.None? {
        FailurePersists(libs, md, dir, baseUrl, entries, i + 1);
        return None;
      }
      acc := next.value;
    }
    assert entries[..|entries|] == entries;
    result := Some(acc);
  }

  /** The body of the loop in `processDirectory` for one entry: a subdirectory is
      processed recursively, a Markdown file appends its page. */
  method ProcessEntry(libs: Libraries, md: Renderer, dir: string, baseUrl: string, entry: Entry, pages: seq<Page>)
    returns (result: Option<seq<Page>>)
    ensures result == Concat(Some(pages), EntryPages(libs, md, dir, baseUrl, entry))
    decreases entry, 0
  {
    match entry
    case Directory(name, children) =>
      result := ProcessDirectory(libs, md, PathJoin([dir, name]), SubdirBase(baseUrl, name), children, pages);
    case File(name, text) =>
      if EndsWith(name, MarkdownSuffix) {
        var page := MakePage(libs, md, dir, baseUrl, name, text);
        if page.None? {
          return None;
        }
        result := Some(pages + [page.value]);
      } else {
        result := Some(pages + []);
      }
    case Special(_) =>
      result := Some(pages + []);
  }

  /** `processMarkdownFiles(contentDir, md)`: no pages when the content directory
      does not exist; otherwise the pages of the whole tree sorted by date, newest
      first, or a failure when some front matter cannot be parsed. */
  method ProcessMarkdownFiles(libs: Libraries, md: Renderer, contentDir: string, content: Option<seq<Entry>>)
    returns (result: Option<seq<Page>>)
    ensures content.None? ==> result == Some([])
    ensures content.Some? ==>
      (result.Some? <==> ScanEntries(libs, md, contentDir, "/", content.value).Some?)
    ensures content.Some? && result.Some? ==>
      result.value == DateSort.SortByDateDesc(ScanEntries(libs, md, contentDir, "/", content.value).value)
  {
    if content.None? {
      return Some([]);
    }
    ghost var scan := ScanEntries(libs, md, contentDir, "/", content.value);
    var scanned := ProcessDirectory(libs, md, contentDir, "/", content.value, []);
    if scanned.None? {
      assert scan.None?;
      return None;
    }
    assert scan.Some? && scanned.value == [] + scan.value;
    assert [] + scan.value == scan.value;
    result := Some(DateSort.SortByDateDesc(scanned.value));
  }
}
