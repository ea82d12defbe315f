/** `generateHtmlFiles` (src/build.js:176-266): the files the build writes into the
    output directory, as the sequence of writes it performs, in order. The template
    texts arrive as a `Layouts` value; `ejs.render` is the foreign `renderTemplate`. */
module Output {
  import opened Common
  import opened Types
  import opened Paths
  import opened Tags

  /** One `fs.writeFile(path, content)`. */
  datatype Write = Write(path: string, content: string)

  /** `urlPath.replace(/^\//, '')`: one leading '/' removed, if there is one. */
  function StripLeadingSlash(urlPath: string): (r: string)
    ensures urlPath != "" && urlPath[0] == '/' ==> "/" + r == urlPath
    ensures urlPath == "" || urlPath[0] != '/' ==> r == urlPath
  {
    if urlPath != "" && urlPath[0] == '/' then
      assert urlPath == [urlPath[0]] + urlPath[1..];
      urlPath[1..]
    else urlPath
  }

  /** The file a page is written to: `<outputDir>/<urlPath without its leading '/'>/index.html`. */
  function PageOutputPath(outputDir: string, urlPath: string): (r: string)
    ensures r != ""
    ensures outputDir != "" && outputDir[0] == '/' ==> r[0] == '/'
  {
    PathJoin([outputDir, StripLeadingSlash(urlPath), "index.html"])
  }

  function IndexPath(outputDir: string): string
  {
    PathJoin([outputDir, "index.html"])
  }

  function TagsDir(outputDir: string): (r: string)
    ensures r != ""
    ensures outputDir != "" && outputDir[0] == '/' ==> r[0] == '/'
  {
    PathJoin([outputDir, "tags"])
  }

  /** `path.join(tagDir, `${tag}.html`)`: the tag is used as a file name as it is. */
  function TagFilePath(outputDir: string, tag: string): (r: string)
    ensures r != ""
    ensures outputDir != "" && outputDir[0] == '/' ==> r[0] == '/'
  {
    PathJoin([TagsDir(outputDir), tag + ".html"])
  }

  function TagsIndexPath(outputDir: string): string
  {
    PathJoin([TagsDir(outputDir), "index.html"])
  }

  /** The tag page template: `tag.ejs` when it can be read, otherwise `index.ejs`. */
  function TagTemplate(layouts: Layouts): string
  {
    if layouts.tag.Some? then layouts.tag.value else layouts.index
  }

  /** The tags index template: `tags.ejs` when it can be read, otherwise `index.ejs`. */
  function TagsIndexTemplate(layouts: Layouts): string
  {
    if layouts.tags.Some? then layouts.tags.value else layouts.index
  }

  /** With an output directory "/o1/.../om" and a page URL "/u1/.../un" made of
      plain segments, the page is written to "/o1/.../om/u1/.../un/index.html". */
  lemma PageOutputPathSegments(od: seq<string>, us: seq<string>)
    requires od != [] && AllPlain(od) && us != [] && AllPlain(us)
    ensures PageOutputPath("/" + Join(od), "/" + Join(us)) == "/" + Join(od + us + ["index.html"])
  {
    JoinOfPlainIsNotEmpty(us);
    assert StripLeadingSlash("/" + Join(us)) == Join(us);
    OutputParts(od, us);
    PathJoinPlainAbsolute(["/" + Join(od), Join(us), "index.html"], od + us + ["index.html"]);
  }

  /** The three parts of a page's output path: none is empty, and joined with '/'
      they give the absolute path of the segments. */
  lemma OutputParts(od: seq<string>, us: seq<string>)
    requires od != [] && AllPlain(od) && us != [] && AllPlain(us)
    ensures NonEmpty(["/" + Join(od), Join(us), "index.html"]) == ["/" + Join(od), Join(us), "index.html"]
    ensures Join(["/" + Join(od), Join(us), "index.html"]) == "/" + Join(od + us + ["index.html"])
    ensures AllPlain(od + us + ["index.html"])
  {
    var j := Join(od);
    var rel := Join(us);
    JoinOfPlainIsNotEmpty(us);
    NonEmptyThree("/" + j, rel, "index.html");
    NonEmptyTwo(rel, "index.html");
    JoinThree("/" + j, rel, "index.html");
    assert Join(od + us + ["index.html"]) == j + "/" + rel + "/" + "index.html" by {
      JoinAppend(od + us, ["index.html"]);
      JoinAppend(od, us);
    }
    assert "/" + j + "/" + rel + "/" + "index.html" == "/" + (j + "/" + rel + "/" + "index.html");
    AllPlainAppend(od, us);
    AllPlainAppend(od + us, ["index.html"]);
  }

  /** With an output directory "/o1/.../om", a tag without '/' is written to
      "/o1/.../om/tags/<tag>.html". */
  lemma TagFilePathSegments(od: seq<string>, tag: string)
    requires od != [] && AllPlain(od) && '/' !in tag
    ensures TagFilePath("/" + Join(od), tag) == "/" + Join(od + ["tags", tag + ".html"])
  {
    JoinPlainOnto(od, "tags");
    assert AllPlain(od + ["tags"]) by {
      assert forall i | 0 <= i < |od| + 1 :: (od + ["tags"])[i] == (if i < |od| then od[i] else "tags");
    }
    var name := tag + ".html";
    assert '/' !in name by {
      assert forall i | 0 <= i < |name| :: name[i] == (if i < |tag| then tag[i] else ".html"[i - |tag|]);
    }
    assert Plain(name) by {
      assert |name| > 2;
    }
    JoinPlainOnto(od + ["tags"], name);
    assert od + ["tags"] + [name] == od + ["tags", name];
  }

  lemma TagsIndexPathSegments(od: seq<string>)
    requires od != [] && AllPlain(od)
    ensures TagsIndexPath("/" + Join(od)) == "/" + Join(od + ["tags", "index.html"])
  {
    JoinPlainOnto(od, "tags");
    assert AllPlain(od + ["tags"]) by {
      assert forall i | 0 <= i < |od| + 1 :: (od + ["tags"])[i] == (if i < |od| then od[i] else "tags");
    }
    JoinPlainOnto(od + ["tags"], "index.html");
    assert od + ["tags"] + ["index.html"] == od + ["tags", "index.html"];
  }

  /** A page with a plain slug found under the plain directories `dirs` of the
      content tree is written to "<outputDir>/<dirs>/<slug>/index.html". */
  lemma NestedPageFile(od: seq<string>, dirs: seq<string>, slug: string)
    requires od != [] && AllPlain(od) && AllPlain(dirs) && Plain(slug)
    ensures PageOutputPath("/" + Join(od), PathJoin([DirUrl(dirs), slug])) ==
      "/" + Join(od + dirs + [slug, "index.html"])
  {
    PageUrl(dirs, slug);
    var us := dirs + [slug];
    assert AllPlain(us) by {
      assert forall i | 0 <= i < |us| :: us[i] == (if i < |dirs| then dirs[i] else slug);
    }
    PageOutputPathSegments(od, us);
    assert od + us + ["index.html"] == od + dirs + [slug, "index.html"];
  }

  /** The page write for `page`, rendered with `page.ejs`. */
  function PageWrite(libs: Libraries, pages: seq<Page>, site: Site, layouts: Layouts, outputDir: string, page: Page): Write
  {
    Write(PageOutputPath(outputDir, page.urlPath), libs.renderTemplate(layouts.page, PageContext(page, site, pages)))
  }

  /** The tag page write for `tag`: the pages carrying it, rendered with the tag template. */
  function TagWrite(libs: Libraries, pages: seq<Page>, site: Site, layouts: Layouts, outputDir: string, tag: string): Write
  {
    Write(TagFilePath(outputDir, tag), libs.renderTemplate(TagTemplate(layouts), TagContext(TagPages(pages, tag), tag, site)))
  }

  /** The loop over the pages (src/build.js:190-201). */
  method WritePages(libs: Libraries, pages: seq<Page>, site: Site, layouts: Layouts, outputDir: string)
    returns (writes: seq<Write>)
    ensures |writes| == |pages|
    ensures forall i | 0 <= i < |pages| :: writes[i] == PageWrite(libs, pages, site, layouts, outputDir, pages[i])
  {
    writes := [];
    for i := 0 to |pages|
      invariant |writes| == i
      invariant forall j | 0 <= j < i :: writes[j] == PageWrite(libs, pages, site, layouts, outputDir, pages[j])
    {
      var outputPath := PageOutputPath(outputDir, pages[i].urlPath);
      var html := libs.renderTemplate(layouts.page, PageContext(pages[i], site, pages));
      writes := writes + [Write(outputPath, html)];
    }
  }

  /** The loop over the tag set (src/build.js:232-243): one tag page per tag, in
      the order of `tags`. */
  method WriteTagPages(libs: Libraries, pages: seq<Page>, site: Site, layouts: Layouts, outputDir: string, tags: seq<string>)
    returns (writes: seq<Write>)
    ensures |writes| == |tags|
    ensures forall k | 0 <= k < |tags| :: writes[k] == TagWrite(libs, pages, site, layouts, outputDir, tags[k])
  {
    writes := [];
    for k := 0 to |tags|
      invariant |writes| == k
      invariant forall m | 0 <= m < k :: writes[m] == TagWrite(libs, pages, site, layouts, outputDir, tags[m])
    {
      writes := writes + [TagWrite(libs, pages, site, layouts, outputDir, tags[k])];
    }
  }

  /** `generateHtmlFiles(pages, config, themeDir, outputDir)`: one file per page,
      then the index; then, only when some page has a tag, one file per distinct
      tag in set order and the tags index. */
  method GenerateHtmlFiles(libs: Libraries, pages: seq<Page>, site: Site, layouts: Layouts, outputDir: string)
    returns (writes: seq<Write>)
    ensures |writes| == |pages| + 1 + (if DistinctTags(pages) == [] then 0 else |DistinctTags(pages)| + 1)
    ensures forall i | 0 <= i < |pages| :: writes[i] == PageWrite(libs, pages, site, layouts, outputDir, pages[i])
    ensures writes[|pages|] == Write(IndexPath(outputDir), libs.renderTemplate(layouts.index, IndexContext(pages, site)))
    ensures forall k | 0 <= k < |DistinctTags(pages)| ::
      writes[|pages| + 1 + k] == TagWrite(libs, pages, site, layouts, outputDir, DistinctTags(pages)[k])
    ensures DistinctTags(pages) != [] ==>
      writes[|writes| - 1] == Write(TagsIndexPath(outputDir),
                                    libs.renderTemplate(TagsIndexTemplate(layouts),
                                                        TagsIndexContext(TagSummaries(pages, DistinctTags(pages)), site)))
  {
    var pageWrites := WritePages(libs, pages, site, layouts, outputDir);
    var indexHtml := libs.renderTemplate(layouts.index, IndexContext(pages, site));
    writes := pageWrites + [Write(IndexPath(outputDir), indexHtml)];

    var tags := CollectTags(pages);
    if |tags| > 0 {
      var tagWrites := WriteTagPages(libs, pages, site, layouts, outputDir, tags);
      var tagsData := TagSummaries(pages, tags);
      var tagsIndexHtml := libs.renderTemplate(TagsIndexTemplate(layouts), TagsIndexContext(tagsData, site));
      ghost var before := writes;
      writes := writes + tagWrites + [Write(TagsIndexPath(outputDir), tagsIndexHtml)];
      assert forall i | 0 <= i < |before| :: writes[i] == before[i];
      assert forall k | 0 <= k < |tags| :: writes[|pages| + 1 + k] == tagWrites[k];
    }
  }

  /** The output directory after the writes: each path holds what was written to it
      last. */
  function Files(writes: seq<Write>): (r: map<string, string>)
    ensures forall p :: p in r <==> exists i | 0 <= i < |writes| :: writes[i].path == p
  {
    if writes == [] then map[]
    else
      var init := writes[..|writes| - 1];
      var w := writes[|writes| - 1];
      assert forall i | 0 <= i < |init| :: init[i] == writes[i];
      Files(init)[w.path := w.content]
  }

  /** A write that no later write overwrites determines the file's content. */
  lemma {:induction false} LastWriteWins(writes: seq<Write>, i: nat)
    requires i < |writes|
    requires forall j | i < j < |writes| :: writes[j].path != writes[i].path
    ensures writes[i].path in Files(writes) && Files(writes)[writes[i].path] == writes[i].content
  {
    if i < |writes| - 1 {
      var init := writes[..|writes| - 1];
      assert forall j | i < j < |init| :: init[j] == writes[j];
      LastWriteWins(init, i);
    }
  }
}
