/** `buildSite` (src/build.js:16-58) from the Markdown setup on: set up the
    renderer, collect the pages, write the HTML files, report the page count.
    Configuration loading, directory clearing and the copy of `public/` are
    file-system plumbing outside this model. */
module Build {
  import opened Common
  import opened Types
  import Markdown
  import Pages
  import DateSort
  import Output

  datatype BuildResult =
    | Built(writes: seq<Output.Write>, pageCount: nat)
    | Failed

  /** A build over the content tree `content` (None when the content directory does
      not exist). It fails exactly when some Markdown file's front matter cannot be
      parsed, and otherwise reports one page per Markdown file in the tree. */
  method BuildSite(config: Config, libs: Libraries, contentDir: string, content: Option<seq<Entry>>,
                   layouts: Layouts, outputDir: string)
    returns (result: BuildResult)
    ensures content.None? ==> result.Built? && result.pageCount == 0
    ensures content.Some? ==> (result.Failed? <==> Pages.HasUnparsable(libs, content.value))
    ensures content.Some? && result.Built? ==> result.pageCount == Pages.MarkdownCount(content.value)
    ensures result.Built? ==> |result.writes| >= result.pageCount + 1
  {
    var md := Markdown.SetupMarkdown(config, libs);
    var pages := Pages.ProcessMarkdownFiles(libs, md, contentDir, content);
    if pages.None? {
      Pages.ScanFailsIff(libs, md, contentDir, "/", content.value);
      return Failed;
    }
    var writes := Output.GenerateHtmlFiles(libs, pages.value, config.site, layouts, outputDir);
    if content.Some? {
      var scanned := Pages.ScanEntries(libs, md, contentDir, "/", content.value).value;
      Pages.ScanFailsIff(libs, md, contentDir, "/", content.value);
      Pages.ScanCount(libs, md, contentDir, "/", content.value);
      DateSort.SortPermutes(scanned);
      assert |pages.value| == |multiset(pages.value)| == |multiset(scanned)| == |scanned|;
    }
    result := Built(writes, |pages.value|);
  }
}
