/** `setupMarkdown` (src/build.js:63-89): the markdown-it options and the
    highlighting callback installed on the renderer. */
module Markdown {
  import opened Common
  import opened Types

  /** The options every site starts from. */
  const DefaultOptions: map<string, Value> :=
    map["html" := Bool(true), "breaks" := Bool(false), "linkify" := Bool(true)]

  const CodeOpen: string := "<pre class=\"hljs\"><code>"
  const CodeClose: string := "</code></pre>"

  /** `{ html: true, breaks: false, linkify: true, ...config.markdown }`: every key
      of either object is present, and the user's value wins where both give one. */
  function MergeOptions(user: Option<map<string, Value>>): (r: map<string, Value>)
    ensures forall k :: k in r <==> k in DefaultOptions || (user.Some? && k in user.value)
    ensures forall k | k in r ::
      r[k] == if user.Some? && k in user.value then user.value[k] else DefaultOptions[k]
    ensures user.None? ==> r == DefaultOptions
  {
    match user
    case None => DefaultOptions
    case Some(m) => DefaultOptions + m
  }

  /** `config.markdown?.highlightCode !== false`: only an explicit `false` turns
      highlighting off. */
  predicate HighlightEnabled(config: Config)
    ensures config.markdown.None? ==> HighlightEnabled(config)
    ensures var options := MergeOptions(config.markdown);
      HighlightEnabled(config) <==> !("highlightCode" in options && options["highlightCode"] == Bool(false))
  {
    !(config.markdown.Some? && "highlightCode" in config.markdown.value &&
      config.markdown.value["highlightCode"] == Bool(false))
  }

  /** The `highlight` callback: highlighted markup when the fence names a language
      highlight.js knows and highlighting does not throw; otherwise the escaped
      source. Either way it is wrapped in `<pre class="hljs"><code>`. */
  function HighlightBlock(libs: Libraries, code: string, lang: string): (r: string)
    ensures StartsWith(r, CodeOpen) && EndsWith(r, CodeClose)
    ensures lang == "" || !libs.isKnownLanguage(lang) ==>
      r == CodeOpen + libs.escapeHtml(code) + CodeClose
    ensures lang != "" && libs.isKnownLanguage(lang) && libs.highlight(code, lang).None? ==>
      r == CodeOpen + libs.escapeHtml(code) + CodeClose
    ensures lang != "" && libs.isKnownLanguage(lang) && libs.highlight(code, lang).Some? ==>
      r == CodeOpen + libs.highlight(code, lang).value + CodeClose
  {
    var inner :=
      if lang != "" && libs.isKnownLanguage(lang) && libs.highlight(code, lang).Some?
      then libs.highlight(code, lang).value
      else libs.escapeHtml(code);
    var r := CodeOpen + inner + CodeClose;
    assert r[..|CodeOpen|] == CodeOpen;
    assert r[|r| - |CodeClose|..] == CodeClose;
    r
  }

  /** `setupMarkdown(config)`: a renderer with the merged options, carrying the
      highlight callback unless `highlightCode` is `false`. */
  function SetupMarkdown(config: Config, libs: Libraries): (r: Renderer)
    ensures forall k :: k in r.options <==>
      k in DefaultOptions || (config.markdown.Some? && k in config.markdown.value)
    ensures r.options == MergeOptions(config.markdown)
    ensures r.highlight.Some? <==> HighlightEnabled(config)
    ensures r.highlight.Some? ==> forall code, lang ::
      r.highlight.value(code, lang) == HighlightBlock(libs, code, lang)
  {
    var options := MergeOptions(config.markdown);
    if HighlightEnabled(config) then
      Renderer(options, Some((code, lang) => HighlightBlock(libs, code, lang)))
    else
      Renderer(options, None)
  }
}
