/** What a page is rendered from. Markdown conversion, HTML sanitising and
    template rendering are foreign libraries; they enter the model as
    function values, and the model fixes only what this repository decides:
    the extension list, the sanitizer's allow-list and each page's context. */
module Rendering {
  import opened Common
  import opened Models
  import opened Pagination

  const AuthorBio: string := "这里是《盘古大仙洞府》——记录技术、思考与灵感的地方。"

  /** The Markdown extensions every article body is converted with. */
  const MarkdownExtensions: seq<string> := ["extra", "fenced_code", "tables", "codehilite"]

  /** `bleach.sanitizer.ALLOWED_TAGS` of bleach 6. */
  const BleachDefaultTags: set<string> :=
    {"a", "abbr", "acronym", "b", "blockquote", "code", "em", "i", "li", "ol", "strong", "ul"}

  /** The structural tags added to bleach's defaults. */
  const StructuralTags: set<string> :=
    {"p", "pre", "code", "img", "h1", "h2", "h3", "h4", "h5", "h6",
     "table", "thead", "tbody", "tr", "th", "td", "blockquote"}

  /** The arguments of one `bleach.clean` call: allowed tags, allowed
      attributes per tag ("*" = every tag) and strip (remove, not escape). */
  datatype SanitizerConfig = SanitizerConfig(tags: set<string>, attributes: map<string, set<string>>, strip: bool)

  /** The one sanitizer configuration of article bodies. */
  const ArticleSanitizer: SanitizerConfig :=
    SanitizerConfig(BleachDefaultTags + StructuralTags,
                    map["*" := {"class", "id"}, "img" := {"src", "alt"}],
                    true)

  /** Whether the configuration lets attribute `attr` stay on tag `tag`. */
  predicate AllowsAttribute(c: SanitizerConfig, tag: string, attr: string) {
    ("*" in c.attributes && attr in c.attributes["*"])
    || (tag in c.attributes && attr in c.attributes[tag])
  }

  /** The article sanitizer keeps `class`/`id` on any allowed tag and
      `src`/`alt` on `img` only; scripts, frames, styles and inline event
      handlers are not on its lists, and disallowed markup is stripped. */
  lemma ArticleSanitizerAllowList(tag: string, attr: string)
    ensures AllowsAttribute(ArticleSanitizer, tag, attr)
            <==> attr in {"class", "id"} || (tag == "img" && attr in {"src", "alt"})
    ensures "script" !in ArticleSanitizer.tags && "iframe" !in ArticleSanitizer.tags
    ensures "style" !in ArticleSanitizer.tags
    ensures !AllowsAttribute(ArticleSanitizer, tag, "onclick") && !AllowsAttribute(ArticleSanitizer, tag, "style")
    ensures ArticleSanitizer.strip
    ensures StructuralTags <= ArticleSanitizer.tags && BleachDefaultTags <= ArticleSanitizer.tags
  {
  }

  /** The foreign libraries: `markdown.markdown(text, extensions)`,
      `bleach.clean(html, config)` and `render_to_string(template, context)`. */
  datatype Libraries = Libraries(
    markdown: (string, seq<string>) -> string,
    clean: (string, SanitizerConfig) -> string,
    render: (string, Context) -> string)

  /** An article body as HTML: Markdown conversion, then sanitising. Both the
      live detail view and the exporter call this one function. */
  function ArticleHtml(libs: Libraries, contentMd: string): string {
    libs.clean(libs.markdown(contentMd, MarkdownExtensions), ArticleSanitizer)
  }

  /** The page-specific part of a template context. */
  datatype PageContext =
    | IndexPage(bio: string)
    | ListPage(page: Page<Article>, tags: seq<Tag>, activeTag: Option<Tag>)
    | DetailPage(article: Article, comments: seq<Comment>, articleHtml: string)
    | AboutPage
    | BoardPage(messages: seq<BoardMessage>)

  /** A full template context; the exporter adds `is_static` and `current_page`. */
  datatype Context = Context(page: PageContext, isStatic: bool, currentPage: string)
}
