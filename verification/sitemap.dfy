/** `generate_sitemap`: sitemap.xml as the exporter writes it, one `<url>`
    entry for the site root and one for every visible article, joined
    with "\n". */
module Sitemap {
  import opened Common
  import opened Models
  import opened OutputNames

  const SiteRoot: string := "https://pangu-immortal.github.io/"

  const XmlDeclaration: string := "<?xml version=\"1.0\" encoding=\"UTF-8\"?>"
  const SitemapNamespace: string := "http://www.sitemaps.org/schemas/sitemap/0.9"
  const UrlsetOpen: string := "<urlset xmlns=\"" + SitemapNamespace + "\">"
  const UrlsetClose: string := "</urlset>"
  const UrlOpen: string := "  <url>"
  const UrlClose: string := "  </url>"
  const RootLoc: string := "    <loc>" + SiteRoot + "</loc>"
  const WeeklyLine: string := "    <changefreq>weekly</changefreq>"
  const RootPriority: string := "    <priority>1.0</priority>"
  const MonthlyLine: string := "    <changefreq>monthly</changefreq>"
  const ArticlePriority: string := "    <priority>0.8</priority>"

  /** Every article the sitemap lists has a publication time (the column is NOT NULL). */
  predicate Dated(xs: seq<Article>) {
    forall i :: 0 <= i < |xs| ==> xs[i].publishedAt.Some?
  }

  function LocLine(id: nat): string {
    "    <loc>" + SiteRoot + DetailName(id) + "</loc>"
  }

  function LastmodLine(d: DateTime): string {
    "    <lastmod>" + FormatDate(d) + "</lastmod>"
  }

  /** The opening lines and the site root's entry, dated `today`. */
  function SitemapHeader(today: DateTime): seq<string> {
    [XmlDeclaration, UrlsetOpen, UrlOpen, RootLoc, LastmodLine(today), WeeklyLine, RootPriority, UrlClose]
  }

  /** The entry of one article: its detail page, dated by its publication day. */
  function ArticleEntry(a: Article): (r: seq<string>)
    requires a.publishedAt.Some?
  {
    [UrlOpen,
     LocLine(a.id),
     LastmodLine(a.publishedAt.value),
     MonthlyLine,
     ArticlePriority,
     UrlClose]
  }

  function ArticleEntries(xs: seq<Article>): seq<string>
    requires Dated(xs)
  {
    if |xs| == 0 then [] else ArticleEntry(xs[0]) + ArticleEntries(xs[1..])
  }

  /** The lines of sitemap.xml for the visible articles `xs`, in query order. */
  function SitemapLines(today: DateTime, xs: seq<Article>): seq<string>
    requires Dated(xs)
  {
    SitemapHeader(today) + ArticleEntries(xs) + [UrlsetClose]
  }

  /** The content of sitemap.xml. */
  function SitemapText(today: DateTime, xs: seq<Article>): string
    requires Dated(xs)
  {
    Join(SitemapLines(today, xs), "\n")
  }

  /*** Structure ***/

  /** Six lines per article, in the order of the articles. */
  lemma {:induction false} ArticleEntriesLayout(xs: seq<Article>)
    requires Dated(xs)
    ensures |ArticleEntries(xs)| == 6 * |xs|
    ensures forall i, j :: 0 <= i < |xs| && 0 <= j < 6 ==>
              ArticleEntries(xs)[6 * i + j] == ArticleEntry(xs[i])[j]
  {
    if |xs| > 0 {
      ArticleEntriesLayout(xs[1..]);
      var e := ArticleEntry(xs[0]);
      var rest := ArticleEntries(xs[1..]);
      forall i, j | 0 <= i < |xs| && 0 <= j < 6
        ensures ArticleEntries(xs)[6 * i + j] == ArticleEntry(xs[i])[j]
      {
        if i > 0 {
          assert ArticleEntries(xs)[6 * i + j] == rest[6 * (i - 1) + j];
          assert xs[1..][i - 1] == xs[i];
        }
      }
    }
  }

  /** Line j of article i's entry is line 8 + 6i + j of the file. */
  lemma EntryLineAt(today: DateTime, xs: seq<Article>, i: nat, j: nat)
    requires Dated(xs) && i < |xs| && j < 6
    ensures 8 + 6 * i + j < |SitemapLines(today, xs)|
    ensures SitemapLines(today, xs)[8 + 6 * i + j] == ArticleEntry(xs[i])[j]
  {
    ArticleEntriesLayout(xs);
    var es := ArticleEntries(xs);
    assert es[6 * i + j] == ArticleEntry(xs[i])[j];
    assert SitemapLines(today, xs)[8 + 6 * i + j] == es[6 * i + j];
  }

  /** The file opens with the XML declaration and the root entry dated
      today, has exactly six lines per visible article in query order, each
      naming that article's detail page and publication day, and closes the
      urlset. */
  lemma SitemapStructure(today: DateTime, xs: seq<Article>)
    requires Dated(xs)
    ensures var lines := SitemapLines(today, xs);
      && |lines| == 9 + 6 * |xs|
      && lines[..8] == SitemapHeader(today)
      && lines[|lines| - 1] == UrlsetClose
      && (forall i :: 0 <= i < |xs| ==>
            lines[8 + 6 * i] == UrlOpen
            && lines[9 + 6 * i] == LocLine(xs[i].id)
            && lines[10 + 6 * i] == LastmodLine(xs[i].publishedAt.value)
            && lines[13 + 6 * i] == UrlClose)
  {
    ArticleEntriesLayout(xs);
    var lines := SitemapLines(today, xs);
    assert lines[..8] == SitemapHeader(today);
    forall i | 0 <= i < |xs|
      ensures lines[8 + 6 * i] == UrlOpen && lines[9 + 6 * i] == LocLine(xs[i].id)
      ensures lines[10 + 6 * i] == LastmodLine(xs[i].publishedAt.value)
      ensures lines[13 + 6 * i] == UrlClose
    {
      EntryLineAt(today, xs, i, 0);
      EntryLineAt(today, xs, i, 1);
      EntryLineAt(today, xs, i, 2);
      EntryLineAt(today, xs, i, 5);
    }
  }

  /*** The articles the sitemap lists ***/

  lemma LocLineInjective(a: nat, b: nat)
    requires LocLine(a) == LocLine(b)
    ensures a == b
  {
    var pre := "    <loc>" + SiteRoot;
    assert LocLine(a) == pre + (DetailName(a) + "</loc>");
    assert LocLine(b) == pre + (DetailName(b) + "</loc>");
    assert DetailName(a) + "</loc>" == LocLine(a)[|pre|..];
    var n := |DetailName(a) + "</loc>"| - 6;
    assert DetailName(a) == (DetailName(a) + "</loc>")[..n];
    assert |DetailName(b)| == n;
    assert DetailName(b) == (DetailName(b) + "</loc>")[..n];
    DetailRoundTrip(a);
    DetailRoundTrip(b);
  }

  /** Every line of the file that is not one of the fixed lines or a lastmod
      line is the loc line of one of the listed articles. */
  predicate OtherLine(line: string) {
    line in {XmlDeclaration, UrlsetOpen, UrlsetClose, UrlOpen, UrlClose,
             RootLoc, WeeklyLine, RootPriority, MonthlyLine, ArticlePriority}
    || StartsWith(line, "    <lastmod>")
  }

  lemma EntryLines(a: Article, j: nat)
    requires a.publishedAt.Some? && j < 6
    ensures OtherLine(ArticleEntry(a)[j]) || ArticleEntry(a)[j] == LocLine(a.id)
  {
    if j == 2 {
      ConcatAffixes("    <lastmod>", FormatDate(a.publishedAt.value) + "</lastmod>");
      assert LastmodLine(a.publishedAt.value) == "    <lastmod>" + (FormatDate(a.publishedAt.value) + "</lastmod>");
    }
  }

  lemma HeaderLines(today: DateTime, k: nat)
    requires k < 8
    ensures OtherLine(SitemapHeader(today)[k])
  {
    if k == 4 {
      ConcatAffixes("    <lastmod>", FormatDate(today) + "</lastmod>");
      assert LastmodLine(today) == "    <lastmod>" + (FormatDate(today) + "</lastmod>");
    }
  }

  lemma LocLineIsNotOther(id: nat)
    ensures !OtherLine(LocLine(id))
  {
    var l := LocLine(id);
    var pre := "    <loc>" + SiteRoot;
    assert l == pre + (DetailName(id) + "</loc>");
    assert l[|pre|] == 'a';
    NotStartsWith(l, "    <lastmod>", 6);
    assert l != "    <loc>" + SiteRoot + "</loc>" by {
      assert ("    <loc>" + SiteRoot + "</loc>")[|pre|] == '<';
    }
    assert l[4] == '<' && l[5] == 'l' && l[6] == 'o';
  }

  /** The sitemap lists an article's detail page iff the article is one of
      the visible articles it was generated from. */
  lemma SitemapListsExactly(today: DateTime, xs: seq<Article>, id: nat)
    requires Dated(xs)
    ensures LocLine(id) in SitemapLines(today, xs) <==> exists i :: 0 <= i < |xs| && xs[i].id == id
  {
    var lines := SitemapLines(today, xs);
    if exists i :: 0 <= i < |xs| && xs[i].id == id {
      var i :| 0 <= i < |xs| && xs[i].id == id;
      EntryLineAt(today, xs, i, 1);
    }
    if LocLine(id) in lines {
      var k :| 0 <= k < |lines| && lines[k] == LocLine(id);
      ListedLine(today, xs, k);
      var i :| 0 <= i < |xs| && lines[k] == LocLine(xs[i].id);
      LocLineInjective(id, xs[i].id);
    }
  }

  /** A loc line at position k of the file names one of the listed articles. */
  lemma ListedLine(today: DateTime, xs: seq<Article>, k: nat)
    requires Dated(xs) && k < |SitemapLines(today, xs)|
    requires exists id :: SitemapLines(today, xs)[k] == LocLine(id)
    ensures exists i :: 0 <= i < |xs| && SitemapLines(today, xs)[k] == LocLine(xs[i].id)
  {
    var lines := SitemapLines(today, xs);
    var id :| lines[k] == LocLine(id);
    LocLineIsNotOther(id);
    ArticleEntriesLayout(xs);
    if k < 8 {
      assert lines[k] == SitemapHeader(today)[k];
      HeaderLines(today, k);
    } else if k < |lines| - 1 {
      var i := (k - 8) / 6;
      var j := (k - 8) % 6;
      assert k == 8 + 6 * i + j;
      EntryLineAt(today, xs, i, j);
      EntryLines(xs[i], j);
      LocLineInjective(id, xs[i].id);
    }
  }

  /*** The written text ***/

  lemma DigitsNoNewline(s: string)
    requires AllDigits(s)
    ensures NoNewline(s)
  {
  }

  lemma FormatDateNoNewline(d: DateTime)
    ensures NoNewline(FormatDate(d))
  {
    DigitsNoNewline(NatToString(d.year));
    DigitsNoNewline(ZeroPad(d.month, 2));
    DigitsNoNewline(ZeroPad(d.day, 2));
  }

  lemma NoNewlineConcat(a: string, b: string)
    requires NoNewline(a) && NoNewline(b)
    ensures NoNewline(a + b)
  {
    assert forall i :: 0 <= i < |a + b| ==> (a + b)[i] == if i < |a| then a[i] else b[i - |a|];
  }

  lemma LastmodNoNewline(d: DateTime)
    ensures NoNewline(LastmodLine(d))
  {
    FormatDateNoNewline(d);
    NoNewlineConcat("    <lastmod>", FormatDate(d));
    NoNewlineConcat("    <lastmod>" + FormatDate(d), "</lastmod>");
  }

  lemma LocNoNewline(id: nat)
    ensures NoNewline(LocLine(id))
  {
    DigitsNoNewline(NatToString(id));
    NoNewlineConcat("article_", NatToString(id));
    NoNewlineConcat("article_" + NatToString(id), ".html");
    NoNewlineConcat("    <loc>", SiteRoot);
    NoNewlineConcat("    <loc>" + SiteRoot, DetailName(id));
    NoNewlineConcat("    <loc>" + SiteRoot + DetailName(id), "</loc>");
  }

  lemma HeaderNoNewline(today: DateTime, k: nat)
    requires k < 8
    ensures NoNewline(SitemapHeader(today)[k])
  {
    if k == 0 {
      XmlDeclarationNoNewline();
    } else if k == 1 {
      UrlsetOpenNoNewline();
    } else if k == 3 {
      RootLocNoNewline();
    } else if k == 4 {
      LastmodNoNewline(today);
    } else if k == 5 {
      WeeklyNoNewline();
    } else if k == 6 {
      RootPriorityNoNewline();
    } else {
      assert SitemapHeader(today)[k] == UrlOpen || SitemapHeader(today)[k] == UrlClose;
      UrlTagsNoNewline();
    }
  }

  lemma RootLocNoNewline()
    ensures NoNewline(RootLoc)
  {
    NoNewlineConcat("    <loc>", SiteRoot);
    NoNewlineConcat("    <loc>" + SiteRoot, "</loc>");
  }

  lemma WeeklyNoNewline()
    ensures NoNewline(WeeklyLine)
  {
  }

  lemma RootPriorityNoNewline()
    ensures NoNewline(RootPriority)
  {
  }

  lemma MonthlyNoNewline()
    ensures NoNewline(MonthlyLine)
  {
  }

  lemma ArticlePriorityNoNewline()
    ensures NoNewline(ArticlePriority)
  {
  }

  lemma UrlTagsNoNewline()
    ensures NoNewline(UrlOpen) && NoNewline(UrlClose)
  {
  }

  lemma XmlDeclarationNoNewline()
    ensures NoNewline(XmlDeclaration)
  {
    var a := "<?xml version=\"1.0\"";
    var b := " encoding=\"UTF-8\"?>";
    assert NoNewline(a) && NoNewline(b);
    NoNewlineConcat(a, b);
    assert XmlDeclaration == a + b;
  }

  lemma UrlsetOpenNoNewline()
    ensures NoNewline(UrlsetOpen)
  {
    var a := "http://www.sitemaps.org/";
    var b := "schemas/sitemap/0.9";
    assert NoNewline(a) && NoNewline(b);
    NoNewlineConcat(a, b);
    assert SitemapNamespace == a + b;
    NoNewlineConcat("<urlset xmlns=\"", SitemapNamespace);
    NoNewlineConcat("<urlset xmlns=\"" + SitemapNamespace, "\">");
  }

  lemma EntryNoNewline(a: Article, j: nat)
    requires a.publishedAt.Some? && j < 6
    ensures NoNewline(ArticleEntry(a)[j])
  {
    if j == 1 {
      LocNoNewline(a.id);
    } else if j == 2 {
      LastmodNoNewline(a.publishedAt.value);
    } else if j == 3 {
      MonthlyNoNewline();
    } else if j == 4 {
      ArticlePriorityNoNewline();
    } else {
      assert ArticleEntry(a)[j] == UrlOpen || ArticleEntry(a)[j] == UrlClose;
      UrlTagsNoNewline();
    }
  }

  lemma LinesNoNewline(today: DateTime, xs: seq<Article>)
    requires Dated(xs)
    ensures forall k :: 0 <= k < |SitemapLines(today, xs)| ==> NoNewline(SitemapLines(today, xs)[k])
  {
    var lines := SitemapLines(today, xs);
    ArticleEntriesLayout(xs);
    forall k | 0 <= k < |lines| ensures NoNewline(lines[k]) {
      if k < 8 {
        assert lines[k] == SitemapHeader(today)[k];
        HeaderNoNewline(today, k);
      } else if k < |lines| - 1 {
        var i := (k - 8) / 6;
        var j := (k - 8) % 6;
        assert k == 8 + 6 * i + j;
        EntryLineAt(today, xs, i, j);
        EntryNoNewline(xs[i], j);
      } else {
        assert lines[k] == UrlsetClose;
      }
    }
  }

  /** Splitting the written file at its newlines gives back exactly the lines. */
  lemma SitemapTextLines(today: DateTime, xs: seq<Article>)
    requires Dated(xs)
    ensures SplitLines(SitemapText(today, xs)) == SitemapLines(today, xs)
  {
    LinesNoNewline(today, xs);
    SplitJoin(SitemapLines(today, xs));
  }
}
