/** The `generate_static_site` command: the output directory is wiped, every
    page is rendered and written under its file name, the static, collected
    static and media trees are copied over it, the sitemap is written and
    `.nojekyll` is touched last. The output directory is a map from paths
    relative to it to file contents. */
module StaticSite {
  import opened Common
  import opened Models
  import opened Pagination
  import opened Rendering
  import opened OutputNames
  import opened Sitemap

  type Tree = map<string, string>

  /** What the exporter additionally needs: tag names that are safe in a file name. */
  predicate ValidDatabase(db: Database) {
    WellFormed(db) && (forall i :: 0 <= i < |db.tags| ==> SafeTagName(db.tags[i].name))
  }

  /** The directories copied into the output, `None` where one does not exist:
      `static/`, `staticfiles/` (collectstatic output) and MEDIA_ROOT. */
  datatype Sources = Sources(staticDir: Option<Tree>, staticfiles: Option<Tree>, media: Option<Tree>)

  /** Everything one run depends on; `today` is `timezone.now()` at the sitemap step. */
  datatype Input = Input(db: Database, libs: Libraries, sources: Sources, today: DateTime)

  function Visible(db: Database): seq<Article> {
    VisibleArticles(db.articles)
  }

  lemma VisibleDated(db: Database)
    requires WellFormed(db)
    ensures Dated(Visible(db))
  {
    var vis := Visible(db);
    forall i | 0 <= i < |vis| ensures vis[i].publishedAt.Some? {
      var j :| 0 <= j < |db.articles| && db.articles[j] == vis[i];
    }
  }

  /*** The pages ***/

  /** The content written for a unit: its template rendered with its
      context, or the sitemap. Tag pages and detail pages look their tag and
      article up by name and id, which identify them in a valid database. */
  function PageContent(inp: Input, u: Unit): string
    requires ValidDatabase(inp.db)
  {
    var vis := Visible(inp.db);
    var render := inp.libs.render;
    match u
    case IndexUnit => render("index.html", Context(IndexPage(AuthorBio), true, "index"))
    case MainList(k) =>
      if 1 <= k <= NumPages(|vis|)
      then render("list.html", Context(ListPage(GetPage(vis, k), inp.db.tags, None), true, "list"))
      else ""
    case TagList(name, k) =>
      (match FindTagByName(inp.db.tags, name)
       case None => ""
       case Some(t) =>
         var tagged := TaggedWith(vis, t.id);
         if 1 <= k <= NumPages(|tagged|)
         then render("list.html", Context(ListPage(GetPage(tagged, k), inp.db.tags, Some(t)), true, "list"))
         else "")
    case DetailUnit(id) =>
      (match FindArticle(vis, id)
       case None => ""
       case Some(a) => DetailContent(inp, a))
    case AboutUnit => render("about.html", Context(AboutPage, true, "about"))
    case BoardUnit =>
      render("board.html", Context(BoardPage(VisibleMessages(inp.db.messages)), true, "board"))
    case SitemapUnit =>
      VisibleDated(inp.db);
      SitemapText(inp.today, vis)
  }

  /** An article's detail page: the article, its visible comments and its
      sanitised HTML body. */
  function DetailContent(inp: Input, a: Article): string {
    inp.libs.render("detail.html",
      Context(DetailPage(a, VisibleComments(inp.db.comments, a.id), ArticleHtml(inp.libs, a.contentMd)), true, "list"))
  }

  /** Main list pages 1..n. */
  function MainUnits(n: nat): (r: seq<Unit>)
    ensures forall u :: u in r <==> u.MainList? && 1 <= u.page <= n
  {
    var r := seq(n, i requires 0 <= i < n => MainList(i + 1));
    assert forall u: Unit :: u.MainList? && 1 <= u.page <= n ==> r[u.page - 1] == u;
    r
  }

  /** The pages of one tag: its filtered list, paginated. */
  function TagPages(t: Tag, vis: seq<Article>): (r: seq<Unit>)
    ensures forall u :: u in r <==> u.TagList? && u.tagName == t.name && 1 <= u.page <= NumPages(|TaggedWith(vis, t.id)|)
  {
    var n := NumPages(|TaggedWith(vis, t.id)|);
    var r := seq(n, i requires 0 <= i < n => TagList(t.name, i + 1));
    assert forall u: Unit :: u.TagList? && u.tagName == t.name && 1 <= u.page <= n ==> r[u.page - 1] == u;
    r
  }

  /** The pages of every tag, tag by tag in table order. */
  function TagUnits(tags: seq<Tag>, vis: seq<Article>): (r: seq<Unit>)
    ensures forall u :: u in r <==> exists t :: t in tags && u in TagPages(t, vis)
  {
    if |tags| == 0 then []
    else
      var rest := TagUnits(tags[1..], vis);
      assert forall t :: t in tags <==> t == tags[0] || t in tags[1..];
      TagPages(tags[0], vis) + rest
  }

  /** One detail page per visible article, in query order. */
  function DetailUnits(vis: seq<Article>): (r: seq<Unit>)
    ensures forall u :: u in r <==> u.DetailUnit? && exists a :: a in vis && a.id == u.articleId
  {
    var r := seq(|vis|, i requires 0 <= i < |vis| => DetailUnit(vis[i].id));
    assert forall u :: u in r ==> exists a :: a in vis && a.id == u.articleId by {
      forall u | u in r ensures exists a :: a in vis && a.id == u.articleId {
        var i :| 0 <= i < |r| && r[i] == u;
        assert vis[i] in vis;
      }
    }
    assert forall a :: a in vis ==> DetailUnit(a.id) in r by {
      forall a | a in vis ensures DetailUnit(a.id) in r {
        var i :| 0 <= i < |vis| && vis[i] == a;
        assert r[i] == DetailUnit(a.id);
      }
    }
    r
  }

  /** The pages of steps 1 to 5, in the order the command writes them. */
  function PageUnits(db: Database): seq<Unit> {
    var vis := Visible(db);
    [IndexUnit] + MainUnits(NumPages(|vis|)) + TagUnits(db.tags, vis) + DetailUnits(vis) + [AboutUnit, BoardUnit]
  }

  /** Which units a run writes, stated without the order of writing: the
      fixed pages, every main list page, every page of every tag, a detail
      page for exactly the visible articles, and the sitemap. */
  predicate ExpectedUnit(db: Database, u: Unit) {
    var vis := Visible(db);
    match u
    case MainList(k) => 1 <= k <= NumPages(|vis|)
    case TagList(name, k) =>
      exists t :: t in db.tags && t.name == name && 1 <= k <= NumPages(|TaggedWith(vis, t.id)|)
    case DetailUnit(id) => exists a :: a in vis && a.id == id
    case _ => true
  }

  lemma PageUnitsExactly(db: Database, u: Unit)
    ensures u in PageUnits(db) || u == SitemapUnit <==> ExpectedUnit(db, u)
  {
    var vis := Visible(db);
    var us := PageUnits(db);
    assert forall v :: v in us <==>
      v == IndexUnit || v in MainUnits(NumPages(|vis|)) || v in TagUnits(db.tags, vis)
      || v in DetailUnits(vis) || v == AboutUnit || v == BoardUnit;
  }

  lemma PageUnitsValid(db: Database)
    requires ValidDatabase(db)
    ensures forall u :: u in PageUnits(db) ==> ValidUnit(u)
  {
    forall u | u in PageUnits(db) ensures ValidUnit(u) {
      PageUnitsExactly(db, u);
      if u.TagList? {
        var t :| t in db.tags && t.name == u.tagName && 1 <= u.page <= NumPages(|TaggedWith(Visible(db), t.id)|);
        var i :| 0 <= i < |db.tags| && db.tags[i] == t;
      }
    }
  }

  /*** Writing ***/

  /** `_write_html` for each unit in turn; a later write of a name replaces an earlier one. */
  function WriteUnits(inp: Input, t: Tree, us: seq<Unit>): Tree
    requires ValidDatabase(inp.db)
    decreases |us|
  {
    if |us| == 0 then t else WriteUnits(inp, t[UnitName(us[0]) := PageContent(inp, us[0])], us[1..])
  }

  /** After the writes, a path holds a file iff it held one before or a unit
      was written there; a written unit's file holds that unit's content
      (names of valid units never collide), and other files are untouched. */
  lemma {:induction false} WriteUnitsLookup(inp: Input, t: Tree, us: seq<Unit>, path: string)
    requires ValidDatabase(inp.db)
    requires forall u :: u in us ==> ValidUnit(u)
    ensures path in WriteUnits(inp, t, us) <==> path in t || exists u :: u in us && UnitName(u) == path
    ensures forall u :: u in us && UnitName(u) == path ==> WriteUnits(inp, t, us)[path] == PageContent(inp, u)
    ensures path in t && (forall u :: u in us ==> UnitName(u) != path) ==> WriteUnits(inp, t, us)[path] == t[path]
    decreases |us|
  {
    if |us| > 0 {
      var t' := t[UnitName(us[0]) := PageContent(inp, us[0])];
      WriteUnitsLookup(inp, t', us[1..], path);
      assert forall u :: u in us <==> u == us[0] || u in us[1..];
      forall u | u in us && UnitName(u) == path
        ensures WriteUnits(inp, t, us)[path] == PageContent(inp, u)
      {
        if exists v :: v in us[1..] && UnitName(v) == path {
          var v :| v in us[1..] && UnitName(v) == path;
          UnitNameInjective(u, v);
        } else {
          UnitNameInjective(u, us[0]);
        }
      }
    }
  }

  /** `shutil.copytree(src, out/prefix, dirs_exist_ok=True)`: every file of
      `src` is written under `prefix`, replacing a file already there; other
      files stay. A missing source directory copies nothing. */
  function CopyTree(t: Tree, prefix: string, src: Option<Tree>): (r: Tree)
    ensures src.None? ==> r == t
    ensures src.Some? ==> r.Keys == t.Keys + set p | p in src.value :: prefix + p
    ensures src.Some? ==> forall p :: p in src.value ==> r[prefix + p] == src.value[p]
    ensures forall k :: k in t && !(src.Some? && StartsWith(k, prefix) && k[|prefix|..] in src.value) ==> r[k] == t[k]
  {
    match src
    case None => t
    case Some(s) =>
      var added := set p | p in s :: prefix + p;
      var r := map k | k in t.Keys + added ::
        if StartsWith(k, prefix) && k[|prefix|..] in s then s[k[|prefix|..]] else t[k];
      assert forall p :: p in s ==> StartsWith(prefix + p, prefix) && (prefix + p)[|prefix|..] == p by {
        forall p | p in s ensures StartsWith(prefix + p, prefix) && (prefix + p)[|prefix|..] == p {
          ConcatAffixes(prefix, p);
        }
      }
      assert forall k :: k in t.Keys + added ==> k in t || (StartsWith(k, prefix) && k[|prefix|..] in s);
      r
  }

  /** Step 6: `static/`, then `staticfiles/` over it, into `static/`. */
  function CopyStatic(src: Sources, t: Tree): Tree {
    CopyTree(CopyTree(t, StaticPrefix, src.staticDir), StaticPrefix, src.staticfiles)
  }

  /** Step 7: MEDIA_ROOT into `media/`. */
  function CopyMedia(src: Sources, t: Tree): Tree {
    CopyTree(t, MediaPrefix, src.media)
  }

  const StaticPrefix: string := "static/"
  const MediaPrefix: string := "media/"

  /** `Path.touch()`: creates an empty file, or leaves an existing one as it is. */
  function Touch(t: Tree, path: string): (r: Tree)
    ensures r.Keys == t.Keys + {path}
    ensures path !in t ==> r[path] == ""
    ensures forall k :: k in t ==> r[k] == t[k]
  {
    if path in t then t else t[path := ""]
  }

  /*** The run ***/

  /** Steps 1–5 on the emptied directory (`rmtree` then `mkdir`, whatever it held before). */
  function Pages(inp: Input): Tree
    requires ValidDatabase(inp.db)
  {
    WriteUnits(inp, map[], PageUnits(inp.db))
  }

  /** Steps 6 and 7. */
  function Copied(inp: Input): Tree
    requires ValidDatabase(inp.db)
  {
    CopyMedia(inp.sources, CopyStatic(inp.sources, Pages(inp)))
  }

  /** The output directory after steps 1–8: the sitemap is written last but
      one. `previous`, the output directory as it was before the run, plays
      no part in the result: step 1 removes it whole with `shutil.rmtree`,
      so no stale file survives (`ExportOnlyKnownFiles`). */
  function BeforeMarker(inp: Input, previous: Option<Tree>): Tree
    requires ValidDatabase(inp.db)
  {
    WriteUnits(inp, Copied(inp), [SitemapUnit])
  }

  /** `handle`: step 9 touches `.nojekyll` after everything else. */
  function Export(inp: Input, previous: Option<Tree>): Tree
    requires ValidDatabase(inp.db)
  {
    Touch(BeforeMarker(inp, previous), MarkerName)
  }

  /** The files of the copy steps: a path under a prefix whose rest names a file of the source. */
  predicate CopiedPath(path: string, prefix: string, src: Option<Tree>) {
    src.Some? && StartsWith(path, prefix) && path[|prefix|..] in src.value
  }

  lemma CopyTreeKeys(t: Tree, prefix: string, src: Option<Tree>, path: string)
    ensures path in CopyTree(t, prefix, src) <==> path in t || CopiedPath(path, prefix, src)
  {
    if src.Some? && CopiedPath(path, prefix, src) {
      var p := path[|prefix|..];
      assert path == prefix + p;
    }
    if src.Some? && path in CopyTree(t, prefix, src) && path !in t {
      var p :| p in src.value && path == prefix + p;
      ConcatAffixes(prefix, p);
    }
  }

  lemma SlashInPrefixed(path: string, prefix: string)
    requires StartsWith(path, prefix) && '/' in prefix
    ensures '/' in path
  {
    var i :| 0 <= i < |prefix| && prefix[i] == '/';
    assert path[i] == prefix[i];
  }

  /** What is under each name after the copies, for names that no copy writes. */
  lemma CopiesKeepRootFiles(src: Sources, t: Tree, path: string)
    requires '/' !in path
    ensures path in CopyMedia(src, CopyStatic(src, t)) <==> path in t
    ensures path in t ==> CopyMedia(src, CopyStatic(src, t))[path] == t[path]
  {
    if StartsWith(path, StaticPrefix) {
      SlashInPrefixed(path, StaticPrefix);
    }
    if StartsWith(path, MediaPrefix) {
      SlashInPrefixed(path, MediaPrefix);
    }
    var s1 := CopyTree(t, StaticPrefix, src.staticDir);
    var s2 := CopyTree(s1, StaticPrefix, src.staticfiles);
    CopyTreeKeys(t, StaticPrefix, src.staticDir, path);
    CopyTreeKeys(s1, StaticPrefix, src.staticfiles, path);
    CopyTreeKeys(s2, MediaPrefix, src.media, path);
  }

  /*** What the run leaves in the output directory ***/

  /** After steps 1–5 a page file is present iff its unit is one of the
      pages, with that unit's content. */
  lemma PagesLookup(inp: Input, u: Unit)
    requires ValidDatabase(inp.db) && ValidUnit(u)
    ensures UnitName(u) in Pages(inp) <==> u in PageUnits(inp.db)
    ensures u in PageUnits(inp.db) ==> Pages(inp)[UnitName(u)] == PageContent(inp, u)
  {
    var name := UnitName(u);
    var us := PageUnits(inp.db);
    PageUnitsValid(inp.db);
    WriteUnitsLookup(inp, map[], us, name);
    if exists v :: v in us && UnitName(v) == name {
      var v :| v in us && UnitName(v) == name;
      UnitNameInjective(u, v);
    }
  }

  /** A root file of the run other than the marker is present after step 8
      iff it was written by steps 1–5 or is the sitemap, and keeps what was
      written last. */
  lemma BeforeMarkerRootFile(inp: Input, previous: Option<Tree>, u: Unit)
    requires ValidDatabase(inp.db) && ValidUnit(u)
    ensures UnitName(u) in BeforeMarker(inp, previous) <==> UnitName(u) in Pages(inp) || u == SitemapUnit
    ensures u != SitemapUnit && UnitName(u) in Pages(inp) ==> BeforeMarker(inp, previous)[UnitName(u)] == Pages(inp)[UnitName(u)]
    ensures u == SitemapUnit ==> BeforeMarker(inp, previous)[UnitName(u)] == PageContent(inp, u)
  {
    var name := UnitName(u);
    UnitNameAtRoot(u);
    CopiesKeepRootFiles(inp.sources, Pages(inp), name);
    WriteUnitsLookup(inp, Copied(inp), [SitemapUnit], name);
    if u != SitemapUnit {
      assert UnitName(SitemapUnit) != name by {
        if UnitName(SitemapUnit) == name {
          UnitNameInjective(u, SitemapUnit);
        }
      }
    }
  }

  /** Every valid unit's file is present iff the run is expected to write
      that unit, and then holds that unit's content. */
  lemma ExportPages(inp: Input, previous: Option<Tree>, u: Unit)
    requires ValidDatabase(inp.db) && ValidUnit(u)
    ensures UnitName(u) in Export(inp, previous) <==> ExpectedUnit(inp.db, u)
    ensures ExpectedUnit(inp.db, u) ==> Export(inp, previous)[UnitName(u)] == PageContent(inp, u)
  {
    UnitNameAtRoot(u);
    PageUnitsExactly(inp.db, u);
    BeforeMarkerRootFile(inp, previous, u);
    if u != SitemapUnit {
      PagesLookup(inp, u);
    }
  }

  /** The run leaves nothing else: apart from the pages it is expected to
      write, there are only copied files and the marker, whatever the
      output directory held before. */
  lemma ExportOnlyKnownFiles(inp: Input, previous: Option<Tree>, path: string)
    requires ValidDatabase(inp.db)
    requires path in Export(inp, previous)
    ensures || (exists u :: ValidUnit(u) && ExpectedUnit(inp.db, u) && UnitName(u) == path)
            || CopiedPath(path, StaticPrefix, inp.sources.staticDir)
            || CopiedPath(path, StaticPrefix, inp.sources.staticfiles)
            || CopiedPath(path, MediaPrefix, inp.sources.media)
            || path == MarkerName
  {
    var emptied: Tree := map[];
    var us := PageUnits(inp.db);
    var pages := WriteUnits(inp, emptied, us);
    var s1 := CopyTree(pages, StaticPrefix, inp.sources.staticDir);
    var s2 := CopyTree(s1, StaticPrefix, inp.sources.staticfiles);
    var copied := CopyTree(s2, MediaPrefix, inp.sources.media);
    PageUnitsValid(inp.db);
    WriteUnitsLookup(inp, emptied, us, path);
    CopyTreeKeys(pages, StaticPrefix, inp.sources.staticDir, path);
    CopyTreeKeys(s1, StaticPrefix, inp.sources.staticfiles, path);
    CopyTreeKeys(s2, MediaPrefix, inp.sources.media, path);
    WriteUnitsLookup(inp, copied, [SitemapUnit], path);
    if exists u :: u in us && UnitName(u) == path {
      var u :| u in us && UnitName(u) == path;
      PageUnitsExactly(inp.db, u);
    }
  }

  /** The marker is written last: no earlier step creates `.nojekyll`, so the
      run ends with it empty, and touching it changes no other file. */
  lemma MarkerWrittenLast(inp: Input, previous: Option<Tree>)
    requires ValidDatabase(inp.db)
    ensures MarkerName !in BeforeMarker(inp, previous)
    ensures MarkerName in Export(inp, previous) && Export(inp, previous)[MarkerName] == ""
    ensures Export(inp, previous).Keys == BeforeMarker(inp, previous).Keys + {MarkerName}
    ensures forall k :: k in BeforeMarker(inp, previous) ==> Export(inp, previous)[k] == BeforeMarker(inp, previous)[k]
  {
    var path := MarkerName;
    var emptied: Tree := map[];
    var us := PageUnits(inp.db);
    var pages := WriteUnits(inp, emptied, us);
    var s1 := CopyTree(pages, StaticPrefix, inp.sources.staticDir);
    var s2 := CopyTree(s1, StaticPrefix, inp.sources.staticfiles);
    var copied := CopyTree(s2, MediaPrefix, inp.sources.media);
    PageUnitsValid(inp.db);
    forall u | u in us ensures UnitName(u) != path {
      UnitNameAtRoot(u);
    }
    UnitNameAtRoot(SitemapUnit);
    WriteUnitsLookup(inp, emptied, us, path);
    NotStartsWith(path, StaticPrefix, 0);
    NotStartsWith(path, MediaPrefix, 0);
    CopyTreeKeys(pages, StaticPrefix, inp.sources.staticDir, path);
    CopyTreeKeys(s1, StaticPrefix, inp.sources.staticfiles, path);
    CopyTreeKeys(s2, MediaPrefix, inp.sources.media, path);
    WriteUnitsLookup(inp, copied, [SitemapUnit], path);
  }

  /** Each main list page k shows the k-th slice of ten visible articles,
      newest first, with no tag selected. */
  lemma ExportListPage(inp: Input, previous: Option<Tree>, k: nat)
    requires ValidDatabase(inp.db)
    requires 1 <= k <= NumPages(|Visible(inp.db)|)
    ensures MainListName(k) in Export(inp, previous)
    ensures Export(inp, previous)[MainListName(k)]
         == inp.libs.render("list.html", Context(ListPage(GetPage(Visible(inp.db), k), inp.db.tags, None), true, "list"))
  {
    ExportPages(inp, previous, MainList(k));
  }

  /** Every visible article appears on the main list page its position
      gives it, so the main list pages together show all of them. */
  lemma ExportListsEveryArticle(inp: Input, previous: Option<Tree>, i: nat)
    requires ValidDatabase(inp.db)
    requires i < |Visible(inp.db)|
    ensures var k := i / PageSize + 1;
      && MainListName(k) in Export(inp, previous)
      && i % PageSize < |GetPage(Visible(inp.db), k).items|
      && GetPage(Visible(inp.db), k).items[i % PageSize] == Visible(inp.db)[i]
  {
    ObjectPage(Visible(inp.db), i);
    ExportListPage(inp, previous, i / PageSize + 1);
  }

  /** Each page of a tag shows that tag's slice of the visible articles, with
      the tag active. */
  lemma ExportTagPage(inp: Input, previous: Option<Tree>, t: Tag, k: nat)
    requires ValidDatabase(inp.db)
    requires t in inp.db.tags && 1 <= k <= NumPages(|TaggedWith(Visible(inp.db), t.id)|)
    ensures TagListName(t.name, k) in Export(inp, previous)
    ensures Export(inp, previous)[TagListName(t.name, k)]
         == inp.libs.render("list.html",
              Context(ListPage(GetPage(TaggedWith(Visible(inp.db), t.id), k), inp.db.tags, Some(t)), true, "list"))
  {
    var i :| 0 <= i < |inp.db.tags| && inp.db.tags[i] == t;
    assert ValidUnit(TagList(t.name, k));
    ExportPages(inp, previous, TagList(t.name, k));
    var found := FindTagByName(inp.db.tags, t.name);
    SameNameSameTag(inp.db.tags, found.value, t);
  }

  /** A detail page exists exactly for each visible article; it shows that
      article, its sanitised body and its visible comments only. */
  lemma ExportDetailPage(inp: Input, previous: Option<Tree>, a: Article)
    requires ValidDatabase(inp.db) && a in inp.db.articles
    ensures DetailName(a.id) in Export(inp, previous) <==> !a.isHidden
    ensures !a.isHidden ==> Export(inp, previous)[DetailName(a.id)] == DetailContent(inp, a)
  {
    var vis := Visible(inp.db);
    ExportPages(inp, previous, DetailUnit(a.id));
    if exists b :: b in vis && b.id == a.id {
      var b :| b in vis && b.id == a.id;
      SameIdSameArticle(inp.db.articles, a, b);
      var found := FindArticle(vis, a.id);
      SameIdSameArticle(inp.db.articles, a, found.value);
    }
  }

  /** The exported detail page of a visible article is the detail template
      rendered with that article, its sanitised body and a comment list
      holding exactly the article's visible comments. */
  lemma DetailShowsOnlyVisibleComments(inp: Input, previous: Option<Tree>, a: Article)
    requires ValidDatabase(inp.db) && a in inp.db.articles && !a.isHidden
    ensures var cs := VisibleComments(inp.db.comments, a.id);
      && DetailName(a.id) in Export(inp, previous)
      && Export(inp, previous)[DetailName(a.id)]
           == inp.libs.render("detail.html", Context(DetailPage(a, cs, ArticleHtml(inp.libs, a.contentMd)), true, "list"))
      && forall c :: c in cs <==> c in inp.db.comments && c.articleId == a.id && !c.isHidden
  {
    ExportDetailPage(inp, previous, a);
  }

  /** The sitemap lists an article exactly when the run writes its detail page. */
  lemma SitemapMatchesDetailPages(inp: Input, previous: Option<Tree>, id: nat)
    requires ValidDatabase(inp.db)
    ensures SitemapName in Export(inp, previous)
    ensures Dated(Visible(inp.db))
            && (LocLine(id) in SitemapLines(inp.today, Visible(inp.db)) <==> DetailName(id) in Export(inp, previous))
  {
    VisibleDated(inp.db);
    ExportPages(inp, previous, SitemapUnit);
    ExportPages(inp, previous, DetailUnit(id));
    SitemapListsExactly(inp.today, Visible(inp.db), id);
  }

  /** Files in sub-directories are the copies: the sitemap and the marker
      lie at the root and do not touch them. */
  lemma ExportSubdirectoryFile(inp: Input, previous: Option<Tree>, path: string)
    requires ValidDatabase(inp.db) && '/' in path
    ensures path in Export(inp, previous) <==> path in Copied(inp)
    ensures path in Copied(inp) ==> Export(inp, previous)[path] == Copied(inp)[path]
  {
    LastStepsKeep(inp, Copied(inp), path);
  }

  /** The sitemap and the marker leave every path with a '/' as it was. */
  lemma LastStepsKeep(inp: Input, copied: Tree, path: string)
    requires ValidDatabase(inp.db) && '/' in path
    ensures var out := Touch(WriteUnits(inp, copied, [SitemapUnit]), MarkerName);
      && (path in out <==> path in copied)
      && (path in copied ==> out[path] == copied[path])
  {
    var before := WriteUnits(inp, copied, [SitemapUnit]);
    assert path != SitemapName && path != MarkerName by {
      UnitNameAtRoot(SitemapUnit);
      assert '/' !in MarkerName;
    }
    WriteUnitsLookup(inp, copied, [SitemapUnit], path);
    assert forall u :: u in [SitemapUnit] ==> UnitName(u) != path;
  }

  /** Copied files: under `static/`, collected static files win over the
      `static/` directory's; media files land under `media/`. */
  lemma CopiedFiles(src: Sources, t: Tree, p: string)
    ensures var out := CopyMedia(src, CopyStatic(src, t));
      && (src.staticfiles.Some? && p in src.staticfiles.value ==> StaticPrefix + p in out && out[StaticPrefix + p] == src.staticfiles.value[p])
      && (src.staticDir.Some? && p in src.staticDir.value && !(src.staticfiles.Some? && p in src.staticfiles.value) ==>
            StaticPrefix + p in out && out[StaticPrefix + p] == src.staticDir.value[p])
      && (src.media.Some? && p in src.media.value ==> MediaPrefix + p in out && out[MediaPrefix + p] == src.media.value[p])
  {
    var s1 := CopyTree(t, StaticPrefix, src.staticDir);
    var s2 := CopyTree(s1, StaticPrefix, src.staticfiles);
    var sp := StaticPrefix + p;
    var mp := MediaPrefix + p;
    ConcatAffixes(StaticPrefix, p);
    ConcatAffixes(MediaPrefix, p);
    NotStartsWith(sp, MediaPrefix, 1);
    CopyTreeKeys(t, StaticPrefix, src.staticDir, sp);
    CopyTreeKeys(s1, StaticPrefix, src.staticfiles, sp);
    CopyTreeKeys(s2, MediaPrefix, src.media, sp);
  }

  /** The copies survive to the end of the run. */
  lemma ExportCopiedFiles(inp: Input, previous: Option<Tree>, p: string)
    requires ValidDatabase(inp.db)
    ensures var src := inp.sources; var out := Export(inp, previous);
      && (src.staticfiles.Some? && p in src.staticfiles.value ==> StaticPrefix + p in out && out[StaticPrefix + p] == src.staticfiles.value[p])
      && (src.staticDir.Some? && p in src.staticDir.value && !(src.staticfiles.Some? && p in src.staticfiles.value) ==>
            StaticPrefix + p in out && out[StaticPrefix + p] == src.staticDir.value[p])
      && (src.media.Some? && p in src.media.value ==> MediaPrefix + p in out && out[MediaPrefix + p] == src.media.value[p])
  {
    var sp := StaticPrefix + p;
    var mp := MediaPrefix + p;
    assert sp[6] == '/' && mp[5] == '/';
    CopiedFiles(inp.sources, Pages(inp), p);
    ExportSubdirectoryFile(inp, previous, sp);
    ExportSubdirectoryFile(inp, previous, mp);
  }
}
