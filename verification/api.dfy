/** The JSON API (app/api_views.py): the article list and detail handlers
    with their catch-all error mapping, the partial update the detail
    handler would apply to a PUT, and the anonymous comment and board
    message submissions. URL building (`build_absolute_uri`, storage URLs)
    and base64 decoding are parameters. */
module Api {
  import opened Common
  import opened Models
  import opened Pagination
  import opened Views

  /*** Requests and JSON ***/

  datatype Method = Get | Post | Put | Delete | Options | OtherMethod

  /** A JSON value as `json.loads` returns it (floats are not modelled). */
  datatype Json =
    | JNull
    | JBool(b: bool)
    | JInt(i: int)
    | JStr(s: string)
    | JList(items: seq<Json>)
    | JObj(fields: map<string, Json>)

  /** Python truthiness of a JSON value. */
  predicate JsonTruthy(j: Json) {
    match j
    case JNull => false
    case JBool(b) => b
    case JInt(i) => i != 0
    case JStr(s) => s != ""
    case JList(items) => |items| > 0
    case JObj(fields) => |fields| > 0
  }

  /** `body.get(key)`: `None` (JSON null) when the key is absent. */
  function Field(fields: map<string, Json>, key: string): Json {
    if key in fields then fields[key] else JNull
  }

  /** Turning stored paths into URLs: `FieldFile.url` and
      `request.build_absolute_uri`. */
  datatype Urls = Urls(mediaUrl: string -> string, absolute: string -> string)

  /** The absolute URL of an optional file, "" when there is none. */
  function AbsoluteFileUrl(urls: Urls, path: string): string {
    if path != "" then urls.absolute(urls.mediaUrl(path)) else ""
  }

  /** `cover.url if cover else ""`: the media URL of the cover, "" when
      there is no file or its name is empty (an empty `FieldFile` is falsy). */
  function MediaCoverUrl(urls: Urls, cover: Option<string>): (u: string)
    ensures cover.None? || cover == Some("") ==> u == ""
    ensures cover.Some? && cover.value != "" ==> u == urls.mediaUrl(cover.value)
  {
    if cover.Some? && cover.value != "" then urls.mediaUrl(cover.value) else ""
  }

  function CoverUrl(urls: Urls, cover: Option<string>): string {
    if cover.Some? && cover.value != "" then urls.absolute(urls.mediaUrl(cover.value)) else ""
  }

  /** Every row has a publication time (the column is NOT NULL). */
  predicate Timestamped(db: Database) {
    forall i :: 0 <= i < |db.articles| ==> db.articles[i].publishedAt.Some?
  }

  /** The handlers' catch-all `except Exception`: every exception, `Http404`
      included, becomes a JSON 500 whose message starts with the handler's
      prefix (the exception text that follows is not modelled). */
  function CatchAll<T>(r: Reply<T>, prefix: string): (c: Reply<T>)
    ensures !c.Raised?
    ensures !r.Raised? ==> c == r
    ensures r.Raised? ==> c == Fail(500, prefix) && Status(c) == 500
  {
    if r.Raised? then Fail(500, prefix) else r
  }

  /*** The article list ***/

  const ListError: string := "文章接口错误: "
  const SummaryLength: nat := 200

  /** The `summary` of a list entry: the body when it has at most 200
      characters, otherwise its first 200 characters and "...". */
  function Summary(content: string): (r: string)
    ensures |r| <= SummaryLength + 3
    ensures |content| <= SummaryLength ==> r == content
    ensures |content| > SummaryLength ==>
              |r| == SummaryLength + 3 && r[..SummaryLength] == content[..SummaryLength] && EndsWith(r, "...")
  {
    if |content| > SummaryLength then
      ConcatAffixes(content[..SummaryLength], "...");
      content[..SummaryLength] + "..."
    else content
  }

  /** One entry of the list response. */
  datatype ArticleSummary = ArticleSummary(id: nat, title: string, cover: string, summary: string,
                                           publishedAt: string, tags: seq<Tag>)

  /** The list response: the page's entries, every tag, and the page metadata. */
  datatype ListData = ListData(articles: seq<ArticleSummary>, tags: seq<Tag>, pagination: PageMeta)

  /** The query string: `tag` and `page`, `None` when absent. */
  datatype ListQuery = ListQuery(tag: Option<string>, page: Option<string>)

  function Summarize(a: Article, tags: seq<Tag>, urls: Urls): (e: ArticleSummary)
    requires a.publishedAt.Some?
  {
    ArticleSummary(a.id, a.title, CoverUrl(urls, a.cover), Summary(a.contentMd),
                   FormatMinute(a.publishedAt.value), TagsOf(a, tags))
  }

  /** Page k of `xs` as the list response reports it. */
  function ListPageData(xs: seq<Article>, tags: seq<Tag>, k: int, urls: Urls): (d: ListData)
    requires forall a :: a in xs ==> a.publishedAt.Some?
    ensures var p := GetPage(xs, GetPageNumber(PageNumber(k), |xs|));
      && d.pagination == p.meta
      && |d.articles| == |p.items|
      && (forall i :: 0 <= i < |p.items| ==> d.articles[i] == Summarize(p.items[i], tags, urls))
      && d.tags == tags
  {
    var p := GetPage(xs, GetPageNumber(PageNumber(k), |xs|));
    assert forall i :: 0 <= i < |p.items| ==> p.items[i] in xs by {
      forall i | 0 <= i < |p.items| ensures p.items[i] in xs {
        assert p.items[i] == xs[Bottom(p.meta.number) + i];
      }
    }
    ListData(seq(|p.items|, i requires 0 <= i < |p.items| => Summarize(p.items[i], tags, urls)), tags, p.meta)
  }

  /** The body of `api_article_list` before the catch-all: `int(page)` raises
      ValueError on a non-integer, an unknown non-empty tag raises `Http404`. */
  function ListBody(db: Database, q: ListQuery, urls: Urls): (r: Reply<ListData>)
    requires Timestamped(db)
  {
    var page := if q.page.None? then Some(1) else ParseInt(q.page.value);
    var vis := VisibleArticles(db.articles);
    assert forall a :: a in vis ==> a.publishedAt.Some? by {
      forall a | a in vis ensures a.publishedAt.Some? {
        var i :| 0 <= i < |db.articles| && db.articles[i] == a;
      }
    }
    if page.None? then Raised(ValueError)
    else if q.tag.Some? && q.tag.value != "" then
      match FindTagByName(db.tags, q.tag.value)
      case None => Raised(NotFoundError)
      case Some(t) => Ok(ListPageData(TaggedWith(vis, t.id), db.tags, page.value, urls))
    else Ok(ListPageData(vis, db.tags, page.value, urls))
  }

  /** `api_article_list`: GET and OPTIONS only; any failure is a 500. */
  function ApiArticleList(m: Method, db: Database, q: ListQuery, urls: Urls): (r: Reply<ListData>)
    requires Timestamped(db)
    ensures m != Get && m != Options ==> r == NotAllowed
    ensures m == Options ==> r == Preflight
    ensures m == Get ==> (r.Ok? || r == Fail(500, ListError))
    ensures m == Get && q.page.Some? && ParseInt(q.page.value).None? ==> r == Fail(500, ListError)
    ensures m == Get && q.tag.Some? && q.tag.value != "" && FindTagByName(db.tags, q.tag.value).None?
            ==> r == Fail(500, ListError)
  {
    if m != Get && m != Options then NotAllowed
    else if m == Options then Preflight
    else CatchAll(ListBody(db, q, urls), ListError)
  }

  /** A rendered list page and a list response show the same page: the same
      metadata and, entry by entry, the summaries of the same articles. */
  ghost predicate SamePageShown(live: Reply<Html>, api: Reply<ListData>, tags: seq<Tag>, urls: Urls) {
    && live.Ok? && live.data.page.ListPage? && api.Ok?
    && api.data.pagination == live.data.page.page.meta
    && |api.data.articles| == |live.data.page.page.items|
    && forall i :: 0 <= i < |api.data.articles| ==>
         live.data.page.page.items[i].publishedAt.Some?
         && api.data.articles[i] == Summarize(live.data.page.page.items[i], tags, urls)
  }

  /** The list API and the live list page agree: for a page argument that
      is an integer and a known (or no) tag, the API reports the live page's
      articles, in order, and the same page metadata; where the live page
      is a 404 for an unknown tag the API answers 500. */
  lemma ApiListMatchesLiveList(db: Database, tag: Option<string>, page: string, urls: Urls)
    requires Timestamped(db) && ParseInt(page).Some?
    ensures var live := ArticleList(db, tag, Some(page));
            var api := ApiArticleList(Get, db, ListQuery(tag, Some(page)), urls);
      && (live.Raised? <==> api == Fail(500, ListError))
      && (live.Ok? ==> SamePageShown(live, api, db.tags, urls))
  {
    if tag.Some? && tag.value != "" && FindTagByName(db.tags, tag.value).Some? {
      ListAgrees(db, tag, page, urls, Some(FindTagByName(db.tags, tag.value).value));
    } else if !(tag.Some? && tag.value != "") {
      ListAgrees(db, tag, page, urls, None);
    }
  }

  /** One branch of the agreement: the page of `vis`, or of its articles
      carrying tag `active`, is the same in both views. */
  lemma ListAgrees(db: Database, tag: Option<string>, page: string, urls: Urls, active: Option<Tag>)
    requires Timestamped(db) && ParseInt(page).Some?
    requires active.None? ==> !(tag.Some? && tag.value != "")
    requires active.Some? ==> tag.Some? && tag.value != "" && FindTagByName(db.tags, tag.value) == active
    ensures SamePageShown(ArticleList(db, tag, Some(page)), ApiArticleList(Get, db, ListQuery(tag, Some(page)), urls), db.tags, urls)
  {
    var xs := Listed(db, active);
    var live := ArticleList(db, tag, Some(page));
    var api := ApiArticleList(Get, db, ListQuery(tag, Some(page)), urls);
    var k := ParseInt(page).value;
    LiveListPage(db, tag, page, active);
    ApiListPage(db, tag, page, urls, active);
    TextValue(page);
    SamePage(live, api, xs, db.tags, active, PageText(page), k, urls);
  }

  /** The articles a list shows before pagination: the visible ones, or
      those of them carrying the active tag. */
  function Listed(db: Database, active: Option<Tag>): (xs: seq<Article>)
    requires Timestamped(db)
    ensures forall a :: a in xs ==> a.publishedAt.Some?
  {
    var vis := VisibleArticles(db.articles);
    VisiblePublished(db);
    if active.Some? then TaggedWith(vis, active.value.id) else vis
  }

  lemma LiveListPage(db: Database, tag: Option<string>, page: string, active: Option<Tag>)
    requires Timestamped(db)
    requires active.None? ==> !(tag.Some? && tag.value != "")
    requires active.Some? ==> tag.Some? && tag.value != "" && FindTagByName(db.tags, tag.value) == active
    ensures ArticleList(db, tag, Some(page)) == Ok(ListHtml(Listed(db, active), db.tags, active, PageText(page)))
  {
  }

  /** Without a page parameter the list shows the first page of the same
      articles. */
  lemma LiveListFirstPage(db: Database, tag: Option<string>, active: Option<Tag>)
    requires Timestamped(db)
    requires active.None? ==> !(tag.Some? && tag.value != "")
    requires active.Some? ==> tag.Some? && tag.value != "" && FindTagByName(db.tags, tag.value) == active
    ensures ArticleList(db, tag, None) == Ok(ListHtml(Listed(db, active), db.tags, active, NoPageArg))
    ensures ArticleList(db, tag, None).data.page.page == GetPage(Listed(db, active), 1)
  {
  }

  lemma ApiListPage(db: Database, tag: Option<string>, page: string, urls: Urls, active: Option<Tag>)
    requires Timestamped(db) && ParseInt(page).Some?
    requires active.None? ==> !(tag.Some? && tag.value != "")
    requires active.Some? ==> tag.Some? && tag.value != "" && FindTagByName(db.tags, tag.value) == active
    ensures ApiArticleList(Get, db, ListQuery(tag, Some(page)), urls)
              == Ok(ListPageData(Listed(db, active), db.tags, ParseInt(page).value, urls))
  {
    var q := ListQuery(tag, Some(page));
    assert ApiArticleList(Get, db, q, urls) == CatchAll(ListBody(db, q, urls), ListError);
  }

  lemma VisiblePublished(db: Database)
    requires Timestamped(db)
    ensures forall a :: a in VisibleArticles(db.articles) ==> a.publishedAt.Some?
  {
    forall a | a in VisibleArticles(db.articles) ensures a.publishedAt.Some? {
      var i :| 0 <= i < |db.articles| && db.articles[i] == a;
    }
  }

  /** The live list and the API pick the same page of the same sequence
      when the page text is an integer. */
  lemma SamePage(live: Reply<Html>, api: Reply<ListData>, xs: seq<Article>, tags: seq<Tag>,
                 active: Option<Tag>, arg: PageArg, k: int, urls: Urls)
    requires ArgValue(arg) == Some(k) && forall a :: a in xs ==> a.publishedAt.Some?
    requires live == Ok(ListHtml(xs, tags, active, arg)) && api == Ok(ListPageData(xs, tags, k, urls))
    ensures SamePageShown(live, api, tags, urls)
  {
    var n := |xs|;
    SameValueSamePage(arg, PageNumber(k), n);
    var live := ListHtml(xs, tags, active, arg).page.page;
    assert live == GetPage(xs, GetPageNumber(arg, n));
    forall i | 0 <= i < |live.items| ensures live.items[i].publishedAt.Some? {
      assert live.items[i] in live.items;
    }
  }

  /** Where the live list falls back to page 1 on a non-integer page
      argument, the API fails with 500. */
  lemma ApiListRejectsNonIntegerPage(db: Database, tag: Option<string>, page: string, urls: Urls)
    requires Timestamped(db) && ParseInt(page).None?
    requires tag.None? || tag.value == ""
    ensures ApiArticleList(Get, db, ListQuery(tag, Some(page)), urls) == Fail(500, ListError)
    ensures ArticleList(db, tag, Some(page)).Ok? && ArticleList(db, tag, Some(page)).data.page.page.meta.number == 1
  {
    var xs := Listed(db, None);
    LiveListPage(db, tag, page, None);
    TextValue(page);
    assert GetPageNumber(PageText(page), |xs|) == 1;
  }

  /*** The article detail ***/

  const DetailError: string := "文章详情接口错误: "
  const ArticleInvisible: string := "文章不可见"

  datatype CommentJson = CommentJson(id: nat, nickname: string, city: string, content: string,
                                     createdAt: string, avatar: string)

  datatype ArticleJson = ArticleJson(id: nat, title: string, contentMd: string, cover: string,
                                     publishedAt: string, tags: seq<Tag>, allowComment: bool)

  /** What the detail handler answers: the article with its visible
      comments (GET), the updated article (PUT), or `{"ok": true}` (DELETE). */
  datatype DetailData = Shown(article: ArticleJson, comments: seq<CommentJson>) | Updated(article: ArticleJson) | Removed

  function CommentJsonOf(c: Comment, urls: Urls): CommentJson {
    CommentJson(c.id, c.nickname, c.city, c.content, FormatMinute(c.createdAt), AbsoluteFileUrl(urls, c.avatar))
  }

  function CommentsJson(cs: seq<Comment>, urls: Urls): (r: seq<CommentJson>)
    ensures |r| == |cs| && forall i :: 0 <= i < |cs| ==> r[i] == CommentJsonOf(cs[i], urls)
  {
    seq(|cs|, i requires 0 <= i < |cs| => CommentJsonOf(cs[i], urls))
  }

  /** The GET branch on a found article: hidden is a 404 reply; reading the
      absent `allow_comment` attribute raises AttributeError. */
  function ShowArticle(db: Database, a: Article, urls: Urls): (r: Reply<DetailData>)
    requires a.publishedAt.Some?
    ensures a.isHidden ==> r == Fail(404, ArticleInvisible)
    ensures !a.isHidden && a.allowComment.None? ==> r == Raised(AttributeError)
    ensures r.Ok? ==> r.data.Shown? && r.data.article.id == a.id && Some(r.data.article.allowComment) == a.allowComment
    ensures r.Ok? ==> var vis := VisibleComments(db.comments, a.id);
              |r.data.comments| == |vis| && forall i :: 0 <= i < |vis| ==>
                r.data.comments[i] == CommentJsonOf(vis[i], urls) && !vis[i].isHidden && vis[i].articleId == a.id
  {
    if a.isHidden then Fail(404, ArticleInvisible)
    else if a.allowComment.None? then Raised(AttributeError)
    else
      var vis := VisibleComments(db.comments, a.id);
      assert forall i :: 0 <= i < |vis| ==> !vis[i].isHidden && vis[i].articleId == a.id by {
        forall i | 0 <= i < |vis| ensures !vis[i].isHidden && vis[i].articleId == a.id {
          assert vis[i] in vis;
        }
      }
      Ok(Shown(ArticleJson(a.id, a.title, a.contentMd, CoverUrl(urls, a.cover), FormatMinute(a.publishedAt.value),
                           TagsOf(a, db.tags), a.allowComment.value),
               CommentsJson(vis, urls)))
  }

  /** What a PUT needs besides the body: the clock for the cover's upload
      path, `str()` of a JSON container, and whether `base64.b64decode`
      accepts a payload. */
  datatype PutEnv = PutEnv(now: DateTime, repr: Json -> string, decodes: string -> bool)

  /** The body of `api_article_detail` before the catch-all. The article is
      looked up first (`get_object_or_404`). The PUT and DELETE branches are
      modelled as written although the method decorator never lets those
      methods through. */
  function DetailBody(m: Method, db: Database, pk: nat, body: Option<Json>, urls: Urls, env: PutEnv)
    : (r: (Reply<DetailData>, Database))
    requires Timestamped(db) && ValidTagTable(db.tags)
  {
    match FindArticle(db.articles, pk)
    case None => (Raised(NotFoundError), db)
    case Some(a) =>
      if m == Get then (ShowArticle(db, a, urls), db)
      else if m == Put then
        match (if body.Some? then body.value else JObj(map[]))
        case JObj(fields) => PutArticle(db, a, fields, urls, env)
        case _ => (Raised(AttributeError), db)
      else if m == Delete then (Ok(Removed), db.(articles := Filter(db.articles, (x: Article) => x.id != pk)))
      else (NotAllowed, db)
  }

  /** `api_article_detail`: GET and OPTIONS only; any failure, a missing
      article and a missing `allow_comment` attribute included, is a 500. */
  function ApiArticleDetail(m: Method, db: Database, pk: nat, body: Option<Json>, urls: Urls, env: PutEnv)
    : (r: (Reply<DetailData>, Database))
    requires Timestamped(db) && ValidTagTable(db.tags)
    ensures m != Get && m != Options ==> r == (NotAllowed, db)
    ensures m == Options ==> r == (Preflight, db)
    ensures m == Get ==> r.1 == db && !r.0.Raised?
    ensures m == Get && FindArticle(db.articles, pk).None? ==> r.0 == Fail(500, DetailError)
  {
    if m != Get && m != Options then (NotAllowed, db)
    else if m == Options then (Preflight, db)
    else
      var (reply, db') := DetailBody(m, db, pk, body, urls, env);
      (CatchAll(reply, DetailError), db')
  }

  /** GET on the detail API: a missing article is a 500 (the `Http404` is
      caught), a hidden one a 404 "文章不可见", a stored visible one a 500
      (AttributeError on `allow_comment`); only an article carrying the
      attribute is shown, with exactly its visible comments. */
  lemma DetailGetOutcomes(db: Database, pk: nat, body: Option<Json>, urls: Urls, env: PutEnv)
    requires Timestamped(db) && ValidTagTable(db.tags) && UniqueIds(db.articles)
    ensures var r := ApiArticleDetail(Get, db, pk, body, urls, env).0;
      && ((forall a :: a in db.articles ==> a.id != pk) ==> r == Fail(500, DetailError))
      && (forall a :: a in db.articles && a.id == pk ==>
            && (a.isHidden ==> r == Fail(404, ArticleInvisible))
            && (!a.isHidden && a.allowComment.None? ==> r == Fail(500, DetailError))
            && (!a.isHidden && a.allowComment.Some? ==>
                  r.Ok? && r.data.Shown? && r.data.article.id == pk
                  && |r.data.comments| == |VisibleComments(db.comments, pk)|))
  {
    match FindArticle(db.articles, pk)
    case None =>
    case Some(b) =>
      forall a | a in db.articles && a.id == pk ensures a == b {
        SameIdSameArticle(db.articles, a, b);
      }
  }

  /** The decorator admits only GET and OPTIONS, so the PUT and DELETE
      branches are unreachable: such requests get 405 and change nothing. */
  lemma DetailWritesUnreachable(db: Database, pk: nat, body: Option<Json>, urls: Urls, env: PutEnv)
    requires Timestamped(db) && ValidTagTable(db.tags)
    ensures ApiArticleDetail(Put, db, pk, body, urls, env) == (NotAllowed, db)
    ensures ApiArticleDetail(Delete, db, pk, body, urls, env) == (NotAllowed, db)
    ensures Status(ApiArticleDetail(Put, db, pk, body, urls, env).0) == 405
  {
  }

  /*** The PUT partial update ***/

  /** `str()` of a JSON value. */
  function PyStr(j: Json, repr: Json -> string): string {
    match j
    case JNull => "None"
    case JBool(b) => if b then "True" else "False"
    case JInt(i) => IntToString(i)
    case JStr(s) => s
    case _ => repr(j)
  }

  /** The string items of a `tags` list, stripped, in order. */
  function TagNames(items: seq<Json>): (r: seq<string>)
    ensures forall n :: n in r <==> exists j :: j in items && j.JStr? && n == Strip(j.s)
  {
    if |items| == 0 then []
    else
      var rest := TagNames(items[1..]);
      var r := if items[0].JStr? then [Strip(items[0].s)] + rest else rest;
      TagNamesCons(items, rest, r);
      r
  }

  lemma TagNamesCons(items: seq<Json>, rest: seq<string>, r: seq<string>)
    requires |items| > 0
    requires forall n :: n in rest <==> exists j :: j in items[1..] && j.JStr? && n == Strip(j.s)
    requires r == if items[0].JStr? then [Strip(items[0].s)] + rest else rest
    ensures forall n :: n in r <==> exists j :: j in items && j.JStr? && n == Strip(j.s)
  {
    forall n ensures n in r <==> exists j :: j in items && j.JStr? && n == Strip(j.s) {
      if n in r {
        if items[0].JStr? && n == Strip(items[0].s) {
          assert items[0] in items;
        } else {
          assert n in rest;
          var j :| j in items[1..] && j.JStr? && n == Strip(j.s);
          assert j in items;
        }
      }
      if exists j :: j in items && j.JStr? && n == Strip(j.s) {
        var j :| j in items && j.JStr? && n == Strip(j.s);
        if j != items[0] {
          assert j in items[1..];
        }
      }
    }
  }

  /** `get_or_create` for each name in turn: the table afterwards and the
      ids of the named tags. */
  function AddTags(tags: seq<Tag>, names: seq<string>): (r: (seq<Tag>, set<nat>))
    requires ValidTagTable(tags)
    requires forall i :: 0 <= i < |names| ==> |names[i]| <= TagNameMaxLength
    ensures ValidTagTable(r.0)
    ensures forall t :: t in tags ==> t in r.0
    decreases |names|
  {
    if |names| == 0 then (tags, {})
    else
      var created := GetOrCreateTag(tags, names[0]);
      var added := AddTags(created.0, names[1..]);
      (added.0, added.1 + {created.1.id})
  }

  /** After adding, the table holds a tag for every name, the ids are
      exactly those of tags carrying one of the names, and the only new
      tags are named ones. */
  lemma {:induction false} AddTagsNames(tags: seq<Tag>, names: seq<string>)
    requires ValidTagTable(tags)
    requires forall i :: 0 <= i < |names| ==> |names[i]| <= TagNameMaxLength
    ensures var r := AddTags(tags, names);
      && (forall t :: t in r.0 ==> t in tags || t.name in names)
      && (forall n :: n in names ==> exists t :: t in r.0 && t.name == n && t.id in r.1)
      && (forall id :: id in r.1 ==> exists t :: t in r.0 && t.id == id && t.name in names)
    decreases |names|
  {
    if |names| > 0 {
      var created := GetOrCreateTag(tags, names[0]);
      var rest := names[1..];
      AddTagsNames(created.0, rest);
      var added := AddTags(created.0, rest);
      ConsMembers(names);
      var r := AddTags(tags, names);
      assert r == (added.0, added.1 + {created.1.id});
      forall t | t in r.0 ensures t in tags || t.name in names {
        if t !in created.0 {
          assert t.name in rest;
        } else if t !in tags {
          assert t == created.1;
        }
      }
      forall n | n in names ensures exists t :: t in r.0 && t.name == n && t.id in r.1 {
        if n == names[0] {
          assert created.1 in r.0;
        } else {
          var x :| x in added.0 && x.name == n && x.id in added.1;
          assert x in r.0;
        }
      }
      forall id | id in r.1 ensures exists t :: t in r.0 && t.id == id && t.name in names {
        if id == created.1.id {
          assert created.1 in r.0;
        } else {
          assert id in added.1;
          var x :| x in added.0 && x.id == id && x.name in rest;
          assert x in r.0;
        }
      }
    }
  }

  lemma ConsMembers<T>(xs: seq<T>)
    requires |xs| > 0
    ensures forall x :: x in xs <==> x == xs[0] || x in xs[1..]
  {
    assert xs == [xs[0]] + xs[1..];
  }

  /** The data-URL prefix a cover string must start with. */
  const DataUrlPrefix: string := "data:image/"
  const Base64Marker: string := ";base64,"

  /** `\w` on ASCII text. */
  predicate IsWordChar(c: char) {
    ('a' <= c <= 'z') || ('A' <= c <= 'Z') || ('0' <= c <= '9') || c == '_'
  }

  /** The length of the run of word characters at the start of `s`. */
  function WordRunLength(s: string): (k: nat)
    ensures k <= |s|
    ensures forall i :: 0 <= i < k ==> IsWordChar(s[i])
    ensures k < |s| ==> !IsWordChar(s[k])
  {
    if |s| == 0 || !IsWordChar(s[0]) then 0 else 1 + WordRunLength(s[1..])
  }

  /** The length of `s` up to its first newline. */
  function LineLength(s: string): (k: nat)
    ensures k <= |s|
    ensures forall i :: 0 <= i < k ==> s[i] != '\n'
    ensures k < |s| ==> s[k] == '\n'
  {
    if |s| == 0 || s[0] == '\n' then 0 else 1 + LineLength(s[1..])
  }

  /** `re.match(r"data:image/(\w+);base64,(.+)", s)`: the two groups, or
      `None`. The first group is the maximal word run (the `;` after it is
      not a word character), the second runs up to the first newline. */
  function ParseDataUrl(s: string): (r: Option<(string, string)>)
    ensures r.Some? ==>
      && |r.value.0| > 0 && (forall i :: 0 <= i < |r.value.0| ==> IsWordChar(r.value.0[i]))
      && |r.value.1| > 0 && '\n' !in r.value.1
      && StartsWith(s, DataUrlPrefix + r.value.0 + Base64Marker + r.value.1)
  {
    if !StartsWith(s, DataUrlPrefix) then None
    else
      var rest := s[|DataUrlPrefix|..];
      var k := WordRunLength(rest);
      var after := rest[k..];
      if k == 0 || !StartsWith(after, Base64Marker) then None
      else
        var payload := after[|Base64Marker|..];
        var m := LineLength(payload);
        if m == 0 then None
        else
          assert s[..|DataUrlPrefix + rest[..k] + Base64Marker + payload[..m]|]
                 == DataUrlPrefix + rest[..k] + Base64Marker + payload[..m];
          Some((rest[..k], payload[..m]))
  }

  /** Every extension and payload the pattern can match is read back. */
  lemma DataUrlRoundTrip(ext: string, payload: string)
    requires |ext| > 0 && forall i :: 0 <= i < |ext| ==> IsWordChar(ext[i])
    requires |payload| > 0 && '\n' !in payload
    ensures ParseDataUrl(DataUrlPrefix + ext + Base64Marker + payload) == Some((ext, payload))
  {
    var tail := Base64Marker + payload;
    var rest := ext + tail;
    var s := DataUrlPrefix + ext + Base64Marker + payload;
    assert s == DataUrlPrefix + rest;
    ConcatAffixes(DataUrlPrefix, rest);
    assert s[|DataUrlPrefix|..] == rest;
    assert tail[0] == ';';
    WordRunOfAffix(ext, tail);
    ConcatAffixes(ext, tail);
    assert rest[|ext|..] == tail;
    ConcatAffixes(Base64Marker, payload);
    assert tail[|Base64Marker|..] == payload;
    LineLengthNoNewline(payload);
    assert payload[..|payload|] == payload;
  }

  lemma {:induction false} WordRunOfAffix(w: string, rest: string)
    requires forall i :: 0 <= i < |w| ==> IsWordChar(w[i])
    requires |rest| > 0 && !IsWordChar(rest[0])
    ensures WordRunLength(w + rest) == |w|
  {
    if |w| > 0 {
      assert (w + rest)[1..] == w[1..] + rest;
      WordRunOfAffix(w[1..], rest);
    } else {
      assert w + rest == rest;
    }
  }

  lemma {:induction false} LineLengthNoNewline(s: string)
    requires '\n' !in s
    ensures LineLength(s) == |s|
  {
    if |s| > 0 {
      assert s[0] in s;
      assert forall c :: c in s[1..] ==> c in s;
      LineLengthNoNewline(s[1..]);
    }
  }

  /** `cover_{id}.{ext}`. */
  function CoverFileName(id: nat, ext: string): string {
    "cover_" + NatToString(id) + "." + ext
  }

  /** The cover after a PUT's `cover` field: a data URL the pattern matches
      and whose payload decodes is stored as `cover_{id}.{ext}` under the
      upload path; "" clears the cover; anything else keeps it. */
  function PutCover(a: Article, cover: Json, env: PutEnv): (c: Option<string>)
    ensures !cover.JStr? ==> c == a.cover
    ensures cover == JStr("") ==> c.None?
    ensures cover.JStr? && ParseDataUrl(cover.s).Some? && env.decodes(ParseDataUrl(cover.s).value.1) ==>
              c == Some(UploadCoverPath(env.now, CoverFileName(a.id, ParseDataUrl(cover.s).value.0)))
    ensures cover.JStr? && cover.s != "" && (ParseDataUrl(cover.s).None? || !env.decodes(ParseDataUrl(cover.s).value.1))
            ==> c == a.cover
  {
    match cover
    case JStr(s) =>
      if StartsWith(s, DataUrlPrefix) then
        match ParseDataUrl(s)
        case Some((ext, payload)) =>
          if env.decodes(payload) then Some(UploadCoverPath(env.now, CoverFileName(a.id, ext))) else a.cover
        case None => a.cover
      else if s == "" then None
      else a.cover
    case _ => a.cover
  }

  /** The `content_md` field, falling back to `content` when it is falsy. */
  function ContentField(fields: map<string, Json>): Json {
    if JsonTruthy(Field(fields, "content_md")) then Field(fields, "content_md") else Field(fields, "content")
  }

  /** The `allow_comment` field, falling back to `allow_comments` when it is
      null and that key is present. */
  function AllowField(fields: map<string, Json>): Json {
    if Field(fields, "allow_comment") == JNull && "allow_comments" in fields then Field(fields, "allow_comments")
    else Field(fields, "allow_comment")
  }

  /** The over-long stripped tag names of a PUT body, which the tag table
      refuses (the name column holds 32 characters). */
  predicate TagNamesFit(fields: map<string, Json>) {
    var tags := Field(fields, "tags");
    tags.JList? ==> forall n :: n in TagNames(tags.items) ==> |n| <= TagNameMaxLength
  }

  /** The title a PUT leaves: a non-null `title` is `str()`-ed and stripped. */
  function PutTitle(a: Article, fields: map<string, Json>, env: PutEnv): string {
    var title := Field(fields, "title");
    if title != JNull then Strip(PyStr(title, env.repr)) else a.title
  }

  /** The writes of a PUT fit their columns: every tag name (32 characters)
      and the title the row is saved with (200 characters). */
  predicate PutFits(a: Article, fields: map<string, Json>, env: PutEnv) {
    TagNamesFit(fields) && |PutTitle(a, fields, env)| <= ArticleTitleMaxLength
  }

  /** The in-memory article after a PUT and the tag table: each field is
      overwritten only when present. */
  function UpdatedArticle(a: Article, tags: seq<Tag>, fields: map<string, Json>, env: PutEnv): (r: (Article, seq<Tag>))
    requires ValidTagTable(tags) && TagNamesFit(fields)
    ensures ValidTagTable(r.1) && forall t :: t in tags ==> t in r.1
  {
    var content := ContentField(fields);
    var tagList := Field(fields, "tags");
    var hidden := Field(fields, "is_hidden");
    var allow := AllowField(fields);
    var (tags', ids) :=
      if tagList.JList? then
        var names := TagNames(tagList.items);
        assert forall i :: 0 <= i < |names| ==> |names[i]| <= TagNameMaxLength by {
          forall i | 0 <= i < |names| ensures |names[i]| <= TagNameMaxLength { assert names[i] in names; }
        }
        AddTags(tags, names)
      else (tags, a.tags);
    (a.(title := PutTitle(a, fields, env),
        contentMd := if content != JNull then PyStr(content, env.repr) else a.contentMd,
        tags := ids,
        cover := PutCover(a, Field(fields, "cover"), env),
        isHidden := if hidden != JNull then JsonTruthy(hidden) else a.isHidden,
        allowComment := if allow != JNull then Some(JsonTruthy(allow)) else a.allowComment),
     tags')
  }

  /** The PUT branch: update, save (the row loses `allow_comment`), and
      answer with the in-memory instance, whose `allow_comment` exists only
      when this request set it; otherwise the answer is AttributeError even
      though the row has been saved. An over-long tag name or title fails
      before any change (the model treats the update as one transaction). */
  function PutArticle(db: Database, a: Article, fields: map<string, Json>, urls: Urls, env: PutEnv)
    : (r: (Reply<DetailData>, Database))
    requires ValidTagTable(db.tags) && a.publishedAt.Some?
    ensures !PutFits(a, fields, env) ==> r == (Raised(DataError), db)
    ensures PutFits(a, fields, env) ==>
              && r.1.articles == ReplaceArticle(db.articles, Persist(UpdatedArticle(a, db.tags, fields, env).0))
              && r.1.tags == UpdatedArticle(a, db.tags, fields, env).1
              && r.1.comments == db.comments && r.1.messages == db.messages
    ensures PutFits(a, fields, env) ==> (r.0.Ok? <==> AllowField(fields) != JNull || a.allowComment.Some?)
    ensures PutFits(a, fields, env) && !r.0.Ok? ==> r.0 == Raised(AttributeError)
    ensures r.0.Ok? ==> r.0.data.Updated? && r.0.data.article.id == a.id
    ensures r.0.Ok? ==> |r.0.data.article.title| <= ArticleTitleMaxLength
    ensures r.0.Ok? && AllowField(fields) != JNull ==> r.0.data.article.allowComment == JsonTruthy(AllowField(fields))
    ensures r.0.Ok? ==>
              var b := UpdatedArticle(a, db.tags, fields, env).0;
              var j := r.0.data.article;
              && j.title == b.title && j.contentMd == b.contentMd && j.cover == MediaCoverUrl(urls, b.cover)
              && j.publishedAt == FormatMinute(a.publishedAt.value)
              && (forall t :: t in j.tags <==> t in r.1.tags && t.id in b.tags)
              && b.allowComment == Some(j.allowComment)
  {
    if !PutFits(a, fields, env) then (Raised(DataError), db)
    else
      var (b, tags') := UpdatedArticle(a, db.tags, fields, env);
      var db' := db.(articles := ReplaceArticle(db.articles, Persist(b)), tags := tags');
      if b.allowComment.None? then (Raised(AttributeError), db')
      else
        (Ok(Updated(ArticleJson(b.id, b.title, b.contentMd, MediaCoverUrl(urls, b.cover),
                                FormatMinute(a.publishedAt.value), TagsOf(b, tags'), b.allowComment.value))),
         db')
  }

  /** A row whose cover file name is empty is answered with no cover URL,
      since an empty file field is falsy. */
  lemma PutEchoesEmptyCoverAsAbsent(db: Database, a: Article, urls: Urls, env: PutEnv)
    requires ValidTagTable(db.tags) && a.publishedAt.Some? && a.cover == Some("")
    requires |a.title| <= ArticleTitleMaxLength
    ensures var r := PutArticle(db, a, map["allow_comment" := JBool(true)], urls, env);
            r.0.Ok? && r.0.data.article.cover == ""
  {
  }

  /** PUT is a partial update: a field absent from the body or null keeps
      its value; a present title is `str()`-ed and stripped; a `tags` list replaces the
      tag set by exactly the named tags (created when missing); a cover ""
      clears the cover; `is_hidden` takes the value's truthiness. */
  lemma PutIsPartialUpdate(a: Article, tags: seq<Tag>, fields: map<string, Json>, env: PutEnv)
    requires ValidTagTable(tags) && TagNamesFit(fields)
    ensures var (b, tags') := UpdatedArticle(a, tags, fields, env);
      && b.id == a.id && b.publishedAt == a.publishedAt
      && (Field(fields, "title") == JNull ==> b.title == a.title)
      && ("title" in fields && fields["title"] != JNull ==> b.title == Strip(PyStr(fields["title"], env.repr)))
      && (Field(fields, "content_md") == JNull && Field(fields, "content") == JNull ==> b.contentMd == a.contentMd)
      && (!Field(fields, "tags").JList? ==> b.tags == a.tags && tags' == tags)
      && (Field(fields, "tags").JList? ==>
            var names := TagNames(Field(fields, "tags").items);
            && (forall n :: n in names ==> exists t :: t in tags' && t.name == n && t.id in b.tags)
            && (forall id :: id in b.tags ==> exists t :: t in tags' && t.id == id && t.name in names))
      && (!Field(fields, "cover").JStr? ==> b.cover == a.cover)
      && (Field(fields, "cover") == JStr("") ==> b.cover.None?)
      && (Field(fields, "is_hidden") == JNull ==> b.isHidden == a.isHidden)
      && ("is_hidden" in fields && fields["is_hidden"] != JNull ==> b.isHidden == JsonTruthy(fields["is_hidden"]))
      && (Field(fields, "allow_comment") == JNull && Field(fields, "allow_comments") == JNull ==> b.allowComment == a.allowComment)
  {
    var tagList := Field(fields, "tags");
    if tagList.JList? {
      var names := TagNames(tagList.items);
      forall i | 0 <= i < |names| ensures |names[i]| <= TagNameMaxLength { assert names[i] in names; }
      AddTagsNames(tags, names);
    }
  }

  /** The content and comment switch of a PUT: the content is taken from a
      truthy `content_md`, else from `content`, and `str()`-ed when that
      value is not null; `allow_comment`, falling back to `allow_comments`
      when null and that key is present, takes the value's truthiness when
      not null. A null value keeps the old one. */
  lemma PutSetsContentAndSwitch(a: Article, tags: seq<Tag>, fields: map<string, Json>, env: PutEnv)
    requires ValidTagTable(tags) && TagNamesFit(fields)
    ensures var b := UpdatedArticle(a, tags, fields, env).0;
      && (ContentField(fields) != JNull ==> b.contentMd == PyStr(ContentField(fields), env.repr))
      && (ContentField(fields) == JNull ==> b.contentMd == a.contentMd)
      && (AllowField(fields) != JNull ==> b.allowComment == Some(JsonTruthy(AllowField(fields))))
      && (AllowField(fields) == JNull ==> b.allowComment == a.allowComment)
  {
  }

  /** An empty PUT body changes nothing: the stored row is written back as it was. */
  lemma EmptyPutChangesNothing(a: Article, tags: seq<Tag>, env: PutEnv)
    requires ValidTagTable(tags) && Stored(a)
    ensures UpdatedArticle(a, tags, map[], env) == (a, tags)
    ensures Persist(UpdatedArticle(a, tags, map[], env).0) == a
  {
  }

  /** A stored article updated by a PUT that does not set `allow_comment`
      is saved, and the answer is nevertheless an error. */
  lemma PutWithoutAllowCommentFails(db: Database, a: Article, fields: map<string, Json>, urls: Urls, env: PutEnv)
    requires ValidTagTable(db.tags) && Stored(a) && PutFits(a, fields, env)
    requires AllowField(fields) == JNull
    ensures PutArticle(db, a, fields, urls, env).0 == Raised(AttributeError)
    ensures PutArticle(db, a, fields, urls, env).1.articles == ReplaceArticle(db.articles, Persist(UpdatedArticle(a, db.tags, fields, env).0))
  {
  }

  /*** Submissions ***/

  const CommentSubmitError: string := "评论提交失败: "
  const MessageSubmitError: string := "留言提交失败: "
  const BadJson: string := "JSON解析失败"
  const MissingParameters: string := "缺少必要参数"
  const ArticleMissing: string := "文章不存在"
  const CommentsForbidden: string := "该文章不允许评论"
  const MessageEmpty: string := "留言内容不能为空"

  /** A submission's body: JSON (`None` when it does not parse) or form fields. */
  datatype SubmitRequest = JsonRequest(body: Option<Json>) | FormRequest(form: map<string, string>)

  /** The `article_id` value and the stripped content. */
  datatype Submission = Submission(articleId: Json, content: string)

  /** Reading the body: in the JSON case, a parse failure, a body that is
      not an object, or a `content` that is not a string (null included)
      all fail, which the handlers answer with 400 "JSON解析失败". */
  function ReadSubmission(req: SubmitRequest): (r: Option<Submission>)
    ensures req.FormRequest? ==> r.Some?
    ensures r.Some? ==> r.value.content == Strip(r.value.content)
  {
    match req
    case JsonRequest(None) => None
    case JsonRequest(Some(JObj(f))) =>
      var content := if "content" in f then f["content"] else JStr("");
      if content.JStr? then
        StripIdempotent(content.s);
        Some(Submission(Field(f, "article_id"), Strip(content.s)))
      else None
    case JsonRequest(Some(_)) => None
    case FormRequest(f) =>
      var content := if "content" in f then f["content"] else "";
      StripIdempotent(content);
      Some(Submission(if "article_id" in f then JStr(f["article_id"]) else JNull, Strip(content)))
  }

  /** The integer Django makes of a primary-key value, `None` when the
      conversion raises. */
  function PkValue(j: Json): Option<int> {
    match j
    case JInt(i) => Some(i)
    case JBool(b) => Some(if b then 1 else 0)
    case JStr(s) => ParseInt(s)
    case _ => None
  }

  /** The checks of `api_submit_comment` that precede any state change. */
  datatype ApiGate = Pass(article: Article, content: string) | Stop(reply: Reply<CommentJson>)

  /** The body reads, its id is truthy and its stripped content non-empty. */
  predicate HasParameters(req: SubmitRequest) {
    var sub := ReadSubmission(req);
    sub.Some? && JsonTruthy(sub.value.articleId) && sub.value.content != ""
  }

  /** The visible article the submitted id names, when the parameters are
      present, the id converts and such an article exists. */
  function ApiTarget(db: Database, req: SubmitRequest): Option<Article> {
    if !HasParameters(req) then None
    else
      var pk := PkValue(ReadSubmission(req).value.articleId);
      if pk.None? then None else FindArticle(VisibleArticles(db.articles), pk.value)
  }

  /** In order: the body must read (400), the id must be truthy and the
      content non-empty (400), the id must convert (else an exception), the
      article must exist and be visible (404), and its comments must be on
      (a missing attribute raises; off is 403). There is no minimum length
      and no cooldown. */
  function CommentApiGate(db: Database, req: SubmitRequest): (g: ApiGate)
    ensures g.Stop? ==> !g.reply.Ok? && !g.reply.Preflight? && !g.reply.NotAllowed?
    ensures g.Pass? ==>
      && ReadSubmission(req).Some? && g.content == ReadSubmission(req).value.content && g.content != ""
      && JsonTruthy(ReadSubmission(req).value.articleId)
      && PkValue(ReadSubmission(req).value.articleId) == Some(g.article.id as int)
      && g.article in db.articles && Visible(g.article) && g.article.allowComment == Some(true)
    ensures g.Stop? && g.reply.Raised? ==> g.reply.cause != TypeError
  {
    match ReadSubmission(req)
    case None => Stop(Fail(400, BadJson))
    case Some(sub) =>
      if !JsonTruthy(sub.articleId) || sub.content == "" then Stop(Fail(400, MissingParameters))
      else match PkValue(sub.articleId)
        case None => Stop(Raised(ValueError))
        case Some(pk) =>
          match FindArticle(VisibleArticles(db.articles), pk)
          case None => Stop(Fail(404, ArticleMissing))
          case Some(a) =>
            if a.allowComment.None? then Stop(Raised(AttributeError))
            else if !a.allowComment.value then Stop(Fail(403, CommentsForbidden))
            else Pass(a, sub.content)
  }

  /** The reply of each check, assuming the earlier ones passed: an
      unreadable body, then a falsy id or empty content, are 400; an id the
      key lookup cannot convert raises ValueError; an unknown or hidden
      article is 404; a missing `allow_comment` attribute raises
      AttributeError; closed comments are 403. */
  lemma CommentApiGateReplies(db: Database, req: SubmitRequest)
    ensures var g := CommentApiGate(db, req);
      && (ReadSubmission(req).None? ==> g == Stop(Fail(400, BadJson)))
      && (ReadSubmission(req).Some? && !HasParameters(req) ==> g == Stop(Fail(400, MissingParameters)))
      && (HasParameters(req) && PkValue(ReadSubmission(req).value.articleId).None? ==> g == Stop(Raised(ValueError)))
      && (HasParameters(req) && PkValue(ReadSubmission(req).value.articleId).Some? && ApiTarget(db, req).None?
          ==> g == Stop(Fail(404, ArticleMissing)))
      && (ApiTarget(db, req).Some? && ApiTarget(db, req).value.allowComment.None? ==> g == Stop(Raised(AttributeError)))
      && (ApiTarget(db, req).Some? && ApiTarget(db, req).value.allowComment == Some(false)
          ==> g == Stop(Fail(403, CommentsForbidden)))
  {
  }

  /** With unique ids the checks pass exactly when the body reads, the id is
      truthy and converts to the id of a visible article whose comments are
      on, and the content is non-empty (one character suffices). */
  lemma CommentApiGatePasses(db: Database, req: SubmitRequest)
    requires UniqueIds(db.articles)
    ensures CommentApiGate(db, req).Pass? <==>
      && ReadSubmission(req).Some?
      && JsonTruthy(ReadSubmission(req).value.articleId)
      && ReadSubmission(req).value.content != ""
      && PkValue(ReadSubmission(req).value.articleId).Some?
      && (exists a :: a in db.articles && a.id == PkValue(ReadSubmission(req).value.articleId).value
                      && Visible(a) && a.allowComment == Some(true))
  {
    var sub := ReadSubmission(req);
    if sub.Some? && JsonTruthy(sub.value.articleId) && sub.value.content != "" && PkValue(sub.value.articleId).Some? {
      GatePassesOn(db, req, sub.value, PkValue(sub.value.articleId).value);
    }
  }

  /** Once the body reads and the id converts to `pk`, the gate passes
      exactly when `pk` names a visible article whose comments are on. */
  lemma GatePassesOn(db: Database, req: SubmitRequest, sub: Submission, pk: int)
    requires UniqueIds(db.articles) && ReadSubmission(req) == Some(sub)
    requires JsonTruthy(sub.articleId) && sub.content != "" && PkValue(sub.articleId) == Some(pk)
    ensures CommentApiGate(db, req).Pass? <==>
              exists a :: a in db.articles && a.id == pk && Visible(a) && a.allowComment == Some(true)
  {
    var found := FindArticle(VisibleArticles(db.articles), pk);
    if a :| a in db.articles && a.id == pk && Visible(a) && a.allowComment == Some(true) {
      assert a in VisibleArticles(db.articles);
      SameIdSameArticle(db.articles, a, found.value);
    }
  }

  /** Both caches agree on every client's cooldown at every second. */
  ghost predicate SameCooldowns(a: Cache, b: Cache) {
    forall k, t :: CooldownActive(a, k, t) == CooldownActive(b, k, t)
  }

  /** `after` is `before` with one visible comment carrying `content`
      appended, and nothing else changed. */
  ghost predicate CommentAppended(before: Database, after: Database, content: string) {
    && after.articles == before.articles && after.messages == before.messages && after.tags == before.tags
    && |after.comments| == |before.comments| + 1
    && after.comments[..|before.comments|] == before.comments
    && !after.comments[|before.comments|].isHidden
    && after.comments[|before.comments|].content == content
  }

  /** Obtaining the profile sets no cooldown and clears none. */
  lemma ProfileStepKeepsCooldowns(s: LiveState, client: Client, clock: Clock, draw: Draw)
    requires ValidDraw(draw, s.avatars)
    ensures SameCooldowns(ObtainProfile(s.cache, client.key, clock.seconds, s.avatars, client.ip, client.geo, draw).cache, s.cache)
  {
    forall k: string ensures CooldownKey(k) != ProfileKey(client.key) {
      CacheKeysDistinct(k, client.key);
    }
  }

  /** The profile step, then the comment stored visible under that profile. */
  function RecordApiComment(s: LiveState, a: Article, content: string, client: Client, clock: Clock,
                            draw: Draw, newId: nat, urls: Urls): (r: (Reply<CommentJson>, LiveState))
    requires ValidDraw(draw, s.avatars)
    ensures r.0.Ok? <==> !ProfileSlotCorrupt(s.cache, client.key, clock.seconds)
    ensures !r.0.Ok? ==> r.0 == Raised(TypeError) && r.1.db == s.db
    ensures r.0.Ok? ==>
      && CommentAppended(s.db, r.1.db, content)
      && var c := r.1.db.comments[|s.db.comments|];
         c.id == newId && c.articleId == a.id && c.createdAt == clock.now && r.0.data == CommentJsonOf(c, urls)
    ensures SameCooldowns(r.1.cache, s.cache)
  {
    var step := ObtainProfile(s.cache, client.key, clock.seconds, s.avatars, client.ip, client.geo, draw);
    ProfileStepKeepsCooldowns(s, client, clock, draw);
    match step.profile
    case None => (Raised(TypeError), s.(cache := step.cache, avatars := step.avatars))
    case Some(p) =>
      var c := Comment(newId, a.id, p.nickname, p.city, content, clock.now, false, p.avatar);
      assert (s.db.comments + [c])[..|s.db.comments|] == s.db.comments;
      (Ok(CommentJsonOf(c, urls)), LiveState(s.db.(comments := s.db.comments + [c]), step.cache, step.avatars))
  }

  /** Storing an admitted comment inside the handler's catch-all: a
      corrupt profile slot is answered 500 and changes nothing. */
  function CaughtRecord(s: LiveState, a: Article, content: string, client: Client, clock: Clock,
                        draw: Draw, newId: nat, urls: Urls): (r: (Reply<CommentJson>, LiveState))
    requires ValidDraw(draw, s.avatars)
    ensures !r.0.Raised?
    ensures r.0.Ok? <==> !ProfileSlotCorrupt(s.cache, client.key, clock.seconds)
    ensures !r.0.Ok? ==> r.0 == Fail(500, CommentSubmitError) && r.1.db == s.db
    ensures r.0.Ok? ==> CommentAppended(s.db, r.1.db, content)
    ensures SameCooldowns(r.1.cache, s.cache)
  {
    var rec := RecordApiComment(s, a, content, client, clock, draw, newId, urls);
    (CatchAll(rec.0, CommentSubmitError), rec.1)
  }

  /** `api_submit_comment`: POST and OPTIONS only; exceptions become 500. */
  function ApiSubmitComment(m: Method, s: LiveState, req: SubmitRequest, client: Client, clock: Clock,
                            draw: Draw, newId: nat, urls: Urls): (r: (Reply<CommentJson>, LiveState))
    requires ValidDraw(draw, s.avatars)
    ensures m != Post && m != Options ==> r == (NotAllowed, s)
    ensures m == Options ==> r == (Preflight, s)
    ensures m == Post ==> !r.0.Raised?
    ensures m == Post ==> (r.0.Ok? <==> CommentApiGate(s.db, req).Pass? && !ProfileSlotCorrupt(s.cache, client.key, clock.seconds))
    ensures !r.0.Ok? ==> r.1.db == s.db
    ensures r.0.Ok? ==> CommentAppended(s.db, r.1.db, ReadSubmission(req).value.content)
    ensures SameCooldowns(r.1.cache, s.cache)
  {
    if m != Post && m != Options then (NotAllowed, s)
    else if m == Options then (Preflight, s)
    else
      var g := CommentApiGate(s.db, req);
      if g.Stop? then (CatchAll(g.reply, CommentSubmitError), s)
      else
        assert g.content == ReadSubmission(req).value.content;
        CaughtRecord(s, g.article, g.content, client, clock, draw, newId, urls)
  }

  /** The replies of a refused POST, check by check in the handler's order:
      an unreadable body and missing parameters are 400, an id the key
      lookup cannot convert is caught as a 500, an unknown or hidden article
      is 404, a missing `allow_comment` attribute is caught as a 500 and
      closed comments are 403; the state is left as it was. */
  lemma ApiCommentRefusals(s: LiveState, req: SubmitRequest, client: Client, clock: Clock,
                           draw: Draw, newId: nat, urls: Urls)
    requires ValidDraw(draw, s.avatars)
    ensures var r := ApiSubmitComment(Post, s, req, client, clock, draw, newId, urls);
      && (ReadSubmission(req).None? ==> r == (Fail(400, BadJson), s))
      && (ReadSubmission(req).Some? && !HasParameters(req) ==> r == (Fail(400, MissingParameters), s))
      && (HasParameters(req) && PkValue(ReadSubmission(req).value.articleId).None?
          ==> r == (Fail(500, CommentSubmitError), s))
      && (HasParameters(req) && PkValue(ReadSubmission(req).value.articleId).Some? && ApiTarget(s.db, req).None?
          ==> r == (Fail(404, ArticleMissing), s))
      && (ApiTarget(s.db, req).Some? && ApiTarget(s.db, req).value.allowComment.None?
          ==> r == (Fail(500, CommentSubmitError), s))
      && (ApiTarget(s.db, req).Some? && ApiTarget(s.db, req).value.allowComment == Some(false)
          ==> r == (Fail(403, CommentsForbidden), s))
  {
    CommentApiGateReplies(s.db, req);
    if CommentApiGate(s.db, req).Stop? {
      ApiStoppedAtGate(s, req, client, clock, draw, newId, urls);
    }
  }

  /** A POST the checks stop gets the checks' reply, with exceptions caught
      as 500, and changes nothing. */
  lemma ApiStoppedAtGate(s: LiveState, req: SubmitRequest, client: Client, clock: Clock,
                         draw: Draw, newId: nat, urls: Urls)
    requires ValidDraw(draw, s.avatars) && CommentApiGate(s.db, req).Stop?
    ensures ApiSubmitComment(Post, s, req, client, clock, draw, newId, urls)
            == (CatchAll(CommentApiGate(s.db, req).reply, CommentSubmitError), s)
  {
  }

  /** The API accepts a comment exactly when the checks pass and the profile
      slot is not corrupt; then one visible comment with the stripped
      content is appended. The cooldown plays no part: whatever the cache
      holds under a cooldown key, it is neither read nor written. */
  lemma ApiSubmitCommentAccepts(s: LiveState, req: SubmitRequest, client: Client, clock: Clock,
                                draw: Draw, newId: nat, urls: Urls)
    requires ValidDraw(draw, s.avatars) && UniqueIds(s.db.articles)
    ensures ApiSubmitComment(Post, s, req, client, clock, draw, newId, urls).0.Ok? <==>
      && ReadSubmission(req).Some?
      && JsonTruthy(ReadSubmission(req).value.articleId)
      && ReadSubmission(req).value.content != ""
      && PkValue(ReadSubmission(req).value.articleId).Some?
      && (exists a :: a in s.db.articles && a.id == PkValue(ReadSubmission(req).value.articleId).value
                      && Visible(a) && a.allowComment == Some(true))
      && !ProfileSlotCorrupt(s.cache, client.key, clock.seconds)
  {
    CommentApiGatePasses(s.db, req);
  }

  /** As written the API never stores a comment: a visible stored article
      has no `allow_comment` attribute, so the request that reaches that
      check fails with 500, and nothing changes. */
  lemma ApiStoredArticlesRefuseComments(db: Database, req: SubmitRequest)
    requires forall i :: 0 <= i < |db.articles| ==> Stored(db.articles[i])
    ensures CommentApiGate(db, req).Stop?
  {
  }

  /** `after` is `before` with one visible message carrying `content` put
      in front, and nothing else changed. */
  ghost predicate MessagePrepended(before: Database, after: Database, content: string) {
    && after.articles == before.articles && after.comments == before.comments && after.tags == before.tags
    && |after.messages| == |before.messages| + 1 && after.messages[1..] == before.messages
    && !after.messages[0].isHidden && after.messages[0].content == content
  }

  /** The profile step, then the message stored visible under that profile. */
  function RecordMessage(s: LiveState, content: string, client: Client, clock: Clock,
                         draw: Draw, newId: nat, urls: Urls): (r: (Reply<CommentJson>, LiveState))
    requires ValidDraw(draw, s.avatars)
    ensures r.0.Ok? <==> !ProfileSlotCorrupt(s.cache, client.key, clock.seconds)
    ensures !r.0.Ok? ==> r.0 == Raised(TypeError) && r.1.db == s.db
    ensures r.0.Ok? ==> MessagePrepended(s.db, r.1.db, content)
                        && r.1.db.messages[0].id == newId && r.1.db.messages[0].createdAt == clock.now
  {
    var step := ObtainProfile(s.cache, client.key, clock.seconds, s.avatars, client.ip, client.geo, draw);
    match step.profile
    case None => (Raised(TypeError), s.(cache := step.cache, avatars := step.avatars))
    case Some(p) =>
      var msg := BoardMessage(newId, p.nickname, p.avatar, p.city, content, clock.now, false);
      assert ([msg] + s.db.messages)[1..] == s.db.messages;
      (Ok(CommentJson(msg.id, msg.nickname, msg.city, msg.content, FormatMinute(msg.createdAt), AbsoluteFileUrl(urls, msg.avatar))),
       LiveState(s.db.(messages := [msg] + s.db.messages), step.cache, step.avatars))
  }

  /** A message is stored exactly when the body reads, the stripped content
      is non-empty and the profile slot is not corrupt. */
  predicate MessageAccepted(s: LiveState, req: SubmitRequest, client: Client, clock: Clock) {
    ReadSubmission(req).Some? && ReadSubmission(req).value.content != ""
    && !ProfileSlotCorrupt(s.cache, client.key, clock.seconds)
  }

  /** `api_submit_message` before the catch-all: the body must read (400)
      and the content be non-empty (400); then the profile is obtained as
      for comments and a visible message is stored, newest first. */
  function SubmitMessageBody(s: LiveState, req: SubmitRequest, client: Client, clock: Clock,
                             draw: Draw, newId: nat, urls: Urls): (r: (Reply<CommentJson>, LiveState))
    requires ValidDraw(draw, s.avatars)
    ensures r.0.Ok? <==> MessageAccepted(s, req, client, clock)
    ensures !r.0.Ok? ==> r.1.db == s.db && (r.0.Fail? || r.0 == Raised(TypeError))
    ensures r.0.Ok? ==> MessagePrepended(s.db, r.1.db, ReadSubmission(req).value.content)
                        && r.1.db.messages[0].id == newId && r.1.db.messages[0].createdAt == clock.now
  {
    match ReadSubmission(req)
    case None => (Fail(400, BadJson), s)
    case Some(sub) =>
      if sub.content == "" then (Fail(400, MessageEmpty), s)
      else RecordMessage(s, sub.content, client, clock, draw, newId, urls)
  }

  /** The refusals before the catch-all: an unreadable body, then empty
      content, are 400 and change nothing; a corrupt profile slot raises
      TypeError. */
  lemma SubmitMessageBodyReplies(s: LiveState, req: SubmitRequest, client: Client, clock: Clock,
                                 draw: Draw, newId: nat, urls: Urls)
    requires ValidDraw(draw, s.avatars)
    ensures var r := SubmitMessageBody(s, req, client, clock, draw, newId, urls);
      && (ReadSubmission(req).None? ==> r == (Fail(400, BadJson), s))
      && (ReadSubmission(req).Some? && ReadSubmission(req).value.content == "" ==> r == (Fail(400, MessageEmpty), s))
      && (ReadSubmission(req).Some? && ReadSubmission(req).value.content != ""
          && ProfileSlotCorrupt(s.cache, client.key, clock.seconds)
          ==> r.0 == Raised(TypeError))
  {
  }

  /** `api_submit_message`: POST and OPTIONS only; exceptions become 500. */
  function ApiSubmitMessage(m: Method, s: LiveState, req: SubmitRequest, client: Client, clock: Clock,
                            draw: Draw, newId: nat, urls: Urls): (r: (Reply<CommentJson>, LiveState))
    requires ValidDraw(draw, s.avatars)
    ensures m != Post && m != Options ==> r == (NotAllowed, s)
    ensures m == Options ==> r == (Preflight, s)
    ensures m == Post ==> !r.0.Raised? && !r.0.Preflight? && !r.0.NotAllowed?
    ensures m == Post ==> (r.0.Ok? <==> MessageAccepted(s, req, client, clock))
    ensures !r.0.Ok? ==> r.1.db == s.db
  {
    if m != Post && m != Options then (NotAllowed, s)
    else if m == Options then (Preflight, s)
    else
      var body := SubmitMessageBody(s, req, client, clock, draw, newId, urls);
      (CatchAll(body.0, MessageSubmitError), body.1)
  }

  /** The replies of a refused POST: an unreadable body and empty content
      are 400 and change nothing. */
  lemma ApiMessageRefusals(s: LiveState, req: SubmitRequest, client: Client, clock: Clock,
                           draw: Draw, newId: nat, urls: Urls)
    requires ValidDraw(draw, s.avatars)
    ensures var r := ApiSubmitMessage(Post, s, req, client, clock, draw, newId, urls);
      && (ReadSubmission(req).None? ==> r == (Fail(400, BadJson), s))
      && (ReadSubmission(req).Some? && ReadSubmission(req).value.content == "" ==> r == (Fail(400, MessageEmpty), s))
  {
    SubmitMessageBodyReplies(s, req, client, clock, draw, newId, urls);
    if ReadSubmission(req).None? {
      MessageRefusedUnchanged(s, req, client, clock, draw, newId, urls, Fail(400, BadJson));
    } else if ReadSubmission(req).value.content == "" {
      MessageRefusedUnchanged(s, req, client, clock, draw, newId, urls, Fail(400, MessageEmpty));
    }
  }

  /** A refusal the body answers without touching the state passes through
      the catch-all as it is. */
  lemma MessageRefusedUnchanged(s: LiveState, req: SubmitRequest, client: Client, clock: Clock,
                                draw: Draw, newId: nat, urls: Urls, reply: Reply<CommentJson>)
    requires ValidDraw(draw, s.avatars) && reply.Fail?
    requires SubmitMessageBody(s, req, client, clock, draw, newId, urls) == (reply, s)
    ensures ApiSubmitMessage(Post, s, req, client, clock, draw, newId, urls) == (reply, s)
  {
    PostIsCaughtBody(s, req, client, clock, draw, newId, urls);
    CaughtFailure(reply, MessageSubmitError);
  }

  /** The catch-all passes an explicit failure through unchanged. */
  lemma CaughtFailure<T>(r: Reply<T>, prefix: string)
    requires r.Fail?
    ensures CatchAll(r, prefix) == r
  {
  }

  /** A corrupt profile slot raises inside the handler, which answers 500. */
  lemma ApiMessageCorruptSlot(s: LiveState, req: SubmitRequest, client: Client, clock: Clock,
                              draw: Draw, newId: nat, urls: Urls)
    requires ValidDraw(draw, s.avatars)
    ensures ReadSubmission(req).Some? && ReadSubmission(req).value.content != ""
            && ProfileSlotCorrupt(s.cache, client.key, clock.seconds)
            ==> ApiSubmitMessage(Post, s, req, client, clock, draw, newId, urls).0 == Fail(500, MessageSubmitError)
  {
    SubmitMessageBodyReplies(s, req, client, clock, draw, newId, urls);
    PostIsCaughtBody(s, req, client, clock, draw, newId, urls);
  }

  /** An accepted message is put in front of the board, visible and with
      the stripped content, and nothing else in the database changes. */
  lemma ApiMessageStored(s: LiveState, req: SubmitRequest, client: Client, clock: Clock,
                         draw: Draw, newId: nat, urls: Urls)
    requires ValidDraw(draw, s.avatars)
    ensures var r := ApiSubmitMessage(Post, s, req, client, clock, draw, newId, urls);
      r.0.Ok? ==> MessagePrepended(s.db, r.1.db, ReadSubmission(req).value.content)
  {
    PostIsCaughtBody(s, req, client, clock, draw, newId, urls);
  }

  /** A POST answers the body's outcome with exceptions caught as 500. */
  lemma PostIsCaughtBody(s: LiveState, req: SubmitRequest, client: Client, clock: Clock,
                         draw: Draw, newId: nat, urls: Urls)
    requires ValidDraw(draw, s.avatars)
    ensures var body := SubmitMessageBody(s, req, client, clock, draw, newId, urls);
      ApiSubmitMessage(Post, s, req, client, clock, draw, newId, urls) == (CatchAll(body.0, MessageSubmitError), body.1)
  {
  }

  /** Storing a message keeps the board newest first, provided the clock has
      not gone back past the newest message. */
  lemma MessageKeepsBoardOrder(s: LiveState, req: SubmitRequest, client: Client, clock: Clock,
                               draw: Draw, newId: nat, urls: Urls)
    requires ValidDraw(draw, s.avatars)
    requires NonIncreasing(s.db.messages, (m: BoardMessage) => Stamp(m.createdAt))
    requires |s.db.messages| > 0 ==> Stamp(s.db.messages[0].createdAt) <= Stamp(clock.now)
    ensures NonIncreasing(SubmitMessageBody(s, req, client, clock, draw, newId, urls).1.db.messages,
                          (m: BoardMessage) => Stamp(m.createdAt))
  {
    var r := SubmitMessageBody(s, req, client, clock, draw, newId, urls);
    var ms := r.1.db.messages;
    if r.0.Ok? {
      PrependedFront(s.db, r.1.db, ReadSubmission(req).value.content);
      PrependKeepsOrder(ms[0], s.db.messages, (m: BoardMessage) => Stamp(m.createdAt));
    }
  }

  lemma PrependedFront(before: Database, after: Database, content: string)
    requires MessagePrepended(before, after, content)
    ensures after.messages == [after.messages[0]] + before.messages
  {
    assert after.messages == [after.messages[0]] + after.messages[1..];
  }
}
