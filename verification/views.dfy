/** The live site (app/views.py): the list, detail and board pages, the
    helpers that build an anonymous commenter's profile, and the comment
    submission with its cooldown. The cache is a map from keys to entries
    with an expiry time; the ip-api.com lookup, the random draws and the
    clock are parameters. */
module Views {
  import opened Common
  import opened Models
  import opened Pagination
  import opened Rendering

  /*** Responses ***/

  /** An exception a handler can raise: `Http404`, `ValueError` from `int()`,
      `AttributeError` from a missing attribute, `TypeError` from indexing a
      value of the wrong kind, and a database error. */
  datatype Failure = NotFoundError | ValueError | AttributeError | TypeError | DataError

  /** What a handler produces: the empty 200 reply to a preflight request,
      the 405 of a method decorator, a successful reply, a JSON error reply
      with its status, or an exception that escapes the handler. */
  datatype Reply<T> =
    | Preflight
    | NotAllowed
    | Ok(data: T)
    | Fail(status: nat, msg: string)
    | Raised(cause: Failure)

  /** The HTTP status the client sees; Django answers an escaping `Http404`
      with 404 and any other exception with 500. */
  function Status<T>(r: Reply<T>): nat {
    match r
    case Preflight => 200
    case NotAllowed => 405
    case Ok(_) => 200
    case Fail(s, _) => s
    case Raised(NotFoundError) => 404
    case Raised(_) => 500
  }

  /** A rendered page: template name and the page part of its context. */
  datatype Html = Html(template: string, page: PageContext)

  /*** Pages ***/

  /** `article_list`: visible articles newest first, filtered to one tag when
      `?tag=` is non-empty (an unknown tag is a 404), ten per page, with the
      lenient page lookup. */
  function ArticleList(db: Database, tag: Option<string>, page: Option<string>): (r: Reply<Html>)
    ensures r.Raised? <==> tag.Some? && tag.value != "" && FindTagByName(db.tags, tag.value).None?
    ensures r.Raised? ==> Status(r) == 404
    ensures r.Ok? ==> r.data.template == "list.html" && r.data.page.ListPage?
    ensures r.Ok? ==> r.data.page.tags == db.tags
    ensures r.Ok? ==> (r.data.page.activeTag.Some? <==> tag.Some? && tag.value != "")
    ensures r.Ok? ==> forall a :: a in r.data.page.page.items ==> a in db.articles && Visible(a)
    ensures r.Ok? && r.data.page.activeTag.Some? ==>
              r.data.page.activeTag.value.name == tag.value
              && forall a :: a in r.data.page.page.items ==> r.data.page.activeTag.value.id in a.tags
    ensures r.Ok? ==> 1 <= r.data.page.page.meta.number <= r.data.page.page.meta.numPages
    ensures r.Ok? && page.None? ==> r.data.page.page.meta.number == 1
  {
    var vis := VisibleArticles(db.articles);
    var arg := if page.Some? then PageText(page.value) else NoPageArg;
    if tag.Some? && tag.value != "" then
      match FindTagByName(db.tags, tag.value)
      case None => Raised(NotFoundError)
      case Some(t) => Ok(ListHtml(TaggedWith(vis, t.id), db.tags, Some(t), arg))
    else Ok(ListHtml(vis, db.tags, None, arg))
  }

  /** The list template with the requested page of `xs`. */
  function ListHtml(xs: seq<Article>, tags: seq<Tag>, active: Option<Tag>, arg: PageArg): (h: Html)
    ensures h.page.ListPage? && h.page.tags == tags && h.page.activeTag == active
    ensures forall a :: a in h.page.page.items ==> a in xs
  {
    var k := GetPageNumber(arg, |xs|);
    var p := GetPage(xs, k);
    assert forall a :: a in p.items ==> a in xs by {
      forall a | a in p.items ensures a in xs {
        var i :| 0 <= i < |p.items| && p.items[i] == a;
        assert a == xs[Bottom(k) + i];
      }
    }
    Html("list.html", ListPage(p, tags, active))
  }

  /** `article_detail`: a 404 unless the primary key names a visible article;
      then the article, only its visible comments and its sanitised body. */
  function ArticleDetail(db: Database, libs: Libraries, pk: int): (r: Reply<Html>)
    ensures r.Ok? <==> exists a :: a in db.articles && a.id == pk && Visible(a)
    ensures !r.Ok? ==> r == Raised(NotFoundError)
    ensures r.Ok? ==> r.data.template == "detail.html" && r.data.page.DetailPage?
    ensures r.Ok? ==> var a := r.data.page.article;
              && a in db.articles && a.id == pk && Visible(a)
              && r.data.page.articleHtml == ArticleHtml(libs, a.contentMd)
              && forall c :: c in r.data.page.comments <==> c in db.comments && c.articleId == pk && !c.isHidden
  {
    match FindArticle(VisibleArticles(db.articles), pk)
    case None => Raised(NotFoundError)
    case Some(a) =>
      Ok(Html("detail.html", DetailPage(a, VisibleComments(db.comments, a.id), ArticleHtml(libs, a.contentMd))))
  }

  /** `board`: the visible board messages, newest first. */
  function Board(db: Database): (r: Reply<Html>)
    requires NonIncreasing(db.messages, (m: BoardMessage) => Stamp(m.createdAt))
    ensures r.Ok? && r.data.template == "board.html" && r.data.page.BoardPage?
    ensures forall m :: m in r.data.page.messages <==> m in db.messages && !m.isHidden
    ensures NonIncreasing(r.data.page.messages, (m: BoardMessage) => Stamp(m.createdAt))
  {
    Ok(Html("board.html", BoardPage(VisibleMessages(db.messages))))
  }

  /*** The commenter's city ***/

  const UnknownRegion: string := "未知星域"

  /** Addresses for which no lookup is made: empty, loopback, and the
      192.168.x.x and 10.x.x.x private ranges. */
  predicate LocalAddress(ip: string) {
    ip == "" || ip == "127.0.0.1" || ip == "localhost" || StartsWith(ip, "192.168.") || StartsWith(ip, "10.")
  }

  /** The `city` and `country` fields of a lookup answer ("" when missing). */
  datatype Geo = Geo(city: string, country: string)

  /** `_get_city_from_ip`, given the lookup's answer (`None` when the
      request fails, times out or returns something unreadable). */
  function CityLabel(ip: string, lookup: Option<Geo>): (place: string)
    ensures place != ""
    ensures LocalAddress(ip) || lookup.None? ==> place == UnknownRegion
    ensures !LocalAddress(ip) && lookup.Some? && lookup.value.city != "" && lookup.value.country != ""
            ==> place == lookup.value.country + [PlaceSeparator] + lookup.value.city
    ensures !LocalAddress(ip) && lookup.Some? && lookup.value.city != "" && lookup.value.country == ""
            ==> place == lookup.value.city
    ensures !LocalAddress(ip) && lookup.Some? && lookup.value.city == "" && lookup.value.country != ""
            ==> place == lookup.value.country
    ensures lookup.Some? && lookup.value.city == "" && lookup.value.country == "" ==> place == UnknownRegion
  {
    if LocalAddress(ip) then UnknownRegion
    else match lookup
      case None => UnknownRegion
      case Some(g) =>
        if g.city != "" && g.country != "" then g.country + [PlaceSeparator] + g.city
        else if g.city != "" then g.city
        else if g.country != "" then g.country
        else UnknownRegion
  }

  /** The middle dot between country and city. */
  const PlaceSeparator: char := '·'

  /** The first position of `c` in `s`, or `|s|` when it does not occur. */
  function IndexOfChar(s: string, c: char): (i: nat)
    ensures i <= |s| && (i < |s| ==> s[i] == c)
    ensures forall j :: 0 <= j < i ==> s[j] != c
  {
    if |s| == 0 then 0
    else if s[0] == c then 0
    else 1 + IndexOfChar(s[1..], c)
  }

  /** A label read back as (country, city): the text around its first
      separator; `None` for a label naming a single place. */
  function SplitPlace(place: string): Option<(string, string)> {
    var i := IndexOfChar(place, PlaceSeparator);
    if i == |place| then None else Some((place[..i], place[i + 1..]))
  }

  /** When neither name contains the separator, a label splits back exactly
      when the lookup gave both a city and a country, and then into those
      two. */
  lemma CityLabelSplits(ip: string, lookup: Option<Geo>)
    requires lookup.Some? ==> PlaceSeparator !in lookup.value.country && PlaceSeparator !in lookup.value.city
    ensures SplitPlace(CityLabel(ip, lookup)).Some? <==>
              !LocalAddress(ip) && lookup.Some? && lookup.value.city != "" && lookup.value.country != ""
    ensures SplitPlace(CityLabel(ip, lookup)).Some? ==>
              SplitPlace(CityLabel(ip, lookup)).value == (lookup.value.country, lookup.value.city)
  {
    var place := CityLabel(ip, lookup);
    var i := IndexOfChar(place, PlaceSeparator);
    if place == UnknownRegion {
      assert PlaceSeparator !in UnknownRegion;
      assert i == |place|;
    } else if lookup.value.city != "" && lookup.value.country != "" {
      var country := lookup.value.country;
      assert place[|country|] == PlaceSeparator;
      assert forall j :: 0 <= j < |country| ==> place[j] == country[j];
      assert i == |country|;
      assert place[..i] == country;
      assert place[i + 1..] == lookup.value.city;
    } else {
      assert place == lookup.value.city || place == lookup.value.country;
      assert i == |place|;
    }
  }

  /*** The avatar pool ***/

  const PoolSize: nat := 30

  /** `icon_{i:02d}.png`. */
  function IconName(i: nat): string {
    "icon_" + ZeroPad(i, 2) + ".png"
  }

  /** Matches the glob `icon_*.png`. */
  predicate IsIcon(name: string) {
    |name| >= 9 && StartsWith(name, "icon_") && EndsWith(name, ".png")
  }

  function Icons(dir: set<string>): set<string> {
    set n | n in dir && IsIcon(n)
  }

  /** The names the pool generator writes: icon_01.png … icon_30.png. */
  function PoolNames(): set<string> {
    set i | 1 <= i <= PoolSize :: IconName(i)
  }

  /** `_ensure_avatars_pool` on the file names of the avatar directory: no
      change when it already holds 30 icons, otherwise the 30 pool images
      are (re)written. */
  function EnsureAvatarsPool(dir: set<string>): (r: set<string>)
    ensures dir <= r
    ensures |Icons(dir)| >= PoolSize ==> r == dir
    ensures |Icons(dir)| < PoolSize ==> forall i :: 1 <= i <= PoolSize ==> IconName(i) in r
    ensures forall n :: n in r && n !in dir ==> exists i :: 1 <= i <= PoolSize && n == IconName(i)
  {
    if |Icons(dir)| >= PoolSize then dir else dir + PoolNames()
  }

  lemma IconNameIsIcon(i: nat)
    requires 1 <= i <= PoolSize
    ensures IsIcon(IconName(i)) && |IconName(i)| == 11
  {
    var d := ZeroPad(i, 2);
    assert |NatToString(i)| <= 2;
    ConcatAffixes("icon_", d + ".png");
    assert IconName(i) == "icon_" + (d + ".png");
    ConcatAffixes("icon_" + d, ".png");
  }

  /** The thirty pool names are distinct. */
  lemma IconNamesDistinct(i: nat, j: nat)
    requires 1 <= i <= PoolSize && 1 <= j <= PoolSize && i != j
    ensures IconName(i) != IconName(j)
  {
    IconNameIsIcon(i);
    IconNameIsIcon(j);
    assert IconName(i)[5..7] == ZeroPad(i, 2);
    assert IconName(j)[5..7] == ZeroPad(j, 2);
    if ZeroPad(i, 2) == ZeroPad(j, 2) {
      ZeroPadInjective(i, j, 2);
    }
  }

  /** The set of the first n pool names has n elements. */
  lemma {:induction false} FirstIconsCount(n: nat)
    requires n <= PoolSize
    ensures |set i | 1 <= i <= n :: IconName(i)| == n
  {
    if n > 0 {
      FirstIconsCount(n - 1);
      var before := set i | 1 <= i <= n - 1 :: IconName(i);
      var after := set i | 1 <= i <= n :: IconName(i);
      assert after == before + {IconName(n)};
      forall i | 1 <= i <= n - 1 ensures IconName(i) != IconName(n) {
        IconNamesDistinct(i, n);
      }
      assert IconName(n) !in before;
    }
  }

  /** After `_ensure_avatars_pool` the directory holds at least 30 icons, so
      a random avatar can always be drawn. */
  lemma PoolHoldsThirtyIcons(dir: set<string>)
    ensures |Icons(EnsureAvatarsPool(dir))| >= PoolSize
  {
    var r := EnsureAvatarsPool(dir);
    if |Icons(dir)| < PoolSize {
      FirstIconsCount(PoolSize);
      assert PoolNames() <= Icons(r) by {
        forall n | n in PoolNames() ensures n in Icons(r) {
          var i :| 1 <= i <= PoolSize && n == IconName(i);
          IconNameIsIcon(i);
        }
      }
      SubsetCardinality(PoolNames(), Icons(r));
    }
  }

  lemma SubsetCardinality<T>(a: set<T>, b: set<T>)
    requires a <= b
    ensures |a| <= |b|
  {
    assert b == a + (b - a);
  }

  /*** The cache ***/

  /** An anonymous commenter's profile, reused for 30 days per client. */
  datatype Profile = Profile(nickname: string, avatar: string, city: string)

  datatype CacheValue = Flag(n: int) | ProfileValue(profile: Profile)

  /** A cache entry: the value and the second at which it expires. */
  datatype CacheEntry = CacheEntry(value: CacheValue, expiresAt: int)

  type Cache = map<string, CacheEntry>

  /** Python truthiness of a cached value (a profile dict is never empty). */
  predicate Truthy(v: CacheValue) {
    match v
    case Flag(n) => n != 0
    case ProfileValue(_) => true
  }

  /** `cache.get(key)` at second `now`: an entry is live strictly before its expiry. */
  function CacheGet(c: Cache, key: string, now: int): (r: Option<CacheValue>)
    ensures r.Some? <==> key in c && now < c[key].expiresAt
    ensures r.Some? ==> r.value == c[key].value
  {
    if key in c && now < c[key].expiresAt then Some(c[key].value) else None
  }

  /** `cache.set(key, value, timeout)` at second `now`. */
  function CacheSet(c: Cache, key: string, v: CacheValue, timeout: nat, now: int): (r: Cache)
    ensures forall t :: now <= t < now + timeout ==> CacheGet(r, key, t) == Some(v)
    ensures forall t :: t >= now + timeout ==> CacheGet(r, key, t).None?
    ensures forall k, t :: k != key ==> CacheGet(r, k, t) == CacheGet(c, k, t)
  {
    c[key := CacheEntry(v, now + timeout)]
  }

  const CooldownSeconds: nat := 30
  const ProfileSeconds: nat := 60 * 60 * 24 * 30

  function CooldownKey(client: string): string {
    "comment:cooldown:" + client
  }

  function ProfileKey(client: string): string {
    "comment:profile:" + client
  }

  /** The two kinds of key never collide, for any two clients. */
  lemma CacheKeysDistinct(a: string, b: string)
    ensures CooldownKey(a) != ProfileKey(b)
  {
    assert CooldownKey(a)[8] == 'c' && ProfileKey(b)[8] == 'p';
  }

  lemma CacheKeysInjective(a: string, b: string)
    ensures CooldownKey(a) == CooldownKey(b) ==> a == b
    ensures ProfileKey(a) == ProfileKey(b) ==> a == b
  {
    ConcatAffixes("comment:cooldown:", a);
    ConcatAffixes("comment:cooldown:", b);
    ConcatAffixes("comment:profile:", a);
    ConcatAffixes("comment:profile:", b);
  }

  predicate CooldownActive(c: Cache, client: string, now: int) {
    var v := CacheGet(c, CooldownKey(client), now);
    v.Some? && Truthy(v.value)
  }

  /*** Profiles ***/

  const NicknamePrefix: string := "道友"

  /** The random draws of one request: `randint(100000, 999999)` and the
      icon `random.choice` picks from the pool. */
  datatype Draw = Draw(number: int, icon: string)

  /** What `randint` and `random.choice` guarantee. */
  predicate ValidDraw(d: Draw, avatars: set<string>) {
    100000 <= d.number <= 999999 && d.icon in Icons(EnsureAvatarsPool(avatars))
  }

  /** The result of looking up or creating a profile: the profile (`None`
      when a non-profile value sits under the profile key, which fails with
      TypeError), and the cache and avatar directory afterwards. */
  datatype ProfileStep = ProfileStep(profile: Option<Profile>, cache: Cache, avatars: set<string>)

  /** The profile block of `submit_comment` (and of the two API submit
      handlers): a live cached profile is reused unchanged; otherwise the
      avatar pool is ensured, a nickname and avatar are drawn, the city is
      looked up, and the new profile is cached for 30 days. */
  function ObtainProfile(c: Cache, client: string, now: int, avatars: set<string>,
                         ip: string, geo: Option<Geo>, draw: Draw): (r: ProfileStep)
    requires ValidDraw(draw, avatars)
    ensures var cached := CacheGet(c, ProfileKey(client), now);
      cached.Some? && Truthy(cached.value) ==>
        r.cache == c && r.avatars == avatars
        && (cached.value.ProfileValue? ==> r.profile == Some(cached.value.profile))
        && (cached.value.Flag? ==> r.profile.None?)
    ensures var cached := CacheGet(c, ProfileKey(client), now);
      !(cached.Some? && Truthy(cached.value)) ==>
        && r.profile.Some?
        && r.avatars == EnsureAvatarsPool(avatars)
        && NewProfile(r.profile.value, r.avatars, CityLabel(ip, geo))
        && (forall t :: now <= t < now + ProfileSeconds ==>
              CacheGet(r.cache, ProfileKey(client), t) == Some(ProfileValue(r.profile.value)))
        && (forall k, t :: k != ProfileKey(client) ==> CacheGet(r.cache, k, t) == CacheGet(c, k, t))
  {
    var cached := CacheGet(c, ProfileKey(client), now);
    if cached.Some? && Truthy(cached.value) then
      match cached.value
      case ProfileValue(p) => ProfileStep(Some(p), c, avatars)
      case Flag(_) => ProfileStep(None, c, avatars)
    else
      var pool := EnsureAvatarsPool(avatars);
      var avatar := if Icons(pool) != {} then "avatars/" + draw.icon else "";
      var p := Profile(NicknamePrefix + NatToString(draw.number as nat), avatar, CityLabel(ip, geo));
      NewProfileShape(p, pool, draw, CityLabel(ip, geo));
      ProfileStep(Some(p), CacheSet(c, ProfileKey(client), ProfileValue(p), ProfileSeconds, now), pool)
  }

  /** A freshly drawn profile: "道友" and six digits from 100000..999999, an
      avatar from the pool, and the looked-up city. */
  predicate NewProfile(p: Profile, pool: set<string>, city: string) {
    && StartsWith(p.nickname, NicknamePrefix)
    && |p.nickname| == 8
    && AllDigits(p.nickname[2..])
    && 100000 <= DigitsValue(p.nickname[2..]) <= 999999
    && StartsWith(p.avatar, "avatars/") && p.avatar[8..] in Icons(pool)
    && p.city == city
  }

  lemma NewProfileShape(p: Profile, pool: set<string>, draw: Draw, city: string)
    requires 100000 <= draw.number <= 999999 && draw.icon in Icons(pool)
    requires p == Profile(NicknamePrefix + NatToString(draw.number as nat),
                          if Icons(pool) != {} then "avatars/" + draw.icon else "", city)
    ensures NewProfile(p, pool, city)
  {
    var d := NatToString(draw.number as nat);
    NatToStringValue(draw.number as nat);
    assert |d| == 6 by {
      SixDigits(draw.number as nat);
    }
    ConcatAffixes(NicknamePrefix, d);
    ConcatAffixes("avatars/", draw.icon);
  }

  lemma {:induction false} SixDigits(n: nat)
    requires 100000 <= n <= 999999
    ensures |NatToString(n)| == 6
  {
    var a := n / 10;
    var b := a / 10;
    var c := b / 10;
    var d := c / 10;
    var e := d / 10;
    assert 1 <= e < 10;
    assert |NatToString(e)| == 1;
    assert |NatToString(d)| == 2;
    assert |NatToString(c)| == 3;
    assert |NatToString(b)| == 4;
    assert |NatToString(a)| == 5;
  }

  /*** Comment submission ***/

  /** The state the live handlers change: the database, the cache and the
      avatar directory's file names. */
  datatype LiveState = LiveState(db: Database, cache: Cache, avatars: set<string>)

  /** The POST fields `article_id` and `content`, `None` when absent. */
  datatype CommentForm = CommentForm(articleId: Option<string>, content: Option<string>)

  /** The requesting client: the opaque client key (an md5 of address and
      user agent), its address, and the lookup answer for that address. */
  datatype Client = Client(key: string, ip: string, geo: Option<Geo>)

  /** `timezone.now()` for the record, and the cache clock in seconds. */
  datatype Clock = Clock(now: DateTime, seconds: int)

  const CommentsClosed: string := "评论区已关闭"
  const ContentTooShort: string := "评论内容过短"
  const TooFrequent: string := "操作过于频繁"
  const MinCommentLength: nat := 2

  /** `int(request.POST.get("article_id", 0))`. */
  function FormArticleId(form: CommentForm): Option<int> {
    if form.articleId.None? then Some(0) else ParseInt(form.articleId.value)
  }

  /** `(request.POST.get("content") or "").strip()`. */
  function FormContent(form: CommentForm): string {
    Strip(if form.content.Some? then form.content.value else "")
  }

  /** The profile a comment was written under. */
  function Author(c: Comment): Profile {
    Profile(c.nickname, c.avatar, c.city)
  }

  /** The outcome of the checks that precede any state change. */
  datatype Gate = Admit(article: Article, content: string) | Refuse(reply: Reply<Comment>)

  /** The visible article a comment form's id names, when the id is an
      integer and such an article exists. */
  function CommentTarget(db: Database, form: CommentForm): Option<Article> {
    var id := FormArticleId(form);
    if id.None? then None else FindArticle(VisibleArticles(db.articles), id.value)
  }

  /** The checks of `submit_comment`, in order: the article id must be an
      integer (else ValueError, 500) naming a visible article (else 404)
      whose comments are on (a missing `allow_comment` attribute raises
      AttributeError, 500; off is 400); the stripped content must have at
      least two characters (400); the client must not be cooling down (429). */
  function CommentGate(db: Database, cache: Cache, form: CommentForm, client: string, now: int): (g: Gate)
    ensures g.Refuse? ==> !g.reply.Ok? && !g.reply.Preflight? && !g.reply.NotAllowed?
    ensures FormArticleId(form).None? ==> g == Refuse(Raised(ValueError))
    ensures FormArticleId(form).Some? && CommentTarget(db, form).None? ==> g == Refuse(Raised(NotFoundError))
    ensures CommentTarget(db, form).Some? && CommentTarget(db, form).value.allowComment.None? ==>
              g == Refuse(Raised(AttributeError))
    ensures CommentTarget(db, form).Some? && CommentTarget(db, form).value.allowComment == Some(false) ==>
              g == Refuse(Fail(400, CommentsClosed))
    ensures CommentTarget(db, form).Some? && CommentTarget(db, form).value.allowComment == Some(true)
            && |FormContent(form)| < MinCommentLength
            ==> g == Refuse(Fail(400, ContentTooShort))
    ensures CommentTarget(db, form).Some? && CommentTarget(db, form).value.allowComment == Some(true)
            && |FormContent(form)| >= MinCommentLength && CooldownActive(cache, client, now) ==>
              g == Refuse(Fail(429, TooFrequent))
    ensures g.Refuse? && g.reply.Fail? && g.reply.status == 429 ==> CooldownActive(cache, client, now)
    ensures g.Admit? ==> g.article in db.articles && Visible(g.article)
                         && g.article.allowComment == Some(true)
                         && Some(g.article.id as int) == FormArticleId(form)
                         && g.content == FormContent(form) && |g.content| >= MinCommentLength
                         && !CooldownActive(cache, client, now)
    ensures g.Refuse? ==> || FormArticleId(form).None?
                          || FindArticle(VisibleArticles(db.articles), FormArticleId(form).value).None?
                          || FindArticle(VisibleArticles(db.articles), FormArticleId(form).value).value.allowComment != Some(true)
                          || |FormContent(form)| < MinCommentLength
                          || CooldownActive(cache, client, now)
  {
    var id := FormArticleId(form);
    var content := FormContent(form);
    if id.None? then Refuse(Raised(ValueError))
    else
      var found := FindArticle(VisibleArticles(db.articles), id.value);
      match found
      case None => Refuse(Raised(NotFoundError))
      case Some(a) =>
        if a.allowComment.None? then Refuse(Raised(AttributeError))
        else if !a.allowComment.value then Refuse(Fail(400, CommentsClosed))
        else if |content| < MinCommentLength then Refuse(Fail(400, ContentTooShort))
        else if CooldownActive(cache, client, now) then Refuse(Fail(429, TooFrequent))
        else Admit(a, content)
  }

  /** With unique article ids, the checks admit a submission exactly when
      the id is an integer naming a visible article whose comments are on,
      the stripped content is long enough and the client is not cooling down. */
  lemma CommentGateAdmits(db: Database, cache: Cache, form: CommentForm, client: string, now: int)
    requires UniqueIds(db.articles)
    ensures CommentGate(db, cache, form, client, now).Admit? <==>
              && FormArticleId(form).Some?
              && (exists a :: a in db.articles && a.id == FormArticleId(form).value && Visible(a)
                              && a.allowComment == Some(true))
              && |FormContent(form)| >= MinCommentLength
              && !CooldownActive(cache, client, now)
  {
    var id := FormArticleId(form);
    if id.Some? {
      var found := FindArticle(VisibleArticles(db.articles), id.value);
      if a :| a in db.articles && a.id == id.value && Visible(a) && a.allowComment == Some(true) {
        assert a in VisibleArticles(db.articles);
        SameIdSameArticle(db.articles, a, found.value);
      }
    }
  }

  /** From second `from` on, the client is cooling down for exactly
      `CooldownSeconds` seconds. */
  ghost predicate CoolingFrom(c: Cache, client: string, from: int) {
    forall t :: from <= t ==> (CooldownActive(c, client, t) <==> t < from + CooldownSeconds)
  }

  /** The profile `p` stays cached for the client for `ProfileSeconds`
      seconds from second `from`. */
  ghost predicate ProfileKept(c: Cache, client: string, from: int, p: Profile) {
    forall t :: from <= t < from + ProfileSeconds ==> CacheGet(c, ProfileKey(client), t) == Some(ProfileValue(p))
  }

  /** The state-changing part of `submit_comment`: the cooldown is set for
      30 seconds, the profile is obtained, and the comment is stored visible
      under that profile. A non-profile value in the profile slot fails with
      TypeError after the cooldown has been set. */
  function RecordComment(s: LiveState, a: Article, content: string, client: Client, clock: Clock,
                         draw: Draw, newId: nat): (r: (Reply<Comment>, LiveState))
    requires ValidDraw(draw, s.avatars)
    ensures r.0.Ok? <==> !ProfileSlotCorrupt(s.cache, client.key, clock.seconds)
    ensures !r.0.Ok? ==> r.0 == Raised(TypeError) && r.1.db == s.db
    ensures r.0.Ok? ==>
              && r.1.db == s.db.(comments := s.db.comments + [r.0.data])
              && r.0.data.id == newId && r.0.data.articleId == a.id && r.0.data.content == content
              && !r.0.data.isHidden && r.0.data.createdAt == clock.now
    ensures CoolingFrom(r.1.cache, client.key, clock.seconds)
    ensures r.0.Ok? && CachedProfile(s.cache, client.key, clock.seconds).Some? ==>
              Author(r.0.data) == CachedProfile(s.cache, client.key, clock.seconds).value
    ensures var cached := CacheGet(s.cache, ProfileKey(client.key), clock.seconds);
            r.0.Ok? && !(cached.Some? && Truthy(cached.value)) ==>
              && NewProfile(Author(r.0.data), r.1.avatars, CityLabel(client.ip, client.geo))
              && ProfileKept(r.1.cache, client.key, clock.seconds, Author(r.0.data))
  {
    var cooled := CacheSet(s.cache, CooldownKey(client.key), Flag(1), CooldownSeconds, clock.seconds);
    CacheKeysDistinct(client.key, client.key);
    assert CacheGet(cooled, ProfileKey(client.key), clock.seconds) == CacheGet(s.cache, ProfileKey(client.key), clock.seconds);
    var step := ObtainProfile(cooled, client.key, clock.seconds, s.avatars, client.ip, client.geo, draw);
    assert CoolingFrom(step.cache, client.key, clock.seconds);
    match step.profile
    case None => (Raised(TypeError), s.(cache := step.cache, avatars := step.avatars))
    case Some(p) =>
      var c := Comment(newId, a.id, p.nickname, p.city, content, clock.now, false, p.avatar);
      (Ok(c), LiveState(s.db.(comments := s.db.comments + [c]), step.cache, step.avatars))
  }

  /** The profile cached for a client, when a live one is. */
  function CachedProfile(c: Cache, client: string, now: int): Option<Profile> {
    match CacheGet(c, ProfileKey(client), now)
    case Some(ProfileValue(p)) => Some(p)
    case _ => None
  }

  /** A truthy non-profile value under the client's profile key. */
  predicate ProfileSlotCorrupt(c: Cache, client: string, now: int) {
    var v := CacheGet(c, ProfileKey(client), now);
    v.Some? && v.value.Flag? && v.value.n != 0
  }

  /** `submit_comment`: the checks, then the recording step. */
  function SubmitComment(s: LiveState, form: CommentForm, client: Client, clock: Clock,
                         draw: Draw, newId: nat): (r: (Reply<Comment>, LiveState))
    requires ValidDraw(draw, s.avatars)
    ensures !r.0.Ok? ==> r.1.db == s.db
    ensures r.0.Fail? || (r.0.Raised? && r.0.cause != TypeError) ==> r.1 == s
    ensures r.0.Fail? && r.0.status == 429 ==> CooldownActive(s.cache, client.key, clock.seconds)
    ensures r.0.Ok? ==> r.1.db.articles == s.db.articles
    ensures r.0.Ok? ==> CoolingFrom(r.1.cache, client.key, clock.seconds)
    ensures r.0.Ok? && CachedProfile(s.cache, client.key, clock.seconds).Some? ==>
              Author(r.0.data) == CachedProfile(s.cache, client.key, clock.seconds).value
    ensures r.0.Ok? && CacheGet(s.cache, ProfileKey(client.key), clock.seconds).None? ==>
              ProfileKept(r.1.cache, client.key, clock.seconds, Author(r.0.data))
  {
    match CommentGate(s.db, s.cache, form, client.key, clock.seconds)
    case Refuse(reply) => (reply, s)
    case Admit(a, content) => RecordComment(s, a, content, client, clock, draw, newId)
  }

  /** The reply of a refused submission, check by check in the handler's
      order; the state is left as it was. */
  lemma SubmitCommentRefusals(s: LiveState, form: CommentForm, client: Client, clock: Clock, draw: Draw, newId: nat)
    requires ValidDraw(draw, s.avatars)
    ensures var r := SubmitComment(s, form, client, clock, draw, newId);
      var target := CommentTarget(s.db, form);
      && (FormArticleId(form).None? ==> r == (Raised(ValueError), s))
      && (FormArticleId(form).Some? && target.None? ==> r == (Raised(NotFoundError), s))
      && (target.Some? && target.value.allowComment.None? ==> r == (Raised(AttributeError), s))
      && (target.Some? && target.value.allowComment == Some(false) ==> r == (Fail(400, CommentsClosed), s))
      && (target.Some? && target.value.allowComment == Some(true) && |FormContent(form)| < MinCommentLength
          ==> r == (Fail(400, ContentTooShort), s))
      && (target.Some? && target.value.allowComment == Some(true) && |FormContent(form)| >= MinCommentLength
          && CooldownActive(s.cache, client.key, clock.seconds)
          ==> r == (Fail(429, TooFrequent), s))
  {
    if CommentGate(s.db, s.cache, form, client.key, clock.seconds).Refuse? {
      RefusedAtGate(s, form, client, clock, draw, newId);
    }
  }

  /** A comment is accepted exactly when every check passes and the profile
      slot holds a profile or nothing; then one visible comment with the
      stripped content is appended for the named article and nothing else
      in the database changes. */
  lemma SubmitCommentAccepts(s: LiveState, form: CommentForm, client: Client, clock: Clock, draw: Draw, newId: nat)
    requires ValidDraw(draw, s.avatars) && UniqueIds(s.db.articles)
    ensures var r := SubmitComment(s, form, client, clock, draw, newId);
      && (r.0.Ok? <==>
            && FormArticleId(form).Some?
            && (exists a :: a in s.db.articles && a.id == FormArticleId(form).value && Visible(a)
                            && a.allowComment == Some(true))
            && |FormContent(form)| >= MinCommentLength
            && !CooldownActive(s.cache, client.key, clock.seconds)
            && !ProfileSlotCorrupt(s.cache, client.key, clock.seconds))
      && (r.0.Ok? ==>
            && r.1.db == s.db.(comments := s.db.comments + [r.0.data])
            && r.0.data.articleId == FormArticleId(form).value
            && r.0.data.content == FormContent(form)
            && !r.0.data.isHidden && r.0.data.createdAt == clock.now)
  {
    CommentGateAdmits(s.db, s.cache, form, client.key, clock.seconds);
  }

  /** The 30-second cooldown: after an accepted comment, the same client's
      next submission within 30 seconds that passes the earlier checks is
      refused with 429, whatever its content and article. */
  lemma CooldownRefusesSecondComment(s: LiveState, form: CommentForm, client: Client, clock: Clock, draw: Draw, newId: nat,
                                     first: (Reply<Comment>, LiveState),
                                     form2: CommentForm, client2: Client, clock2: Clock, draw2: Draw, newId2: nat)
    requires ValidDraw(draw, s.avatars) && UniqueIds(s.db.articles)
    requires first == SubmitComment(s, form, client, clock, draw, newId) && first.0.Ok?
    requires client2.key == client.key
    requires clock.seconds <= clock2.seconds < clock.seconds + CooldownSeconds
    requires ValidDraw(draw2, first.1.avatars)
    requires FormArticleId(form2).Some?
    requires exists a :: a in s.db.articles && a.id == FormArticleId(form2).value && Visible(a) && a.allowComment == Some(true)
    requires |FormContent(form2)| >= MinCommentLength
    ensures SubmitComment(first.1, form2, client2, clock2, draw2, newId2).0 == Fail(429, TooFrequent)
  {
    AcceptedState(s, form, client, clock, draw, newId, clock2.seconds);
    GateRefusesCoolingClient(first.1.db, first.1.cache, form2, client.key, clock2.seconds);
    RefusedAtGate(first.1, form2, client2, clock2, draw2, newId2);
  }

  /** A client that would otherwise pass the checks is refused with 429
      while cooling down. */
  lemma GateRefusesCoolingClient(db: Database, cache: Cache, form: CommentForm, client: string, now: int)
    requires UniqueIds(db.articles) && FormArticleId(form).Some?
    requires exists a :: a in db.articles && a.id == FormArticleId(form).value && Visible(a) && a.allowComment == Some(true)
    requires |FormContent(form)| >= MinCommentLength
    requires CooldownActive(cache, client, now)
    ensures CommentGate(db, cache, form, client, now) == Refuse(Fail(429, TooFrequent))
  {
    var a :| a in db.articles && a.id == FormArticleId(form).value && Visible(a) && a.allowComment == Some(true);
    var found := FindArticle(VisibleArticles(db.articles), FormArticleId(form).value);
    assert a in VisibleArticles(db.articles);
    SameIdSameArticle(db.articles, a, found.value);
  }

  /** The cooldown lapses: once 30 seconds have passed since an accepted
      comment, the same client is not refused for cooling down. */
  lemma CooldownLapses(s: LiveState, form: CommentForm, client: Client, clock: Clock, draw: Draw, newId: nat,
                       first: (Reply<Comment>, LiveState),
                       form2: CommentForm, client2: Client, clock2: Clock, draw2: Draw, newId2: nat)
    requires ValidDraw(draw, s.avatars)
    requires first == SubmitComment(s, form, client, clock, draw, newId) && first.0.Ok?
    requires client2.key == client.key
    requires clock2.seconds >= clock.seconds + CooldownSeconds
    requires ValidDraw(draw2, first.1.avatars)
    ensures Status(SubmitComment(first.1, form2, client2, clock2, draw2, newId2).0) != 429
  {
    AcceptedState(s, form, client, clock, draw, newId, clock2.seconds);
    NotCoolingNot429(first.1, form2, client2, clock2, draw2, newId2);
  }

  /** The profile is drawn once per client: a client without a cached
      profile whose first comment is accepted at second t writes every
      comment accepted before t + 30 days under the same nickname, avatar
      and city. */
  lemma ProfileReusedForThirtyDays(s: LiveState, form: CommentForm, client: Client, clock: Clock, draw: Draw, newId: nat,
                                   first: (Reply<Comment>, LiveState),
                                   form2: CommentForm, client2: Client, clock2: Clock, draw2: Draw, newId2: nat)
    requires ValidDraw(draw, s.avatars)
    requires CacheGet(s.cache, ProfileKey(client.key), clock.seconds).None?
    requires first == SubmitComment(s, form, client, clock, draw, newId) && first.0.Ok?
    requires client2.key == client.key
    requires clock.seconds <= clock2.seconds < clock.seconds + ProfileSeconds
    requires ValidDraw(draw2, first.1.avatars)
    requires SubmitComment(first.1, form2, client2, clock2, draw2, newId2).0.Ok?
    ensures Author(first.0.data) == Author(SubmitComment(first.1, form2, client2, clock2, draw2, newId2).0.data)
  {
    AcceptedProfile(s, form, client, clock, draw, newId, clock2.seconds);
    UsesCachedProfile(first.1, form2, client2, clock2, draw2, newId2);
  }

  /** The state after an accepted comment, seen at second t. */
  lemma AcceptedState(s: LiveState, form: CommentForm, client: Client, clock: Clock, draw: Draw, newId: nat, t: int)
    requires ValidDraw(draw, s.avatars)
    requires SubmitComment(s, form, client, clock, draw, newId).0.Ok?
    ensures var r := SubmitComment(s, form, client, clock, draw, newId);
      && r.1.db.articles == s.db.articles
      && (clock.seconds <= t < clock.seconds + CooldownSeconds ==> CooldownActive(r.1.cache, client.key, t))
      && (clock.seconds + CooldownSeconds <= t ==> !CooldownActive(r.1.cache, client.key, t))
  {
    var r := SubmitComment(s, form, client, clock, draw, newId);
    CoolingAt(r.1.cache, client.key, clock.seconds, t);
  }

  lemma CoolingAt(c: Cache, client: string, from: int, t: int)
    requires CoolingFrom(c, client, from)
    ensures from <= t < from + CooldownSeconds ==> CooldownActive(c, client, t)
    ensures from + CooldownSeconds <= t ==> !CooldownActive(c, client, t)
  {
  }

  /** The profile cached by an accepted comment of a client that had none. */
  lemma AcceptedProfile(s: LiveState, form: CommentForm, client: Client, clock: Clock, draw: Draw, newId: nat, t: int)
    requires ValidDraw(draw, s.avatars)
    requires SubmitComment(s, form, client, clock, draw, newId).0.Ok?
    requires CacheGet(s.cache, ProfileKey(client.key), clock.seconds).None?
    requires clock.seconds <= t < clock.seconds + ProfileSeconds
    ensures var r := SubmitComment(s, form, client, clock, draw, newId);
      CachedProfile(r.1.cache, client.key, t) == Some(Author(r.0.data))
  {
    var r := SubmitComment(s, form, client, clock, draw, newId);
    assert CacheGet(r.1.cache, ProfileKey(client.key), t) == Some(ProfileValue(Author(r.0.data)));
  }

  lemma RefusedAtGate(s: LiveState, form: CommentForm, client: Client, clock: Clock, draw: Draw, newId: nat)
    requires ValidDraw(draw, s.avatars)
    requires CommentGate(s.db, s.cache, form, client.key, clock.seconds).Refuse?
    ensures SubmitComment(s, form, client, clock, draw, newId) == (CommentGate(s.db, s.cache, form, client.key, clock.seconds).reply, s)
  {
  }

  lemma NotCoolingNot429(s: LiveState, form: CommentForm, client: Client, clock: Clock, draw: Draw, newId: nat)
    requires ValidDraw(draw, s.avatars)
    requires !CooldownActive(s.cache, client.key, clock.seconds)
    ensures Status(SubmitComment(s, form, client, clock, draw, newId).0) != 429
  {
    var r := SubmitComment(s, form, client, clock, draw, newId).0;
    assert !(r.Fail? && r.status == 429);
    OnlyFailuresAre429(r);
  }

  /** Only an explicit failure reply carries status 429. */
  lemma OnlyFailuresAre429<T>(r: Reply<T>)
    ensures Status(r) == 429 ==> r.Fail? && r.status == 429
  {
  }

  lemma UsesCachedProfile(s: LiveState, form: CommentForm, client: Client, clock: Clock, draw: Draw, newId: nat)
    requires ValidDraw(draw, s.avatars)
    requires SubmitComment(s, form, client, clock, draw, newId).0.Ok?
    requires CachedProfile(s.cache, client.key, clock.seconds).Some?
    ensures Author(SubmitComment(s, form, client, clock, draw, newId).0.data) == CachedProfile(s.cache, client.key, clock.seconds).value
  {
  }

  /** As written, no comment is ever accepted: rows loaded from the database
      carry no `allow_comment` attribute (models.py declares no such field),
      so every submission that names a visible article fails with
      AttributeError, a 500, and nothing changes. */
  lemma StoredArticlesRefuseComments(s: LiveState, form: CommentForm, client: Client, clock: Clock, draw: Draw, newId: nat)
    requires ValidDraw(draw, s.avatars)
    requires forall i :: 0 <= i < |s.db.articles| ==> Stored(s.db.articles[i])
    ensures var r := SubmitComment(s, form, client, clock, draw, newId);
      !r.0.Ok? && Status(r.0) in {404, 500} && r.1 == s
  {
  }
}
