/** The records of the blog (app/models.py and migration 0003): tags,
    articles, comments and board messages, their defaults, the cover upload
    path and the orderings the queries deliver them in. */
module Models {
  import opened Common

  /*** Timestamps ***/

  /** A timestamp as `timezone.now()` or a stored DateTimeField gives it to `strftime`. */
  datatype DateTime = DateTime(year: nat, month: nat, day: nat, hour: nat, minute: nat, second: nat)

  predicate ValidDateTime(d: DateTime) {
    1 <= d.year <= 9999 && 1 <= d.month <= 12 && 1 <= d.day <= 31
    && d.hour < 24 && d.minute < 60 && d.second < 60
  }

  /** A number that grows with time: field-by-field (lexicographic) order. */
  function Stamp(d: DateTime): int {
    ((((d.year * 13 + d.month) * 32 + d.day) * 24 + d.hour) * 60 + d.minute) * 60 + d.second
  }

  /** `strftime("%Y-%m-%d")`; glibc writes the year without padding. */
  function FormatDate(d: DateTime): string {
    NatToString(d.year) + "-" + ZeroPad(d.month, 2) + "-" + ZeroPad(d.day, 2)
  }

  /** `strftime("%Y-%m-%d %H:%M")`, the timestamp format of the JSON API. */
  function FormatMinute(d: DateTime): string {
    FormatDate(d) + " " + ZeroPad(d.hour, 2) + ":" + ZeroPad(d.minute, 2)
  }

  /** Reads a `%Y-%m-%d` date back as (year, month, day). */
  function ParseDate(s: string): Option<(nat, nat, nat)> {
    if |s| < 7 then None
    else
      var y := s[..|s| - 6];
      var m := s[|s| - 5..|s| - 3];
      var d := s[|s| - 2..];
      if s[|s| - 6] == '-' && s[|s| - 3] == '-' && 1 <= |y| && AllDigits(y) && AllDigits(m) && AllDigits(d)
      then Some((DigitsValue(y), DigitsValue(m), DigitsValue(d)))
      else None
  }

  /** The day part of a timestamp survives `%Y-%m-%d` exactly: two timestamps
      print the same date iff they fall on the same calendar day. */
  lemma FormatDateRoundTrip(d: DateTime)
    requires ValidDateTime(d)
    ensures ParseDate(FormatDate(d)) == Some((d.year, d.month, d.day))
  {
    var y := NatToString(d.year);
    var mm := ZeroPad(d.month, 2);
    var dd := ZeroPad(d.day, 2);
    var s := FormatDate(d);
    assert s == y + "-" + mm + "-" + dd;
    assert s[..|s| - 6] == y;
    assert s[|s| - 5..|s| - 3] == mm;
    assert s[|s| - 2..] == dd;
    NatToStringValue(d.year);
  }

  /*** Cover uploads ***/

  /** `upload_cover_path`: `covers/{YYYY}/{MM}/{filename}` for the date of the upload. */
  function UploadCoverPath(now: DateTime, filename: string): string {
    "covers/" + NatToString(now.year) + "/" + ZeroPad(now.month, 2) + "/" + filename
  }

  /** The number of leading decimal digits of `s`. */
  function DigitPrefixLength(s: string): (k: nat)
    ensures k <= |s| && AllDigits(s[..k])
    ensures k < |s| ==> !IsDigit(s[k])
  {
    if |s| == 0 || !IsDigit(s[0]) then 0
    else
      var k := 1 + DigitPrefixLength(s[1..]);
      assert s[..k] == [s[0]] + s[1..][..k - 1];
      k
  }

  lemma {:induction false} DigitPrefixOfDigits(digits: string, rest: string)
    requires AllDigits(digits)
    requires |rest| > 0 && !IsDigit(rest[0])
    ensures DigitPrefixLength(digits + rest) == |digits|
  {
    if |digits| > 0 {
      assert (digits + rest)[1..] == digits[1..] + rest;
      DigitPrefixOfDigits(digits[1..], rest);
    } else {
      assert digits + rest == rest;
    }
  }

  /** Reads an upload path back as (year, month, filename). */
  function ParseCoverPath(p: string): Option<(nat, nat, string)> {
    if !StartsWith(p, "covers/") then None
    else
      var rest := p[7..];
      var k := DigitPrefixLength(rest);
      if 1 <= k && k + 4 <= |rest| && rest[k] == '/' && AllDigits(rest[k + 1..k + 3]) && rest[k + 3] == '/'
      then Some((DigitsValue(rest[..k]), DigitsValue(rest[k + 1..k + 3]), rest[k + 4..]))
      else None
  }

  /** The upload path records the year and month of the upload and keeps the
      file name verbatim. */
  lemma CoverPathRoundTrip(now: DateTime, filename: string)
    requires ValidDateTime(now)
    ensures ParseCoverPath(UploadCoverPath(now, filename)) == Some((now.year, now.month, filename))
  {
    var mm := ZeroPad(now.month, 2);
    assert |mm| == 2 by {
      if now.month >= 10 {
        assert NatToString(now.month) == NatToString(now.month / 10) + [DigitChar(now.month % 10)];
      }
    }
    ParseCoverPathOf(NatToString(now.year), mm, filename);
    NatToStringValue(now.year);
  }

  /** A path built from a year in digits, two month digits and a file name
      reads back as those three parts. */
  lemma ParseCoverPathOf(y: string, mm: string, filename: string)
    requires 1 <= |y| && AllDigits(y) && |mm| == 2 && AllDigits(mm)
    ensures ParseCoverPath("covers/" + y + "/" + mm + "/" + filename) == Some((DigitsValue(y), DigitsValue(mm), filename))
  {
    var tail := "/" + mm + "/" + filename;
    CoverPathParts(y, mm, filename);
    DigitPrefixOfDigits(y, tail);
    ParseCoverPathWhen("covers/" + y + "/" + mm + "/" + filename, y + tail, y, mm, filename);
  }

  lemma CoverPathParts(y: string, mm: string, filename: string)
    requires |mm| == 2
    ensures var p := "covers/" + y + "/" + mm + "/" + filename;
            StartsWith(p, "covers/") && p[7..] == y + ("/" + mm + "/" + filename)
    ensures var rest := y + ("/" + mm + "/" + filename);
            && |y| + 4 <= |rest| && rest[..|y|] == y && rest[|y|] == '/' && rest[|y| + 1..|y| + 3] == mm
            && rest[|y| + 3] == '/' && rest[|y| + 4..] == filename
  {
    var tail := "/" + mm + "/" + filename;
    var p := "covers/" + y + "/" + mm + "/" + filename;
    assert p == "covers/" + (y + tail);
    var rest := y + tail;
    assert rest[|y|..] == tail;
    assert rest[|y| + 1..|y| + 3] == tail[1..3];
    assert rest[|y| + 4..] == tail[4..];
  }

  lemma ParseCoverPathWhen(p: string, rest: string, y: string, mm: string, filename: string)
    requires StartsWith(p, "covers/") && p[7..] == rest
    requires 1 <= |y| && AllDigits(y) && AllDigits(mm) && DigitPrefixLength(rest) == |y|
    requires |y| + 4 <= |rest| && rest[..|y|] == y && rest[|y|] == '/' && rest[|y| + 1..|y| + 3] == mm
    requires rest[|y| + 3] == '/' && rest[|y| + 4..] == filename
    ensures ParseCoverPath(p) == Some((DigitsValue(y), DigitsValue(mm), filename))
  {
  }

  /*** Tags ***/

  /** A tag; `name` is unique and at most `TagNameMaxLength` characters. */
  datatype Tag = Tag(id: nat, name: string)

  const TagNameMaxLength: nat := 32

  /** The tag table as `Tag.objects.all()` returns it: ids and names unique,
      names within the column width, ordered by name. */
  predicate ValidTagTable(tags: seq<Tag>) {
    && (forall i, j :: 0 <= i < j < |tags| ==> tags[i].id != tags[j].id && tags[i].name != tags[j].name)
    && (forall i :: 0 <= i < |tags| ==> |tags[i].name| <= TagNameMaxLength)
    && OrderedByName(tags)
  }

  predicate OrderedByName(tags: seq<Tag>) {
    forall i :: 0 <= i < |tags| - 1 ==> StrLe(tags[i].name, tags[i + 1].name)
  }

  /** Two tags of a valid table that share a name are the same row. */
  lemma SameNameSameTag(tags: seq<Tag>, a: Tag, b: Tag)
    requires ValidTagTable(tags) && a in tags && b in tags && a.name == b.name
    ensures a == b
  {
    var i :| 0 <= i < |tags| && tags[i] == a;
    var j :| 0 <= j < |tags| && tags[j] == b;
    assert !(i < j) && !(j < i);
  }

  function FindTagByName(tags: seq<Tag>, name: string): (r: Option<Tag>)
    ensures r.Some? ==> r.value in tags && r.value.name == name
    ensures r.None? ==> forall t :: t in tags ==> t.name != name
  {
    if |tags| == 0 then None
    else if tags[0].name == name then Some(tags[0])
    else FindTagByName(tags[1..], name)
  }

  function FindTagById(tags: seq<Tag>, id: int): (r: Option<Tag>)
    ensures r.Some? ==> r.value in tags && r.value.id == id
    ensures r.None? ==> forall t :: t in tags ==> t.id != id
  {
    if |tags| == 0 then None
    else if tags[0].id == id then Some(tags[0])
    else FindTagById(tags[1..], id)
  }

  function MaxTagId(tags: seq<Tag>): (m: nat)
    ensures forall t :: t in tags ==> t.id <= m
  {
    if |tags| == 0 then 0
    else var m := MaxTagId(tags[1..]); if tags[0].id > m then tags[0].id else m
  }

  /** Inserts a tag at its place in name order. */
  function InsertByName(tags: seq<Tag>, t: Tag): (r: seq<Tag>)
    requires OrderedByName(tags)
    ensures OrderedByName(r)
    ensures exists k :: 0 <= k <= |tags| && r == tags[..k] + [t] + tags[k..]
    ensures r[0] == t || (|tags| > 0 && r[0] == tags[0])
  {
    if |tags| == 0 then
      assert [t] == tags[..0] + [t] + tags[0..];
      [t]
    else if StrLe(t.name, tags[0].name) then
      assert [t] + tags == tags[..0] + [t] + tags[0..];
      [t] + tags
    else
      StrLeTotal(t.name, tags[0].name);
      var rest := InsertByName(tags[1..], t);
      var k :| 0 <= k <= |tags[1..]| && rest == tags[1..][..k] + [t] + tags[1..][k..];
      assert [tags[0]] + rest == tags[..k + 1] + [t] + tags[k + 1..];
      [tags[0]] + rest
  }

  /** `Tag.objects.get_or_create(name=name)`: the tag with that name, created
      with a fresh id when there is none. */
  function GetOrCreateTag(tags: seq<Tag>, name: string): (r: (seq<Tag>, Tag))
    requires ValidTagTable(tags) && |name| <= TagNameMaxLength
    ensures ValidTagTable(r.0)
    ensures r.1 in r.0 && r.1.name == name
    ensures forall t :: t in tags ==> t in r.0
    ensures forall t :: t in r.0 ==> t in tags || t == r.1
    ensures (exists t :: t in tags && t.name == name) ==> r.0 == tags
  {
    match FindTagByName(tags, name)
    case Some(t) => (tags, t)
    case None =>
      var t := Tag(MaxTagId(tags) + 1, name);
      InsertFresh(tags, t);
      (InsertByName(tags, t), t)
  }

  /** Inserting a tag with a fresh id and an unused name keeps the table
      valid and adds exactly that tag. */
  lemma InsertFresh(tags: seq<Tag>, t: Tag)
    requires ValidTagTable(tags) && |t.name| <= TagNameMaxLength
    requires forall x :: x in tags ==> x.id != t.id && x.name != t.name
    ensures ValidTagTable(InsertByName(tags, t))
    ensures forall x :: x in InsertByName(tags, t) <==> x in tags || x == t
  {
    var r := InsertByName(tags, t);
    var k :| 0 <= k <= |tags| && r == tags[..k] + [t] + tags[k..];
    assert OrderedByName(tags[..k] + [t] + tags[k..]);
    InsertKeepsTableValid(tags, t, k);
    InsertedMembers(tags, k, t);
  }

  lemma InsertKeepsTableValid(tags: seq<Tag>, t: Tag, k: nat)
    requires ValidTagTable(tags) && |t.name| <= TagNameMaxLength && k <= |tags|
    requires forall x :: x in tags ==> x.id != t.id && x.name != t.name
    requires OrderedByName(tags[..k] + [t] + tags[k..])
    ensures ValidTagTable(tags[..k] + [t] + tags[k..])
  {
    var r := tags[..k] + [t] + tags[k..];
    forall i, j | 0 <= i < j < |r| ensures r[i].id != r[j].id && r[i].name != r[j].name {
      var i' := if i < k then i else i - 1;
      var j' := if j <= k then j else j - 1;
      if i == k {
        assert r[i] == t && r[j] == tags[j'];
      } else if j == k {
        assert r[j] == t && r[i] == tags[i'];
      } else {
        assert r[i] == tags[i'] && r[j] == tags[j'] && i' < j';
      }
    }
    forall i | 0 <= i < |r| ensures |r[i].name| <= TagNameMaxLength {
      if i < k { assert r[i] == tags[i]; } else if i > k { assert r[i] == tags[i - 1]; }
    }
  }

  /*** Articles ***/

  const ArticleTitleMaxLength: nat := 200
  const UntitledArticle: string := "未命名文章"

  /** An article. `publishedAt` is `None` only for an unsaved instance whose
      timestamp was cleared; the column is NOT NULL. `allowComment` is the
      `allow_comment` attribute the views, the API and the admin use, which
      models.py does NOT declare: an article loaded from the database has
      `None` there, and reading it raises AttributeError. */
  datatype Article = Article(
    id: nat,
    title: string,
    contentMd: string,
    cover: Option<string>,
    tags: set<nat>,
    publishedAt: Option<DateTime>,
    isHidden: bool,
    allowComment: Option<bool>)

  /** `Article()` constructed at `now` and saved under `id`: the field defaults. */
  function NewArticle(id: nat, now: DateTime): (a: Article)
    ensures Visible(a) && a.publishedAt == Some(now)
    ensures a.title == "" && a.contentMd == "" && a.cover.None? && a.tags == {}
    ensures Stored(a)
  {
    Article(id, "", "", None, {}, Some(now), false, None)
  }

  predicate Visible(a: Article) {
    !a.isHidden
  }

  /** A row as the database holds it: a timestamp and no `allow_comment`. */
  predicate Stored(a: Article) {
    a.publishedAt.Some? && a.allowComment.None?
  }

  /** What saving keeps of an in-memory instance: every column, but an
      `allow_comment` attribute set on it is not a column and is lost. */
  function Persist(a: Article): (row: Article)
    ensures row.allowComment.None?
    ensures row.(allowComment := a.allowComment) == a
  {
    a.(allowComment := None)
  }

  /** `Article.save`: the row is written, then the cover file (if any and if
      present in media) is replaced by its watermarked version; a watermark
      failure (`None`) leaves the file as it was and never fails the save. */
  function SaveArticle(a: Article, media: map<string, string>, watermark: string -> Option<string>)
    : (r: (Article, map<string, string>))
    ensures r.0 == Persist(a)
    ensures r.1.Keys == media.Keys
    ensures forall k :: k in media && (a.cover.None? || k != a.cover.value) ==> r.1[k] == media[k]
  {
    var media' :=
      if a.cover.Some? && a.cover.value in media then
        match watermark(media[a.cover.value])
        case Some(w) => media[a.cover.value := w]
        case None => media
      else media;
    (Persist(a), media')
  }

  /** The key of the default ordering `-published_at`. */
  function PublishedKey(a: Article): int {
    if a.publishedAt.Some? then Stamp(a.publishedAt.value) else 0
  }

  /** `row.save()` on an existing row: every row with the row's id replaced
      by it. Each position keeps its id, so the table keeps its order and
      unique ids; rows with other ids are untouched; and every stored row is
      either an old one or the saved one. */
  function ReplaceArticle(xs: seq<Article>, row: Article): (r: seq<Article>)
    ensures |r| == |xs|
    ensures forall i :: 0 <= i < |xs| ==> r[i].id == xs[i].id
    ensures forall i :: 0 <= i < |xs| && xs[i].id != row.id ==> r[i] == xs[i]
    ensures forall i :: 0 <= i < |xs| && xs[i].id == row.id ==> r[i] == row
    ensures forall a :: a in r ==> a in xs || a == row
    ensures UniqueIds(xs) ==> UniqueIds(r)
    ensures (exists a :: a in xs && a.id == row.id) <==> row in r
  {
    seq(|xs|, i requires 0 <= i < |xs| => if xs[i].id == row.id then row else xs[i])
  }

  /** Articles in the default ordering: newest first. */
  predicate NewestFirst(xs: seq<Article>) {
    NonIncreasing(xs, PublishedKey)
  }

  predicate UniqueIds(xs: seq<Article>) {
    forall i, j :: 0 <= i < j < |xs| ==> xs[i].id != xs[j].id
  }

  /** Two articles of a table with unique ids that share an id are the same row. */
  lemma SameIdSameArticle(xs: seq<Article>, a: Article, b: Article)
    requires UniqueIds(xs) && a in xs && b in xs && a.id == b.id
    ensures a == b
  {
    var i :| 0 <= i < |xs| && xs[i] == a;
    var j :| 0 <= j < |xs| && xs[j] == b;
    assert !(i < j) && !(j < i);
  }

  /** The article with primary key `id`, if any (`get(pk=id)`). */
  function FindArticle(xs: seq<Article>, id: int): (r: Option<Article>)
    ensures r.Some? ==> r.value in xs && r.value.id == id
    ensures r.None? ==> forall a :: a in xs ==> a.id != id
  {
    if |xs| == 0 then None
    else if xs[0].id == id then Some(xs[0])
    else FindArticle(xs[1..], id)
  }

  /** `Article.objects.filter(is_hidden=False)`, in the queryset's order. */
  function VisibleArticles(xs: seq<Article>): (r: seq<Article>)
    ensures forall a :: a in r <==> a in xs && Visible(a)
  {
    Filter(xs, Visible)
  }

  /** `.filter(tags=tag)`: the articles carrying the tag, in order. */
  function TaggedWith(xs: seq<Article>, tagId: nat): (r: seq<Article>)
    ensures forall a :: a in r <==> a in xs && tagId in a.tags
  {
    Filter(xs, (a: Article) => tagId in a.tags)
  }

  /** The tags of an article, in the tag table's (name) order. */
  function TagsOf(a: Article, tags: seq<Tag>): (r: seq<Tag>)
    ensures forall t :: t in r <==> t in tags && t.id in a.tags
  {
    Filter(tags, (t: Tag) => t.id in a.tags)
  }

  /*** Comments and board messages ***/

  /** A comment. models.py declares no Comment model (it says comments were
      removed); this is the shape the views, the API and the exporter use. */
  datatype Comment = Comment(
    id: nat,
    articleId: nat,
    nickname: string,
    city: string,
    content: string,
    createdAt: DateTime,
    isHidden: bool,
    avatar: string)

  /** A board message, as migration 0003 creates the table: nickname at most
      32 characters, city defaulting to "", ordered by `-created_at`. */
  datatype BoardMessage = BoardMessage(
    id: nat,
    nickname: string,
    avatar: string,
    city: string,
    content: string,
    createdAt: DateTime,
    isHidden: bool)

  const NicknameMaxLength: nat := 32

  /** `article.comments.filter(is_hidden=False)`. */
  function VisibleComments(cs: seq<Comment>, articleId: nat): (r: seq<Comment>)
    ensures forall c :: c in r <==> c in cs && c.articleId == articleId && !c.isHidden
  {
    Filter(cs, (c: Comment) => c.articleId == articleId && !c.isHidden)
  }

  /** `BoardMessage.objects.filter(is_hidden=False).order_by('-created_at')`,
      given the table in that order. */
  function VisibleMessages(ms: seq<BoardMessage>): (r: seq<BoardMessage>)
    requires NonIncreasing(ms, (m: BoardMessage) => Stamp(m.createdAt))
    ensures forall m :: m in r <==> m in ms && !m.isHidden
    ensures NonIncreasing(r, (m: BoardMessage) => Stamp(m.createdAt))
  {
    FilterKeepsOrder(ms, (m: BoardMessage) => !m.isHidden, (m: BoardMessage) => Stamp(m.createdAt));
    Filter(ms, (m: BoardMessage) => !m.isHidden)
  }

  /** The visible articles keep the default ordering, newest first. */
  lemma VisibleArticlesNewestFirst(xs: seq<Article>)
    requires NewestFirst(xs)
    ensures NewestFirst(VisibleArticles(xs))
  {
    FilterKeepsOrder(xs, Visible, PublishedKey);
  }

  /*** The database ***/

  /** The rows the application reads. */
  datatype Database = Database(
    articles: seq<Article>,
    tags: seq<Tag>,
    comments: seq<Comment>,
    messages: seq<BoardMessage>)

  /** What the database guarantees: primary keys unique, articles and
      messages delivered in their default order, every article row stored
      with a timestamp, and the tag table valid. */
  predicate WellFormed(db: Database) {
    && UniqueIds(db.articles)
    && NewestFirst(db.articles)
    && (forall i :: 0 <= i < |db.articles| ==> Stored(db.articles[i]))
    && ValidTagTable(db.tags)
    && NonIncreasing(db.messages, (m: BoardMessage) => Stamp(m.createdAt))
  }
}
