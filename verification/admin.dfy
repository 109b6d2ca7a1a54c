/** The admin console's article handling (app/admin.py): the bulk hide and
    show actions, the hand-written add and edit views that bypass form
    validation, `save_model`, and the redirect rules of `response_add` and
    `response_change`. A POST is a map from each field name to the list of
    values submitted under it; an uploaded cover is its file name. Whether
    the database accepts a write is a parameter (`saved`). */
module Admin {
  import opened Common
  import opened Models

  /*** Bulk actions ***/

  /** `queryset.update(is_hidden=hidden)` on the rows whose primary key is
      selected: only their visibility flag changes. */
  function SetHidden(xs: seq<Article>, selected: set<nat>, hidden: bool): (r: seq<Article>)
    ensures |r| == |xs|
    ensures forall i :: 0 <= i < |xs| ==>
              && r[i].isHidden == (if xs[i].id in selected then hidden else xs[i].isHidden)
              && r[i].(isHidden := xs[i].isHidden) == xs[i]
  {
    seq(|xs|, i requires 0 <= i < |xs| => if xs[i].id in selected then xs[i].(isHidden := hidden) else xs[i])
  }

  /** The `make_hidden` action: the selected articles become hidden, every
      other article and every other field stays as it was. */
  function MakeHidden(xs: seq<Article>, selected: set<nat>): (r: seq<Article>)
    ensures |r| == |xs|
    ensures forall i :: 0 <= i < |xs| ==> (!Visible(r[i]) <==> xs[i].id in selected || !Visible(xs[i]))
    ensures forall i :: 0 <= i < |xs| && xs[i].id !in selected ==> r[i] == xs[i]
  {
    SetHidden(xs, selected, true)
  }

  /** The `make_visible` action: the selected articles become visible,
      every other article and every other field stays as it was. */
  function MakeVisible(xs: seq<Article>, selected: set<nat>): (r: seq<Article>)
    ensures |r| == |xs|
    ensures forall i :: 0 <= i < |xs| ==> (Visible(r[i]) <==> xs[i].id in selected || Visible(xs[i]))
    ensures forall i :: 0 <= i < |xs| && xs[i].id !in selected ==> r[i] == xs[i]
  {
    SetHidden(xs, selected, false)
  }

  /** Of two bulk actions on the same selection the later one wins. */
  lemma LastActionWins(xs: seq<Article>, selected: set<nat>, first: bool, second: bool)
    ensures SetHidden(SetHidden(xs, selected, first), selected, second) == SetHidden(xs, selected, second)
  {
    var ys := SetHidden(xs, selected, first);
    var a := SetHidden(ys, selected, second);
    var b := SetHidden(xs, selected, second);
    forall i | 0 <= i < |xs| ensures a[i] == b[i] {
      assert ys[i].(isHidden := xs[i].isHidden) == xs[i];
      assert a[i].(isHidden := ys[i].isHidden) == ys[i];
      assert b[i].(isHidden := xs[i].isHidden) == xs[i];
    }
  }

  /** Showing what was just hidden restores the table when the selected
      articles were all visible to begin with. */
  lemma ShowUndoesHide(xs: seq<Article>, selected: set<nat>)
    requires forall a :: a in xs && a.id in selected ==> Visible(a)
    ensures MakeVisible(MakeHidden(xs, selected), selected) == xs
  {
    LastActionWins(xs, selected, true, false);
    var r := SetHidden(xs, selected, false);
    forall i | 0 <= i < |xs| ensures r[i] == xs[i] {
      assert xs[i] in xs;
      assert r[i].(isHidden := xs[i].isHidden) == xs[i];
    }
  }

  /** After `make_hidden` the public list holds exactly the articles it
      held before that were not selected. */
  lemma HiddenLeaveLiveList(xs: seq<Article>, selected: set<nat>)
    ensures forall a :: a in VisibleArticles(MakeHidden(xs, selected)) <==>
                        a in VisibleArticles(xs) && a.id !in selected
  {
    var r := MakeHidden(xs, selected);
    forall a ensures a in r && Visible(a) <==> a in xs && Visible(a) && a.id !in selected {
      if a in r && Visible(a) {
        var i :| 0 <= i < |r| && r[i] == a;
        assert xs[i].id !in selected;
        assert a in xs;
      }
      if a in xs && Visible(a) && a.id !in selected {
        var i :| 0 <= i < |xs| && xs[i] == a;
        assert r[i] == a;
      }
    }
  }

  /** The bulk actions keep the table well formed: keys, timestamps and
      the stored shape of every row are untouched. */
  lemma BulkKeepsWellFormed(db: Database, selected: set<nat>, hidden: bool)
    requires WellFormed(db)
    ensures WellFormed(db.(articles := SetHidden(db.articles, selected, hidden)))
  {
    var xs := db.articles;
    var r := SetHidden(xs, selected, hidden);
    forall i | 0 <= i < |r| ensures r[i].id == xs[i].id && PublishedKey(r[i]) == PublishedKey(xs[i]) && Stored(r[i]) {
      assert r[i].(isHidden := xs[i].isHidden) == xs[i];
    }
  }

  /*** The submitted form ***/

  type PostData = map<string, seq<string>>

  /** `request.POST.get(key)`: the last value submitted under the key, or
      nothing when the key is absent or carries no value. */
  function Lookup(post: PostData, key: string): (v: Option<string>)
    ensures v.Some? <==> key in post && |post[key]| > 0
    ensures v.Some? ==> v.value == post[key][|post[key]| - 1]
  {
    if key in post && |post[key]| > 0 then Some(post[key][|post[key]| - 1]) else None
  }

  /** `request.POST.get(key, default)`. */
  function GetOr(post: PostData, key: string, default: string): (v: string)
    ensures Lookup(post, key).None? ==> v == default
    ensures Lookup(post, key).Some? ==> v == Lookup(post, key).value
  {
    if Lookup(post, key).Some? then Lookup(post, key).value else default
  }

  /** A checkbox is ticked when its value is exactly "on". */
  predicate Checked(post: PostData, key: string) {
    Lookup(post, key) == Some("on")
  }

  /** `POST.get('title', '未命名文章') or '未命名文章'`: never empty; the
      submitted title when it is non-empty. */
  function TitleValue(post: PostData): (t: string)
    ensures t != ""
    ensures Lookup(post, "title").Some? && Lookup(post, "title").value != "" ==> t == Lookup(post, "title").value
    ensures Lookup(post, "title").None? || Lookup(post, "title").value == "" ==> t == UntitledArticle
  {
    var v := GetOr(post, "title", UntitledArticle);
    if v == "" then UntitledArticle else v
  }

  /** `POST.get('content_md', '') or ''`. */
  function ContentValue(post: PostData): (c: string)
    ensures Lookup(post, "content_md").Some? ==> c == Lookup(post, "content_md").value
    ensures Lookup(post, "content_md").None? ==> c == ""
  {
    GetOr(post, "content_md", "")
  }

  /** The cover after a request: the uploaded file, stored under the
      upload path for today, or the previous cover when nothing was sent. */
  function CoverValue(previous: Option<string>, upload: Option<string>, now: DateTime): (c: Option<string>)
    ensures upload.None? ==> c == previous
    ensures upload.Some? ==> c == Some(UploadCoverPath(now, upload.value))
  {
    if upload.Some? then Some(UploadCoverPath(now, upload.value)) else previous
  }

  /** What `int()` makes of each submitted tag id; `None` where it raises. */
  function TagKeys(ids: seq<string>): (ks: seq<Option<int>>)
    ensures |ks| == |ids| && forall i :: 0 <= i < |ids| ==> ks[i] == ParseInt(ids[i])
  {
    seq(|ids|, i requires 0 <= i < |ids| => ParseInt(ids[i]))
  }

  /** The submitted tag ids that name a tag: `Tag.objects.get(pk=tag_id)`
      for each value of `getlist('tags')` in turn, skipping a value that is
      not an integer (ValueError) or names no tag (DoesNotExist). */
  function ResolveTags(tags: seq<Tag>, ids: seq<string>): (r: set<nat>)
    ensures forall id :: id in r ==> FindTagById(tags, id).Some?
  {
    AddFound(tags, TagKeys(ids))
  }

  /** The loop over the keys: each key that finds a tag adds it. */
  function AddFound(tags: seq<Tag>, keys: seq<Option<int>>): (r: set<nat>)
    ensures forall id :: id in r ==> FindTagById(tags, id).Some?
  {
    if |keys| == 0 then {}
    else
      var rest := AddFound(tags, keys[..|keys| - 1]);
      match keys[|keys| - 1]
      case None => rest
      case Some(k) =>
        match FindTagById(tags, k)
        case None => rest
        case Some(t) => rest + {t.id}
  }

  /** `id` is the key of a tag and some submitted value is that integer. */
  predicate Requested(tags: seq<Tag>, ids: seq<string>, id: nat) {
    && FindTagById(tags, id).Some?
    && exists i :: 0 <= i < |ids| && ParseInt(ids[i]) == Some(id)
  }

  /** Bad ids are skipped and every good one is still added: the tag set
      saved is exactly the existing tags some submitted value names. */
  lemma ResolveTagsExactly(tags: seq<Tag>, ids: seq<string>, id: nat)
    ensures id in ResolveTags(tags, ids) <==> Requested(tags, ids, id)
  {
    var keys := TagKeys(ids);
    AddFoundExactly(tags, keys, id);
    if Requested(tags, ids, id) {
      var i :| 0 <= i < |ids| && ParseInt(ids[i]) == Some(id);
      assert keys[i] == Some(id);
    }
    if id in ResolveTags(tags, ids) {
      var i :| 0 <= i < |keys| && keys[i] == Some(id);
      assert ParseInt(ids[i]) == Some(id);
    }
  }

  lemma {:induction false} AddFoundExactly(tags: seq<Tag>, keys: seq<Option<int>>, id: nat)
    ensures id in AddFound(tags, keys) <==>
              FindTagById(tags, id).Some? && exists i :: 0 <= i < |keys| && keys[i] == Some(id)
    decreases |keys|
  {
    if |keys| > 0 {
      var init := keys[..|keys| - 1];
      var last := keys[|keys| - 1];
      AddFoundExactly(tags, init, id);
      var inInit := exists i :: 0 <= i < |init| && init[i] == Some(id);
      var inKeys := exists i :: 0 <= i < |keys| && keys[i] == Some(id);
      assert inKeys <==> inInit || last == Some(id) by {
        if inKeys {
          var i :| 0 <= i < |keys| && keys[i] == Some(id);
          if i < |init| { assert init[i] == keys[i]; }
        }
        if inInit {
          var i :| 0 <= i < |init| && init[i] == Some(id);
          assert keys[i] == init[i];
        }
      }
      if last.Some? && FindTagById(tags, last.value).Some? {
        assert FindTagById(tags, last.value).value.id == last.value;
      }
    }
  }

  /*** Responses ***/

  /** Where a response sends the browser: the add form, an article's edit
      form, the change list, or the change list with `?published=1#published`. */
  datatype Target = AddForm | ChangeForm(id: nat) | ChangeList | PublishedList

  /** Django's own form view (`super().add_view` / `super().changeform_view`),
      which is not part of this model, or a redirect. */
  datatype AdminReply = DefaultView | Redirect(target: Target)

  /** The flash message queued with `messages.success` / `messages.error`. */
  datatype Flash = NoFlash | Success(text: string) | Error(text: string)

  const PublishedNote: string := "🎉 文章发布成功"
  const ContinueNote: string := "💾 文章已保存，继续编辑"
  const CreatedNote: string := "💾 文章创建成功"
  const UpdatedNote: string := "✅ 文章更新成功"
  const MissingNote: string := "文章不存在"
  /** The error message's prefix; the exception text after it is not modelled. */
  const SaveFailed: string := "保存失败: "

  /** `response_add`: `_addanother`, then `_continue`, then `_publish`, then
      `_save`; a plain submission also lands on the change list. */
  function ResponseAdd(post: PostData, id: nat): (t: Target)
    ensures t == AddForm <==> "_addanother" in post
    ensures t == ChangeForm(id) <==> "_addanother" !in post && "_continue" in post
    ensures t == PublishedList <==> "_addanother" !in post && "_continue" !in post && "_publish" in post
    ensures t == ChangeList <==> "_addanother" !in post && "_continue" !in post && "_publish" !in post
  {
    if "_addanother" in post then AddForm
    else if "_continue" in post then ChangeForm(id)
    else if "_publish" in post then PublishedList
    else if "_save" in post then ChangeList
    else ChangeList
  }

  /** `response_change`: `_addanother`, then `_publish`, then `_continue`,
      then `_save`; a plain submission also lands on the change list. */
  function ResponseChange(post: PostData, id: nat): (t: Target)
    ensures t == AddForm <==> "_addanother" in post
    ensures t == PublishedList <==> "_addanother" !in post && "_publish" in post
    ensures t == ChangeForm(id) <==> "_addanother" !in post && "_publish" !in post && "_continue" in post
    ensures t == ChangeList <==> "_addanother" !in post && "_publish" !in post && "_continue" !in post
  {
    if "_addanother" in post then AddForm
    else if "_publish" in post then PublishedList
    else if "_continue" in post then ChangeForm(id)
    else if "_save" in post then ChangeList
    else ChangeList
  }

  /** The two precedence tables disagree exactly when both `_continue` and
      `_publish` are submitted without `_addanother`: adding then goes back
      to the edit form, changing goes to the published list. */
  lemma ResponsesDiffer(post: PostData, id: nat)
    ensures ResponseAdd(post, id) != ResponseChange(post, id) <==>
              "_continue" in post && "_publish" in post && "_addanother" !in post
    ensures ResponseAdd(post, id) != ResponseChange(post, id) ==>
              ResponseAdd(post, id) == ChangeForm(id) && ResponseChange(post, id) == PublishedList
  {
  }

  /** The hand-written add view's own choice: `_publish`, then `_continue`,
      then `_addanother`; a plain submission goes to the published list. */
  function AddTarget(post: PostData, id: nat): (t: Target)
    ensures t == PublishedList <==> "_publish" in post || ("_continue" !in post && "_addanother" !in post)
    ensures t == ChangeForm(id) <==> "_publish" !in post && "_continue" in post
    ensures t == AddForm <==> "_publish" !in post && "_continue" !in post && "_addanother" in post
    ensures t != ChangeList
  {
    if "_publish" in post then PublishedList
    else if "_continue" in post then ChangeForm(id)
    else if "_addanother" in post then AddForm
    else PublishedList
  }

  /** The add view does not follow `response_add`: they agree only when
      exactly one of `_publish`, `_continue`, `_addanother` decides both,
      and a plain submission goes to different pages. */
  lemma AddViewOverridesResponseAdd(post: PostData, id: nat)
    ensures AddTarget(post, id) == ResponseAdd(post, id) <==>
      || ("_publish" in post && "_continue" !in post && "_addanother" !in post)
      || ("_publish" !in post && "_continue" in post && "_addanother" !in post)
      || ("_publish" !in post && "_continue" !in post && "_addanother" in post)
  {
  }

  /** The success message the add view queues. */
  function AddNote(post: PostData): string {
    if "_publish" in post then PublishedNote
    else if "_continue" in post then ContinueNote
    else CreatedNote
  }

  /** The success message the edit view queues. */
  function ChangeNote(post: PostData): string {
    if "_publish" in post then PublishedNote
    else if "_continue" in post then ContinueNote
    else UpdatedNote
  }

  /** The edit view's redirect: `_publish`, then `_continue`, then
      `_addanother`, else the change list. */
  function ChangeTarget(post: PostData, id: nat): (t: Target)
    ensures "_publish" in post ==> t == PublishedList
    ensures "_publish" !in post && "_continue" in post ==> t == ChangeForm(id)
    ensures "_publish" !in post && "_continue" !in post && "_addanother" in post ==> t == AddForm
    ensures "_publish" !in post && "_continue" !in post && "_addanother" !in post ==> t == ChangeList
  {
    if "_publish" in post then PublishedList
    else if "_continue" in post then ChangeForm(id)
    else if "_addanother" in post then AddForm
    else ChangeList
  }

  /*** The views ***/

  /** A request to the admin: its method, its form fields and the name of
      an uploaded `cover` file, if any. */
  datatype AdminRequest = AdminRequest(isPost: bool, post: PostData, cover: Option<string>)

  /** The database after a request, the response and the queued message. */
  datatype AdminOutcome = AdminOutcome(db: Database, reply: AdminReply, flash: Flash)

  /** The instance the add view builds before saving it. */
  function AddedArticle(req: AdminRequest, now: DateTime, id: nat): (a: Article)
    ensures a.id == id && a.publishedAt == Some(now) && a.tags == {}
    ensures a.title == TitleValue(req.post) && a.contentMd == ContentValue(req.post)
    ensures a.isHidden <==> Checked(req.post, "is_hidden") && "_publish" !in req.post
    ensures a.allowComment == Some(GetOr(req.post, "allow_comment", "on") == "on")
    ensures a.cover == CoverValue(None, req.cover, now)
  {
    var hidden := Checked(req.post, "is_hidden");
    Article(id, TitleValue(req.post), ContentValue(req.post), CoverValue(None, req.cover, now), {},
            Some(now), if "_publish" in req.post then false else hidden,
            Some(GetOr(req.post, "allow_comment", "on") == "on"))
  }

  /** The tags a submission sets: the resolved ids when `tags` was sent,
      otherwise `otherwise`. */
  function SubmittedTags(tags: seq<Tag>, post: PostData, otherwise: set<nat>): (s: set<nat>)
    ensures "tags" !in post ==> s == otherwise
    ensures "tags" in post ==> s == ResolveTags(tags, post["tags"])
  {
    if "tags" in post then ResolveTags(tags, post["tags"]) else otherwise
  }

  /** `add_view`. A POST creates the article with primary key `newId`, newest
      first, and redirects by the add view's own precedence; when the
      database refuses the row, the error is queued and Django's own add
      view takes over. A GET shows Django's form. */
  function AddView(db: Database, req: AdminRequest, now: DateTime, newId: nat, saved: bool): (r: AdminOutcome)
    ensures !req.isPost ==> r == AdminOutcome(db, DefaultView, NoFlash)
    ensures req.isPost && !saved ==> r == AdminOutcome(db, DefaultView, Error(SaveFailed))
    ensures req.isPost && saved ==>
      && r.db.tags == db.tags && r.db.comments == db.comments && r.db.messages == db.messages
      && |r.db.articles| == |db.articles| + 1 && r.db.articles[1..] == db.articles
      && r.reply == Redirect(AddTarget(req.post, newId))
      && r.flash == Success(AddNote(req.post))
    ensures req.isPost && saved ==> var row := r.db.articles[0];
      && row.id == newId && row.publishedAt == Some(now)
      && row.title == TitleValue(req.post) && row.title != ""
      && row.contentMd == ContentValue(req.post)
      && (Visible(row) <==> !Checked(req.post, "is_hidden") || "_publish" in req.post)
      && row.cover == CoverValue(None, req.cover, now)
      && row.tags == SubmittedTags(db.tags, req.post, {})
      && Stored(row)
  {
    if !req.isPost then AdminOutcome(db, DefaultView, NoFlash)
    else if !saved then AdminOutcome(db, DefaultView, Error(SaveFailed))
    else
      var a := AddedArticle(req, now, newId);
      var row := Persist(a).(tags := SubmittedTags(db.tags, req.post, {}));
      AdminOutcome(db.(articles := [row] + db.articles), Redirect(AddTarget(req.post, newId)),
                   Success(AddNote(req.post)))
  }

  /** The add view keeps the database well formed when the new key is fresh
      and no article is newer than the moment of the request. */
  lemma AddViewKeepsWellFormed(db: Database, req: AdminRequest, now: DateTime, newId: nat, saved: bool)
    requires WellFormed(db)
    requires forall a :: a in db.articles ==> a.id != newId
    requires |db.articles| > 0 ==> PublishedKey(db.articles[0]) <= Stamp(now)
    ensures WellFormed(AddView(db, req, now, newId, saved).db)
  {
    if req.isPost && saved {
      var xs := AddView(db, req, now, newId, saved).db.articles;
      var row := xs[0];
      assert xs == [row] + db.articles;
      PrependKeepsOrder(row, db.articles, PublishedKey);
      forall i, j | 0 <= i < j < |xs| ensures xs[i].id != xs[j].id {
        assert xs[j] == db.articles[j - 1];
        if i > 0 {
          assert xs[i] == db.articles[i - 1];
        } else {
          assert db.articles[j - 1] in db.articles;
        }
      }
      forall i | 0 <= i < |xs| ensures Stored(xs[i]) {
        if i > 0 { assert xs[i] == db.articles[i - 1]; }
      }
    }
  }

  /** The instance the edit view saves: a field is overwritten only when it
      was submitted, an absent `is_hidden` means visible, an absent
      `allow_comment` means allowed, and `_publish` forces visibility. */
  function EditedArticle(a: Article, req: AdminRequest, now: DateTime): (b: Article)
    ensures b.id == a.id && b.publishedAt == a.publishedAt && b.tags == a.tags
    ensures b.title == (if "title" in req.post then TitleValue(req.post) else a.title)
    ensures b.contentMd == (if "content_md" in req.post then ContentValue(req.post) else a.contentMd)
    ensures b.isHidden <==> Checked(req.post, "is_hidden") && "_publish" !in req.post
    ensures b.allowComment == Some("allow_comment" !in req.post || Checked(req.post, "allow_comment"))
    ensures b.cover == CoverValue(a.cover, req.cover, now)
  {
    var post := req.post;
    var title := if "title" in post then TitleValue(post) else a.title;
    var content := if "content_md" in post then ContentValue(post) else a.contentMd;
    var hidden := if "is_hidden" in post then Checked(post, "is_hidden") else false;
    var allow := if "allow_comment" in post then Checked(post, "allow_comment") else true;
    a.(title := title, contentMd := content, isHidden := if "_publish" in post then false else hidden,
       allowComment := Some(allow), cover := CoverValue(a.cover, req.cover, now))
  }

  /** The row the edit view writes: the edited instance as saved, with its
      tags cleared and re-added from the submitted ids when `tags` was sent. */
  function EditedRow(a: Article, tags: seq<Tag>, req: AdminRequest, now: DateTime): (row: Article)
    ensures row.id == a.id && row.publishedAt == a.publishedAt && row.allowComment.None?
  {
    var b := EditedArticle(a, req, now);
    Persist(b).(tags := SubmittedTags(tags, req.post, b.tags))
  }

  /** `changeform_view` for a POST naming an article. The primary key is
      read with `int()`: a non-integer raises ValueError, whose message is
      queued before Django's own view takes over; an unknown key redirects
      to the change list with "文章不存在". A GET, or a POST without an id,
      is Django's own view. */
  function ChangeformView(db: Database, req: AdminRequest, objectId: string, now: DateTime, saved: bool)
    : (r: AdminOutcome)
    ensures !req.isPost || objectId == "" ==> r == AdminOutcome(db, DefaultView, NoFlash)
    ensures r.db.tags == db.tags && r.db.comments == db.comments && r.db.messages == db.messages
    ensures !r.reply.Redirect? || r.flash.Error? ==> r.db == db
    ensures req.isPost && objectId != "" && ParseInt(objectId).None? ==> r == AdminOutcome(db, DefaultView, Error(SaveFailed))
    ensures req.isPost && objectId != "" && ParseInt(objectId).Some? &&
            FindArticle(db.articles, ParseInt(objectId).value).None? ==>
              r == AdminOutcome(db, Redirect(ChangeList), Error(MissingNote))
    ensures req.isPost && objectId != "" && ParseInt(objectId).Some? &&
            FindArticle(db.articles, ParseInt(objectId).value).Some? ==>
              var a := FindArticle(db.articles, ParseInt(objectId).value).value;
              if !saved then r == AdminOutcome(db, DefaultView, Error(SaveFailed))
              else
                && r.db.articles == ReplaceArticle(db.articles, EditedRow(a, db.tags, req, now))
                && r.reply == Redirect(ChangeTarget(req.post, a.id))
                && r.flash == Success(ChangeNote(req.post))
  {
    if !req.isPost || objectId == "" then AdminOutcome(db, DefaultView, NoFlash)
    else
      match ParseInt(objectId)
      case None => AdminOutcome(db, DefaultView, Error(SaveFailed))
      case Some(k) =>
        match FindArticle(db.articles, k)
        case None => AdminOutcome(db, Redirect(ChangeList), Error(MissingNote))
        case Some(a) =>
          if !saved then AdminOutcome(db, DefaultView, Error(SaveFailed))
          else
            var row := EditedRow(a, db.tags, req, now);
            AdminOutcome(db.(articles := ReplaceArticle(db.articles, row)), Redirect(ChangeTarget(req.post, a.id)),
                         Success(ChangeNote(req.post)))
  }

  /** What an edit leaves of an article: absent fields keep their values,
      visibility follows the checkbox unless `_publish` forces it, tags are
      exactly the submitted existing ones when `tags` was sent, and the
      `allow_comment` the form chose is not kept by the row. */
  lemma EditRules(a: Article, tags: seq<Tag>, req: AdminRequest, now: DateTime, id: nat)
    ensures var row := EditedRow(a, tags, req, now);
      && ("title" !in req.post ==> row.title == a.title)
      && ("title" in req.post ==> row.title == TitleValue(req.post) && row.title != "")
      && ("content_md" !in req.post ==> row.contentMd == a.contentMd)
      && (Visible(row) <==> !Checked(req.post, "is_hidden") || "_publish" in req.post)
      && ("tags" !in req.post ==> row.tags == a.tags)
      && ("tags" in req.post ==> (id in row.tags <==> Requested(tags, req.post["tags"], id)))
      && (req.cover.None? ==> row.cover == a.cover)
      && row.allowComment.None?
  {
    if "tags" in req.post {
      ResolveTagsExactly(tags, req.post["tags"], id);
    }
  }

  /** Saving the same edit twice changes nothing the first did not. */
  lemma {:induction false} EditIdempotent(db: Database, req: AdminRequest, objectId: string, now: DateTime)
    requires UniqueIds(db.articles)
    ensures var once := ChangeformView(db, req, objectId, now, true).db;
            ChangeformView(once, req, objectId, now, true).db == once
  {
    var once := ChangeformView(db, req, objectId, now, true).db;
    if req.isPost && objectId != "" && ParseInt(objectId).Some? && FindArticle(db.articles, ParseInt(objectId).value).Some? {
      var k := ParseInt(objectId).value;
      var a := FindArticle(db.articles, k).value;
      var row := EditedRow(a, db.tags, req, now);
      ReplaceFinds(db.articles, row, k);
      var a2 := FindArticle(once.articles, k).value;
      assert a2 == row;
      EditedRowStable(a, db.tags, req, now);
      ReplaceTwice(db.articles, row);
    }
  }

  /** After the row with key `k` is replaced, looking `k` up finds the new row. */
  lemma ReplaceFinds(xs: seq<Article>, row: Article, k: int)
    requires UniqueIds(xs) && FindArticle(xs, k).Some? && row.id == k
    ensures FindArticle(ReplaceArticle(xs, row), k) == Some(row)
  {
    var r := ReplaceArticle(xs, row);
    var i :| 0 <= i < |xs| && xs[i] == FindArticle(xs, k).value;
    assert r[i] == row;
    assert row in r;
    var found := FindArticle(r, k).value;
    var j :| 0 <= j < |r| && r[j] == found;
    assert xs[j].id == k;
  }

  /** Editing an edited row again with the same request yields the same row. */
  lemma EditedRowStable(a: Article, tags: seq<Tag>, req: AdminRequest, now: DateTime)
    ensures EditedRow(EditedRow(a, tags, req, now), tags, req, now) == EditedRow(a, tags, req, now)
  {
  }

  lemma ReplaceTwice(xs: seq<Article>, row: Article)
    ensures ReplaceArticle(ReplaceArticle(xs, row), row) == ReplaceArticle(xs, row)
  {
  }

  /** The edit view keeps the database well formed: the key and the
      timestamp of the edited row are those it had. */
  lemma ChangeformKeepsWellFormed(db: Database, req: AdminRequest, objectId: string, now: DateTime, saved: bool)
    requires WellFormed(db)
    ensures WellFormed(ChangeformView(db, req, objectId, now, saved).db)
  {
    var r := ChangeformView(db, req, objectId, now, saved);
    if r.db != db {
      var a := FindArticle(db.articles, ParseInt(objectId).value).value;
      var row := EditedRow(a, db.tags, req, now);
      var xs := db.articles;
      var ys := r.db.articles;
      assert ys == ReplaceArticle(xs, row);
      forall i | 0 <= i < |ys| ensures ys[i].id == xs[i].id && PublishedKey(ys[i]) == PublishedKey(xs[i]) && Stored(ys[i]) {
        if xs[i].id == row.id {
          SameIdSameArticle(xs, xs[i], a);
        }
      }
    }
  }

  /*** save_model ***/

  /** `save_model` on the instance the form built: submitted fields
      overwrite it, an absent `is_hidden` means visible, `_publish` forces
      visibility, a new record without a timestamp gets `now`; tags are
      cleared and re-added from the submitted ids. When the database refuses
      the write nothing is stored and the error is queued. */
  function SaveModel(obj: Article, tags: seq<Tag>, req: AdminRequest, change: bool, now: DateTime, saved: bool)
    : (r: (Option<Article>, Flash))
    ensures !saved ==> r == (None, Error(SaveFailed))
    ensures saved ==> r.0.Some? && r.1.Success?
    ensures saved ==> var row := r.0.value;
      && row.id == obj.id
      && row.publishedAt == (if !change && obj.publishedAt.None? then Some(now) else obj.publishedAt)
      && (Visible(row) <==> !Checked(req.post, "is_hidden") || "_publish" in req.post)
      && row.title == (if "title" in req.post then TitleValue(req.post) else obj.title)
      && row.contentMd == (if "content_md" in req.post then ContentValue(req.post) else obj.contentMd)
      && row.cover == CoverValue(obj.cover, req.cover, now)
      && row.tags == SubmittedTags(tags, req.post, obj.tags)
      && row.allowComment.None?
    ensures saved ==> r.1.text == (if "_publish" in req.post then PublishedNote
                                  else if "_continue" in req.post then ContinueNote
                                  else if change then UpdatedNote else CreatedNote)
  {
    if !saved then (None, Error(SaveFailed))
    else
      var post := req.post;
      var title := if "title" in post then TitleValue(post) else obj.title;
      var content := if "content_md" in post then ContentValue(post) else obj.contentMd;
      var hidden := if "is_hidden" in post then Checked(post, "is_hidden") else false;
      var stamp := if !change && obj.publishedAt.None? then Some(now) else obj.publishedAt;
      var b := obj.(title := title, contentMd := content, isHidden := if "_publish" in post then false else hidden,
                    cover := CoverValue(obj.cover, req.cover, now), publishedAt := stamp);
      var row := Persist(b).(tags := SubmittedTags(tags, post, b.tags));
      var note := if "_publish" in post then PublishedNote
                  else if "_continue" in post then ContinueNote
                  else if change then UpdatedNote else CreatedNote;
      (Some(row), Success(note))
  }

  /** The two edit paths agree: `save_model` on a stored article writes the
      same row as the overridden `changeform_view` (whose extra
      `allow_comment` choice is lost on both paths), and writing that row
      back keeps the ids unique and makes it the row its key finds. */
  lemma SaveModelMatchesChangeform(xs: seq<Article>, a: Article, tags: seq<Tag>, req: AdminRequest, now: DateTime)
    requires UniqueIds(xs) && a in xs
    ensures SaveModel(a, tags, req, true, now, true).0 == Some(EditedRow(a, tags, req, now))
    ensures var ys := ReplaceArticle(xs, SaveModel(a, tags, req, true, now, true).0.value);
      UniqueIds(ys) && FindArticle(ys, a.id) == Some(SaveModel(a, tags, req, true, now, true).0.value)
  {
    var row := EditedRow(a, tags, req, now);
    assert SaveModel(a, tags, req, true, now, true).0.value == row;
    ReplaceFinds(xs, row, a.id);
  }

  /** Every way the admin writes an article leaves it without an
      `allow_comment` value, whatever the form said: the choice is lost
      because the model has no such column. */
  lemma AdminLosesAllowComment(db: Database, req: AdminRequest, now: DateTime, newId: nat, objectId: string)
    requires UniqueIds(db.articles)
    ensures var added := AddView(db, req, now, newId, true).db.articles;
            req.isPost ==> added[0].allowComment.None?
    ensures var edited := ChangeformView(db, req, objectId, now, true).db.articles;
            forall a :: a in edited ==> a in db.articles || a.allowComment.None?
  {
    var edited := ChangeformView(db, req, objectId, now, true).db.articles;
    forall a | a in edited ensures a in db.articles || a.allowComment.None? {
      var i :| 0 <= i < |edited| && edited[i] == a;
      if edited != db.articles {
        var row := EditedRow(FindArticle(db.articles, ParseInt(objectId).value).value, db.tags, req, now);
        assert edited == ReplaceArticle(db.articles, row);
        if a != db.articles[i] { assert a == row; }
      }
    }
  }
}
