# A model of the pangu-immortal blog: static export, live views, JSON API and admin

This project models the core of a small Django blog in Dafny, and proves
properties of that model.

- **The static-site exporter** (`generate_static_site`). It wipes the
  output directory and then writes:
  - the index page;
  - the article list, ten articles per page;
  - one filtered list per tag;
  - one detail page per visible article;
  - the about and board pages.

  It then copies the static and media trees, writes `sitemap.xml`, and
  finally touches `.nojekyll`.
- **The live pages** (`app/views.py`):
  - the article list, detail and board pages;
  - the anonymous comment submission, with its 30-second cooldown and a
    commenter profile (nickname, avatar and city) that is cached for 30 days;
  - the avatar pool;
  - the IP-to-city label.
- **The JSON API** (`app/api_views.py`):
  - the article list and the article detail;
  - the partial update that the detail handler would apply to a PUT;
  - the anonymous comment and board-message submissions.
- **The admin console's article handling** (`app/admin.py`):
  - the bulk hide and show actions;
  - the hand-written add and edit views;
  - `save_model`;
  - the redirect rules of `response_add` and `response_change`.
- **The records** (`app/models.py` and migration 0003):
  - tags, articles, comments and board messages;
  - the default orderings;
  - the cover upload path.

The modules follow the program's structure.

| module | file | models |
|---|---|---|
| `Common` | common.dfy | `Option`, decimal digits, Python's `str.strip()`, `int()` on text, `"\n".join` / `split` |
| `Models` | models.dfy | the records, `strftime` dates, `upload_cover_path`, `Tag.objects.get_or_create`, `Article.save` |
| `Pagination` | pagination.dfy | Django's `Paginator(objects, 10)`: page count, page slices, metadata, `get_page` |
| `Rendering` | rendering.dfy | the Markdown/sanitiser/template libraries as function values; the sanitiser allow-list; page contexts |
| `OutputNames` | filenames.dfy | the exporter's file-name scheme and a parser that reads a name back |
| `Sitemap` | sitemap.dfy | the lines and the text of `sitemap.xml` |
| `StaticSite` | exporter.dfy | one export run, as a map from relative paths to file contents |
| `Views` | views.dfy | the live pages, the cache, profiles and comment submission |
| `Api` | api.dfy | the four JSON handlers, with method filtering and the catch-all error mapping |
| `Admin` | admin.dfy | the admin actions and views |

Two things in the repository are inconsistent with each other, and the model
keeps both visible.

**`allow_comment` is read but never stored.**
- `Article` has no `allow_comment` field: it was removed, see
  `app/models.py:37`.
- The views, the API and the admin still read and write that attribute.
- The model therefore gives `Article` an `allowComment: Option<bool>` that
  is `None` on every row loaded from the database. Reading `None` raises
  `AttributeError`.
- As written, the consequences are:
  - no comment is ever accepted (`Views.StoredArticlesRefuseComments`,
    `Api.ApiStoredArticlesRefuseComments`);
  - the detail API answers 500 for every stored visible article
    (`Api.DetailGetOutcomes`);
  - every choice the admin form makes about comments is lost
    (`Admin.AdminLosesAllowComment`).

**The API hides 404s.**
- The list and detail handlers wrap their whole body in `except Exception`.
- An unknown tag or a missing article (`Http404`) therefore becomes a JSON
  500 (`Api.CatchAll`, `Api.ApiArticleList`, `Api.DetailGetOutcomes`).
- The live list page answers the same unknown tag with a 404
  (`Api.ApiListMatchesLiveList`).

Comments and board messages are modelled with the shape the views, the API
and migration 0003 use, although `app/models.py:76-78` no longer declares
those models.

## Model

| member | source | states |
|---|---|---|
| Pagination.NumPages | app/management/commands/generate_static_site.py:92-93 | at least one page; otherwise the smallest n with count <= 10n, so no page is empty except the only page of an empty list |
| Pagination.PageItems | app/management/commands/generate_static_site.py:92-94 | page k holds objects 10(k-1) onward, at most ten and exactly ten on every page before the last, never zero when there are objects |
| Pagination.PagesPartition | app/management/commands/generate_static_site.py:93-106 | iterating `page_range`, the pages laid end to end give back exactly the whole sequence, in order |
| Pagination.ObjectPage | app/management/commands/generate_static_site.py:93-106 | object i lies on page i/10+1 at position i%10, so every article appears on some page |
| Pagination.GetPage | app/api_views.py:70-76 | the page's number, count and page count; it has a next page iff objects remain after it, and a previous page iff objects precede it |
| Pagination.GetPageNumber | app/views.py:33 | `get_page` never fails: a non-integer gives page 1, an out-of-range integer the last page, and any other integer its own page |
| OutputNames.UnitNameRoundTrip | app/management/commands/generate_static_site.py:81-124 | every page's file name (index, list, `list_page_k`, `list_tag_name[_page_k]`, `article_id`, about, board, sitemap) reads back as that page |
| OutputNames.UnitNameInjective | app/management/commands/generate_static_site.py:103-124 | two different pages never share a file, provided tag names contain neither `_page_` nor `/` |
| OutputNames.UnitNameAtRoot | app/management/commands/generate_static_site.py:238-242 | every page file lies directly under the output root and is never `.nojekyll` |
| OutputNames.TagListRoundTrip | app/management/commands/generate_static_site.py:123 | `list_tag_{name}.html` for page 1 and `list_tag_{name}_page_{k}.html` for later pages identify tag and page |
| Rendering.ArticleSanitizerAllowList | app/management/commands/generate_static_site.py:136-149 | the sanitiser keeps `class`/`id` on every tag and `src`/`alt` on `img` only; no script, iframe, style or event handler is allowed; the allowed tags are bleach's defaults plus the listed structural tags; disallowed markup is stripped |
| Sitemap.SitemapStructure | app/management/commands/generate_static_site.py:211-232 | header dated today, then six lines per visible article in order (its detail page and its publication day), then `</urlset>` |
| Sitemap.ArticleEntriesLayout | app/management/commands/generate_static_site.py:222-230 | line 6i+j of the entries is line j of article i's entry |
| Sitemap.SitemapListsExactly | app/management/commands/generate_static_site.py:222-230 | the sitemap holds the loc line of an article iff the article is one of those listed |
| Sitemap.LinesNoNewline | app/management/commands/generate_static_site.py:211-232 | no line of the sitemap contains a newline |
| Sitemap.SitemapTextLines | app/management/commands/generate_static_site.py:235 | splitting the written file at newlines gives back exactly its lines |
| StaticSite.PageUnitsExactly | app/management/commands/generate_static_site.py:44-66 | the pages a run writes are exactly: the fixed pages, main list pages 1..n, every page of every tag, one detail page per visible article, and the sitemap |
| StaticSite.ExportPages | app/management/commands/generate_static_site.py:36-69 | after a run, a page's file exists iff that page is expected, and then holds its rendered content, whatever the directory held before |
| StaticSite.ExportOnlyKnownFiles | app/management/commands/generate_static_site.py:39-42 | the old output is wiped: every file present afterwards is an expected page, a copied static or media file, or `.nojekyll` |
| StaticSite.MarkerWrittenLast | app/management/commands/generate_static_site.py:66-69 | `.nojekyll` does not exist before step 9, ends empty, and touching it changes no other file |
| StaticSite.ExportListPage | app/management/commands/generate_static_site.py:92-106 | main list page k shows the k-th slice of the visible articles with no active tag |
| StaticSite.ExportListsEveryArticle | app/management/commands/generate_static_site.py:88-106 | every visible article appears on main list page i/10+1 |
| StaticSite.ExportTagPage | app/management/commands/generate_static_site.py:109-124 | page k of a tag shows the k-th slice of that tag's visible articles, with the tag active |
| StaticSite.ExportDetailPage | app/management/commands/generate_static_site.py:128-159 | an article has a detail page iff it is not hidden, showing it, its sanitised body and its visible comments |
| StaticSite.DetailShowsOnlyVisibleComments | app/management/commands/generate_static_site.py:133 | the exported detail page of a visible article is the detail template rendered with the article, its sanitised body and a comment list holding a comment iff it belongs to the article and is not hidden |
| StaticSite.SitemapMatchesDetailPages | app/management/commands/generate_static_site.py:209-226 | the sitemap lists an article iff the run wrote that article's detail page |
| StaticSite.ExportSubdirectoryFile | app/management/commands/generate_static_site.py:183-205 | files under a sub-directory are exactly the copies, untouched by the sitemap and the marker |
| StaticSite.CopyTree | app/management/commands/generate_static_site.py:188-189 | `copytree(..., dirs_exist_ok=True)`: each source file lands under the prefix and replaces an older one there; other files stay; a missing source copies nothing |
| StaticSite.CopiedFiles | app/management/commands/generate_static_site.py:183-205 | under `static/`, files from `staticfiles/` win over files from `static/`; media files land under `media/` |
| StaticSite.ExportCopiedFiles | app/management/commands/generate_static_site.py:59-69 | the copied files survive to the end of the run |
| StaticSite.Touch | app/management/commands/generate_static_site.py:69 | `touch` adds an empty file when there is none and changes no existing file |
| Models.FormatDateRoundTrip | app/management/commands/generate_static_site.py:226 | `%Y-%m-%d` keeps exactly year, month and day: the date reads back |
| Models.CoverPathRoundTrip | app/models.py:10-12 | `covers/{YYYY}/{MM}/{filename}` reads back as the upload's year, month and the verbatim file name |
| Models.GetOrCreateTag | app/api_views.py:188 | returns the tag with that name; an existing name leaves the table unchanged; otherwise exactly one tag is added; the table stays valid (unique ids and names, ordered by name) |
| Models.NewArticle | app/models.py:29-36 | a new article is visible, untitled, empty, without cover or tags, and stamped with now |
| Models.Persist | app/models.py:29-37 | saving keeps every column and loses an `allow_comment` attribute set on the instance |
| Models.SaveArticle | app/models.py:47-73 | the row written is the persisted instance; the media files keep their names, and only the cover file may change |
| Models.VisibleArticles | app/models.py:40 | `filter(is_hidden=False)` holds exactly the visible articles |
| Models.VisibleArticlesNewestFirst | app/models.py:40 | filtering keeps the `-published_at` order |
| Models.TaggedWith | app/management/commands/generate_static_site.py:110 | `filter(tags=tag)` holds exactly the articles carrying the tag |
| Models.VisibleComments | app/views.py:41 | exactly the article's comments that are not hidden |
| Models.VisibleMessages | app/views.py:58 | exactly the board messages that are not hidden, still newest first |
| Models.ReplaceArticle | app/admin.py:151 | an existing row's save keeps every position's id (so unique ids stay unique), leaves rows with other ids alone, stores only old rows or the saved one, and stores the saved one iff its id was present |
| Views.ArticleList | app/views.py:24-35 | an unknown non-empty tag is a 404; otherwise the page shows only visible articles (carrying the tag when one is active) and a page number within range, page 1 when no page is asked for |
| Api.LiveListFirstPage | app/views.py:24-35 | without a page parameter the list is the first page of the visible (tagged) articles |
| Views.ArticleDetail | app/views.py:38-46 | a page iff the key names a visible article, otherwise a 404; the page shows the sanitised body and exactly the visible comments |
| Views.Board | app/views.py:57-59 | exactly the visible messages, newest first |
| Views.CityLabel | app/views.py:69-101 | local addresses and failed lookups give 未知星域; otherwise country·city, the city alone, or the country alone, as available; never empty |
| Views.CityLabelSplits | app/views.py:89-96 | when neither name contains `·`, the label splits at its first `·` iff the lookup gave both names, and then back into (country, city) |
| Views.CacheGet | app/views.py:139 | a cached entry is returned, with its stored value, exactly while the current second is before its expiry |
| Views.EnsureAvatarsPool | app/views.py:104-123 | with 30 or more icons the directory is unchanged; otherwise icon_01..icon_30 are written; nothing else is added |
| Views.PoolHoldsThirtyIcons | app/views.py:104-123 | afterwards the directory holds at least 30 icons, so the random choice has something to pick |
| Views.IconNamesDistinct | app/views.py:123 | `icon_{i:02d}.png` gives thirty distinct names |
| Views.CacheSet | app/views.py:141 | a value set with a timeout is read back until the timeout and not after; other keys are unaffected |
| Views.ObtainProfile | app/views.py:144-152 | a live cached profile is reused unchanged; otherwise a fresh profile is drawn and cached for 30 days; a non-profile value in the slot yields no profile |
| Views.NewProfileShape | app/views.py:147-151 | a drawn profile has nickname 道友 followed by six digits between 100000 and 999999, an avatar from the pool, and the looked-up city |
| Views.CommentGate | app/views.py:129-140 | the reply of each check, assuming the earlier ones passed: a non-integer id raises ValueError (500), a missing or hidden article is a 404, a missing `allow_comment` raises AttributeError, closed comments are 400, content under two characters is 400, a cooling client is 429; admission implies every check passed |
| Views.CommentGateAdmits | app/views.py:129-140 | the checks admit a submission iff all of them pass |
| Views.RecordComment | app/views.py:141-160 | the cooldown covers exactly the next 30 seconds; the comment is appended visible, with the stripped content, under the cached or the newly drawn profile |
| Views.SubmitCommentRefusals | app/views.py:129-140 | a refused submission gets the per-check reply of the checks, in the same order, and leaves the state unchanged |
| Views.SubmitComment | app/views.py:126-161 | a refusal leaves the database unchanged; a 429 happens only while cooling down; an accepted comment leaves the articles alone and starts the cooldown |
| Views.SubmitCommentAccepts | app/views.py:126-161 | a comment is accepted iff every check passes and the profile slot is not corrupt; then exactly one visible comment is appended |
| Views.CooldownRefusesSecondComment | app/views.py:139-141 | within 30 seconds of an accepted comment, the same client's next otherwise-valid comment gets 429 |
| Views.CooldownLapses | app/views.py:139-141 | 30 seconds or more after an accepted comment, the same client gets no 429 |
| Views.ProfileReusedForThirtyDays | app/views.py:144-152 | comments accepted within 30 days of the first carry the same nickname, avatar and city |
| Views.StoredArticlesRefuseComments | app/views.py:131-133 | as written, a stored article has no `allow_comment`: every submission ends in 404 or 500 and nothing changes |
| Api.CatchAll | app/api_views.py:127-128 | every exception, `Http404` included, becomes a JSON 500; a reply is passed through |
| Api.Summary | app/api_views.py:59 | a body of at most 200 characters is its own summary; a longer one is cut to 200 characters plus "..." |
| Api.ListPageData | app/api_views.py:48-78 | the response reports the page `get_page` picks for the integer, one summary per article of that page in order, and every tag |
| Api.ApiArticleList | app/api_views.py:34-128 | methods other than GET/OPTIONS get 405; OPTIONS gets an empty 200; a non-integer page or an unknown tag gives 500 |
| Api.ApiListMatchesLiveList | app/api_views.py:42-78 | for an integer page, the API reports the same articles and page metadata as the live list; where the live list is a 404, the API answers 500 |
| Api.ApiListRejectsNonIntegerPage | app/api_views.py:43 | a non-integer page is a 500 in the API, while the live list falls back to page 1 |
| Api.ShowArticle | app/api_views.py:139-169 | a hidden article is a 404 reply; a missing `allow_comment` raises; otherwise the article and exactly its visible comments, in order |
| Api.ApiArticleDetail | app/api_views.py:131-230 | only GET/OPTIONS pass the decorator; GET changes nothing and never lets an exception escape; a missing article is a 500 |
| Api.DetailGetOutcomes | app/api_views.py:134-169 | GET outcomes: a missing article gives 500, a hidden one 404, a stored visible one 500; only an article with `allow_comment` set is shown |
| Api.DetailWritesUnreachable | app/api_views.py:133 | PUT and DELETE get 405 and change nothing |
| Api.TagNames | app/api_views.py:185-188 | the names the PUT uses are exactly the stripped string items of the list |
| Api.AddTagsNames | app/api_views.py:183-189 | after `get_or_create` for each name, every name has a tag; the article's tag ids are exactly those of named tags; the only new tags are named ones |
| Api.ParseDataUrl | app/api_views.py:191-195 | a match yields a non-empty word-character extension and a non-empty newline-free payload that the string starts with |
| Api.DataUrlRoundTrip | app/api_views.py:192 | every extension and payload the pattern can match is read back |
| Api.PutCover | app/api_views.py:190-203 | a data URL that matches and decodes is stored as `cover_{id}.{ext}` under the upload path; "" clears the cover; anything else keeps it |
| Api.UpdatedArticle | app/api_views.py:175-211 | a PUT keeps the tag table valid and every existing tag |
| Api.PutIsPartialUpdate | app/api_views.py:175-211 | an absent or null title, content, `is_hidden` or `allow_comment` keeps its value, and so does the cover when the value is not a string; a non-null title is `str()`-ed and stripped; a tags list sets exactly the named tags; an empty cover clears; a non-null `is_hidden` takes truthiness |
| Api.PutSetsContentAndSwitch | app/api_views.py:176-211 | the content comes from a truthy `content_md`, else `content`, and is `str()`-ed when not null; `allow_comment`, falling back to `allow_comments` when null and that key is present, takes truthiness when not null; null keeps the old value |
| Api.PutArticle | app/api_views.py:170-224 | an over-long tag name or a title over 200 characters fails with DataError before any change; otherwise the updated row replaces the stored one and only the articles and tags change; the answer is the updated article iff `allow_comment` was set by the request or already present, and AttributeError otherwise; a successful answer carries the updated title, content, publication minute and comment switch, the saved tags, and the cover's media URL, which is "" when there is no file or its name is empty |
| Api.PutEchoesEmptyCoverAsAbsent | app/api_views.py:219 | a row whose cover name is empty is answered with `cover` "", as `article.cover.url if article.cover else ""` does |
| Api.EmptyPutChangesNothing | app/api_views.py:172-212 | an empty body writes the stored row back unchanged |
| Api.PutWithoutAllowCommentFails | app/api_views.py:207-222 | a PUT that does not set `allow_comment` saves the row and still answers with an error |
| Api.ReadSubmission | app/api_views.py:296-306 | form fields always read; the content read is stripped |
| Api.CommentApiGate | app/api_views.py:296-328 | a stop is never a success; a pass implies a readable body, a truthy id converting to a visible article's key, comments on, and non-empty content |
| Api.CommentApiGateReplies | app/api_views.py:296-328 | the reply of each check, assuming the earlier ones passed: an unreadable body is 400, a falsy id or empty content is 400, an unconvertible id raises ValueError, a missing or hidden article is 404, a missing `allow_comment` raises AttributeError, closed comments are 403 |
| Api.CommentApiGatePasses | app/api_views.py:296-328 | the gate passes iff all of those hold; there is no minimum length and no cooldown |
| Api.RecordApiComment | app/api_views.py:336-371 | the comment is stored iff the profile slot is not corrupt; exactly one visible comment is appended with the content; the cooldowns are untouched |
| Api.ApiSubmitComment | app/api_views.py:286-377 | POST/OPTIONS only; no exception escapes; success iff the gate passes and the profile slot is sound; failure changes no record; the cooldowns are untouched |
| Api.ApiCommentRefusals | app/api_views.py:296-328 | a refused POST answers 400, 400, 500, 404, 500 or 403 check by check, with raised exceptions caught as 500, and leaves the state as it was |
| Api.ApiSubmitCommentAccepts | app/api_views.py:286-377 | acceptance iff the body reads, the id is truthy and names a visible article with comments on, the content is non-empty, and the profile slot is sound |
| Api.ApiStoredArticlesRefuseComments | app/api_views.py:323-328 | as written, no request stored against a database row passes the gate |
| Api.RecordMessage | app/api_views.py:412-429 | the message is stored iff the profile slot is sound; it is put in front, visible, with the content, and nothing else changes |
| Api.SubmitMessageBody | app/api_views.py:389-445 | success iff the body reads, the content is non-empty and the profile slot is sound; then one visible message with the stripped content is put in front; failure changes no record |
| Api.SubmitMessageBodyReplies | app/api_views.py:389-445 | an unreadable body, then empty content, are 400 and change nothing; a corrupt profile slot raises TypeError |
| Api.ApiSubmitMessage | app/api_views.py:380-451 | POST/OPTIONS only; no exception escapes; success iff the body reads, the content is non-empty and the profile slot is sound; failure changes no record |
| Api.ApiMessageRefusals | app/api_views.py:389-406 | an unreadable body and empty content answer 400 with nothing changed |
| Api.ApiMessageCorruptSlot | app/api_views.py:407-451 | a corrupt profile slot makes the handler answer 500 |
| Api.ApiMessageStored | app/api_views.py:423-445 | an accepted message is put in front of the board, visible, with the stripped content, and nothing else in the database changes |
| Api.MessageKeepsBoardOrder | app/api_views.py:423-429 | storing a message keeps the board newest first when the clock has not gone back |
| Admin.MakeHidden | app/admin.py:118-120 | the selected articles become hidden; every other article is unchanged |
| Admin.MakeVisible | app/admin.py:122-124 | the selected articles become visible; every other article is unchanged |
| Admin.LastActionWins | app/admin.py:118-124 | of two bulk actions on one selection, the later wins |
| Admin.ShowUndoesHide | app/admin.py:118-124 | showing what was just hidden restores a selection that was visible |
| Admin.HiddenLeaveLiveList | app/admin.py:118-120 | after hiding, the public list holds exactly the unselected articles it held before |
| Admin.BulkKeepsWellFormed | app/admin.py:118-124 | bulk actions keep keys, order and stored shape |
| Admin.TitleValue | app/admin.py:210 | the submitted title when it is non-empty, else 未命名文章; never empty |
| Admin.ContentValue | app/admin.py:211 | the submitted body, or "" |
| Admin.CoverValue | app/admin.py:139-140 | an uploaded file is stored under today's upload path; otherwise the previous cover stays |
| Admin.ResolveTagsExactly | app/admin.py:229-237 | the tags saved are exactly the existing tags that some submitted integer id names; bad ids are skipped |
| Admin.ResponseAdd | app/admin.py:181-191 | `_addanother` first, then `_continue`, then `_publish`, otherwise the change list |
| Admin.ResponseChange | app/admin.py:193-203 | `_addanother` first, then `_publish`, then `_continue`, otherwise the change list |
| Admin.ResponsesDiffer | app/admin.py:181-203 | the two precedence tables disagree exactly when `_continue` and `_publish` are both sent without `_addanother` |
| Admin.AddTarget | app/admin.py:240-251 | the add view's own precedence: `_publish`, then `_continue`, then `_addanother`; a plain save goes to the published list |
| Admin.AddViewOverridesResponseAdd | app/admin.py:181-251 | the add view agrees with `response_add` only when exactly one button decides both |
| Admin.AddView | app/admin.py:205-257 | a POST puts one new row in front, with the submitted fields, visible unless hidden and not published, and stored; a refused write queues the error and changes nothing; a GET changes nothing |
| Admin.AddViewKeepsWellFormed | app/admin.py:205-257 | with a fresh key and a clock not behind the newest article, the database stays well formed |
| Admin.EditedArticle | app/admin.py:266-285 | a field changes only when submitted; visible unless the box is ticked and not published; keeps id, date and tags |
| Admin.ChangeformView | app/admin.py:259-323 | a non-integer id queues an error; an unknown one redirects with 文章不存在; a saved edit replaces only that row and redirects by the edit precedence |
| Admin.EditRules | app/admin.py:266-300 | absent fields keep their values; tags are exactly the submitted existing ones; the `allow_comment` choice is lost |
| Admin.EditIdempotent | app/admin.py:259-323 | saving the same edit twice is the same as saving it once |
| Admin.ChangeformKeepsWellFormed | app/admin.py:259-323 | an edit keeps the database well formed |
| Admin.SaveModel | app/admin.py:126-179 | submitted fields overwrite; publishing forces visibility; tags are reset from the submitted ids; the flash follows the button; a refused write stores nothing |
| Admin.SaveModelMatchesChangeform | app/admin.py:126-179 | on a stored article, `save_model` writes the same row as the overridden edit view; writing it back keeps ids unique and makes it the row its key finds |
| Admin.ChangeTarget | app/admin.py:303-314 | the edit view redirects by button precedence: publish to the published list, then continue to the same article's form, then add-another to the add form, else the change list |
| Admin.AdminLosesAllowComment | app/admin.py:213-288 | every row the admin writes lacks `allow_comment`, whatever the form said |
| Common.StripIdempotent | app/views.py:130 | stripping twice is stripping once |
| Common.ParseIntOfIntToString | app/views.py:129 | `int(str(i)) == i` for every integer |
| Common.SplitJoin | app/management/commands/generate_static_site.py:235 | joining newline-free lines with "\n" and splitting again gives the lines back |

## Left out

- **Template rendering, Markdown conversion and bleach** are foreign libraries.
  - They are function values (`Rendering.Libraries`).
  - Only the arguments this repository chooses are fixed: template names,
    contexts, extensions and the sanitiser configuration.
- **Files, the clock, the network, randomness and the client key** become
  parameters.
  - File I/O: a directory is a map from relative paths to contents.
  - The clock: `today`, `now` and the cache's seconds.
  - The ip-api.com lookup: the optional `Geo` answer.
  - `random.randint` and `random.choice`: the `Draw`.
  - The md5 client key: an opaque string.
- **Time zones** are left out. Timestamps are calendar fields, and `Stamp`
  orders them lexicographically.
- **Text** is left out: JSON floats, the text of exception messages after
  each handler's prefix, and the console output of the export.
- **The `\w` class** is ASCII only in `Api.IsWordChar`. Python also accepts
  Unicode letters and digits there.
- **Storage name de-duplication** is not modelled.
  - Django's storage may rename an upload that collides with an existing
    file.
  - `Admin.CoverValue` and `Api.PutCover` return the requested path.
- **Cover images**: `Models.SaveArticle` does not model PIL's watermarking.
  It takes the watermark as an optional function of the file's contents.
- **Image drawing**: the avatar images `_ensure_avatars_pool` draws with PIL
  are modelled as their file names only.
- **Directory listing order**: the pool's `sorted()` listing is not modelled.
  The drawn icon is any pool icon.
- **Model imports**: `app/views.py:7`, the API and the exporter
  (`app/management/commands/generate_static_site.py:25`) import `Comment`
  and `BoardMessage`, which `app/models.py` no longer defines. As written,
  each of those imports fails, and the exporter stops before it wipes the
  output directory. The exporter also reads `article.comments` (line 133),
  a relation that no model declares. The model of the exporter, like that of
  the handlers, assumes the comment and message shape the code uses.
- **Routing**: `app/urls.py` routes only the index, list, detail and about
  pages and the three read APIs. The handlers are modelled whether or not a
  route reaches them.
- **Paths in tag names**: `StaticSite.ValidDatabase` requires tag names
  without `_page_` or `/`.
  - The exporter does not check this.
  - With such a name, two pages can share a file, or a page can land in a
    sub-directory.
- **The list API's POST branch** (`app/api_views.py:79-126`) is not
  modelled. The method decorator admits only GET and OPTIONS, so it cannot
  be reached.
- **The detail API's PUT and DELETE branches** are unreachable for the same
  reason (`Api.DetailWritesUnreachable`).
  - The PUT update is modelled for what it would do.
  - DELETE's cascade to comments and tag links is not modelled.
- **PUT failures are treated as one transaction.**
  - `Api.PutArticle` treats a tag name over 32 characters, or a saved
    title over 200 characters (`app/models.py:30`), as failing with
    DataError before any change.
  - `app/api_views.py` would have cleared and re-added the tags first.
  - Those column widths are enforced only by some databases. The model
    treats both as enforced.
- **Database write failures** in the admin are the `saved` parameter.
- **Django's own admin form views** (`super().add_view`,
  `super().changeform_view`) are `Admin.DefaultView`.
  - That includes the form that `fieldsets` naming `allow_comment`
    (`app/admin.py:103`) would make Django refuse to build.
  - `save_model` is reached only through those views.
- **Other admin and view code is not modelled**:
  - the admin's `TagAdmin`, `cover_thumb`, the article form's `clean` and
    the custom admin index;
  - the view `admin_responsive_test`;
  - the API handlers `api_about_info` and `api_board_messages`;
  - `static/admin/custom.js`, which is browser code.

  None of them changes a record.
- **The live comment reply**: the reply to an accepted comment carries the
  stored comment, so that contracts can name it. The live handler answers
  only `{"ok": true}`.
- **Contracts deliberately narrower than the code they model:**

- Common.ParseInt: accepts only ASCII digits. Python's `int()` also accepts
  single underscores between digits (`int("1_0") == 10`) and decimal digits
  of other scripts (`int("１２") == 12`). The model rejects those, so a page
  number, article id or tag id written that way is a conversion failure
  here (`app/views.py:33`, `app/views.py:129`, `app/api_views.py:43`,
  `app/api_views.py:316`, `app/admin.py:161-166`, `app/admin.py:229-237`).
- Admin.CoverValue: stores the uploaded file name as given. Django's storage
  first passes it through `get_valid_name`: spaces become `_`, characters
  outside `[-\w.]` are dropped, and a name that ends up empty, `.` or `..`
  raises SuspiciousFileOperation. The model covers names that are already
  valid. The API's `cover_{id}.{ext}` names always are.
- Api.PutArticle: answers with the stored text of the content. The handler
  echoes the in-memory value, which for a non-string JSON `content_md` is
  that value itself rather than its `str()`.
