/** The news admin server (server/news_app.py): the article list of
    data/news.json behind the routes that read, create, update and delete
    articles, and the saving of uploaded pictures under uploads/news. */
module NewsAdmin {
  import opened Wrappers
  import opened Strings
  import opened Records
  import opened Seqs
  import opened Uploads

  /** An uploaded file: the name the browser sent, and the hex text of
      the `uuid4()` the server draws when it saves the file. */
  datatype FileUpload = FileUpload(filename: string, hex: string)

  const NewsUploadUrl := "/uploads/news/"
  const DefaultAuthor := "SCCF Team"

  /** `save_uploaded_file(file)`: a file with an allowed name is stored as
      `<hex>_<secured name>` and its URL returned; any other gives `None`.
      `secure` is werkzeug's `secure_filename`. */
  function SaveUploadedFile(file: FileUpload, secure: string -> string): (r: Option<string>)
    ensures r.Some? <==> AllowedFile(file.filename)
    ensures r.Some? ==> StartsWith(r.value, NewsUploadUrl)
                        && r.value[|NewsUploadUrl|..] == file.hex + "_" + secure(file.filename)
  {
    if file.filename != "" && AllowedFile(file.filename) then
      Some(NewsUploadUrl + file.hex + "_" + secure(file.filename))
    else None
  }

  /** The URLs the additional-images loop collects: one per file with a
      name that `save_uploaded_file` accepts, in upload order. */
  function SavedPaths(files: seq<FileUpload>, secure: string -> string): (r: seq<string>)
    ensures |r| <= |files|
  {
    if files == [] then []
    else
      var last := files[|files| - 1];
      var saved := if last.filename != "" then SaveUploadedFile(last, secure) else None;
      SavedPaths(files[..|files| - 1], secure) + (if saved.Some? then [saved.value] else [])
  }

  /** A file saved by the news server. */
  function SavedByName(): FileUpload -> bool {
    (f: FileUpload) => AllowedFile(f.filename)
  }

  /** Exactly the files with allowed names are saved, one URL each, and
      every URL points into the news upload folder. */
  lemma {:induction false} SavedPathsCount(files: seq<FileUpload>, secure: string -> string)
    ensures |SavedPaths(files, secure)| == Count(files, SavedByName())
    ensures forall k :: 0 <= k < |SavedPaths(files, secure)| ==> StartsWith(SavedPaths(files, secure)[k], NewsUploadUrl)
    decreases |files|
  {
    if files != [] {
      var init := files[..|files| - 1];
      SavedPathsCount(init, secure);
      var r := SavedPaths(files, secure);
      var ri := SavedPaths(init, secure);
      assert r[..|ri|] == ri;
      forall k | 0 <= k < |r| ensures StartsWith(r[k], NewsUploadUrl) {
        if k < |ri| {
          assert r[k] == ri[k];
        }
      }
    }
  }

  /** Files saved in two batches give the URLs of the two batches, in order. */
  lemma {:induction false} SavedPathsConcat(a: seq<FileUpload>, b: seq<FileUpload>, secure: string -> string)
    ensures SavedPaths(a + b, secure) == SavedPaths(a, secure) + SavedPaths(b, secure)
    decreases |b|
  {
    if b == [] {
      assert a + b == a;
    } else {
      var init := b[..|b| - 1];
      assert (a + b)[..|a + b| - 1] == a + init;
      assert (a + b)[|a + b| - 1] == b[|b| - 1];
      SavedPathsConcat(a, init, secure);
    }
  }

  /** The `for file in files` loop over `request.files.getlist('additional-images')`. */
  method SaveAdditionalImages(files: seq<FileUpload>, secure: string -> string) returns (paths: seq<string>)
    ensures paths == SavedPaths(files, secure)
  {
    paths := [];
    var i := 0;
    while i < |files|
      invariant 0 <= i <= |files|
      invariant paths == SavedPaths(files[..i], secure)
    {
      var file := files[i];
      if file.filename != "" {
        var imgPath := SaveUploadedFile(file, secure);
        if imgPath.Some? {
          paths := paths + [imgPath.value];
        }
      }
      assert files[..i + 1][..i] == files[..i];
      i := i + 1;
    }
    assert files[..i] == files;
  }

  /** The text fields of the article form. */
  datatype NewsField = TitleField | CategoryField | AuthorField | ExcerptField | ContentField

  /** `request.form`: the fields the request carries. */
  type NewsForm = map<NewsField, string>

  /** `request.form.get(key, default)`. */
  function Get(form: NewsForm, key: NewsField, default: string): string {
    if key in form then form[key] else default
  }

  /** The text field of an article that a form field names. */
  function TextOf(a: Article, key: NewsField): string {
    match key
    case TitleField => a.title
    case CategoryField => a.category
    case AuthorField => a.author
    case ExcerptField => a.excerpt
    case ContentField => a.content
  }

  /** `create_news` refuses a request whose title, content or category is
      missing or empty. */
  predicate HasRequired(form: NewsForm) {
    Get(form, TitleField, "") != "" && Get(form, ContentField, "") != "" && Get(form, CategoryField, "") != ""
  }

  /** The `image` upload: saved when the request carries one with a name. */
  function ImagePath(image: Option<FileUpload>, secure: string -> string): (r: Option<string>)
    ensures r.Some? <==> image.Some? && AllowedFile(image.value.filename)
  {
    if image.Some? && image.value.filename != "" then SaveUploadedFile(image.value, secure) else None
  }

  /** The additional images: none when the request has no such field. */
  function AdditionalPaths(additional: Option<seq<FileUpload>>, secure: string -> string): seq<string> {
    if additional.Some? then SavedPaths(additional.value, secure) else []
  }

  /** The article `create_news` builds: the form's texts (author defaults
      to the team's name, excerpt to ""), the saved pictures, the new id
      and the creation time. */
  function NewArticle(form: NewsForm, image: Option<FileUpload>, additional: Option<seq<FileUpload>>,
                      newsId: string, date: string, secure: string -> string): (a: Article)
    ensures forall key :: key in form ==> TextOf(a, key) == form[key]
    ensures AuthorField !in form ==> a.author == DefaultAuthor
    ensures a.id == newsId && a.date == date && a.images.Some?
    ensures a.image.Some? <==> image.Some? && AllowedFile(image.value.filename)
  {
    Article(newsId, Get(form, TitleField, ""), Get(form, CategoryField, ""), Get(form, AuthorField, DefaultAuthor),
            Get(form, ExcerptField, ""), Get(form, ContentField, ""),
            ImagePath(image, secure), Some(AdditionalPaths(additional, secure)), date)
  }

  /** The article `update_news` leaves: each text field the form carries
      replaces the old one, a saved image replaces the old image, and new
      additional images are appended to the old ones. */
  function UpdatedArticle(a: Article, form: NewsForm, savedImage: Option<string>, newImages: Option<seq<string>>): (r: Article)
    ensures r.id == a.id && r.date == a.date
    ensures forall key :: TextOf(r, key) == if key in form then form[key] else TextOf(a, key)
    ensures savedImage.Some? ==> r.image == savedImage
    ensures savedImage.None? ==> r.image == a.image
    ensures newImages.None? ==> r.images == a.images
    ensures newImages.Some? ==> r.images.Some? && r.images.value == a.images.GetOr([]) + newImages.value
  {
    var texts := a.(title := Get(form, TitleField, a.title),
                    category := Get(form, CategoryField, a.category),
                    author := Get(form, AuthorField, a.author),
                    excerpt := Get(form, ExcerptField, a.excerpt),
                    content := Get(form, ContentField, a.content));
    var withImage := if savedImage.Some? then texts.(image := savedImage) else texts;
    if newImages.Some? then withImage.(images := Some(a.images.GetOr([]) + newImages.value)) else withImage
  }

  /** An update that carries nothing leaves the article as it was. */
  lemma EmptyUpdateKeeps(a: Article)
    ensures UpdatedArticle(a, map[], None, None) == a
  {
    forall key: NewsField ensures TextOf(UpdatedArticle(a, map[], None, None), key) == TextOf(a, key) {
    }
  }

  /** Sending the same texts twice is sending them once; pictures are
      only ever added in front of what was there. */
  lemma UpdateTextsIdempotent(a: Article, form: NewsForm, savedImage: Option<string>, newImages: Option<seq<string>>)
    ensures var once := UpdatedArticle(a, form, None, None);
            UpdatedArticle(once, form, None, None) == once
    ensures a.images.Some? ==> var r := UpdatedArticle(a, form, savedImage, newImages);
                               r.images.Some? && a.images.value <= r.images.value
  {
    var once := UpdatedArticle(a, form, None, None);
    var twice := UpdatedArticle(once, form, None, None);
    assert TextOf(twice, TitleField) == TextOf(once, TitleField);
    assert TextOf(twice, CategoryField) == TextOf(once, CategoryField);
    assert TextOf(twice, AuthorField) == TextOf(once, AuthorField);
    assert TextOf(twice, ExcerptField) == TextOf(once, ExcerptField);
    assert TextOf(twice, ContentField) == TextOf(once, ContentField);
  }

  /** The test of the filter in `delete_news`. */
  function OtherThan(newsId: string): Article -> bool {
    (a: Article) => a.id != newsId
  }

  /** `[n for n in news if n['id'] != news_id]`. */
  function Removed(news: seq<Article>, newsId: string): seq<Article> {
    Filter(news, OtherThan(newsId))
  }

  /** Deleting keeps exactly the articles with another id, and an id that
      is present makes the list shorter. */
  lemma RemovedIff(news: seq<Article>, newsId: string)
    ensures forall a :: a in Removed(news, newsId) <==> a in news && a.id != newsId
    ensures FindArticle(news, newsId).Some? ==> |Removed(news, newsId)| < |news|
  {
    FilterMembers(news, OtherThan(newsId));
    var idx := FindArticle(news, newsId);
    if idx.Some? {
      FilterDrops(news, OtherThan(newsId), idx.value);
    }
  }

  /** `lstrip('/')`: the path without its leading slashes. */
  function StripSlashes(s: string): (r: string)
    ensures |r| <= |s| && r == s[|s| - |r|..]
    ensures r == [] || r[0] != '/'
    ensures forall k :: 0 <= k < |s| - |r| ==> s[k] == '/'
  {
    if s != [] && s[0] == '/' then StripSlashes(s[1..]) else s
  }

  /** The picture files `delete_news` tries to remove. */
  function ImageFiles(a: Article): (r: seq<string>)
    ensures forall k :: 0 <= k < |r| ==> r[k] == [] || r[k][0] != '/'
  {
    var images := a.images.GetOr([]);
    (if IsTruthy(a.image) then [StripSlashes(a.image.value)] else [])
    + seq(|images|, k requires 0 <= k < |images| => StripSlashes(images[k]))
  }

  /** The news server's data: `news` is data/news.json. */
  class NewsStore {
    var news: seq<Article>

    constructor(news: seq<Article>)
      ensures this.news == news
    {
      this.news := news;
    }

    /** `next((n for n in news if n['id'] == news_id), None)`. */
    method Find(newsId: string) returns (idx: Option<nat>)
      ensures idx == FindArticle(news, newsId)
    {
      var i := 0;
      while i < |news|
        invariant 0 <= i <= |news|
        invariant forall k :: 0 <= k < i ==> news[k].id != newsId
      {
        if news[i].id == newsId {
          FirstMatch(news, newsId, i);
          return Some(i);
        }
        i := i + 1;
      }
      return None;
    }

    /** `get_news_by_id`: the first article with the id, else 404. */
    method GetById(newsId: string) returns (status: int, article: Option<Article>)
      ensures FindArticle(news, newsId).Some? ==>
                status == 200 && article == Some(news[FindArticle(news, newsId).value])
      ensures FindArticle(news, newsId).None? ==> status == 404 && article.None?
    {
      var idx := Find(newsId);
      if idx.None? {
        return 404, None;
      }
      return 200, Some(news[idx.value]);
    }

    /** `create_news`: 400 without a title, content or category; otherwise
        the pictures are saved, the new article goes at the end of the
        list and its id is returned with 201. */
    method Create(form: NewsForm, image: Option<FileUpload>, additional: Option<seq<FileUpload>>,
                  newsId: string, date: string, secure: string -> string) returns (status: int, id: Option<string>)
      modifies this
      ensures status == 400 <==> !HasRequired(form)
      ensures status == 400 ==> news == old(news) && id.None?
      ensures status != 400 ==>
                && status == 201 && id == Some(newsId)
                && news == old(news) + [NewArticle(form, image, additional, newsId, date, secure)]
    {
      var title := Get(form, TitleField, "");
      var category := Get(form, CategoryField, "");
      var author := Get(form, AuthorField, DefaultAuthor);
      var excerpt := Get(form, ExcerptField, "");
      var content := Get(form, ContentField, "");
      if title == "" || content == "" || category == "" {
        return 400, None;
      }
      var imagePath: Option<string> := None;
      if image.Some? {
        if image.value.filename != "" {
          imagePath := SaveUploadedFile(image.value, secure);
        }
      }
      var additionalImages: seq<string> := [];
      if additional.Some? {
        additionalImages := SaveAdditionalImages(additional.value, secure);
      }
      var article := Article(newsId, title, category, author, excerpt, content, imagePath, Some(additionalImages), date);
      news := news + [article];
      return 201, Some(newsId);
    }

    /** `update_news`: 404 for an unknown id; otherwise the first article
        with the id gets the form's texts, a successfully saved image and
        the new additional images, and nothing else changes. */
    method Update(newsId: string, form: NewsForm, image: Option<FileUpload>, additional: Option<seq<FileUpload>>,
                  secure: string -> string) returns (status: int)
      modifies this
      ensures var idx := FindArticle(old(news), newsId);
              && (status == 404 <==> idx.None?)
              && (idx.None? ==> news == old(news))
              && (idx.Some? ==>
                    && status == 200
                    && news == old(news)[idx.value := UpdatedArticle(old(news)[idx.value], form, ImagePath(image, secure),
                                                                     if additional.Some? then Some(SavedPaths(additional.value, secure)) else None)])
    {
      var idx := Find(newsId);
      if idx.None? {
        return 404;
      }
      var i := idx.value;
      var article := news[i];
      var savedImage: Option<string> := None;
      if image.Some? {
        if image.value.filename != "" {
          savedImage := SaveUploadedFile(image.value, secure);
        }
      }
      var newImages: Option<seq<string>> := None;
      if additional.Some? {
        var paths := SaveAdditionalImages(additional.value, secure);
        newImages := Some(paths);
      }
      news := news[i := UpdatedArticle(article, form, savedImage, newImages)];
      return 200;
    }

    /** `delete_news`: 404 for an unknown id; otherwise every article with
        the id goes, the others keep their order, and the picture files of
        the first match are the ones to remove. */
    method Delete(newsId: string) returns (status: int, files: seq<string>)
      modifies this
      ensures var idx := FindArticle(old(news), newsId);
              && (status == 404 <==> idx.None?)
              && (idx.None? ==> news == old(news) && files == [])
              && (idx.Some? ==>
                    && status == 200
                    && news == Removed(old(news), newsId)
                    && files == ImageFiles(old(news)[idx.value]))
    {
      var idx := Find(newsId);
      if idx.None? {
        return 404, [];
      }
      var article := news[idx.value];
      news := Removed(news, newsId);
      files := ImageFiles(article);
      status := 200;
    }
  }

  /** The loop's first hit is the article `FindArticle` finds. */
  lemma {:induction false} FirstMatch(news: seq<Article>, newsId: string, i: nat)
    requires i < |news| && news[i].id == newsId
    requires forall k :: 0 <= k < i ==> news[k].id != newsId
    ensures FindArticle(news, newsId) == Some(i)
    decreases i
  {
    if i > 0 {
      FirstMatch(news[1..], newsId, i - 1);
    }
  }
}
