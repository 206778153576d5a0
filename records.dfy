/** The JSON records the site stores and exchanges: projects (server/data and
    assets/projects.json), news articles (data/news.json) and gallery items.
    A field that is absent from the JSON object, or JSON null, is `None`. */
module Records {
  import opened Wrappers

  /** A text given in the site's three languages. */
  datatype LocalText = LocalText(en: string, si: string, ta: string)

  /** A headline figure shown on a project card. */
  datatype Stat = Stat(number: string, statLabel: LocalText)

  datatype Project = Project(
    id: Option<string>,
    title: Option<LocalText>,
    summary: Option<LocalText>,
    category: Option<string>,
    status: Option<string>,
    featured: Option<bool>,
    priority: Option<int>,
    mainImage: Option<string>,
    image: Option<string>,
    galleryImages: Option<seq<string>>,
    tags: Option<seq<string>>,
    published: Option<bool>,
    stat1: Option<Stat>,
    stat2: Option<Stat>,
    longDescription: Option<LocalText>)

  /** A news article as the news server writes it. */
  datatype Article = Article(
    id: string,
    title: string,
    category: string,
    author: string,
    excerpt: string,
    content: string,
    image: Option<string>,
    images: Option<seq<string>>,
    date: string)

  /** One picture of the photo gallery, tied to the project it came from. */
  datatype GalleryItem = GalleryItem(url: string, category: string, tags: seq<string>, projectId: Option<string>)

  /** Truthiness of an optional string, the same in JavaScript and Python:
      absent, null and "" are false. */
  predicate IsTruthy(s: Option<string>) {
    s.Some? && s.value != ""
  }

  /** Python `str(p.get('id'))`: a missing id reads as the text "None". */
  function IdText(p: Project): string {
    if p.id.Some? then p.id.value else "None"
  }

  /** `find` by id: the first article whose id is `id`, when one is. */
  function FindArticle(news: seq<Article>, id: string): (r: Option<nat>)
    ensures r.Some? ==> r.value < |news| && news[r.value].id == id
                        && forall k :: 0 <= k < r.value ==> news[k].id != id
    ensures r.None? ==> forall k :: 0 <= k < |news| ==> news[k].id != id
  {
    if news == [] then None
    else if news[0].id == id then Some(0)
    else
      var rest := FindArticle(news[1..], id);
      if rest.Some? then Some(rest.value + 1) else None
  }
}
