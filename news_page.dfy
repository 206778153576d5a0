/** The news hub page (assets/news.js): the category filter, the "load more"
    pagination, the featured article, the detail lookup, `truncateText` and
    the newsletter's e-mail check. The page keeps the loaded articles, the
    page number and the category as module state; here they are the fields
    of a `NewsHub` object. */
module NewsPage {
  import opened Wrappers
  import opened Strings
  import opened Records
  import opened Seqs
  import Forms

  const NewsPerPage := 9

  /** `news.category.toLowerCase() === currentCategory.toLowerCase()`. */
  predicate InCategory(a: Article, category: string) {
    Lower(a.category) == Lower(category)
  }

  /** The test the filter applies for `category`. */
  function CategoryTest(category: string): Article -> bool {
    a => InCategory(a, category)
  }

  /** The articles of one category, compared without case, in list order. */
  function OfCategory(news: seq<Article>, category: string): (r: seq<Article>)
    ensures |r| <= |news|
    ensures forall a :: a in r <==> a in news && InCategory(a, category)
  {
    FilterMembers(news, CategoryTest(category));
    Filter(news, CategoryTest(category))
  }

  /** The grid's list before pagination: every article but the first (the
      featured one) for "all", else the articles of the category. */
  function Filtered(allNews: seq<Article>, category: string): seq<Article> {
    if category == "all" then (if allNews == [] then [] else allNews[1..])
    else OfCategory(allNews, category)
  }

  /** The featured article is left out of "all" but heads the list of its
      own category. */
  lemma FeaturedPlacement(allNews: seq<Article>, category: string)
    requires allNews != [] && category != "all" && InCategory(allNews[0], category)
    ensures Filtered(allNews, category) != [] && Filtered(allNews, category)[0] == allNews[0]
    ensures |Filtered(allNews, "all")| == |allNews| - 1
  {
    assert allNews == [allNews[0]] + allNews[1..];
    FilterConcat([allNews[0]], allNews[1..], CategoryTest(category));
    assert [allNews[0]][..0] == [];
  }

  /** What the grid shows. */
  datatype Grid = EmptyState | Cards(shown: seq<Article>, loadMoreVisible: bool)

  function Min(a: int, b: int): int {
    if a <= b then a else b
  }

  /** `displayNews()`: the first `page * 9` filtered articles; the empty
      state when there are none; the "load more" button is visible exactly
      while filtered articles remain unshown. */
  function Display(allNews: seq<Article>, category: string, page: int): (g: Grid)
    requires page >= 1
    ensures g.EmptyState? <==> Filtered(allNews, category) == []
    ensures g.Cards? ==>
              var f := Filtered(allNews, category);
              && |g.shown| <= |f| && g.shown == f[..|g.shown|]
              && |g.shown| == Min(page * NewsPerPage, |f|)
              && (g.loadMoreVisible <==> |g.shown| < |f|)
  {
    var filtered := Filtered(allNews, category);
    var endIndex := page * NewsPerPage;
    var toDisplay := if endIndex <= |filtered| then filtered[..endIndex] else filtered;
    if |toDisplay| == 0 then EmptyState
    else Cards(toDisplay, !(endIndex >= |filtered|))
  }

  /** Loading more keeps the shown articles in place and appends the next
      nine, or all those left when fewer remain. */
  lemma LoadMoreExtends(allNews: seq<Article>, category: string, page: int)
    requires page >= 1
    requires Display(allNews, category, page).Cards?
    requires Display(allNews, category, page).loadMoreVisible
    ensures var before := Display(allNews, category, page).shown;
            var after := Display(allNews, category, page + 1).shown;
            var f := Filtered(allNews, category);
            && after[..|before|] == before
            && |after| - |before| == Min(NewsPerPage, |f| - |before|)
  {
  }

  /** `text.substr(0, maxLength)` for text longer than `maxLength`; a
      negative length gives the empty string. */
  function Prefix(text: string, maxLength: int): string
    requires |text| > maxLength
  {
    if maxLength <= 0 then "" else text[..maxLength]
  }

  /** `truncateText(text, maxLength)`: text that fits is kept; longer text
      becomes its first `maxLength` characters, trimmed, then "...". */
  function TruncateText(text: string, maxLength: int): (r: string)
    ensures |text| <= maxLength ==> r == text
    ensures maxLength >= 0 ==> |r| <= maxLength + 3
    ensures |text| > maxLength ==> |r| >= 3 && r[|r| - 3..] == "..."
  {
    if |text| <= maxLength then text
    else
      KeptLength(text, maxLength);
      Trim(Prefix(text, maxLength), JavaScript) + "..."
  }

  /** No whitespace at either end. */
  predicate Trimmed(s: string) {
    s == [] || (!IsSpace(s[0], JavaScript) && !IsSpace(s[|s| - 1], JavaScript))
  }

  /** The part of a truncated text before "...": text from within its first
      `maxLength` characters, with no whitespace left at either end. It is
      exactly the trim of `text.substr(0, maxLength)`: the slice `lo..hi`
      of `text`, where everything before `lo` and everything from `hi` up to
      the cut is whitespace. */
  lemma TruncateTextKeeps(text: string, maxLength: int) returns (lo: nat, hi: nat)
    requires |text| > maxLength
    ensures var r := TruncateText(text, maxLength);
            var kept := r[..|r| - 3];
            && Trimmed(kept)
            && (kept == "" || exists i, j :: 0 <= i <= j <= |text| && j <= maxLength && kept == text[i..j])
    ensures lo <= hi <= |Prefix(text, maxLength)| <= |text|
    ensures TruncateText(text, maxLength) == text[lo..hi] + "..."
    ensures forall k :: 0 <= k < lo ==> IsSpace(text[k], JavaScript)
    ensures forall k :: hi <= k < |Prefix(text, maxLength)| ==> IsSpace(text[k], JavaScript)
    ensures lo < hi ==> !IsSpace(text[lo], JavaScript) && !IsSpace(text[hi - 1], JavaScript)
  {
    var prefix := Prefix(text, maxLength);
    var kept := Trim(prefix, JavaScript);
    var i, j := TrimmedSlice(prefix);
    lo, hi := TrimIsSlice(prefix, JavaScript);
    var r := TruncateText(text, maxLength);
    assert r[..|r| - 3] == kept;
    assert prefix == text[..|prefix|];
    assert forall k :: 0 <= k < |prefix| ==> prefix[k] == text[k];
    assert kept == text[lo..hi] by {
      assert prefix[lo..hi] == text[lo..hi];
    }
    if maxLength > 0 {
      assert kept == text[i..j] by {
        assert prefix[i..j] == text[i..j];
      }
    }
  }

  /** A trimmed text is a slice of it with no whitespace at either end. */
  lemma TrimmedSlice(s: string) returns (i: nat, j: nat)
    ensures i <= j <= |s| && Trim(s, JavaScript) == s[i..j]
    ensures Trimmed(Trim(s, JavaScript))
  {
    i, j := TrimIsSlice(s, JavaScript);
    var kept := Trim(s, JavaScript);
    if i < j {
      assert kept[0] == s[i] && kept[|kept| - 1] == s[j - 1];
    }
  }

  /** A trimmed prefix has at most `maxLength` characters. */
  lemma KeptLength(text: string, maxLength: int)
    requires |text| > maxLength
    ensures maxLength >= 0 ==> |Trim(Prefix(text, maxLength), JavaScript)| <= maxLength
  {
    var i, j := TrimIsSlice(Prefix(text, maxLength), JavaScript);
  }

  /** The newsletter form: a non-empty address that passes `validateEmail`
      is accepted and the field cleared, anything else is refused. */
  datatype Subscription = Subscribed(email: string) | Refused

  function SubmitNewsletter(email: string): (r: Subscription)
    ensures r.Subscribed? <==> Forms.MatchesEmailPattern(email)
    ensures r.Subscribed? ==> r.email == email
  {
    Forms.IsValidEmailIff(email);
    if email != "" && Forms.IsValidEmail(email) then Subscribed(email) else Refused
  }

  /** The page state: the loaded articles (newest first), the page number
      and the selected category. */
  class NewsHub {
    var allNews: seq<Article>
    var currentPage: int
    var currentCategory: string

    ghost predicate Valid()
      reads this
    {
      currentPage >= 1
    }

    constructor()
      ensures Valid()
      ensures allNews == [] && currentPage == 1 && currentCategory == "all"
    {
      allNews := [];
      currentPage := 1;
      currentCategory := "all";
    }

    /** `loadNews()` once the fetch returned `news`, already put newest first. */
    method Load(news: seq<Article>)
      requires Valid()
      modifies this
      ensures Valid()
      ensures allNews == news
      ensures currentPage == old(currentPage) && currentCategory == old(currentCategory)
    {
      allNews := news;
    }

    /** A filter button: the category is selected and the grid returns to
        its first page. */
    method SelectCategory(category: string)
      modifies this
      ensures Valid()
      ensures currentCategory == category && currentPage == 1 && allNews == old(allNews)
    {
      currentCategory := category;
      currentPage := 1;
    }

    /** The "load more" button: one more page. */
    method LoadMore()
      requires Valid()
      modifies this
      ensures Valid()
      ensures currentPage == old(currentPage) + 1
      ensures currentCategory == old(currentCategory) && allNews == old(allNews)
    {
      currentPage := currentPage + 1;
    }

    /** The grid for the current state. */
    function View(): Grid
      requires Valid()
      reads this
    {
      Display(allNews, currentCategory, currentPage)
    }

    /** `displayFeaturedNews()`: the most recent article, when there is one. */
    function Featured(): (r: Option<Article>)
      reads this
      ensures r.Some? <==> allNews != []
      ensures r.Some? ==> r.value == allNews[0]
    {
      if allNews == [] then None else Some(allNews[0])
    }

    /** `openNewsDetail(newsId)`: the first article with that id; nothing
        opens when there is none. */
    function Detail(newsId: string): (r: Option<Article>)
      reads this
      ensures r.Some? ==> r.value in allNews && r.value.id == newsId
      ensures r.Some? ==> exists k :: 0 <= k < |allNews| && r.value == allNews[k]
                                      && forall j :: 0 <= j < k ==> allNews[j].id != newsId
      ensures r.None? <==> forall k :: 0 <= k < |allNews| ==> allNews[k].id != newsId
    {
      var k := FindArticle(allNews, newsId);
      if k.Some? then Some(allNews[k.value]) else None
    }
  }

  /** After choosing a category the grid shows at most one page. */
  lemma SelectShowsOnePage(allNews: seq<Article>, category: string)
    ensures Display(allNews, category, 1).Cards? ==> |Display(allNews, category, 1).shown| <= NewsPerPage
  {
  }
}
