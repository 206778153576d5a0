/** Text and media-URL helpers of the site script (assets/main.js): HTML
    escaping, media URL resolution, the placeholder picker, the gallery text
    truncation, the adaptive title sizes, and the derivation of gallery items
    from project records. */
module Media {
  import opened Wrappers
  import opened Strings
  import opened Records

  // ---------------------------------------------------------------------
  // HTML escaping
  // ---------------------------------------------------------------------

  /** The five characters the escaper replaces. */
  predicate IsMarkupChar(c: char) {
    c == '&' || c == '<' || c == '>' || c == '"' || c == '\''
  }

  function EscapeChar(c: char): (r: string)
    ensures !IsMarkupChar(c) ==> r == [c]
  {
    if c == '&' then "&amp;"
    else if c == '<' then "&lt;"
    else if c == '>' then "&gt;"
    else if c == '"' then "&quot;"
    else if c == '\'' then "&#39;"
    else [c]
  }

  /** Replaces each markup character by its entity. The output never holds
      `<`, `>`, `"` or `'`, and is never shorter than the input. */
  function EscapeText(s: string): (r: string)
    ensures |r| >= |s|
    ensures forall k :: 0 <= k < |r| ==> r[k] != '<' && r[k] != '>' && r[k] != '"' && r[k] != '\''
  {
    if s == [] then [] else EscapeChar(s[0]) + EscapeText(s[1..])
  }

  /** `escapeHtml(str)`: `String(str || '')` escaped; a missing value gives "". */
  function EscapeHtml(str: Option<string>): string {
    EscapeText(str.GetOr(""))
  }

  /** Decodes the five entities the escaper produces; any other text,
      including other entities, is kept as it is. */
  function Unescape(s: string): string
    decreases |s|
  {
    if s == [] then []
    else if StartsWith(s, "&amp;") then "&" + Unescape(s[5..])
    else if StartsWith(s, "&lt;") then "<" + Unescape(s[4..])
    else if StartsWith(s, "&gt;") then ">" + Unescape(s[4..])
    else if StartsWith(s, "&quot;") then "\"" + Unescape(s[6..])
    else if StartsWith(s, "&#39;") then "'" + Unescape(s[5..])
    else [s[0]] + Unescape(s[1..])
  }

  /** Decoding an entity the escaper produces, followed by any text, gives
      back its character followed by the decoding of that text. */
  lemma UnescapeEntityPrefix(e: string, c: char, rest: string)
    requires e == EscapeChar(c) && IsMarkupChar(c)
    ensures Unescape(e + rest) == [c] + Unescape(rest)
  {
    var t := e + rest;
    assert t[..|e|] == e && t[|e|..] == rest;
    assert t[0] == '&' && t[1] == e[1];
    if c == '&' {
      assert StartsWith(t, "&amp;");
    } else if c == '<' {
      assert !StartsWith(t, "&amp;");
      assert StartsWith(t, "&lt;");
    } else if c == '>' {
      assert !StartsWith(t, "&amp;") && !StartsWith(t, "&lt;");
      assert StartsWith(t, "&gt;");
    } else if c == '"' {
      assert !StartsWith(t, "&amp;") && !StartsWith(t, "&lt;") && !StartsWith(t, "&gt;");
      assert StartsWith(t, "&quot;");
    } else {
      assert !StartsWith(t, "&amp;") && !StartsWith(t, "&lt;") && !StartsWith(t, "&gt;") && !StartsWith(t, "&quot;");
      assert StartsWith(t, "&#39;");
    }
  }

  /** Decoding an escaped character followed by any text gives back the
      character, followed by the decoding of that text. */
  lemma UnescapeEscapedChar(c: char, rest: string)
    ensures Unescape(EscapeChar(c) + rest) == [c] + Unescape(rest)
  {
    if IsMarkupChar(c) {
      UnescapeEntityPrefix(EscapeChar(c), c, rest);
    } else {
      var t := [c] + rest;
      assert t[1..] == rest;
      UnescapePlain(t);
    }
  }

  /** Text that does not start with `&` decodes its first character as
      itself. */
  lemma UnescapePlain(t: string)
    requires t != [] && t[0] != '&'
    ensures Unescape(t) == [t[0]] + Unescape(t[1..])
  {
    NoEntityAt(t, "&amp;");
    NoEntityAt(t, "&lt;");
    NoEntityAt(t, "&gt;");
    NoEntityAt(t, "&quot;");
    NoEntityAt(t, "&#39;");
  }

  /** A text that does not start with `&` starts with no entity. */
  lemma NoEntityAt(t: string, entity: string)
    requires t != [] && t[0] != '&'
    requires entity != [] && entity[0] == '&'
    ensures !StartsWith(t, entity)
  {
    assert |entity| > |t| || t[..|entity|][0] != entity[0];
  }

  /** Escaping loses nothing: decoding the entities gives back the text. */
  lemma {:induction false} UnescapeEscape(s: string)
    ensures Unescape(EscapeText(s)) == s
  {
    if s != [] {
      UnescapeEscape(s[1..]);
      UnescapeEscapedChar(s[0], EscapeText(s[1..]));
    }
  }

  /** Escaping changes a text exactly when it holds a markup character. */
  lemma {:induction false} EscapeUnchangedIff(s: string)
    ensures EscapeText(s) == s <==> forall k :: 0 <= k < |s| ==> !IsMarkupChar(s[k])
  {
    if s != [] {
      EscapeUnchangedIff(s[1..]);
      var e, rest := EscapeChar(s[0]), EscapeText(s[1..]);
      if IsMarkupChar(s[0]) {
        assert |e| > 1;
        assert |EscapeText(s)| > |s|;
      } else {
        assert EscapeText(s) == [s[0]] + rest;
        if EscapeText(s) == s {
          assert rest == s[1..];
        }
        if forall k :: 0 <= k < |s| ==> !IsMarkupChar(s[k]) {
          assert forall k :: 0 <= k < |s[1..]| ==> !IsMarkupChar(s[1..][k]) by {
            forall k | 0 <= k < |s[1..]| ensures !IsMarkupChar(s[1..][k]) {
              assert s[1..][k] == s[k + 1];
            }
          }
        }
      }
    }
  }

  // ---------------------------------------------------------------------
  // Media URLs
  // ---------------------------------------------------------------------

  /** The admin API origin: the local Flask server when the page is served
      from localhost, otherwise none (same origin). */
  function ApiBase(hostname: string): string {
    if hostname == "localhost" || hostname == "127.0.0.1" then "http://127.0.0.1:5000" else ""
  }

  /** `resolveMedia(url)`: "" for a missing or empty URL; `/uploads/...`
      becomes the local `assets/uploads/...`; another root-relative path is
      prefixed with the API origin when there is one; anything else is kept. */
  function ResolveMedia(url: Option<string>, apiBase: string): string {
    if !IsTruthy(url) then ""
    else if StartsWith(url.value, "/uploads/") then "assets" + url.value
    else if apiBase != "" && StartsWith(url.value, "/") then apiBase + url.value
    else url.value
  }

  /** The four rules of `resolveMedia`, stated apart from its body: uploads
      map to local assets whatever the API origin is, and only other
      root-relative paths depend on it. */
  lemma ResolveMediaRules(u: string, apiBase: string)
    ensures u == "" ==> ResolveMedia(Some(u), apiBase) == ""
    ensures StartsWith(u, "/uploads/") ==> ResolveMedia(Some(u), apiBase) == "assets" + u
                                           && ResolveMedia(Some(u), apiBase) == ResolveMedia(Some(u), "")
    ensures StartsWith(u, "/") && !StartsWith(u, "/uploads/") ==>
              ResolveMedia(Some(u), apiBase) == apiBase + u
    ensures !StartsWith(u, "/") ==> ResolveMedia(Some(u), apiBase) == u
  {
    if StartsWith(u, "/uploads/") {
      assert u[0] == '/';
    }
  }

  /** Resolving an already resolved URL changes nothing, as long as the API
      origin is not itself a root-relative path. */
  lemma ResolveMediaIdempotent(url: Option<string>, apiBase: string)
    requires apiBase == "" || !StartsWith(apiBase, "/")
    ensures ResolveMedia(Some(ResolveMedia(url, apiBase)), apiBase) == ResolveMedia(url, apiBase)
  {
    var r := ResolveMedia(url, apiBase);
    if IsTruthy(url) && StartsWith(url.value, "/uploads/") {
      assert r[0] == 'a';
    } else if IsTruthy(url) && apiBase != "" && StartsWith(url.value, "/") {
      assert r[0] == apiBase[0];
    }
  }

  // ---------------------------------------------------------------------
  // Placeholder images
  // ---------------------------------------------------------------------

  const PlaceholderImages: seq<string> := [
    "assets/images/education/e1.jpg",
    "assets/images/education/e2.jpg",
    "assets/images/education/e3.jpg",
    "assets/images/education/e4.jpg"
  ]

  /** A string as the UTF-16 code units that `charCodeAt` walks: a code point
      above U+FFFF becomes a surrogate pair. */
  function Utf16(s: string): (units: seq<int>)
    ensures forall k :: 0 <= k < |units| ==> 0 <= units[k] < 0x1_0000
    ensures |units| >= |s|
  {
    if s == [] then []
    else
      var n := s[0] as int;
      var head := if n < 0x1_0000 then [n]
                  else [0xD800 + (n - 0x1_0000) / 0x400, 0xDC00 + (n - 0x1_0000) % 0x400];
      head + Utf16(s[1..])
  }

  /** h := (h * 31 + unit) >>> 0 over the units, i.e. modulo 2^32. */
  function Hash(units: seq<int>): (h: nat)
    ensures h < 0x1_0000_0000
  {
    if units == [] then 0
    else (Hash(units[..|units| - 1]) * 31 + units[|units| - 1]) % 0x1_0000_0000
  }

  /** `pickPlaceholder(seed)`: one of the four placeholder images, chosen by
      the 31-multiplier hash of the seed. */
  method PickPlaceholder(seed: string) returns (path: string)
    ensures path == PlaceholderImages[Hash(Utf16(seed)) % |PlaceholderImages|]
    ensures path in PlaceholderImages
  {
    var units := Utf16(seed);
    var h: nat := 0;
    var i := 0;
    while i < |units|
      invariant 0 <= i <= |units|
      invariant h == Hash(units[..i])
    {
      // h < 2^32 and a unit < 2^16, so h * 31 + unit < 2^53: the JavaScript
      // double holds it exactly and `>>> 0` is an exact reduction mod 2^32.
      assert h * 31 + units[i] < 0x20_0000_0000_0000;
      assert units[..i + 1][..i] == units[..i];
      h := (h * 31 + units[i]) % 0x1_0000_0000;
      i := i + 1;
    }
    assert units[..i] == units;
    path := PlaceholderImages[h % |PlaceholderImages|];
  }

  // ---------------------------------------------------------------------
  // Text truncation and title sizes
  // ---------------------------------------------------------------------

  /** `t.slice(0, end)`: a negative end counts back from the end of `t`. */
  function SlicePrefix(t: string, end: int): (r: string)
    ensures |r| <= |t| && r == t[..|r|]
    ensures 0 <= end <= |t| ==> |r| == end
  {
    if end < 0 then (if |t| + end < 0 then [] else t[..|t| + end])
    else if end > |t| then t
    else t[..end]
  }

  /** The gallery's `truncate(text, n)`: the trimmed text when it fits in n
      characters, else its first n - 1 characters followed by '…'. */
  function Truncate(text: Option<string>, n: int): string {
    var t := Trim(text.GetOr(""), JavaScript);
    if |t| > n then SlicePrefix(t, n - 1) + "…" else t
  }

  /** For any positive limit the truncated text fits the limit, is the whole
      trimmed text when that fits, and otherwise keeps a prefix of it. */
  lemma TruncateBound(text: Option<string>, n: int)
    requires n >= 1
    ensures var t := Trim(text.GetOr(""), JavaScript);
            && |Truncate(text, n)| <= n
            && (|t| <= n ==> Truncate(text, n) == t)
            && (|t| > n ==> Truncate(text, n) == t[..n - 1] + "…")
  {
  }

  /** Title font size, in hundredths of a rem, by the trimmed title length. */
  function TitleSize(title: string): (size: int)
    ensures size in {85, 90, 95, 105}
  {
    var len := |Trim(title, JavaScript)|;
    if len > 60 then 85 else if len > 45 then 90 else if len > 32 then 95 else 105
  }

  /** A longer title never gets a larger font. */
  lemma TitleSizeAntitone(a: string, b: string)
    requires |Trim(a, JavaScript)| <= |Trim(b, JavaScript)|
    ensures TitleSize(b) <= TitleSize(a)
  {
  }

  // ---------------------------------------------------------------------
  // Gallery items derived from projects
  // ---------------------------------------------------------------------

  /** The URL a project's main gallery item shows: `main_image || image`. */
  function MainImageOf(p: Project): Option<string> {
    if IsTruthy(p.mainImage) then p.mainImage else p.image
  }

  /** The item for one URL of project p. */
  function ItemFor(p: Project, url: Option<string>, apiBase: string): GalleryItem {
    GalleryItem(ResolveMedia(url, apiBase), p.category.GetOr(""), p.tags.GetOr([]), p.id)
  }

  /** The items of one project: its main picture when it has one, then one
      item per gallery image, in order. */
  function ProjectItems(p: Project, apiBase: string): seq<GalleryItem> {
    var g := p.galleryImages.GetOr([]);
    (if IsTruthy(MainImageOf(p)) then [ItemFor(p, MainImageOf(p), apiBase)] else [])
    + seq(|g|, k requires 0 <= k < |g| => ItemFor(p, Some(g[k]), apiBase))
  }

  /** The whole gallery: the projects' items, project after project. */
  function DerivedGallery(projects: seq<Project>, apiBase: string): seq<GalleryItem> {
    if projects == [] then []
    else DerivedGallery(projects[..|projects| - 1], apiBase) + ProjectItems(projects[|projects| - 1], apiBase)
  }

  /** `deriveGalleryFromProjects(projects)`. */
  method DeriveGalleryFromProjects(projects: seq<Project>, apiBase: string) returns (items: seq<GalleryItem>)
    ensures items == DerivedGallery(projects, apiBase)
  {
    items := [];
    var i := 0;
    while i < |projects|
      invariant 0 <= i <= |projects|
      invariant items == DerivedGallery(projects[..i], apiBase)
    {
      var more := CollectProjectItems(projects[i], apiBase);
      items := items + more;
      assert projects[..i + 1][..i] == projects[..i];
      i := i + 1;
    }
    assert projects[..i] == projects;
  }

  /** One pass of its loop: the main picture's item, if any, then one item
      per gallery image. */
  method CollectProjectItems(p: Project, apiBase: string) returns (items: seq<GalleryItem>)
    ensures items == ProjectItems(p, apiBase)
  {
    items := [];
    if IsTruthy(MainImageOf(p)) {
      items := [ItemFor(p, MainImageOf(p), apiBase)];
    }
    var main := items;
    var g := p.galleryImages.GetOr([]);
    var j := 0;
    while j < |g|
      invariant 0 <= j <= |g|
      invariant items == main + seq(j, k requires 0 <= k < j => ItemFor(p, Some(g[k]), apiBase))
    {
      items := items + [ItemFor(p, Some(g[j]), apiBase)];
      j := j + 1;
    }
  }

  /** Item count of one project: one for the main picture, if any, plus one
      per gallery image. */
  function ItemCount(p: Project): nat {
    (if IsTruthy(MainImageOf(p)) then 1 else 0) + |p.galleryImages.GetOr([])|
  }

  function TotalItemCount(projects: seq<Project>): nat {
    if projects == [] then 0
    else TotalItemCount(projects[..|projects| - 1]) + ItemCount(projects[|projects| - 1])
  }

  /** The gallery holds exactly the counted items, and each item carries the
      category, tags and id of the project it came from. */
  lemma {:induction false} DerivedGalleryShape(projects: seq<Project>, apiBase: string)
    ensures |DerivedGallery(projects, apiBase)| == TotalItemCount(projects)
    ensures forall it :: it in DerivedGallery(projects, apiBase) ==>
              exists k :: 0 <= k < |projects| && it.projectId == projects[k].id
                          && it.category == projects[k].category.GetOr("")
  {
    if projects != [] {
      var init := projects[..|projects| - 1];
      var p := projects[|projects| - 1];
      DerivedGalleryShape(init, apiBase);
      forall it | it in DerivedGallery(projects, apiBase)
        ensures exists k :: 0 <= k < |projects| && it.projectId == projects[k].id
                            && it.category == projects[k].category.GetOr("")
      {
        if it in DerivedGallery(init, apiBase) {
          var k :| 0 <= k < |init| && it.projectId == init[k].id && it.category == init[k].category.GetOr("");
          assert projects[k] == init[k];
        } else {
          assert it in ProjectItems(p, apiBase);
          assert it.projectId == projects[|projects| - 1].id;
        }
      }
    }
  }
}
