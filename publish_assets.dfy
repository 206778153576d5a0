/** The path rewrite of scripts/publish_assets.py (`rewrite_projects_json`):
    every project URL under `/uploads/` is moved to the static copy under
    `assets/uploads/`, in place, and assets/projects.json is written only
    when some URL changed. */
module PublishAssets {
  import opened Wrappers
  import opened Strings
  import opened Records
  import opened Media

  const UploadsPrefix := "/uploads/"

  /** A URL that `map_url` rewrites. */
  predicate NeedsRewrite(u: string) {
    StartsWith(u, UploadsPrefix)
  }

  /** `map_url(u)` on a string: `'assets' + u` for an upload path, otherwise
      the string itself. */
  function MapUrl(u: string): (r: string)
    ensures r == u <==> !NeedsRewrite(u)
    ensures NeedsRewrite(u) ==> |r| == |u| + 6 && r[6..] == u
  {
    if NeedsRewrite(u) then "assets" + u else u
  }

  /** `map_url` on an optional field: `None` (absent or null) stays. */
  function MapField(u: Option<string>): Option<string> {
    if u.Some? then Some(MapUrl(u.value)) else None
  }

  /** `[map_url(x) for x in gallery_images]`. */
  function MapGallery(g: seq<string>): (r: seq<string>)
    ensures |r| == |g| && forall k :: 0 <= k < |g| ==> r[k] == MapUrl(g[k])
  {
    seq(|g|, k requires 0 <= k < |g| => MapUrl(g[k]))
  }

  /** The body of the loop over `data`: `main_image`, `image` and a
      list-valued `gallery_images` are mapped; every other field is kept. */
  function RewriteProject(p: Project): Project {
    p.(mainImage := MapField(p.mainImage),
       image := MapField(p.image),
       galleryImages := if p.galleryImages.Some? then Some(MapGallery(p.galleryImages.value)) else None)
  }

  function RewriteAll(data: seq<Project>): (r: seq<Project>)
    ensures |r| == |data| && forall k :: 0 <= k < |data| ==> r[k] == RewriteProject(data[k])
  {
    seq(|data|, k requires 0 <= k < |data| => RewriteProject(data[k]))
  }

  /** Some URL of the project is an upload path: `map_url` sets `changed`. */
  predicate ProjectTouched(p: Project) {
    || (p.mainImage.Some? && NeedsRewrite(p.mainImage.value))
    || (p.image.Some? && NeedsRewrite(p.image.value))
    || (p.galleryImages.Some? && exists k :: 0 <= k < |p.galleryImages.value| && NeedsRewrite(p.galleryImages.value[k]))
  }

  predicate AnyTouched(data: seq<Project>) {
    exists k :: 0 <= k < |data| && ProjectTouched(data[k])
  }

  /** The flag tells the truth: a project is touched exactly when the
      rewrite changes it. */
  lemma ProjectTouchedIff(p: Project)
    ensures ProjectTouched(p) <==> RewriteProject(p) != p
  {
    var r := RewriteProject(p);
    if p.galleryImages.Some? {
      var g := p.galleryImages.value;
      if exists k :: 0 <= k < |g| && NeedsRewrite(g[k]) {
        var k :| 0 <= k < |g| && NeedsRewrite(g[k]);
        assert r.galleryImages.value[k] != g[k];
      } else {
        assert MapGallery(g) == g;
      }
    }
  }

  /** `changed` is set exactly when the rewritten data differ from the
      data read, so the file is written exactly when the write changes it. */
  lemma ChangedIff(data: seq<Project>)
    ensures AnyTouched(data) <==> RewriteAll(data) != data
  {
    var r := RewriteAll(data);
    if AnyTouched(data) {
      var k :| 0 <= k < |data| && ProjectTouched(data[k]);
      ProjectTouchedIff(data[k]);
      assert r[k] != data[k];
    } else {
      forall k | 0 <= k < |data| ensures r[k] == data[k] {
        ProjectTouchedIff(data[k]);
      }
    }
  }

  /** A rewritten URL is not an upload path any more: `map_url` is
      idempotent. */
  lemma MapUrlIdempotent(u: string)
    ensures !NeedsRewrite(MapUrl(u)) && MapUrl(MapUrl(u)) == MapUrl(u)
  {
    if NeedsRewrite(u) {
      assert MapUrl(u)[0] == 'a';
    }
  }

  /** Publishing twice is publishing once, and the second run finds
      nothing to write. */
  lemma RewriteIdempotent(data: seq<Project>)
    ensures RewriteAll(RewriteAll(data)) == RewriteAll(data)
    ensures !AnyTouched(RewriteAll(data))
  {
    var r := RewriteAll(data);
    forall k | 0 <= k < |r| ensures RewriteProject(r[k]) == r[k] && !ProjectTouched(r[k]) {
      var p := data[k];
      if p.mainImage.Some? { MapUrlIdempotent(p.mainImage.value); }
      if p.image.Some? { MapUrlIdempotent(p.image.value); }
      if p.galleryImages.Some? {
        var g := p.galleryImages.value;
        forall j | 0 <= j < |g| ensures MapUrl(MapUrl(g[j])) == MapUrl(g[j]) && !NeedsRewrite(MapGallery(g)[j]) {
          MapUrlIdempotent(g[j]);
        }
        assert MapGallery(MapGallery(g)) == MapGallery(g);
      }
    }
  }

  /** The rewrite does not change what the site shows: the front end's
      `resolveMedia` already sends `/uploads/...` to `assets/uploads/...`. */
  lemma RewriteKeepsResolvedUrl(u: Option<string>, apiBase: string)
    ensures ResolveMedia(MapField(u), apiBase) == ResolveMedia(u, apiBase)
  {
    if u.Some? && NeedsRewrite(u.value) {
      ResolveMediaRules(u.value, apiBase);
      var r := MapUrl(u.value);
      assert r[0] == 'a';
      ResolveMediaRules(r, apiBase);
    }
  }

  /** The gallery keeps its length and order; an absent gallery stays
      absent, and the fields the script does not name are untouched. */
  lemma RewriteKeepsShape(p: Project)
    ensures var r := RewriteProject(p);
            && r.galleryImages.Some? == p.galleryImages.Some?
            && (p.galleryImages.Some? ==>
                  && |r.galleryImages.value| == |p.galleryImages.value|
                  && forall k :: 0 <= k < |p.galleryImages.value| ==>
                       ResolveMedia(Some(r.galleryImages.value[k]), "") == ResolveMedia(Some(p.galleryImages.value[k]), ""))
            && r.mainImage.Some? == p.mainImage.Some? && r.image.Some? == p.image.Some?
            && r.(mainImage := p.mainImage, image := p.image, galleryImages := p.galleryImages) == p
  {
    if p.galleryImages.Some? {
      var g := p.galleryImages.value;
      forall k | 0 <= k < |g|
        ensures ResolveMedia(Some(MapGallery(g)[k]), "") == ResolveMedia(Some(g[k]), "")
      {
        RewriteKeepsResolvedUrl(Some(g[k]), "");
      }
    }
  }

  /** The `for proj in data` loop: each project is rewritten in place, and
      `changed` records whether `map_url` rewrote any URL. */
  method RewriteInPlace(data: array<Project>) returns (changed: bool)
    modifies data
    ensures data[..] == RewriteAll(old(data[..]))
    ensures changed <==> AnyTouched(old(data[..]))
  {
    ghost var original := data[..];
    changed := false;
    var i := 0;
    while i < data.Length
      invariant 0 <= i <= data.Length
      invariant forall k :: 0 <= k < i ==> data[k] == RewriteProject(original[k])
      invariant forall k :: i <= k < data.Length ==> data[k] == original[k]
      invariant changed <==> exists k :: 0 <= k < i && ProjectTouched(original[k])
    {
      var proj := data[i];
      var touched := ProjectChanged(proj);
      data[i] := RewriteProject(proj);
      changed := changed || touched;
      i := i + 1;
    }
    assert data[..] == RewriteAll(original);
  }

  /** Whether `map_url` rewrites one of the project's URLs, found by a scan
      of its gallery. */
  method ProjectChanged(p: Project) returns (touched: bool)
    ensures touched <==> ProjectTouched(p)
  {
    touched := (p.mainImage.Some? && NeedsRewrite(p.mainImage.value)) || (p.image.Some? && NeedsRewrite(p.image.value));
    if p.galleryImages.Some? {
      var g := p.galleryImages.value;
      var j := 0;
      while j < |g|
        invariant 0 <= j <= |g|
        invariant touched <==> (p.mainImage.Some? && NeedsRewrite(p.mainImage.value))
                               || (p.image.Some? && NeedsRewrite(p.image.value))
                               || exists k :: 0 <= k < j && NeedsRewrite(g[k])
      {
        touched := touched || NeedsRewrite(g[j]);
        j := j + 1;
      }
    }
  }

  /** `rewrite_projects_json()`. `file` is assets/projects.json as read
      (`None` when it does not exist); the result is what gets written,
      `None` when nothing is. */
  method RewriteProjectsJson(file: Option<seq<Project>>) returns (written: Option<seq<Project>>)
    ensures file.None? ==> written.None?
    ensures file.Some? ==> (written.Some? <==> RewriteAll(file.value) != file.value)
    ensures written.Some? ==> file.Some? && written.value == RewriteAll(file.value)
  {
    if file.None? {
      return None;
    }
    var data := new Project[|file.value|](k requires 0 <= k < |file.value| => file.value[k]);
    assert data[..] == file.value;
    var changed := RewriteInPlace(data);
    ChangedIff(file.value);
    if changed {
      return Some(data[..]);
    }
    return None;
  }
}
