/** The project admin server (server/app.py): the stored project list and
    the published copy the static site reads, publish and unpublish by id,
    the ordering update, the detail and gallery endpoints, and the upload
    form that creates a project. The two JSON files are the fields of a
    `ProjectStore`; reading and writing them is not modelled. */
module ProjectAdmin {
  import opened Wrappers
  import opened Strings
  import opened Records
  import opened Seqs
  import opened Uploads
  import Media

  // ---------------------------------------------------------------------
  // Published projects
  // ---------------------------------------------------------------------

  /** `p.get('published')` is truthy. */
  predicate IsPublished(p: Project) {
    p.published == Some(true)
  }

  function PublishedTest(): Project -> bool {
    p => IsPublished(p)
  }

  /** `_write_public_projects`: the published projects, in stored order
      (`Filter` states which are kept). */
  function Published(projects: seq<Project>): seq<Project> {
    Filter(projects, PublishedTest())
  }

  /** The published copy of a list followed by another is the two copies
      one after the other: publishing keeps the stored order. */
  lemma PublishedConcat(a: seq<Project>, b: seq<Project>)
    ensures Published(a + b) == Published(a) + Published(b)
  {
    FilterConcat(a, b, PublishedTest());
  }

  // ---------------------------------------------------------------------
  // Lookup by id
  // ---------------------------------------------------------------------

  /** The first project whose `str(p.get('id'))` is `id`. */
  function FirstProject(projects: seq<Project>, id: string): (r: Option<nat>)
    ensures r.Some? ==> r.value < |projects| && IdText(projects[r.value]) == id
                        && forall k :: 0 <= k < r.value ==> IdText(projects[k]) != id
    ensures r.None? ==> forall k :: 0 <= k < |projects| ==> IdText(projects[k]) != id
  {
    if projects == [] then None
    else if IdText(projects[0]) == id then Some(0)
    else
      var rest := FirstProject(projects[1..], id);
      if rest.Some? then Some(rest.value + 1) else None
  }

  // ---------------------------------------------------------------------
  // Form fields
  // ---------------------------------------------------------------------

  /** The fields of the upload form, named after their form keys. */
  datatype FormField =
    | IdField
    | ProjIdField
    | ProjectIdField
    | TitleEnField
    | TitleSiField
    | TitleTaField
    | SummaryEnField
    | SummarySiField
    | SummaryTaField
    | CategoryField
    | StatusField
    | FeaturedField
    | PriorityField
    | TagsField
    | PublishNowField
    | Stat1NumberField
    | Stat1LabelEnField
    | Stat1LabelSiField
    | Stat1LabelTaField
    | Stat2NumberField
    | Stat2LabelEnField
    | Stat2LabelSiField
    | Stat2LabelTaField
    | LongEnField
    | LongSiField
    | LongTaField
    | ImageUrlField
  {
    /** The key the field is sent under. */
    function Key(): string {
      match this
      case IdField => "id"
      case ProjIdField => "proj_id"
      case ProjectIdField => "project_id"
      case TitleEnField => "title_en"
      case TitleSiField => "title_si"
      case TitleTaField => "title_ta"
      case SummaryEnField => "summary_en"
      case SummarySiField => "summary_si"
      case SummaryTaField => "summary_ta"
      case CategoryField => "category"
      case StatusField => "status"
      case FeaturedField => "featured"
      case PriorityField => "priority"
      case TagsField => "tags"
      case PublishNowField => "publish_now"
      case Stat1NumberField => "stat1_number"
      case Stat1LabelEnField => "stat1_label_en"
      case Stat1LabelSiField => "stat1_label_si"
      case Stat1LabelTaField => "stat1_label_ta"
      case Stat2NumberField => "stat2_number"
      case Stat2LabelEnField => "stat2_label_en"
      case Stat2LabelSiField => "stat2_label_si"
      case Stat2LabelTaField => "stat2_label_ta"
      case LongEnField => "long_en"
      case LongSiField => "long_si"
      case LongTaField => "long_ta"
      case ImageUrlField => "image_url"
    }
  }

  /** A submitted form: the value of each field that was sent. */
  type Form = map<FormField, string>

  /** `request.form.get(key, default)`. */
  function Get(form: Form, key: FormField, default: string): string {
    if key in form then form[key] else default
  }

  /** `bool(request.form.get(key))`: present and not empty. */
  predicate Flag(form: Form, key: FormField) {
    key in form && form[key] != ""
  }

  /** `request.form.get(key, '').strip()`. */
  function Field(form: Form, key: FormField): string {
    Trim(Get(form, key, ""), Python)
  }

  /** The project id of the upload form: the first non-empty of the fields
      `id`, `proj_id` and `project_id`, stripped. */
  function FormProjectId(form: Form): string {
    var raw := if Flag(form, IdField) then form[IdField]
               else if Flag(form, ProjIdField) then form[ProjIdField]
               else if Flag(form, ProjectIdField) then form[ProjectIdField]
               else "";
    Trim(raw, Python)
  }

  /** The priority a form field gives: the integer its stripped text
      spells, and 0 when that is empty or not an integer. */
  function PriorityOf(raw: string): (n: int)
    ensures ParseInt(Trim(raw, Python)).Some? ==> n == ParseInt(Trim(raw, Python)).value
    ensures ParseInt(Trim(raw, Python)).None? ==> n == 0
  {
    var t := Trim(raw, Python);
    if t == "" then 0
    else
      var parsed := ParseInt(t);
      if parsed.Some? then parsed.value else 0
  }

  /** Any priority written out in decimal is read back as itself. */
  lemma PriorityOfIntText(n: int)
    ensures PriorityOf(IntToString(n)) == n
  {
    var s := IntToString(n);
    var m: nat := if n < 0 then -n else n;
    assert s[|s| - 1] == NatToString(m)[|NatToString(m)| - 1];
    TrimNoOuterSpace(s, Python);
    ParseIntToString(n);
  }

  // ---------------------------------------------------------------------
  // Tags
  // ---------------------------------------------------------------------

  /** A tag as the parser produces it: non-empty, with no comma and no
      whitespace at either end. */
  predicate IsTag(t: string) {
    t != "" && ',' !in t && !IsSpace(t[0], Python) && !IsSpace(t[|t| - 1], Python)
  }

  /** `[t.strip() for t in pieces if t.strip()]`. */
  function TagsOf(pieces: seq<string>): (r: seq<string>)
    requires forall k :: 0 <= k < |pieces| ==> ',' !in pieces[k]
    ensures forall k :: 0 <= k < |r| ==> IsTag(r[k])
  {
    if pieces == [] then []
    else
      var t := Trim(pieces[0], Python);
      TrimPieceIsTag(pieces[0]);
      (if t != "" then [t] else []) + TagsOf(pieces[1..])
  }

  /** A non-empty trim of a comma-free piece is a tag. */
  lemma TrimPieceIsTag(piece: string)
    requires ',' !in piece
    ensures Trim(piece, Python) != "" ==> IsTag(Trim(piece, Python))
  {
    var i, j := TrimIsSlice(piece, Python);
    var t := Trim(piece, Python);
    if t != "" {
      assert t[0] == piece[i] && t[|t| - 1] == piece[j - 1];
      assert forall k :: 0 <= k < |t| ==> t[k] == piece[i + k];
    }
  }

  /** The tags of the upload form's `tags` field: the comma-separated
      pieces, stripped, empty ones dropped. */
  function ParseTags(raw: string): (tags: seq<string>)
    ensures forall k :: 0 <= k < |tags| ==> IsTag(tags[k])
  {
    var csv := Trim(raw, Python);
    if csv == "" then [] else TagsOf(Split(csv, ','))
  }

  /** Tags are kept as they are by the parser. */
  lemma {:induction false} TagsOfTags(tags: seq<string>)
    requires forall k :: 0 <= k < |tags| ==> IsTag(tags[k])
    requires forall k :: 0 <= k < |tags| ==> ',' !in tags[k]
    ensures TagsOf(tags) == tags
    decreases |tags|
  {
    if tags != [] {
      TrimNoOuterSpace(tags[0], Python);
      TagsOfTags(tags[1..]);
      assert tags == [tags[0]] + tags[1..];
    }
  }

  /** The first and last characters of a join are those of its first and
      last pieces. */
  lemma {:induction false} JoinEnds(pieces: seq<string>)
    requires |pieces| > 0 && forall k :: 0 <= k < |pieces| ==> pieces[k] != ""
    ensures var s := Join(pieces, ',');
            && s != [] && s[0] == pieces[0][0]
            && s[|s| - 1] == pieces[|pieces| - 1][|pieces[|pieces| - 1]| - 1]
    decreases |pieces|
  {
    if |pieces| > 1 {
      JoinEnds(pieces[1..]);
    }
  }

  /** Writing tags back as comma-separated text and parsing it again gives
      the same tags. */
  lemma ParseJoinedTags(tags: seq<string>)
    requires |tags| > 0 && forall k :: 0 <= k < |tags| ==> IsTag(tags[k])
    ensures ParseTags(Join(tags, ',')) == tags
  {
    var s := Join(tags, ',');
    JoinEnds(tags);
    TrimNoOuterSpace(s, Python);
    SplitJoin(tags, ',');
    TagsOfTags(tags);
  }

  // ---------------------------------------------------------------------
  // The gallery endpoint
  // ---------------------------------------------------------------------

  /** One item of `api_gallery` for a URL of project p. */
  function ServerItem(p: Project, url: string): GalleryItem {
    GalleryItem(url, p.category.GetOr(""), p.tags.GetOr([]), p.id)
  }

  /** The items of one project: its truthy `main_image`, then each gallery
      URL, in order. */
  function ServerItems(p: Project): seq<GalleryItem> {
    var g := p.galleryImages.GetOr([]);
    (if IsTruthy(p.mainImage) then [ServerItem(p, p.mainImage.value)] else [])
    + seq(|g|, k requires 0 <= k < |g| => ServerItem(p, g[k]))
  }

  /** The inner loop of `api_gallery`: the items of one project. */
  method CollectItems(p: Project) returns (items: seq<GalleryItem>)
    ensures items == ServerItems(p)
  {
    items := [];
    if p.mainImage.Some? && p.mainImage.value != "" {
      items := [ServerItem(p, p.mainImage.value)];
    }
    var g := if p.galleryImages.Some? then p.galleryImages.value else [];
    ghost var before := items;
    var j := 0;
    while j < |g|
      invariant 0 <= j <= |g|
      invariant items == before + seq(j, k requires 0 <= k < j => ServerItem(p, g[k]))
    {
      items := items + [ServerItem(p, g[j])];
      j := j + 1;
    }
  }

  /** `api_gallery`'s items: project after project. */
  function ServerGallery(projects: seq<Project>): seq<GalleryItem> {
    if projects == [] then []
    else ServerGallery(projects[..|projects| - 1]) + ServerItems(projects[|projects| - 1])
  }

  /** The URLs of a list of items as the front end resolves them. */
  function Resolved(items: seq<GalleryItem>, apiBase: string): (r: seq<GalleryItem>)
    ensures |r| == |items|
  {
    seq(|items|, k requires 0 <= k < |items| => items[k].(url := Media.ResolveMedia(Some(items[k].url), apiBase)))
  }

  lemma ResolvedConcat(a: seq<GalleryItem>, b: seq<GalleryItem>, apiBase: string)
    ensures Resolved(a + b, apiBase) == Resolved(a, apiBase) + Resolved(b, apiBase)
  {
  }

  /** For projects without an `image` field, the gallery the static site
      derives by itself is the gallery endpoint's, with each URL resolved:
      same items, same order. */
  lemma {:induction false} FrontEndGalleryAgrees(projects: seq<Project>, apiBase: string)
    requires forall k :: 0 <= k < |projects| ==> !IsTruthy(projects[k].image)
    ensures Media.DerivedGallery(projects, apiBase) == Resolved(ServerGallery(projects), apiBase)
    decreases |projects|
  {
    if projects != [] {
      var init := projects[..|projects| - 1];
      var p := projects[|projects| - 1];
      FrontEndGalleryAgrees(init, apiBase);
      ResolvedConcat(ServerGallery(init), ServerItems(p), apiBase);
      assert Media.ProjectItems(p, apiBase) == Resolved(ServerItems(p), apiBase);
    }
  }

  // ---------------------------------------------------------------------
  // The upload form
  // ---------------------------------------------------------------------

  /** The URL an uploaded file is served under. */
  function UploadUrl(dir: string, name: string): string {
    "/uploads/projects/" + dir + "/" + name
  }

  /** The first 15 gallery files, the only ones considered. */
  function Batch(files: seq<string>): seq<string> {
    if |files| <= 15 then files else files[..15]
  }

  function AllowedTest(): string -> bool {
    f => AllowedFile(f)
  }

  /** The names in a list. */
  function Elems(s: seq<string>): set<string> {
    set x | x in s
  }

  /** `names[i]` is the name the i-th accepted file was saved under: the
      first free name for it once the directory holds all earlier saves. */
  ghost predicate SavedInTurn(names: seq<string>, accepted: seq<string>, secure: string -> string, existing: set<string>) {
    && |names| == |accepted|
    && forall i :: 0 <= i < |names| ==> FirstFree(names[i], secure(accepted[i]), existing + Elems(names[..i]))
  }

  /** One more file saved under the first free name extends the chain. */
  lemma SavedInTurnStep(names: seq<string>, accepted: seq<string>, secure: string -> string, existing: set<string>,
                        name: string, file: string)
    requires SavedInTurn(names, accepted, secure, existing)
    requires FirstFree(name, secure(file), existing + Elems(names))
    ensures SavedInTurn(names + [name], accepted + [file], secure, existing)
  {
    var names', accepted' := names + [name], accepted + [file];
    assert names'[..|names|] == names;
    forall i | 0 <= i < |names'|
      ensures FirstFree(names'[i], secure(accepted'[i]), existing + Elems(names'[..i]))
    {
      if i < |names| {
        assert names'[..i] == names[..i];
      }
    }
  }

  /** Files saved in turn overwrite nothing: no name was present before,
      and no two saves share a name. */
  lemma SavedNamesFresh(names: seq<string>, accepted: seq<string>, secure: string -> string, existing: set<string>)
    requires SavedInTurn(names, accepted, secure, existing)
    ensures forall i :: 0 <= i < |names| ==> names[i] !in existing
    ensures forall i, j :: 0 <= i < j < |names| ==> names[i] != names[j]
  {
    forall i, j | 0 <= i < j < |names|
      ensures names[i] != names[j]
    {
      assert names[i] in Elems(names[..j]);
    }
  }

  /** The gallery loop of `upload_project`: each of the first 15 files
      with an allowed name is saved under the first free name for its
      secured filename. */
  method SaveGallery(files: seq<string>, existing: set<string>, secure: string -> string) returns (names: seq<string>)
    ensures SavedInTurn(names, Filter(Batch(files), AllowedTest()), secure, existing)
  {
    var batch := Batch(files);
    names := [];
    var stored := existing;
    var i := 0;
    while i < |batch|
      invariant 0 <= i <= |batch|
      invariant SavedInTurn(names, Filter(batch[..i], AllowedTest()), secure, existing)
      invariant stored == existing + Elems(names)
    {
      ghost var accepted := Filter(batch[..i], AllowedTest());
      assert batch[..i + 1][..i] == batch[..i];
      assert Filter(batch[..i + 1], AllowedTest()) == accepted + (if AllowedFile(batch[i]) then [batch[i]] else []);
      if AllowedFile(batch[i]) {
        var name := UniqueFilename(secure(batch[i]), stored);
        SavedInTurnStep(names, accepted, secure, existing, name, batch[i]);
        assert Elems(names + [name]) == Elems(names) + {name};
        names := names + [name];
        stored := stored + {name};
      }
      i := i + 1;
    }
    assert batch[..i] == batch;
  }

  /** The main image of `upload_project`: a file with an allowed name is
      saved under the first free name for its secured filename; otherwise
      `imageUrl`, the `image_url` field, is the project's main image. */
  method SaveMainImage(imageUrl: string, image: Option<string>, existing: set<string>, secure: string -> string, dir: string)
    returns (saved: seq<string>, mainUrl: string)
    ensures image.Some? && AllowedFile(image.value) ==>
              |saved| == 1 && FirstFree(saved[0], secure(image.value), existing) && mainUrl == UploadUrl(dir, saved[0])
    ensures !(image.Some? && AllowedFile(image.value)) ==> saved == [] && mainUrl == imageUrl
  {
    if image.Some? && AllowedFile(image.value) {
      var name := UniqueFilename(secure(image.value), existing);
      return [name], UploadUrl(dir, name);
    }
    return [], imageUrl;
  }

  /** What `upload_project` reads from its form besides the id: every
      text stripped, the two checkboxes, the priority and the tags. */
  datatype UploadFields = UploadFields(
    title: LocalText,
    summary: LocalText,
    category: string,
    status: string,
    featured: bool,
    priority: int,
    tags: seq<string>,
    publish: bool,
    stat1: Stat,
    stat2: Stat,
    longDescription: Option<LocalText>,
    imageUrl: string)

  /** The form read as `upload_project` reads it: `longDescription` only
      when one of its three texts is non-empty. */
  function ReadUploadForm(form: Form): UploadFields {
    var longEn, longSi, longTa := Field(form, LongEnField), Field(form, LongSiField), Field(form, LongTaField);
    UploadFields(
      title := LocalText(Field(form, TitleEnField), Field(form, TitleSiField), Field(form, TitleTaField)),
      summary := LocalText(Field(form, SummaryEnField), Field(form, SummarySiField), Field(form, SummaryTaField)),
      category := Field(form, CategoryField),
      status := Field(form, StatusField),
      featured := Flag(form, FeaturedField),
      priority := PriorityOf(Get(form, PriorityField, "0")),
      tags := ParseTags(Get(form, TagsField, "")),
      publish := Flag(form, PublishNowField),
      stat1 := Stat(Field(form, Stat1NumberField),
                    LocalText(Field(form, Stat1LabelEnField), Field(form, Stat1LabelSiField), Field(form, Stat1LabelTaField))),
      stat2 := Stat(Field(form, Stat2NumberField),
                    LocalText(Field(form, Stat2LabelEnField), Field(form, Stat2LabelSiField), Field(form, Stat2LabelTaField))),
      longDescription := if longEn != "" || longSi != "" || longTa != "" then Some(LocalText(longEn, longSi, longTa)) else None,
      imageUrl := Field(form, ImageUrlField))
  }

  /** A text read from the form carries no whitespace at either end. */
  lemma FieldIsStripped(form: Form, key: FormField)
    ensures Trim(Field(form, key), Python) == Field(form, key)
  {
    TrimIdempotent(Get(form, key, ""), Python);
  }

  /** The record `upload_project` appends: the form's values, the id, the
      main image URL and the gallery URLs; `image` is not set. */
  function NewProject(f: UploadFields, id: string, mainUrl: string, galleryUrls: seq<string>): (p: Project)
    ensures IsPublished(p) <==> f.publish
  {
    Project(
      id := Some(id),
      title := Some(f.title),
      summary := Some(f.summary),
      category := Some(f.category),
      status := Some(f.status),
      featured := Some(f.featured),
      priority := Some(f.priority),
      mainImage := Some(mainUrl),
      image := None,
      galleryImages := Some(galleryUrls),
      tags := Some(f.tags),
      published := Some(f.publish),
      stat1 := Some(f.stat1),
      stat2 := Some(f.stat2),
      longDescription := f.longDescription)
  }

  /** One name is saved for the main image when its filename is allowed. */
  function MainCount(image: Option<string>): nat {
    if image.Some? && AllowedFile(image.value) then 1 else 0
  }

  /** `saved` lists the names `upload_project` writes, in order: the main
      image's first free name when it is saved, then the gallery's names,
      each free once the earlier ones are written. */
  ghost predicate SavesInTurn(image: Option<string>, galleryFiles: seq<string>, existing: set<string>,
                              secure: string -> string, saved: seq<string>) {
    var m := MainCount(image);
    && |saved| >= m
    && (m == 1 ==> FirstFree(saved[0], secure(image.value), existing))
    && SavedInTurn(saved[m..], Filter(Batch(galleryFiles), AllowedTest()), secure, existing + Elems(saved[..m]))
  }

  /** The project an upload with id `id` creates once `saved` is written:
      its main image is the first saved file when one was saved, else the
      `image_url` text, and its gallery the other saved files. */
  function UploadedProject(f: UploadFields, id: string, image: Option<string>, secure: string -> string, saved: seq<string>): Project
    requires |saved| >= MainCount(image)
  {
    var m := MainCount(image);
    NewProject(f, id,
               if m == 1 then UploadUrl(secure(id), saved[0]) else f.imageUrl,
               UploadUrls(secure(id), saved[m..]))
  }

  /** The file-saving part of `upload_project`: the main image, then the
      gallery, then the record that points at them. */
  method SaveFiles(f: UploadFields, projId: string, image: Option<string>, galleryFiles: seq<string>,
                   existing: set<string>, secure: string -> string)
    returns (saved: seq<string>, p: Project)
    ensures SavesInTurn(image, galleryFiles, existing, secure, saved)
    ensures p == UploadedProject(f, projId, image, secure, saved)
  {
    var dir := secure(projId);
    var mainNames, mainUrl := SaveMainImage(f.imageUrl, image, existing, secure, dir);
    var names := SaveGallery(galleryFiles, existing + Elems(mainNames), secure);
    saved := mainNames + names;
    p := NewProject(f, projId, mainUrl, UploadUrls(dir, names));
    SavedParts(image, galleryFiles, existing, secure, mainNames, names);
    assert saved[MainCount(image)..] == names;
  }

  /** The main image's names followed by the gallery's are saved in turn. */
  lemma SavedParts(image: Option<string>, galleryFiles: seq<string>, existing: set<string>, secure: string -> string,
                   mainNames: seq<string>, names: seq<string>)
    requires image.Some? && AllowedFile(image.value) ==>
               |mainNames| == 1 && FirstFree(mainNames[0], secure(image.value), existing)
    requires !(image.Some? && AllowedFile(image.value)) ==> mainNames == []
    requires SavedInTurn(names, Filter(Batch(galleryFiles), AllowedTest()), secure, existing + Elems(mainNames))
    ensures SavesInTurn(image, galleryFiles, existing, secure, mainNames + names)
  {
    var saved := mainNames + names;
    assert saved[..|mainNames|] == mainNames && saved[|mainNames|..] == names;
  }

  /** The URLs of saved gallery files. */
  function UploadUrls(dir: string, names: seq<string>): (urls: seq<string>)
    ensures |urls| == |names|
  {
    seq(|names|, k requires 0 <= k < |names| => UploadUrl(dir, names[k]))
  }

  // ---------------------------------------------------------------------
  // The store
  // ---------------------------------------------------------------------

  /** The admin server's data: `projects` is server/data/projects.json and
      `publicProjects` the published copy, assets/projects.json. */
  class ProjectStore {
    var projects: seq<Project>
    var publicProjects: seq<Project>

    constructor(projects: seq<Project>, publicProjects: seq<Project>)
      ensures this.projects == projects && this.publicProjects == publicProjects
    {
      this.projects := projects;
      this.publicProjects := publicProjects;
    }

    /** The loop the routes share: the first project whose id is `projId`. */
    method FindProject(projId: string) returns (idx: Option<nat>)
      ensures idx == FirstProject(projects, projId)
    {
      var i := 0;
      while i < |projects|
        invariant 0 <= i <= |projects|
        invariant forall k :: 0 <= k < i ==> IdText(projects[k]) != projId
      {
        if IdText(projects[i]) == projId {
          return Some(i);
        }
        i := i + 1;
      }
      return None;
    }

    /** `admin_publish` (value true) and `admin_unpublish` (value false):
        the first project with the id gets `published`, nothing else
        changes, and both files are written; without a match nothing is
        written. */
    method SetPublished(projId: string, value: bool) returns (updated: bool)
      modifies this
      ensures var idx := FirstProject(old(projects), projId);
              && (updated <==> idx.Some?)
              && (idx.None? ==> projects == old(projects) && publicProjects == old(publicProjects))
              && (idx.Some? ==>
                    && projects == old(projects)[idx.value := old(projects)[idx.value].(published := Some(value))]
                    && publicProjects == Published(projects))
    {
      var idx := FindProject(projId);
      if idx.None? {
        return false;
      }
      var i := idx.value;
      projects := projects[i := projects[i].(published := Some(value))];
      publicProjects := Published(projects);
      updated := true;
    }

    /** `admin_update`: the first project with the id gets `featured` from
        the checkbox and `priority` from its field; both files are written.
        The result is the `ok` of the JSON reply. */
    method UpdateOrdering(projId: string, featured: Option<string>, priority: Option<string>) returns (updated: bool)
      modifies this
      ensures var idx := FirstProject(old(projects), projId);
              && (updated <==> idx.Some?)
              && (idx.None? ==> projects == old(projects) && publicProjects == old(publicProjects))
              && (idx.Some? ==>
                    && projects == old(projects)[idx.value := old(projects)[idx.value].(
                                     featured := Some(IsTruthy(featured)),
                                     priority := Some(PriorityOf(if IsTruthy(priority) then priority.value else "")))]
                    && publicProjects == Published(projects))
    {
      var idx := FindProject(projId);
      if idx.None? {
        return false;
      }
      var i := idx.value;
      var raw := if priority.Some? && priority.value != "" then priority.value else "";
      projects := projects[i := projects[i].(featured := Some(featured.Some? && featured.value != ""),
                                             priority := Some(PriorityOf(raw)))];
      publicProjects := Published(projects);
      updated := true;
    }

    /** `admin_republish`: the published copy is written afresh. */
    method Republish()
      modifies this`publicProjects
      ensures projects == old(projects) && publicProjects == Published(projects)
    {
      publicProjects := Published(projects);
    }

    /** The end of `upload_project`: the new record is appended and, when
        `publish` is set, the published copy is rewritten, which then
        gains the new record when it is published. */
    method Add(p: Project, publish: bool)
      modifies this
      ensures projects == old(projects) + [p]
      ensures publish ==> publicProjects == Published(old(projects)) + (if IsPublished(p) then [p] else [])
      ensures !publish ==> publicProjects == old(publicProjects)
    {
      projects := projects + [p];
      if publish {
        Republish();
        PublishedConcat(old(projects), [p]);
        assert [p][..0] == [];
      }
    }

    /** `api_project_detail`: the first project with the id, else 404. */
    method ProjectDetail(projId: string) returns (status: int, body: Option<Project>)
      ensures FirstProject(projects, projId).Some? ==>
                status == 200 && body == Some(projects[FirstProject(projects, projId).value])
      ensures FirstProject(projects, projId).None? ==> status == 404 && body.None?
    {
      var idx := FindProject(projId);
      if idx.None? {
        return 404, None;
      }
      return 200, Some(projects[idx.value]);
    }

    /** `api_gallery`: the items of every project, project after project. */
    method Gallery() returns (items: seq<GalleryItem>)
      ensures items == ServerGallery(projects)
    {
      items := [];
      var i := 0;
      while i < |projects|
        invariant 0 <= i <= |projects|
        invariant items == ServerGallery(projects[..i])
      {
        var more := CollectItems(projects[i]);
        items := items + more;
        assert projects[..i + 1][..i] == projects[..i];
        i := i + 1;
      }
      assert projects[..i] == projects;
    }

    /** `upload_project`. `image` is the filename of the main image file,
        if one was sent, `galleryFiles` those of the gallery files,
        `existing` the names already in the project's upload directory and
        `secure` is `secure_filename`. A missing or taken id is refused
        with 400 and changes nothing. Otherwise the main image, when its
        name is allowed, is saved under the first free name (else the
        `image_url` field is used), then the gallery files in turn, and
        the project is appended (status 302, the redirect); the published
        copy is rewritten when `publish_now` is set. `saved` lists the
        names written, in order. */
    method Upload(form: Form, image: Option<string>, galleryFiles: seq<string>, existing: set<string>, secure: string -> string)
      returns (status: int, saved: seq<string>)
      modifies this
      ensures var id := FormProjectId(form);
              (id == "" || FirstProject(old(projects), id).Some?) ==>
                status == 400 && saved == [] && projects == old(projects) && publicProjects == old(publicProjects)
      ensures var id := FormProjectId(form);
              id != "" && FirstProject(old(projects), id).None? ==>
                && status == 302
                && |projects| == |old(projects)| + 1 && projects[..|old(projects)|] == old(projects)
                && SavesInTurn(image, galleryFiles, existing, secure, saved)
                && projects[|old(projects)|] == UploadedProject(ReadUploadForm(form), id, image, secure, saved)
                && (Flag(form, PublishNowField) ==> publicProjects == Published(old(projects)) + [projects[|old(projects)|]])
                && (!Flag(form, PublishNowField) ==> publicProjects == old(publicProjects))
    {
      var projId := FormProjectId(form);
      if projId == "" {
        return 400, [];
      }
      var dup := FindProject(projId);
      if dup.Some? {
        return 400, [];
      }
      var fields := ReadUploadForm(form);
      var p;
      saved, p := SaveFiles(fields, projId, image, galleryFiles, existing, secure);
      Add(p, fields.publish);
      status := 302;
    }
  }
}
