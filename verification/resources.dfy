/**
  The resource library kept in MongoDB: `getFileType`, the upload filter,
  the Resource schema's defaults and validation, and the list, upload,
  add-url, download and (soft) delete handlers.

  All handlers run behind `protect`, and upload, add-url and delete also
  behind `adminOnly` (see the Guards module). The list and download
  handlers still test for a missing user; `signedIn` carries that test,
  which is always true behind `protect`.
 */
module Resources {
  import opened Common
  import Strings
  import Seqs
  import Sorting
  import opened Docs
  import Files

  datatype Visibility = Public | EnrolledOnly

  /** The classification `getFileType` returns. */
  datatype Kind = PdfFile | DocFile | ImageFile | OtherFile

  datatype Resource = Resource(
    title: string,
    description: string,
    category: string,
    visibility: Visibility,
    fileUrl: string,
    fileName: string,
    fileSize: int,
    fileType: Kind,
    downloads: int,
    uploadedBy: Id,
    isActive: bool,
    createdAt: int)

  // ---------------------------------------------------------------------------
  // File types

  const DocTypes: seq<string> := ["doc", "docx", "ppt", "pptx", "xls", "xlsx"]
  const ImgTypes: seq<string> := ["jpg", "jpeg", "png", "gif", "webp"]

  /** No extension is named by two of the classes. */
  lemma TypeListsDisjoint()
    ensures "pdf" !in DocTypes && "pdf" !in ImgTypes
    ensures forall k :: 0 <= k < |ImgTypes| ==> ImgTypes[k] !in DocTypes
  {
    assert forall k :: 0 <= k < |DocTypes| ==>
      (DocTypes[k][0] != 'j' && DocTypes[k][0] != 'g' && DocTypes[k][0] != 'w' && DocTypes[k] != "pdf");
    assert forall k :: 0 <= k < |ImgTypes| ==> ImgTypes[k] != "pdf";
    assert ImgTypes[2] !in DocTypes by {
      assert forall k :: 0 <= k < |DocTypes| ==> DocTypes[k] != "png";
    }
  }

  /** `getFileType(filename)`: exact comparison of the lower-cased extension. */
  function GetFileType(filename: string): (r: Kind)
    ensures r == PdfFile <==> Strings.Extension(filename) == "pdf"
    ensures r == DocFile <==> Strings.Extension(filename) in DocTypes
    ensures r == ImageFile <==> Strings.Extension(filename) in ImgTypes
  {
    var ext := Strings.Extension(filename);
    TypeListsDisjoint();
    if ext == "pdf" then PdfFile
    else if ext in DocTypes then DocFile
    else if ext in ImgTypes then ImageFile
    else OtherFile
  }

  /** For `stem.ext` the type depends on the extension alone, whatever its letter case. */
  lemma GetFileTypeOfDotted(stem: string, ext: string)
    requires stem != "" && ext != ""
    requires '/' !in stem && '/' !in ext && '.' !in ext
    ensures GetFileType(stem + "." + ext) == GetFileType(stem + "." + Strings.Lower(ext))
  {
    Strings.LowerKeeps(ext, '.');
    Strings.LowerKeeps(ext, '/');
    Strings.ExtensionOfDotted(stem, ext);
    Strings.ExtensionOfDotted(stem, Strings.Lower(ext));
    Strings.LowerIdempotent(ext);
  }

  /** The alternatives of `ALLOWED_TYPES`: the file library's list without `txt`. */
  const AllowedTypes: seq<string> :=
    ["pdf", "doc", "docx", "ppt", "pptx", "xls", "xlsx", "jpg", "jpeg", "png",
     "gif", "webp", "mp4", "zip", "rar"]

  /** The resource upload filter: the same unanchored test as the file library's, over a shorter list. */
  predicate AcceptsUpload(originalName: string) {
    Strings.ContainsAny(Strings.Extension(originalName), AllowedTypes)
  }

  /** Every name the resource filter accepts, the file library's filter accepts too. */
  lemma AcceptsUploadNarrower(originalName: string)
    ensures AcceptsUpload(originalName) ==> Files.AcceptsUpload(originalName)
  {
    assert AllowedTypes == Files.FileTypes[..15];
    if AcceptsUpload(originalName) {
      var k :| 0 <= k < |AllowedTypes| && Strings.Contains(Strings.Extension(originalName), AllowedTypes[k]);
      assert Files.FileTypes[k] == AllowedTypes[k];
    }
  }

  /** Every type `getFileType` names (pdf, doc, img) passes the upload filter. */
  lemma ClassifiedTypesAllowed(filename: string)
    ensures GetFileType(filename) != OtherFile ==> AcceptsUpload(filename)
  {
    var ext := Strings.Extension(filename);
    if GetFileType(filename) != OtherFile {
      assert ext in AllowedTypes;
      var k :| 0 <= k < |AllowedTypes| && AllowedTypes[k] == ext;
      assert Strings.OccursAt(ext, AllowedTypes[k], 0);
    }
  }

  // ---------------------------------------------------------------------------
  // Resource.create

  /** The fields a `Resource.create` call supplies; absent ones take the schema's defaults. */
  datatype NewResource = NewResource(
    title: string, description: string, category: Option<string>, visibility: Option<string>,
    fileUrl: string, fileName: string, fileSize: Option<int>, fileType: Kind)

  /** The `visibility` enum; a missing value takes the schema default `public`. */
  function ParseVisibility(v: Option<string>): (r: Option<Visibility>)
    ensures r == Some(Public) <==> v.None? || v == Some("public")
    ensures r == Some(EnrolledOnly) <==> v == Some("enrolled")
  {
    match v
    case None => Some(Public)
    case Some(s) => if s == "public" then Some(Public) else if s == "enrolled" then Some(EnrolledOnly) else None
  }

  /**
    `Resource.create(fields)`: trims title and description, fills the
    defaults and validates; `None` is a validation error (title empty after
    trimming, an empty category, a visibility outside the enum).
   */
  function Create(f: NewResource, uploadedBy: Id, now: int): (r: Option<Resource>)
    ensures r.Some? <==> Strings.Trim(f.title) != "" && OrElseAny(f.category, "General") != ""
                         && ParseVisibility(f.visibility).Some?
    ensures r.Some? ==> && r.value.title == Strings.Trim(f.title)
                        && r.value.category == OrElseAny(f.category, "General")
                        && r.value.visibility == ParseVisibility(f.visibility).value
                        && r.value.fileSize == (if f.fileSize.Some? then f.fileSize.value else 0)
                        && r.value.downloads == 0 && r.value.isActive
    ensures r.Some? ==> && r.value.fileUrl == f.fileUrl && r.value.fileName == f.fileName
                        && r.value.fileType == f.fileType && r.value.uploadedBy == uploadedBy
  {
    var category := OrElseAny(f.category, "General");
    match ParseVisibility(f.visibility)
    case None => None
    case Some(vis) =>
      if Strings.Trim(f.title) == "" || category == "" then None
      else Some(Resource(Strings.Trim(f.title), Strings.Trim(f.description), category, vis,
                         f.fileUrl, f.fileName, if f.fileSize.Some? then f.fileSize.value else 0,
                         f.fileType, 0, uploadedBy, true, now))
  }

  /** A schema default: applies when the value is absent (`undefined`), not when it is empty. */
  function OrElseAny(v: Option<string>, d: string): string {
    if v.Some? then v.value else d
  }

  // ---------------------------------------------------------------------------
  // Handlers

  /** The text fields of an upload or add-url form. */
  datatype Form = Form(
    title: Option<string>, description: Option<string>, category: Option<string>,
    visibility: Option<string>, fileUrl: Option<string>, fileName: Option<string>)

  datatype Reply =
    | Created(message: string, resource: Resource)
    | Download(fileUrl: string, fileName: string)
    | Done(message: string)
    | Rejected(status: int, error: string)
    | ServerError

  /** The fields both creating handlers pass, with the routes' defaults (note: visibility `enrolled`). */
  function RouteFields(form: Form, fileUrl: string, fileName: string, fileSize: int, typeSource: string): (f: NewResource)
    ensures f.visibility == Some(OrElse(form.visibility, "enrolled"))
    ensures f.category == Some(OrElse(form.category, "General"))
    ensures f.fileType == GetFileType(typeSource)
  {
    NewResource(OrElse(form.title, ""), OrElse(form.description, ""), Some(OrElse(form.category, "General")),
                Some(OrElse(form.visibility, "enrolled")), fileUrl, fileName, Some(fileSize), GetFileType(typeSource))
  }

  /** The routes always pass a visibility, so a form without one stores `enrolled`, never the schema's `public`. */
  lemma RouteDefaultVisibility(form: Form, fileUrl: string, fileName: string, fileSize: int, typeSource: string,
                               uploadedBy: Id, now: int)
    requires !Filled(form.visibility)
    requires Create(RouteFields(form, fileUrl, fileName, fileSize, typeSource), uploadedBy, now).Some?
    ensures Create(RouteFields(form, fileUrl, fileName, fileSize, typeSource), uploadedBy, now).value.visibility == EnrolledOnly
  {
  }

  /** Inserts a validated resource under the fresh id `id`; a taken id fails like the unique index. */
  function Store(s: Collection<Resource>, f: NewResource, id: Id, uploadedBy: Id, now: int,
                 message: string, failure: Reply): (r: (Collection<Resource>, Reply))
    requires !failure.Created?
    ensures r.1.Created? <==> Create(f, uploadedBy, now).Some? && !Has(s, id)
    ensures r.1.Created? ==> r.0 == s + [Doc(id, r.1.resource)] && Some(r.1.resource) == Create(f, uploadedBy, now)
    ensures !r.1.Created? ==> r == (s, failure)
  {
    match Create(f, uploadedBy, now)
    case None => (s, failure)
    case Some(res) =>
      if Has(s, id) then (s, failure)
      else (Add(s, id, res), Created(message, res))
  }

  /** The fields the upload handler passes: an uploaded file's path overrides `fileUrl` from the form. */
  function UploadFields(form: Form, file: Option<Files.Upload>): (f: NewResource)
    ensures file.Some? ==> && f.fileUrl == "/uploads/resources/" + file.value.storedName
                           && f.fileName == file.value.originalName
                           && f.fileSize == Some(file.value.size)
                           && (file.value.originalName != "" ==> f.fileType == GetFileType(file.value.originalName))
    ensures file.None? ==> f.fileUrl == OrElse(form.fileUrl, "") && f.fileSize == Some(0)
                           && f.fileName == OrElse(form.fileName, "")
    ensures f.fileType == GetFileType(if f.fileName != "" then f.fileName else f.fileUrl)
    ensures f.visibility == Some(OrElse(form.visibility, "enrolled"))
  {
    var fileUrl := if file.Some? then "/uploads/resources/" + file.value.storedName else OrElse(form.fileUrl, "");
    var fileName := if file.Some? then file.value.originalName else OrElse(form.fileName, "");
    var size := if file.Some? then file.value.size else 0;
    RouteFields(form, fileUrl, fileName, size, if fileName != "" then fileName else fileUrl)
  }

  /** What a route's visibility field stores: `public` only when asked for, `enrolled` otherwise. */
  lemma RouteVisibility(f: NewResource, form: Form, uploadedBy: Id, now: int)
    requires f.visibility == Some(OrElse(form.visibility, "enrolled"))
    requires Create(f, uploadedBy, now).Some?
    ensures Create(f, uploadedBy, now).value.visibility
            == (if Filled(form.visibility) && form.visibility.value == "public" then Public else EnrolledOnly)
  {
  }

  /**
    `POST /api/resources/upload`. A file the filter refuses, or one over the
    size limit, ends in the error handler before the handler runs.
   */
  function UploadResource(s: Collection<Resource>, form: Form, file: Option<Files.Upload>,
                          id: Id, uploadedBy: Id, now: int): (r: (Collection<Resource>, Reply))
    ensures !r.1.Created? ==> r.0 == s
    ensures file.Some? && !AcceptsUpload(file.value.originalName) ==> r.1 == ServerError
    ensures r.1.Created? ==> Filled(form.title) && r.0 == s + [Doc(id, r.1.resource)]
    ensures r.1.Created? && file.Some? ==>
              && r.1.resource.fileUrl == "/uploads/resources/" + file.value.storedName
              && r.1.resource.fileName == file.value.originalName
              && r.1.resource.fileSize == file.value.size
              && (file.value.originalName != "" ==> r.1.resource.fileType == GetFileType(file.value.originalName))
    ensures r.1.Created? && file.None? ==>
              && Filled(form.fileUrl) && r.1.resource.fileUrl == form.fileUrl.value
              && r.1.resource.fileSize == 0
    ensures r.1.Created? ==>
              r.1.resource.fileType == GetFileType(if r.1.resource.fileName != "" then r.1.resource.fileName else r.1.resource.fileUrl)
    ensures r.1.Created? ==> r.1.resource.visibility == (if Filled(form.visibility) && form.visibility.value == "public" then Public else EnrolledOnly)
    ensures ((file.None? || (AcceptsUpload(file.value.originalName) && file.value.size <= Files.MaxUploadBytes))
             && !Filled(form.title)) ==> r.1 == Rejected(400, "Title is required.")
    ensures file.None? && Filled(form.title) && !Filled(form.fileUrl) ==> r.1 == Rejected(400, "File or URL is required.")
  {
    if file.Some? && (!AcceptsUpload(file.value.originalName) || file.value.size > Files.MaxUploadBytes) then
      (s, ServerError)
    else if !Filled(form.title) then (s, Rejected(400, "Title is required."))
    else
      var f := UploadFields(form, file);
      if f.fileUrl == "" then (s, Rejected(400, "File or URL is required."))
      else
        var r := Store(s, f, id, uploadedBy, now, "Resource uploaded.", ServerError);
        if r.1.Created? then
          RouteVisibility(f, form, uploadedBy, now);
          r
        else r
  }

  /** `POST /api/resources/add-url`. */
  function AddUrl(s: Collection<Resource>, form: Form, id: Id, uploadedBy: Id, now: int): (r: (Collection<Resource>, Reply))
    ensures !(Filled(form.title) && Filled(form.fileUrl)) ==> r == (s, Rejected(400, "Title and URL are required."))
    ensures !r.1.Created? ==> r.0 == s
    ensures r.1.Created? ==>
              && r.0 == s + [Doc(id, r.1.resource)]
              && r.1.resource.fileUrl == form.fileUrl.value
              && r.1.resource.fileName == (if Filled(form.fileName) then form.fileName.value
                                           else Strings.LastSegment(form.fileUrl.value, '/'))
              && r.1.resource.fileType == GetFileType(OrElse(form.fileName, form.fileUrl.value))
              && r.1.resource.fileSize == 0
    ensures Filled(form.title) && Filled(form.fileUrl) && !r.1.Created? ==> r == (s, Rejected(500, "Could not add resource."))
  {
    if !Filled(form.title) || !Filled(form.fileUrl) then (s, Rejected(400, "Title and URL are required."))
    else
      var url := form.fileUrl.value;
      var fileName := if Filled(form.fileName) then form.fileName.value else Strings.LastSegment(url, '/');
      Store(s, RouteFields(form, url, fileName, 0, OrElse(form.fileName, url)), id, uploadedBy, now, "Resource added.",
            Rejected(500, "Could not add resource."))
  }

  /**
    add-url is the upload route without a file: both create the same
    resource except for the file name, which add-url takes from the URL's
    last segment when the form gives none and the upload route leaves empty.
   */
  lemma AddUrlIsUploadWithoutFile(s: Collection<Resource>, form: Form, id: Id, uploadedBy: Id, now: int)
    requires Filled(form.title) && Filled(form.fileUrl)
    ensures var a := AddUrl(s, form, id, uploadedBy, now);
            var u := UploadResource(s, form, None, id, uploadedBy, now);
            && (a.1.Created? <==> u.1.Created?)
            && (a.1.Created? ==> a.1.resource == u.1.resource.(fileName := a.1.resource.fileName))
            && (a.1.Created? && Filled(form.fileName) ==> a == (u.0, Created("Resource added.", u.1.resource)))
            && (a.1.Created? && !Filled(form.fileName) ==>
                  u.1.resource.fileName == "" && a.1.resource.fileName == Strings.LastSegment(form.fileUrl.value, '/'))
            && (!a.1.Created? ==> a == (s, Rejected(500, "Could not add resource.")) && u == (s, ServerError))
  {
    var url := form.fileUrl.value;
    var fa := RouteFields(form, url, if Filled(form.fileName) then form.fileName.value else Strings.LastSegment(url, '/'),
                          0, OrElse(form.fileName, url));
    var fu := UploadFields(form, None);
    assert fu == fa.(fileName := OrElse(form.fileName, ""));
    assert AddUrl(s, form, id, uploadedBy, now) == Store(s, fa, id, uploadedBy, now, "Resource added.", Rejected(500, "Could not add resource."));
    assert UploadResource(s, form, None, id, uploadedBy, now) == Store(s, fu, id, uploadedBy, now, "Resource uploaded.", ServerError);
    CreateIgnoresName(fu, fa.fileName, uploadedBy, now);
  }

  /** The stored file name plays no part in validation: changing it changes only that field of the result. */
  lemma CreateIgnoresName(f: NewResource, name: string, uploadedBy: Id, now: int)
    ensures Create(f.(fileName := name), uploadedBy, now).Some? <==> Create(f, uploadedBy, now).Some?
    ensures Create(f, uploadedBy, now).Some? ==>
              Create(f.(fileName := name), uploadedBy, now).value == Create(f, uploadedBy, now).value.(fileName := name)
  {
  }

  /** The list filter: active, public when nobody is signed in, in the category when one is asked for. */
  predicate Shown(r: Resource, signedIn: bool, category: Option<string>) {
    && r.isActive
    && (signedIn || r.visibility == Public)
    && (Filled(category) ==> r.category == category.value)
  }

  /** The list filter as a function value, so that other lists can be compared with it. */
  function ShownBy(signedIn: bool, category: Option<string>): Resource -> bool {
    (x: Resource) => Shown(x, signedIn, category)
  }

  function NewestFirst(r: Resource): Sorting.Key {
    Sorting.Key(-r.createdAt, 0)
  }

  /** `GET /api/resources?category=`: the listed resources, newest first. */
  function List(s: Collection<Resource>, signedIn: bool, category: Option<string>): (r: seq<Resource>)
    ensures forall x :: x in r <==> x in Bodies(s) && Shown(x, signedIn, category)
    ensures forall x :: multiset(r)[x] == if Shown(x, signedIn, category) then multiset(Bodies(s))[x] else 0
    ensures forall i, j :: 0 <= i < j < |r| ==> r[i].createdAt >= r[j].createdAt
  {
    var kept := Seqs.Filter(Bodies(s), ShownBy(signedIn, category));
    var sorted := Sorting.SortBy(kept, NewestFirst);
    forall x ensures x in sorted <==> x in kept {
      Sorting.SortMembers(kept, NewestFirst, x);
    }
    Seqs.FilterMultiset(Bodies(s), ShownBy(signedIn, category));
    sorted
  }

  /**
    `POST /api/resources/:id/download`: a missing or deleted resource is 404;
    otherwise the counter goes up by one and the stored URL and name are
    returned.
   */
  function DownloadResource(s: Collection<Resource>, id: Id, signedIn: bool): (r: (Collection<Resource>, Reply))
    ensures !(Has(s, id) && Get(s, id).value.isActive) ==> r == (s, Rejected(404, "Resource not found."))
    ensures r.1.Download? <==> Has(s, id) && Get(s, id).value.isActive && (signedIn || Get(s, id).value.visibility != EnrolledOnly)
    ensures Has(s, id) && Get(s, id).value.isActive && !signedIn && Get(s, id).value.visibility == EnrolledOnly ==>
              r == (s, Rejected(401, "Login required to download this resource."))
    ensures r.1.Download? ==>
              var before := Get(s, id).value;
              && Get(r.0, id) == Some(before.(downloads := before.downloads + 1))
              && r.1 == Download(before.fileUrl, before.fileName)
    ensures forall other :: other != id ==> Get(r.0, other) == Get(s, other)
    ensures !r.1.Download? ==> r.0 == s
  {
    match Get(s, id)
    case None => (s, Rejected(404, "Resource not found."))
    case Some(res) =>
      if !res.isActive then (s, Rejected(404, "Resource not found."))
      else if res.visibility == EnrolledOnly && !signedIn then (s, Rejected(401, "Login required to download this resource."))
      else (Set(s, id, res.(downloads := res.downloads + 1)), Download(res.fileUrl, res.fileName))
  }

  /** `DELETE /api/resources/:id`: clears `isActive` only, and answers success even for an unknown id. */
  function DeleteResource(s: Collection<Resource>, id: Id): (r: (Collection<Resource>, Reply))
    ensures r.1 == Done("Resource deleted.")
    ensures Has(s, id) ==> Get(r.0, id) == Some(Get(s, id).value.(isActive := false))
    ensures !Has(s, id) ==> r.0 == s
    ensures forall other :: other != id ==> Get(r.0, other) == Get(s, other)
  {
    match Get(s, id)
    case None => (s, Done("Resource deleted."))
    case Some(res) => (Set(s, id, res.(isActive := false)), Done("Resource deleted."))
  }

  /** A deleted resource can no longer be downloaded, and deleting twice is deleting once. */
  lemma DeleteHides(s: Collection<Resource>, id: Id, signedIn: bool)
    ensures DownloadResource(DeleteResource(s, id).0, id, signedIn).1 == Rejected(404, "Resource not found.")
    ensures DeleteResource(DeleteResource(s, id).0, id).0 == DeleteResource(s, id).0
  {
    if Has(s, id) {
      var res := Get(s, id).value;
      SetSet(s, id, res.(isActive := false), res.(isActive := false));
    }
  }

  /** A deleted resource drops out of every listing. */
  lemma DeletedNotListed(s: Collection<Resource>, id: Id, signedIn: bool, category: Option<string>)
    requires DistinctIds(s) && Has(s, id)
    ensures Get(DeleteResource(s, id).0, id).value !in List(DeleteResource(s, id).0, signedIn, category)
  {
  }
}
