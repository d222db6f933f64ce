/**
  The file library kept in the JSON record store: the upload filter on file
  extensions, the public, enrolled and admin listings, upload of a file or a
  URL, the download counter, deletion and metadata update.

  Every handler except the public listing and download sits behind the
  `protect` and `adminOnly` guards (see the Guards module); the functions here
  describe what happens once the guards have let the request through.
 */
module Files {
  import opened Common
  import Strings
  import Seqs
  import opened JsonStore
  import Users

  /** The alternatives of the upload filter's pattern. */
  const FileTypes: seq<string> :=
    ["pdf", "doc", "docx", "ppt", "pptx", "xls", "xlsx", "jpg", "jpeg", "png",
     "gif", "webp", "mp4", "zip", "rar", "txt"]

  /** multer's upload limit: 50 MiB. */
  const MaxUploadBytes := 50 * 1024 * 1024

  /**
    The `fileFilter`: the lower-cased extension without its dot, tested
    against the unanchored alternation, so any extension CONTAINING a listed
    type name passes.
   */
  predicate AcceptsUpload(originalName: string) {
    Strings.ContainsAny(Strings.Extension(originalName), FileTypes)
  }

  /** For `stem.ext`, the filter looks at the extension alone, in lower case. */
  lemma AcceptsUploadOfDotted(stem: string, ext: string)
    requires stem != "" && ext != ""
    requires '/' !in stem && '/' !in ext && '.' !in ext
    ensures AcceptsUpload(stem + "." + ext) <==> Strings.ContainsAny(Strings.Lower(ext), FileTypes)
  {
    Strings.ExtensionOfDotted(stem, ext);
  }

  /** The filter ignores letter case in the extension. */
  lemma AcceptsUploadIgnoresCase(stem: string, ext: string)
    requires stem != "" && ext != ""
    requires '/' !in stem && '/' !in ext && '.' !in ext
    ensures AcceptsUpload(stem + "." + ext) <==> AcceptsUpload(stem + "." + Strings.Lower(ext))
  {
    Strings.LowerKeeps(ext, '.');
    Strings.LowerKeeps(ext, '/');
    AcceptsUploadOfDotted(stem, ext);
    AcceptsUploadOfDotted(stem, Strings.Lower(ext));
    Strings.LowerIdempotent(ext);
  }

  /**
    The pattern is unanchored: an extension that starts with a listed type
    name passes whatever follows it (`report.pdfx`, `clip.mp4.part` aside).
   */
  lemma AcceptsAnyExtensionStartingWithType(stem: string, k: nat, tail: string)
    requires k < |FileTypes|
    requires stem != "" && '/' !in stem && '/' !in tail && '.' !in tail
    ensures AcceptsUpload(stem + "." + FileTypes[k] + tail)
  {
    var t := FileTypes[k];
    assert forall j :: 0 <= j < |FileTypes| ==>
      ('.' !in FileTypes[j] && '/' !in FileTypes[j] && Strings.Lower(FileTypes[j]) == FileTypes[j]);
    var ext := t + tail;
    assert '.' !in ext && '/' !in ext;
    assert stem + "." + FileTypes[k] + tail == stem + "." + ext;
    AcceptsUploadOfDotted(stem, ext);
    Strings.LowerAppend(t, tail);
    assert Strings.OccursAt(Strings.Lower(ext), t, 0);
  }

  /** A name without an extension is refused. */
  lemma RefusesNoExtension(name: string)
    requires '.' !in name && '/' !in name
    ensures !AcceptsUpload(name)
  {
    assert Strings.StripTrailing(name, '/') == name;
    assert Strings.LastSegment(name, '/') == name;
    assert Strings.ExtName(name) == "";
    assert Strings.Extension(name) == "";
  }

  // ---------------------------------------------------------------------------
  // Listings

  /** `f.visibility === v` */
  predicate VisibilityIs(f: Record, v: string) {
    "visibility" in f && f["visibility"] == Str(v)
  }

  predicate IsPublic(f: Record) {
    VisibilityIs(f, "public")
  }

  /** What `/enrolled` shows a user: public files, and `enrolled` ones when the user holds an enrollment. */
  predicate VisibleTo(f: Record, hasEnrollment: bool) {
    VisibilityIs(f, "public") || (VisibilityIs(f, "enrolled") && hasEnrollment)
  }

  /** `GET /api/files/public`: the public records, newest first. */
  function PublicFiles(rows: seq<Record>): (r: seq<Record>)
    ensures forall x :: x in r <==> x in rows && IsPublic(x)
  {
    var kept := FindMany(rows, IsPublic);
    Seqs.ReverseMembers(kept);
    Seqs.Reverse(kept)
  }

  /** The filter `/enrolled` applies, as a function value. */
  function ShownTo(hasEnrollment: bool): Record -> bool {
    (f: Record) => VisibleTo(f, hasEnrollment)
  }

  /** `GET /api/files/enrolled` for a user with ledger `ledger`: the visible records, newest first. */
  function EnrolledFiles(rows: seq<Record>, ledger: seq<Users.Enrollment>): (r: seq<Record>)
    ensures forall x :: x in r <==> x in rows && VisibleTo(x, |ledger| > 0)
    ensures forall x :: multiset(r)[x] == if VisibleTo(x, |ledger| > 0) then multiset(rows)[x] else 0
  {
    var kept := Seqs.Filter(rows, ShownTo(|ledger| > 0));
    Seqs.ReverseMembers(kept);
    Seqs.FilterMultiset(rows, ShownTo(|ledger| > 0));
    Seqs.ReverseMultiset(kept);
    Seqs.Reverse(kept)
  }

  /** `GET /api/files/all`: every record, newest first. */
  function AllFiles(rows: seq<Record>): (r: seq<Record>)
    ensures |r| == |rows|
    ensures forall k :: 0 <= k < |rows| ==> r[k] == rows[|rows| - 1 - k]
  {
    Seqs.Reverse(rows)
  }

  /** A newly appended public record heads the public listing; any other record leaves it as it was. */
  lemma PublicFilesNewestFirst(rows: seq<Record>, f: Record)
    ensures PublicFiles(rows + [f]) == (if IsPublic(f) then [f] else []) + PublicFiles(rows)
  {
    var tail := Seqs.Filter([f], IsPublic);
    assert tail == (if IsPublic(f) then [f] else []);
    Seqs.FilterAppend(rows, [f], IsPublic);
    Seqs.ReverseAppend(Seqs.Filter(rows, IsPublic), tail);
    assert Seqs.Reverse(tail) == tail;
  }

  /** A newly appended visible record heads the enrolled listing; any other record leaves it as it was. */
  lemma EnrolledFilesNewestFirst(rows: seq<Record>, ledger: seq<Users.Enrollment>, f: Record)
    ensures EnrolledFiles(rows + [f], ledger) ==
              (if VisibleTo(f, |ledger| > 0) then [f] else []) + EnrolledFiles(rows, ledger)
  {
    var p := ShownTo(|ledger| > 0);
    var tail := Seqs.Filter([f], p);
    assert tail == (if VisibleTo(f, |ledger| > 0) then [f] else []);
    Seqs.FilterAppend(rows, [f], p);
    Seqs.ReverseAppend(Seqs.Filter(rows, p), tail);
    assert Seqs.Reverse(tail) == tail;
  }

  /** Without an enrollment a user sees exactly the public listing, in the same order. */
  lemma EnrolledFilesWithoutEnrollment(rows: seq<Record>)
    ensures EnrolledFiles(rows, []) == PublicFiles(rows)
  {
    Seqs.FilterCongruent(rows, ShownTo(false), IsPublic);
  }

  /** Enrollment only adds: every public file is listed for everyone, and no other visibility ever is. */
  lemma EnrolledFilesBounds(rows: seq<Record>, ledger: seq<Users.Enrollment>, f: Record)
    ensures f in PublicFiles(rows) ==> f in EnrolledFiles(rows, ledger)
    ensures f in EnrolledFiles(rows, ledger) ==> VisibilityIs(f, "public") || VisibilityIs(f, "enrolled")
    ensures |ledger| > 0 && f in rows && VisibilityIs(f, "enrolled") ==> f in EnrolledFiles(rows, ledger)
  {
  }

  // ---------------------------------------------------------------------------
  // Upload and add-url

  /** The text fields of an upload or add-url form. */
  datatype Form = Form(
    title: Option<string>, category: Option<string>, visibility: Option<string>,
    description: Option<string>, url: Option<string>)

  /** The file multer received: original name, the name it was stored under, size in bytes. */
  datatype Upload = Upload(originalName: string, storedName: string, size: nat)

  datatype Reply =
    | Created(file: Record)
    | Downloaded(url: Option<Value>, downloads: Value)
    | Removed
    | Updated(file: Record)
    | Rejected(status: int, error: string)
    | ServerError

  /** `process.env.BASE_URL || \`http://localhost:${process.env.PORT || 5000}\`` */
  function BaseUrl(baseUrl: Option<string>, port: Option<string>): string {
    OrElse(baseUrl, "http://localhost:" + OrElse(port, "5000"))
  }

  /** `url.split('/').pop() || title` */
  function NameFromUrl(url: string, title: string): (r: string)
    ensures r == title || ('/' !in r && r != "" && |r| <= |url| && url[|url| - |r|..] == r)
    ensures '/' !in url && url != "" ==> r == url
    ensures url == "" || url[|url| - 1] == '/' ==> r == title
    ensures url != "" && url[|url| - 1] != '/' ==>
              && '/' !in r && |r| <= |url| && url[|url| - |r|..] == r
              && (|r| == |url| || url[|url| - |r| - 1] == '/')
  {
    var last := Strings.LastSegment(url, '/');
    if last != "" then last else title
  }

  /** The record both handlers insert, with the defaults for absent fields. */
  function FileRecord(form: Form, url: string, fileName: string, fileSize: int, uploadedBy: string): (r: Record)
    ensures Field(r, "category") == Some(Str(OrElse(form.category, "General")))
    ensures Field(r, "visibility") == Some(Str(OrElse(form.visibility, "public")))
    ensures Field(r, "description") == Some(Str(OrElse(form.description, "")))
    ensures Field(r, "downloads") == Some(Num(0)) && Field(r, "fileSize") == Some(Num(fileSize))
    ensures Field(r, "url") == Some(Str(url)) && Field(r, "fileName") == Some(Str(fileName))
    ensures Field(r, "title") == Some(Str(OrElse(form.title, "")))
    ensures "id" !in r && "createdAt" !in r
  {
    map[
      "title" := Str(OrElse(form.title, "")),
      "category" := Str(OrElse(form.category, "General")),
      "visibility" := Str(OrElse(form.visibility, "public")),
      "description" := Str(OrElse(form.description, "")),
      "url" := Str(url),
      "fileName" := Str(fileName),
      "fileSize" := Num(fileSize),
      "downloads" := Num(0),
      "uploadedBy" := Str(uploadedBy)]
  }

  /** Inserting the record of a file: it is appended, with the given location and the form's title. */
  function Store(rows: seq<Record>, form: Form, url: string, fileName: string, fileSize: int,
                 uploadedBy: string, now: string): (r: (seq<Record>, Reply))
    ensures r.1.Created? && r.0 == rows + [r.1.file]
    ensures Field(r.1.file, "url") == Some(Str(url)) && Field(r.1.file, "fileName") == Some(Str(fileName))
    ensures Field(r.1.file, "fileSize") == Some(Num(fileSize)) && Field(r.1.file, "downloads") == Some(Num(0))
    ensures Field(r.1.file, "title") == Some(Str(OrElse(form.title, "")))
  {
    var (rows1, stored) := Insert(rows, FileRecord(form, url, fileName, fileSize, uploadedBy), now);
    (rows1, Created(stored))
  }

  /**
    `POST /api/files/upload`. `file` is what the client sent; a file the
    filter refuses never reaches the handler, one over the size limit ends
    in the error handler.
   */
  function UploadFile(rows: seq<Record>, form: Form, file: Option<Upload>, baseUrl: string,
                      uploadedBy: string, now: string): (r: (seq<Record>, Reply))
    ensures !r.1.Created? ==> r.0 == rows
    ensures r.1.Created? ==> r.0 == rows + [r.1.file]
    ensures file.Some? && file.value.size > MaxUploadBytes && AcceptsUpload(file.value.originalName) ==> r.1 == ServerError
    ensures r.1.Created? ==> Filled(form.title) && Field(r.1.file, "title") == Some(Str(form.title.value))
    ensures !Filled(form.title) && !(file.Some? && file.value.size > MaxUploadBytes && AcceptsUpload(file.value.originalName))
            ==> r.1 == Rejected(400, "Title is required.")
    ensures r.1.Created? ==>
              if file.Some? && AcceptsUpload(file.value.originalName) then
                && Field(r.1.file, "url") == Some(Str(baseUrl + "/uploads/" + file.value.storedName))
                && Field(r.1.file, "fileName") == Some(Str(file.value.originalName))
                && Field(r.1.file, "fileSize") == Some(Num(file.value.size))
              else
                && Filled(form.url)
                && Field(r.1.file, "url") == Some(Str(form.url.value))
                && Field(r.1.file, "fileName") == Some(Str(NameFromUrl(form.url.value, form.title.value)))
                && Field(r.1.file, "fileSize") == Some(Num(0))
    ensures r.1.Rejected? && Filled(form.title) ==>
              r.1 == Rejected(400, "No file or URL provided.") && !Filled(form.url)
              && !(file.Some? && AcceptsUpload(file.value.originalName))
  {
    var received := if file.Some? && AcceptsUpload(file.value.originalName) then file else None;
    if received.Some? && received.value.size > MaxUploadBytes then (rows, ServerError)
    else if !Filled(form.title) then (rows, Rejected(400, "Title is required."))
    else if received.Some? then
      var f := received.value;
      Store(rows, form, baseUrl + "/uploads/" + f.storedName, f.originalName, f.size, uploadedBy, now)
    else if Filled(form.url) then
      Store(rows, form, form.url.value, NameFromUrl(form.url.value, form.title.value), 0, uploadedBy, now)
    else (rows, Rejected(400, "No file or URL provided."))
  }

  /** `POST /api/files/add-url` */
  function AddUrl(rows: seq<Record>, form: Form, uploadedBy: string, now: string): (r: (seq<Record>, Reply))
    ensures r.1.Created? <==> Filled(form.title) && Filled(form.url)
    ensures !r.1.Created? ==> r == (rows, Rejected(400, "Title and URL are required."))
    ensures r.1.Created? ==>
              && r.0 == rows + [r.1.file]
              && Field(r.1.file, "url") == Some(Str(form.url.value))
              && Field(r.1.file, "fileName") == Some(Str(NameFromUrl(form.url.value, form.title.value)))
              && Field(r.1.file, "fileSize") == Some(Num(0)) && Field(r.1.file, "downloads") == Some(Num(0))
  {
    if !Filled(form.title) || !Filled(form.url) then (rows, Rejected(400, "Title and URL are required."))
    else
      Store(rows, form, form.url.value, NameFromUrl(form.url.value, form.title.value), 0, uploadedBy, now)
  }

  /** Uploading a file the filter refuses is the same request without the file. */
  lemma RefusedFileIgnored(rows: seq<Record>, form: Form, file: Upload, baseUrl: string, uploadedBy: string, now: string)
    requires !AcceptsUpload(file.originalName)
    ensures UploadFile(rows, form, Some(file), baseUrl, uploadedBy, now) == UploadFile(rows, form, None, baseUrl, uploadedBy, now)
  {
  }

  /** A URL-only upload stores the same record as add-url. */
  lemma UploadUrlIsAddUrl(rows: seq<Record>, form: Form, baseUrl: string, uploadedBy: string, now: string)
    requires Filled(form.title) && Filled(form.url)
    ensures UploadFile(rows, form, None, baseUrl, uploadedBy, now) == AddUrl(rows, form, uploadedBy, now)
  {
  }

  // ---------------------------------------------------------------------------
  // Download, delete, update

  /** `(file.downloads || 0) + 1` with JavaScript's `+`: a non-empty string gets "1" appended. */
  function PlusOne(downloads: Option<Value>): (r: Value)
    ensures downloads.Some? && downloads.value.Num? ==> r == Num(downloads.value.n + 1)
    ensures downloads.None? || !Truthy(downloads.value) ==> r == Num(1)
  {
    if downloads.None? || !Truthy(downloads.value) then Num(1)
    else match downloads.value
      case Num(n) => Num(n + 1)
      case Str(s) => Str(s + "1")
      case Bool(_) => Num(2)
      case Null => Num(1)
  }

  function Field(r: Record, key: string): Option<Value> {
    if key in r then Some(r[key]) else None
  }

  /**
    `POST /api/files/:id/download`: anyone may download; an `enrolled` file
    only needs SOME Authorization header, which is never checked.
   */
  function Download(rows: seq<Record>, id: string, authorization: Option<string>, now: string): (r: (seq<Record>, Reply))
    ensures IndexOfId(rows, id).None? ==> r == (rows, Rejected(404, "File not found."))
    ensures r.1.Rejected? ==> r.0 == rows
    ensures r.1.Rejected? && IndexOfId(rows, id).Some? ==>
              VisibilityIs(rows[IndexOfId(rows, id).value], "enrolled") && OrElse(authorization, "") == ""
              && r.1 == Rejected(401, "Login required to download this file.")
    ensures r.1.Downloaded? ==>
              var k := IndexOfId(rows, id).value;
              && |r.0| == |rows| && (forall j :: 0 <= j < |rows| && j != k ==> r.0[j] == rows[j])
              && "downloads" in r.0[k] && r.0[k]["downloads"] == PlusOne(Field(rows[k], "downloads")) == r.1.downloads
              && (forall key :: key != "downloads" && key != "updatedAt" ==> Field(r.0[k], key) == Field(rows[k], key))
    ensures r.1.Rejected? || r.1.Downloaded?
  {
    match IndexOfId(rows, id)
    case None => (rows, Rejected(404, "File not found."))
    case Some(k) =>
      var f := rows[k];
      if VisibilityIs(f, "enrolled") && OrElse(authorization, "") == "" then
        (rows, Rejected(401, "Login required to download this file."))
      else
        var (rows1, updated) := UpdateById(rows, FieldString(f, "id"), map["downloads" := Some(PlusOne(Field(f, "downloads")))], now);
        assert IndexOfId(rows, FieldString(f, "id")) == Some(k);
        var u := updated.value;
        (rows1, Downloaded(Field(u, "url"), u["downloads"]))
  }

  /** A numeric download counter goes up by exactly one. */
  lemma DownloadCounts(rows: seq<Record>, id: string, authorization: Option<string>, now: string, n: int)
    requires IndexOfId(rows, id).Some?
    requires var f := rows[IndexOfId(rows, id).value]; Field(f, "downloads") == Some(Num(n)) && IsPublic(f)
    ensures Download(rows, id, authorization, now).1 ==
            Downloaded(Field(rows[IndexOfId(rows, id).value], "url"), Num(n + 1))
  {
  }

  /** `DELETE /api/files/:id`: removes the record (and every other one with the same id). */
  function Delete(rows: seq<Record>, id: string): (r: (seq<Record>, Reply))
    ensures IndexOfId(rows, id).None? <==> r.1 == Rejected(404, "File not found.")
    ensures r.1.Rejected? ==> r.0 == rows
    ensures r.1 == Removed ==> FindById(r.0, id).None? && |r.0| < |rows|
    ensures forall x :: x in r.0 <==> x in rows && (r.1 == Removed ==> !HasId(x, id))
  {
    match IndexOfId(rows, id)
    case None => (rows, Rejected(404, "File not found."))
    case Some(k) =>
      var rows1 := RemoveById(rows, FieldString(rows[k], "id")).0;
      RemoveThenFind(rows, id);
      RemoveShrinks(rows, id, k);
      (rows1, Removed)
  }

  lemma {:induction false} RemoveShrinks(rows: seq<Record>, id: string, k: nat)
    requires k < |rows| && HasId(rows[k], id)
    ensures |RemoveById(rows, id).0| < |rows|
    decreases |rows|
  {
    if k > 0 {
      RemoveShrinks(rows[1..], id, k - 1);
      assert rows[1..][k - 1] == rows[k];
    }
  }

  /** The update a `PUT` makes: all four metadata keys, absent ones removed. */
  function MetadataUpdate(form: Form): (u: map<string, Option<Value>>)
    ensures u.Keys == {"title", "category", "visibility", "description"}
  {
    map["title" := StrField(form.title), "category" := StrField(form.category),
        "visibility" := StrField(form.visibility), "description" := StrField(form.description)]
  }

  function StrField(field: Option<string>): Option<Value> {
    if field.Some? then Some(Str(field.value)) else None
  }

  /** `PUT /api/files/:id`: overwrites the four metadata keys; one missing from the request is erased. */
  function Update(rows: seq<Record>, id: string, form: Form, now: string): (r: (seq<Record>, Reply))
    ensures IndexOfId(rows, id).None? <==> r == (rows, Rejected(404, "File not found."))
    ensures r.1.Updated? ==>
              var k := IndexOfId(rows, id).value;
              && r.0 == rows[k := r.1.file]
              && Field(r.1.file, "title") == StrField(form.title)
              && Field(r.1.file, "category") == StrField(form.category)
              && Field(r.1.file, "visibility") == StrField(form.visibility)
              && Field(r.1.file, "description") == StrField(form.description)
              && (forall key :: !(key in MetadataUpdate(form) || key == "updatedAt") ==>
                    Field(r.1.file, key) == Field(rows[k], key))
    ensures r.1.Rejected? || r.1.Updated?
  {
    var (rows1, updated) := UpdateById(rows, id, MetadataUpdate(form), now);
    if updated.None? then (rows, Rejected(404, "File not found."))
    else (rows1, Updated(updated.value))
  }
}
