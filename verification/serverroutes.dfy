/** The Express routes of api/server.js as pure decisions: the file system,
    the workbook reader and the request become inputs, and each route returns
    the response it sends (and, for delete, whether it unlinks the file). */
module ServerRoutes {
  import opened Wrappers
  import opened Cells
  import opened Sheets
  import opened Filenames
  import opened JsStrings
  import opened FileListing

  /** `GET /api/files`: the listing, or a 500 when a file-system call throws. */
  datatype ListResponse = Files(files: seq<FileInfo>) | ListFailed

  /** `GET /api/files` over the directory as `readdirSync` and `statSync` see it
      (`None`: `readdirSync` throws). Only kept names are stat-ed, so the route
      fails exactly when the directory cannot be read or a kept entry cannot be
      stat-ed. */
  function ListFilesRoute(dir: Option<seq<DirEntry>>): (resp: ListResponse)
    ensures resp.ListFailed? <==>
              dir.None? || exists e | e in dir.value :: HasXlsxSuffix(e.name) && e.stat.None?
  {
    if dir.None? then ListFailed
    else
      var kept := KeepNames(dir.value, HasXlsxSuffix);
      match StatAll(kept)
      case None =>
        var i :| 0 <= i < |kept| && kept[i].stat.None?;
        assert kept[i] in kept;
        ListFailed
      case Some(infos) =>
        assert forall e | e in dir.value && HasXlsxSuffix(e.name) :: e.stat.Some? by {
          forall e | e in dir.value && HasXlsxSuffix(e.name) ensures e.stat.Some? {
            KeptMembership(dir.value, HasXlsxSuffix, e);
            var i :| 0 <= i < |kept| && kept[i] == e;
          }
        }
        Files(SortByMtime(infos))
  }

  /** The listing holds exactly the `.xlsx` entries (in any letter case), each
      with its own size and time, and nothing else. */
  lemma ListFilesRouteContents(dir: Option<seq<DirEntry>>)
    requires ListFilesRoute(dir).Files?
    ensures var files := ListFilesRoute(dir).files;
            && (forall f | f in files :: HasXlsxSuffix(f.name))
            && (forall e | e in dir.value && HasXlsxSuffix(e.name) :: Info(e) in files)
            && |files| == |KeepNames(dir.value, HasXlsxSuffix)|
  {
    var files := ListFilesRoute(dir).files;
    forall f | f in files ensures HasXlsxSuffix(f.name) {
      ListedNamesPass(dir.value, HasXlsxSuffix, f);
    }
    forall e | e in dir.value && HasXlsxSuffix(e.name) ensures Info(e) in files {
      PassingEntriesListed(dir.value, HasXlsxSuffix, e);
    }
    var infos := StatAll(KeepNames(dir.value, HasXlsxSuffix)).value;
    assert |files| == |multiset(files)| == |multiset(infos)| == |infos|;
  }

  /** The listing is a permutation of the stat-ed `.xlsx` entries, ordered most
      recent first and stable for equal times. */
  lemma ListFilesRouteOrdered(dir: Option<seq<DirEntry>>, t: real)
    requires ListFilesRoute(dir).Files?
    ensures multiset(ListFilesRoute(dir).files) == multiset(StatAll(KeepNames(dir.value, HasXlsxSuffix)).value)
    ensures SortedByMtime(ListFilesRoute(dir).files)
    ensures WithMtime(ListFilesRoute(dir).files, t) == WithMtime(StatAll(KeepNames(dir.value, HasXlsxSuffix)).value, t)
  {
    var infos := StatAll(KeepNames(dir.value, HasXlsxSuffix)).value;
    SortByMtimeSorted(infos);
    SortByMtimeStable(infos, t);
  }

  /** `GET /api/files/:name/parsed`. */
  datatype ParsedResponse = BadFilename | NotFound | ParseFailed(message: string) | ParsedOk(file: string, data: Parsed)

  function ParsedStatus(resp: ParsedResponse): int {
    match resp
    case BadFilename => 400
    case NotFound => 404
    case ParseFailed(_) => 500
    case ParsedOk(_, _) => 200
  }

  /** The parsed route: the name is checked before the file system is asked
      whether it exists, and the workbook is read only after both checks.
      `load` is `XLSX.readFile` on the joined path (`Err`: it throws). */
  function ParsedRoute(name: string, present: bool, load: Result<Workbook>, co: Coercion): (resp: ParsedResponse)
    ensures ParsedStatus(resp) == 400 <==> !IsAllowedName(name)
    ensures ParsedStatus(resp) == 404 <==> IsAllowedName(name) && !present
    ensures ParsedStatus(resp) == 500 <==> IsAllowedName(name) && present && load.Err?
    ensures ParsedStatus(resp) == 200 <==> IsAllowedName(name) && present && load.Ok?
    ensures resp.ParseFailed? ==> resp.message == load.message
    ensures resp.ParsedOk? ==> resp.file == name && resp.data == ParseWorkbook(load.value, co)
  {
    if !IsAllowedName(name) then BadFilename
    else if !present then NotFound
    else match load
      case Err(m) => ParseFailed(m)
      case Ok(wb) => ParsedOk(name, ParseWorkbook(wb, co))
  }

  /** `GET /api/files/:name/raw`. */
  datatype RawResponse = RawBadFilename | RawNotFound | Stream(file: string)

  /** The raw route: same guard and order, then the file is streamed. */
  function RawRoute(name: string, present: bool): (resp: RawResponse)
    ensures resp.RawBadFilename? <==> !IsAllowedName(name)
    ensures resp.RawNotFound? <==> IsAllowedName(name) && !present
    ensures resp.Stream? ==> resp.file == name && StaysInDirectory(name)
  {
    if !IsAllowedName(name) then RawBadFilename
    else if !present then RawNotFound
    else
      AllowedNameStaysInDirectory(name);
      Stream(name)
  }

  /** `POST /api/upload`: 400 without a file; a 500 from Express's error
      handler when multer cannot write the file; else the stored name. */
  datatype UploadResponse = NoFile | WriteFailed | Saved(stored: string)

  /** The upload route after multer. `None` stands both for a request with no
      file part and for a file part without a filename, since multer sets no
      `req.file` in either case. `originalName` is the name multer hands the
      filename callback. `writes(n)` says whether writing the data directory's
      entry `n` succeeds; it fails, for instance, on a read-only file system.
      The stored name is the sanitised original name. */
  function UploadRoute(originalName: Option<string>, writes: string -> bool): (resp: UploadResponse)
    ensures resp.NoFile? <==> originalName.None?
    ensures resp.WriteFailed? <==> originalName.Some? && !writes(Sanitize(originalName.value))
    ensures resp.Saved? ==> resp.stored == Sanitize(originalName.value) && writes(resp.stored)
    ensures resp.Saved? ==> IsCleanName(resp.stored) && |resp.stored| <= |originalName.value|
    ensures resp.Saved? ==> '/' !in resp.stored && '\\' !in resp.stored
    ensures resp.Saved? && IsCleanName(originalName.value) ==> resp.stored == originalName.value
  {
    match originalName
    case None => NoFile
    case Some(n) =>
      SanitizedNameHasNoSeparator(n);
      SanitizeIsClean(n);
      SanitizeFixedPointIff(n);
      if writes(Sanitize(n)) then Saved(Sanitize(n)) else WriteFailed
  }

  /** A credential as Express hands it over: missing, a string, or some other
      truthy value (an array of repeated query parameters, an object). */
  datatype Credential = Missing | Given(text: string) | NonString

  predicate Truthy(c: Credential) {
    c.NonString? || (c.Given? && c.text != "")
  }

  /** `req.headers['x-admin-pass'] || req.query.password || (req.body && req.body.password)`:
      the first truthy one, else the last. */
  function SuppliedPass(header: Credential, query: Credential, body: Credential): (c: Credential)
    ensures c == header || c == query || c == body
    ensures Truthy(c) <==> Truthy(header) || Truthy(query) || Truthy(body)
    ensures Truthy(header) ==> c == header
    ensures !Truthy(header) && Truthy(query) ==> c == query
  {
    if Truthy(header) then header else if Truthy(query) then query else body
  }

  const DefaultAdminPass: string := "change-this-password"

  /** `process.env.DELETE_PASS || 'change-this-password'`: an unset or empty
      variable falls back to the default, so the password is never empty. */
  function AdminPass(env: Option<string>): (p: string)
    ensures |p| > 0
    ensures env.Some? && env.value != "" ==> p == env.value
    ensures env.None? || env.value == "" ==> p == DefaultAdminPass
  {
    if env.Some? && env.value != "" then env.value else DefaultAdminPass
  }

  /** `DELETE /api/files/:name`. */
  datatype DeleteResponse = Forbidden | DeleteBadFilename | DeleteNotFound | Deleted(file: string)

  function DeleteStatus(resp: DeleteResponse): int {
    match resp
    case Forbidden => 403
    case DeleteBadFilename => 400
    case DeleteNotFound => 404
    case Deleted(_) => 200
  }

  /** The delete route: the password first (`!==` against the admin password),
      then the name, then existence; the file is unlinked only after all three. */
  function DeleteRoute(env: Option<string>, header: Credential, query: Credential, body: Credential,
                       name: string, present: bool): (resp: DeleteResponse)
    ensures DeleteStatus(resp) == 403 <==> SuppliedPass(header, query, body) != Given(AdminPass(env))
    ensures DeleteStatus(resp) == 400 <==>
              SuppliedPass(header, query, body) == Given(AdminPass(env)) && !IsAllowedName(name)
    ensures DeleteStatus(resp) == 404 <==>
              SuppliedPass(header, query, body) == Given(AdminPass(env)) && IsAllowedName(name) && !present
    ensures resp.Deleted? <==>
              SuppliedPass(header, query, body) == Given(AdminPass(env)) && IsAllowedName(name) && present
    ensures resp.Deleted? ==> resp.file == name && StaysInDirectory(name)
  {
    if SuppliedPass(header, query, body) != Given(AdminPass(env)) then Forbidden
    else if !IsAllowedName(name) then DeleteBadFilename
    else if !present then DeleteNotFound
    else
      AllowedNameStaysInDirectory(name);
      Deleted(name)
  }

  /** Without any non-empty credential nothing is deleted, whatever the name
      and the configured password. */
  lemma NoCredentialNoDelete(env: Option<string>, header: Credential, query: Credential, body: Credential,
                             name: string, present: bool)
    requires !Truthy(header) && !Truthy(query) && !Truthy(body)
    ensures DeleteRoute(env, header, query, body, name, present) == Forbidden
  {
    assert |AdminPass(env)| > 0;
  }

  /** With the variable unset or empty, the default password deletes an
      existing, well-named file. */
  lemma DefaultPasswordDeletes(name: string)
    requires IsAllowedName(name)
    ensures DeleteRoute(None, Given(DefaultAdminPass), Missing, Missing, name, true) == Deleted(name)
    ensures DeleteRoute(Some(""), Missing, Missing, Given(DefaultAdminPass), name, true) == Deleted(name)
  {
  }
}
