/** `GET` of web/src/app/api/excel/route.ts: the uploads directory listed with
    one download URL per spreadsheet. */
module ExcelRoute {
  import opened Wrappers
  import opened JsStrings
  import opened FileListing

  /** `/\.(xlsx|xls)$/i.test(name)`: the last five characters, lower-cased, are
      `.xlsx`, or the last four are `.xls`. Folding ASCII letters is enough here:
      without the `u` flag the `i` flag canonicalises by upper-casing and never
      maps a non-ASCII character to an ASCII one, so no non-ASCII character
      matches the pattern's letters. */
  predicate IsExcelName(name: string)
    ensures IsExcelName(name) <==>
              || (|name| >= 5 && Lower(name[|name| - 5..]) == ".xlsx")
              || (|name| >= 4 && Lower(name[|name| - 4..]) == ".xls")
  {
    LowerSuffix(name, 5);
    LowerSuffix(name, 4);
    EndsWith(Lower(name), ".xlsx") || EndsWith(Lower(name), ".xls")
  }

  /** The inner `try`: read the directory and stat every spreadsheet; any
      failure leaves the list empty. Then the list is sorted, most recent
      first. */
  function ExcelFiles(dir: Option<seq<DirEntry>>): (files: seq<FileInfo>)
    ensures dir.None? ==> files == []
    ensures dir.Some? && (exists e | e in dir.value :: IsExcelName(e.name) && e.stat.None?) ==> files == []
  {
    if dir.None? then []
    else
      var kept := KeepNames(dir.value, IsExcelName);
      assert forall e | e in dir.value && IsExcelName(e.name) :: e in kept by {
        forall e | e in dir.value && IsExcelName(e.name) ensures e in kept {
          assert e in multiset(dir.value);
        }
      }
      match StatAll(kept)
      case None => SortByMtime([])
      case Some(infos) =>
        assert forall e | e in kept :: e.stat.Some? by {
          forall e | e in kept ensures e.stat.Some? {
            var i :| 0 <= i < |kept| && kept[i] == e;
          }
        }
        SortByMtime(infos)
  }

  /** The request URL's `protocol` (with its colon) and `host`. */
  datatype RequestUrl = RequestUrl(protocol: string, host: string)

  /** `NEXT_PUBLIC_BASE_URL?.replace(/\/+$/, "") || `${protocol}//${host}``. */
  function BaseUrl(env: Option<string>, req: RequestUrl): (base: string)
    ensures env.Some? && StripTrailingSlashes(env.value) != "" ==>
              base == StripTrailingSlashes(env.value) && base[|base| - 1] != '/'
    ensures env.None? || StripTrailingSlashes(env.value) == "" ==> base == req.protocol + "//" + req.host
  {
    var envBase := if env.Some? then StripTrailingSlashes(env.value) else "";
    if envBase != "" then envBase else req.protocol + "//" + req.host
  }

  /** One element of the response: `mtime` rendered by `toISOString`. */
  datatype Listed = Listed(name: string, size: nat, mtime: string, url: string)

  /** The route's answer: the listing, or a 500 when `new URL(req.url)` throws. */
  datatype ExcelResponse = ExcelFilesOk(files: seq<Listed>) | ExcelFailed

  const FilesPath: string := "/api/files/"

  /** The route. `encode` stands for `encodeURIComponent` and `iso` for
      `Date.prototype.toISOString`; `req` is `None` when the request URL does
      not parse. */
  function Get(dir: Option<seq<DirEntry>>, env: Option<string>, req: Option<RequestUrl>,
               encode: string -> string, iso: real -> string): (resp: ExcelResponse)
    ensures resp.ExcelFailed? <==> req.None?
    ensures resp.ExcelFilesOk? ==>
              var files := ExcelFiles(dir);
              var base := BaseUrl(env, req.value);
              && |resp.files| == |files|
              && forall i | 0 <= i < |files| ::
                   && resp.files[i].name == files[i].name
                   && resp.files[i].size == files[i].size
                   && resp.files[i].mtime == iso(files[i].mtime)
                   && resp.files[i].url == base + FilesPath + encode(files[i].name)
  {
    var files := ExcelFiles(dir);
    match req
    case None => ExcelFailed
    case Some(r) =>
      var base := BaseUrl(env, r);
      ExcelFilesOk(seq(|files|, i requires 0 <= i < |files| =>
        Listed(files[i].name, files[i].size, iso(files[i].mtime), base + FilesPath + encode(files[i].name))))
  }

  /** When the directory reads cleanly, the listing holds exactly its
      spreadsheets, most recent first, ties in directory order. */
  lemma ExcelFilesContents(entries: seq<DirEntry>, t: real)
    requires forall e | e in entries && IsExcelName(e.name) :: e.stat.Some?
    ensures var files := ExcelFiles(Some(entries));
            && (forall f | f in files :: IsExcelName(f.name))
            && (forall e | e in entries && IsExcelName(e.name) :: Info(e) in files)
            && multiset(files) == multiset(StatAll(KeepNames(entries, IsExcelName)).value)
            && SortedByMtime(files)
            && WithMtime(files, t) == WithMtime(StatAll(KeepNames(entries, IsExcelName)).value, t)
  {
    var kept := KeepNames(entries, IsExcelName);
    assert StatAll(kept).Some? by {
      forall i | 0 <= i < |kept| ensures kept[i].stat.Some? {
        assert kept[i] in kept;
        KeptMembership(entries, IsExcelName, kept[i]);
      }
    }
    var infos := StatAll(kept).value;
    var files := SortByMtime(infos);
    assert files == ExcelFiles(Some(entries));
    forall f | f in files ensures IsExcelName(f.name) {
      ListedNamesPass(entries, IsExcelName, f);
    }
    forall e | e in entries && IsExcelName(e.name) ensures Info(e) in files {
      PassingEntriesListed(entries, IsExcelName, e);
    }
    SortByMtimeSorted(infos);
    SortByMtimeStable(infos, t);
  }

  /** This route also lists legacy `.xls` workbooks, in any letter case. */
  lemma ExcelNameExamples()
    ensures IsExcelName("old.XLS") && IsExcelName("new.xlsx")
    ensures !IsExcelName("notes.xlsm") && !IsExcelName("xlsx")
  {
    var legacy := Lower("old.XLS");
    assert legacy[3..] == ".xls";
    assert Lower("new.xlsx")[3..] == ".xlsx";
    var notes := Lower("notes.xlsm");
    assert notes[|notes| - 1] == 'm';
    var bare := Lower("xlsx");
    assert |bare| == 4 && bare[0] == 'x';
  }

  /** A base URL configured with trailing slashes, or only slashes, behaves as
      the stripped value, or as the request's own origin. */
  lemma BaseUrlExamples(req: RequestUrl)
    ensures BaseUrl(Some("https://x.io//"), req) == "https://x.io"
    ensures BaseUrl(Some("///"), req) == req.protocol + "//" + req.host
  {
    StripTrailingSlashesEmptyIff("///");
    var s := "https://x.io//";
    var s1 := "https://x.io/";
    var s2 := "https://x.io";
    assert s[..|s| - 1] == s1 && s1[..|s1| - 1] == s2;
    assert StripTrailingSlashes(s2) == s2;
    assert StripTrailingSlashes(s1) == s2;
    assert StripTrailingSlashes(s) == s2;
  }
}
