/**
 * `upload_file` (app.py): the POST handler that checks the upload, saves the
 * file under its sanitised name, extracts its text and indexes it in Solr.
 * The upload folder and the Solr core are the two pieces of state it
 * changes; both are keyed by the sanitised file name.
 */
module Upload {
  import opened Wrappers
  import opened PyStr
  import opened Validation
  import opened Extraction

  /** One part of a multipart upload (werkzeug's `FileStorage`). */
  datatype FileStorage = FileStorage(filename: string, data: Bytes)

  /** The parts of the request the handler reads: its HTTP method and
      `request.files`, keyed by form field name. */
  datatype Request = Request(httpMethod: string, files: map<string, FileStorage>)

  /** Why an upload was turned away, in the order the handler checks. */
  datatype Rejection = NoFilePart | NoSelectedFile | DisallowedType

  /** The exceptions the handler lets escape after the file is saved. */
  datatype Fault = ExtractionFailed | IndexUnavailable

  /** What the handler answers: the form, a redirect with a flashed message,
      or the server error an escaped exception becomes. */
  datatype Response =
    | UploadForm
    | RedirectToRequestUrl(flash: string)
    | RedirectToUploadPage(flash: string)
    | InternalServerError(fault: Fault)

  const NoFilePartMessage := "No file part"
  const NoSelectedFileMessage := "No selected file"
  const UploadedMessage := "File successfully uploaded"

  /** The upload folder (file name to bytes) and the Solr core (document id
      to content). */
  datatype Store = Store(files: map<string, Bytes>, docs: map<string, string>)

  /** What every upload keeps true, for a service that starts on an existing
      folder and Solr core `st0` whose documents were indexed before it ran:
      every document is either stripped text indexed under the name of a
      saved file, or still the one the core held at the start. The text need
      not come from the file's current bytes: a re-upload whose extraction
      fails replaces the file and keeps the old text. */
  ghost predicate IndexBackedSince(st0: Store, st: Store) {
    forall id :: id in st.docs ==>
      (id in st.files && IsStripped(st.docs[id])) ||
      (id in st0.docs && st.docs[id] == st0.docs[id])
  }

  /** The same guarantee for a service that starts with an empty folder and
      an empty core: every document is indexed under the name of a saved file
      and its text is stripped. A saved file without a document is allowed
      (extraction or indexing may fail after the save). */
  ghost predicate IndexBacked(st: Store) {
    IndexBackedSince(Store(map[], map[]), st)
  }

  /** The three checks of a POST, in the handler's order: a `file` part,
      then a non-empty file name, then an allowed extension. The `file and`
      of the third test always holds there, since a `FileStorage` is truthy
      when its file name is non-empty. */
  function Screen(files: map<string, FileStorage>, allowed: set<string>): (verdict: Result<FileStorage, Rejection>)
    ensures verdict == Failure(NoFilePart) <==> "file" !in files
    ensures verdict == Failure(NoSelectedFile) <==> "file" in files && files["file"].filename == ""
    ensures verdict.Success? <==>
      "file" in files && files["file"].filename != "" && AllowedFile(files["file"].filename, allowed)
    ensures verdict.Success? ==> verdict.value == files["file"]
  {
    if "file" !in files then Failure(NoFilePart)
    else if files["file"].filename == "" then Failure(NoSelectedFile)
    else if !AllowedFile(files["file"].filename, allowed) then Failure(DisallowedType)
    else Success(files["file"])
  }

  /** Whether the handler gets past its checks: a POST whose upload passes
      `Screen`. */
  predicate Accepted(req: Request, allowed: set<string>) {
    req.httpMethod == "POST" && Screen(req.files, allowed).Success?
  }

  /** The handler's effect and answer, as a function of the state before it.
      `secureFilename` is werkzeug's `secure_filename`, `tika` the extractor
      and `solrUp` whether Solr accepts the `add`. */
  function UploadOutcome(st: Store, req: Request, allowed: set<string>,
                         secureFilename: string -> string,
                         tika: Bytes -> Option<string>, solrUp: bool): (out: (Store, Response))
    ensures !Accepted(req, allowed) ==> out.0 == st
    ensures Accepted(req, allowed) ==>
      var file := req.files["file"];
      out.0.files == st.files[secureFilename(file.filename) := file.data]
    ensures IndexBacked(st) ==> IndexBacked(out.0)
    ensures forall st0 :: IndexBackedSince(st0, st) ==> IndexBackedSince(st0, out.0)
  {
    if req.httpMethod != "POST" then (st, UploadForm)
    else match Screen(req.files, allowed)
      case Failure(NoFilePart) => (st, RedirectToRequestUrl(NoFilePartMessage))
      case Failure(NoSelectedFile) => (st, RedirectToRequestUrl(NoSelectedFileMessage))
      case Failure(DisallowedType) => (st, UploadForm)
      case Success(file) =>
        var name := secureFilename(file.filename);
        var saved := st.(files := st.files[name := file.data]);
        match ExtractTextTika(tika, saved.files[name])
        case None => (saved, InternalServerError(ExtractionFailed))
        case Some(text) =>
          if !solrUp then (saved, InternalServerError(IndexUnavailable))
          else (saved.(docs := saved.docs[name := text]), RedirectToUploadPage(UploadedMessage))
  }

  /** The answers, check by check: a GET gets the form; a POST is refused
      first for a missing `file` part, then for an empty file name (both
      redirect back with a flashed message), then for a disallowed extension
      (the form again, with no message). */
  lemma RejectionResponses(st: Store, req: Request, allowed: set<string>,
                           secureFilename: string -> string,
                           tika: Bytes -> Option<string>, solrUp: bool)
    ensures var out := UploadOutcome(st, req, allowed, secureFilename, tika, solrUp);
      (req.httpMethod != "POST" ==> out == (st, UploadForm)) &&
      (req.httpMethod == "POST" && "file" !in req.files ==>
         out == (st, RedirectToRequestUrl(NoFilePartMessage))) &&
      (req.httpMethod == "POST" && "file" in req.files && req.files["file"].filename == "" ==>
         out == (st, RedirectToRequestUrl(NoSelectedFileMessage))) &&
      (req.httpMethod == "POST" && "file" in req.files && req.files["file"].filename != "" &&
       !AllowedFile(req.files["file"].filename, allowed) ==>
         out == (st, UploadForm))
  {
  }

  /** An accepted upload is saved first; its text is then taken from the
      bytes just saved, and the document is indexed under the very name the
      file was saved under, with Tika's content stripped. The success
      redirect is given exactly when the document was indexed; otherwise
      the saved file stays and the index is untouched. */
  lemma AcceptedUploadIndexesUnderSavedName(st: Store, req: Request, allowed: set<string>,
                                            secureFilename: string -> string,
                                            tika: Bytes -> Option<string>, solrUp: bool)
    requires Accepted(req, allowed)
    ensures var out := UploadOutcome(st, req, allowed, secureFilename, tika, solrUp);
      var file := req.files["file"];
      var name := secureFilename(file.filename);
      var content := tika(file.data);
      out.0.files == st.files[name := file.data] &&
      (content.Some? && solrUp ==>
         out.0.docs == st.docs[name := Strip(content.value)] &&
         out.1 == RedirectToUploadPage(UploadedMessage)) &&
      (content.None? ==>
         out.0.docs == st.docs && out.1 == InternalServerError(ExtractionFailed)) &&
      (content.Some? && !solrUp ==>
         out.0.docs == st.docs && out.1 == InternalServerError(IndexUnavailable))
  {
  }

  /** Uploading under a name that is already indexed replaces the document:
      after two indexed uploads whose names sanitise alike, the index holds
      one document under that name, with the second upload's text. */
  lemma ReuploadOverwrites(st: Store, req1: Request, req2: Request, allowed: set<string>,
                           secureFilename: string -> string, tika: Bytes -> Option<string>)
    requires Accepted(req1, allowed) && Accepted(req2, allowed)
    requires secureFilename(req1.files["file"].filename) == secureFilename(req2.files["file"].filename)
    requires tika(req1.files["file"].data).Some? && tika(req2.files["file"].data).Some?
    ensures var mid := UploadOutcome(st, req1, allowed, secureFilename, tika, true).0;
      var end := UploadOutcome(mid, req2, allowed, secureFilename, tika, true).0;
      var name := secureFilename(req2.files["file"].filename);
      end.docs == st.docs[name := Strip(tika(req2.files["file"].data).value)] &&
      end.files[name] == req2.files["file"].data
  {
    var mid := UploadOutcome(st, req1, allowed, secureFilename, tika, true).0;
    AcceptedUploadIndexesUnderSavedName(st, req1, allowed, secureFilename, tika, true);
    AcceptedUploadIndexesUnderSavedName(mid, req2, allowed, secureFilename, tika, true);
  }

  /** There is no rollback: when a re-upload's extraction fails, the new
      bytes replace the saved file while the index keeps the text of the old
      one. */
  lemma FailedReuploadLeavesStaleDocument(st: Store, req1: Request, req2: Request, allowed: set<string>,
                                          secureFilename: string -> string, tika: Bytes -> Option<string>)
    requires Accepted(req1, allowed) && Accepted(req2, allowed)
    requires secureFilename(req1.files["file"].filename) == secureFilename(req2.files["file"].filename)
    requires tika(req1.files["file"].data).Some? && tika(req2.files["file"].data).None?
    ensures var mid := UploadOutcome(st, req1, allowed, secureFilename, tika, true).0;
      var out := UploadOutcome(mid, req2, allowed, secureFilename, tika, true);
      var name := secureFilename(req2.files["file"].filename);
      out.1 == InternalServerError(ExtractionFailed) &&
      out.0.files[name] == req2.files["file"].data &&
      out.0.docs[name] == Strip(tika(req1.files["file"].data).value)
  {
    var mid := UploadOutcome(st, req1, allowed, secureFilename, tika, true).0;
    AcceptedUploadIndexesUnderSavedName(st, req1, allowed, secureFilename, tika, true);
    AcceptedUploadIndexesUnderSavedName(mid, req2, allowed, secureFilename, tika, true);
  }

  /** Uploading `malware.exe` under the default allow-list writes no file,
      indexes nothing and shows the form again. */
  lemma MalwareIsTurnedAway(st: Store, data: Bytes, secureFilename: string -> string,
                            tika: Bytes -> Option<string>, solrUp: bool)
    ensures var req := Request("POST", map["file" := FileStorage("malware.exe", data)]);
      UploadOutcome(st, req, DefaultAllowedExtensions, secureFilename, tika, solrUp) == (st, UploadForm)
  {
    assert Lower("exe") == "exe";
    assert "malware" + "." + "exe" == "malware.exe";
    ExtensionDecides("malware", "exe", DefaultAllowedExtensions);
    var req := Request("POST", map["file" := FileStorage("malware.exe", data)]);
    assert Screen(req.files, DefaultAllowedExtensions) == Failure(DisallowedType);
  }

  /** `report.pdf` passes every check under the default allow-list. */
  lemma ReportPdfAccepted(data: Bytes)
    ensures Accepted(Request("POST", map["file" := FileStorage("report.pdf", data)]), DefaultAllowedExtensions)
  {
    assert Lower("pdf") == "pdf";
    assert "report" + "." + "pdf" == "report.pdf";
    ExtensionDecides("report", "pdf", DefaultAllowedExtensions);
  }

  /** Uploading `report.pdf` into an empty store, with Tika reading
      `Quarterly Revenue Growth` followed by a newline, saves the file and
      indexes that text, newline stripped, under `report.pdf`. */
  lemma ReportIsIndexed(data: Bytes, secureFilename: string -> string, tika: Bytes -> Option<string>)
    requires secureFilename("report.pdf") == "report.pdf"
    requires tika(data) == Some("Quarterly Revenue Growth\n")
    ensures var req := Request("POST", map["file" := FileStorage("report.pdf", data)]);
      UploadOutcome(Store(map[], map[]), req, DefaultAllowedExtensions, secureFilename, tika, true)
        == (Store(map["report.pdf" := data], map["report.pdf" := "Quarterly Revenue Growth"]),
            RedirectToUploadPage(UploadedMessage))
  {
    var req := Request("POST", map["file" := FileStorage("report.pdf", data)]);
    ReportPdfAccepted(data);
    var text := "Quarterly Revenue Growth";
    assert text + "\n" == "Quarterly Revenue Growth\n";
    TrailingNewlineStripped(text);
    AcceptedUploadIndexesUnderSavedName(Store(map[], map[]), req, DefaultAllowedExtensions,
                                        secureFilename, tika, true);
  }

  /** A single trailing newline is all `strip()` removes from text that
      starts and ends with a non-blank character. */
  lemma TrailingNewlineStripped(text: string)
    requires text != [] && !IsSpace(text[0]) && !IsSpace(text[|text| - 1])
    ensures Strip(text + "\n") == text
  {
    var raw := text + "\n";
    assert raw[0..|text|] == text;
    StripIsUnique(raw, 0, |text|);
  }

  /** The application's state: the upload folder and the Solr core, with
      the allow-list fixed when the application starts. */
  class UploadService {
    const allowedExtensions: set<string>
    var files: map<string, Bytes>
    var docs: map<string, string>

    /** The folder and the core as they were when the application started. */
    ghost const initial: Store

    ghost predicate Valid()
      reads this
    {
      IndexBackedSince(initial, Store(files, docs))
    }

    /** The application starts on the configured allow-list, the existing
        upload folder `files0` (`UPLOAD_FOLDER`) and the existing Solr core
        `docs0` (`SOLR_URL`); neither needs to be empty. */
    constructor (allowedExtensions: set<string>, files0: map<string, Bytes>, docs0: map<string, string>)
      ensures Valid()
      ensures this.allowedExtensions == allowedExtensions
      ensures files == files0 && docs == docs0 && initial == Store(files0, docs0)
    {
      this.allowedExtensions := allowedExtensions;
      files := files0;
      docs := docs0;
      initial := Store(files0, docs0);
    }

    /** `upload_file`: each check returns early; an accepted upload is saved
        (`file.save`), extracted from the saved bytes, then indexed
        (`solr.add`), all under the same sanitised name. */
    method UploadFile(req: Request, secureFilename: string -> string,
                      tika: Bytes -> Option<string>, solrUp: bool) returns (resp: Response)
      requires Valid()
      modifies this
      ensures Valid()
      ensures (Store(files, docs), resp)
           == UploadOutcome(Store(old(files), old(docs)), req, allowedExtensions, secureFilename, tika, solrUp)
    {
      if req.httpMethod != "POST" {
        return UploadForm;
      }
      if "file" !in req.files {
        return RedirectToRequestUrl(NoFilePartMessage);
      }
      var file := req.files["file"];
      if file.filename == "" {
        return RedirectToRequestUrl(NoSelectedFileMessage);
      }
      if !AllowedFile(file.filename, allowedExtensions) {
        return UploadForm;
      }
      var filename := secureFilename(file.filename);
      files := files[filename := file.data];
      var text := ExtractTextTika(tika, files[filename]);
      if text.None? {
        return InternalServerError(ExtractionFailed);
      }
      if !solrUp {
        return InternalServerError(IndexUnavailable);
      }
      docs := docs[filename := text.value];
      return RedirectToUploadPage(UploadedMessage);
    }
  }
}
