# searchpdfs — a Dafny model of the upload and search logic

searchpdfs is a small Flask application. It accepts PDF uploads, saves them,
extracts their text with Apache Tika and indexes `{id: file name, content:
text}` in Solr. It also searches Solr by file name or by content. Almost all of
it is glue. This project models the parts of `app.py` whose behaviour can be
stated exactly:

- `allowed_file`: the extension check. It takes the text after the last dot,
  lower-cases it and looks it up in the allow-list (default `{'pdf'}`,
  `config.py`).
- `search_solr`: maps the request's `query` and `search_option` to a Solr
  query string `field:(*term*)`, or to no search at all.
- `extract_text_tika`: Tika's content with surrounding whitespace stripped.
- `upload_file`: the order of the checks, then save, extract and index. All
  three use the same sanitised name.

Modules:

- `Wrappers`: `Option` and `Result`.
- `PyStr`: Python's `str.lower()`, `str.rsplit(sep, 1)` for a one-character
  separator, and `str.strip()`.
- `Validation`: `allowed_file`.
- `SolrSearch`: `search_solr`.
- `Extraction`: `extract_text_tika`.
- `Upload`: `upload_file`. The pure function `UploadOutcome` gives its effect
  and answer. The class `UploadService` holds the upload folder (`files`) and
  the Solr core (`docs`) as maps. Its method `UploadFile` performs the same
  steps in order, with early returns, and is proved equal to `UploadOutcome`.

The external calls are parameters:

- werkzeug's `secure_filename` is `secureFilename: string -> string`.
- Tika is `tika: Bytes -> Option<string>`. It returns `None` when the call
  raises or the parsed content is `None`.
- Solr's `add` is modelled by `solrUp: bool`, which says whether the add
  succeeds.
- Solr's `search` is `solr: string -> Option<seq<string>>`. It returns `None`
  when the call raises: no connection, a timeout, or a query Solr cannot parse.

Points where the code's behaviour is easy to misread:

- A disallowed extension re-renders the upload form with no message. It does
  not report a "disallowed type" error.
- A missing `file` part and an empty file name redirect back with two
  different flashed messages.
- An empty `query` still searches: Solr gets `field:(**)`. The handler does
  not treat an empty term as "no query".
- A failed extraction or a failed Solr `add` is an uncaught exception, so the
  answer is a server error. The saved file stays.
- A failed Solr `search` is an uncaught exception too, so the answer is a
  server error. A term such as `(` is enough: the query `id:(*(*)` is sent
  as it is.
- Tika content of `None` is a failure too, because `.strip()` raises on it.
  It is not treated as empty text.

The search term goes into the query without escaping. `UnescapedTermAddsClauses`
shows a term that adds a clause on another field. The model records this and
does not change it.

## Model

| member | source | states |
|---|---|---|
| `PyStr.IsSpace` | app.py:134 | the whitespace `strip()` removes includes space, tab, newline and carriage return, and never a digit, a letter or `.` |
| `PyStr.Lower` | app.py:157 | `.lower()` keeps the length and lower-cases each ASCII letter in place |
| `PyStr.LowerIdempotent` | app.py:157 | lower-casing twice equals lower-casing once |
| `PyStr.LowerKeepsDots` | app.py:157 | lower-casing neither adds, removes nor moves a `.` |
| `PyStr.LastIndexOf` | app.py:157 | the last position of the separator, or -1 exactly when it is absent; no separator after it |
| `PyStr.LastIndexOfIsUnique` | app.py:157 | an occurrence with none after it is the one found |
| `PyStr.RSplitOnce` | app.py:157 | `rsplit(sep, 1)` gives one part (the whole string) iff `sep` is absent, otherwise head and tail that re-join to the input, with no `sep` in the tail |
| `PyStr.RSplitOnceOfJoin` | app.py:157 | `head + sep + tail` with a separator-free tail splits into exactly `[head, tail]`, whatever the head holds |
| `PyStr.StripStart` | app.py:134 | the result is a suffix of the input, only whitespace was dropped, and it does not start with whitespace |
| `PyStr.StripEnd` | app.py:134 | the result is a prefix of the input, only whitespace was dropped, and it does not end with whitespace |
| `PyStr.Strip` | app.py:134 | `.strip()` leaves no whitespace at either end and never lengthens |
| `PyStr.StripIsSlice` | app.py:134 | the stripped text is a slice `s[lo..hi]` with only whitespace outside it |
| `PyStr.StripIsUnique` | app.py:134 | any such slice without whitespace at its ends equals `strip()`'s result |
| `PyStr.StripEmptyIffAllSpace` | app.py:134 | the result is empty iff the input is all whitespace |
| `PyStr.StripKeepsStripped` | app.py:134 | a string without whitespace at its ends is left unchanged |
| `PyStr.StripIdempotent` | app.py:134 | stripping twice equals stripping once |
| `Validation.AllowedFile` | app.py:149-157 | a name without a `.` is never accepted |
| `Validation.ExtensionDecides` | app.py:157 | `stem.ext`, with `ext` dot-free and any stem, is accepted iff `ext.lower()` is in the allow-list |
| `Validation.SplitAtLastDot` | app.py:157 | every name with a dot is `stem.ext` with a dot-free `ext` |
| `Validation.AllowedFileIgnoresCase` | app.py:157 | a name and its lower-cased form are accepted or refused together |
| `Validation.TrailingDot` | app.py:157 | a name ending in `.` is accepted iff the empty extension is allowed |
| `Validation.LeadingDot` | app.py:157 | `.ext` is judged by `ext` alone |
| `Validation.LastExtensionCounts` | app.py:157 | with `{'pdf'}` (config.py:9), `a.tar.pdf` is accepted and `a.pdf.exe` is not |
| `Validation.UpperCaseExtensionPasses` | app.py:157 | with `{'pdf'}`, `REPORT.PDF` is accepted |
| `Validation.DotEdgeCases` | app.py:157 | with `{'pdf'}`, `file.` and `pdf` are refused and `.pdf` is accepted |
| `SolrSearch.SearchOption` | app.py:62 | the option defaults to `filename` when the argument is absent, and otherwise is the argument |
| `SolrSearch.FieldFor` | app.py:64 | the field is `id` or `content`, and it is `id` iff the option is exactly `filename` |
| `SolrSearch.BuildQuery` | app.py:66 | the query is the field, then `:(*`, then the term character for character, then `*)` |
| `SolrSearch.QueryRoundTrip` | app.py:66 | a built query reads back as its field and exactly the user's term, for any term |
| `SolrSearch.ParsedQueryRebuilds` | app.py:66 | a string that reads back as a field and term is the query built from them |
| `SolrSearch.SolrQuery` | app.py:60-66 | no search iff `query` is absent; otherwise the query names the mapped field and embeds the term verbatim |
| `SolrSearch.SearchSolr` | app.py:53-67 | with no query, Solr is not asked and the page has no results; otherwise a failed Solr search gives a server error, and a successful one renders Solr's ids for the built query; the query and option are echoed back |
| `SolrSearch.UnbalancedTermIsSentAsIs` | app.py:63-67 | the term `(` is sent as `id:(*(*)`, and a failed search on it gives a server error |
| `SolrSearch.DefaultSearchesFilenames` | app.py:62-66 | with no `search_option`, a query searches the `id` field |
| `SolrSearch.EmptyQueryStillSearches` | app.py:63-66 | an empty `query` still asks Solr for `field:(**)` |
| `SolrSearch.BuildQueryInjective` | app.py:66 | on one field, different terms give different query strings |
| `SolrSearch.UnescapedTermAddsClauses` | app.py:66 | the term `x*) OR content:(*y` on the filename field yields a two-clause query over both fields |
| `SolrSearch.ContentSearchExample` | app.py:62-66 | a content search for `Revenue` sends `content:(*Revenue*)` |
| `Extraction.ExtractTextTika` | app.py:124-134 | no text iff Tika gives no content; otherwise the text has no surrounding whitespace and is no longer than the content |
| `Extraction.ExtractedTextIsTrimmedContent` | app.py:132-134 | the text is a slice of Tika's content with only whitespace cut from the two ends |
| `Extraction.BlankContentGivesEmptyText` | app.py:134 | all-whitespace content gives the empty text, not a failure |
| `Upload.Screen` | app.py:36-43 | a missing `file` part is refused first, then an empty file name, then a disallowed extension; an accepted part is the `file` part |
| `Upload.UploadOutcome` | app.py:35-50 | a request that is not accepted changes nothing; an accepted one saves the bytes under `secure_filename(name)`; every document is stripped text indexed under the name of a saved file (after a failed re-upload, an earlier file's text), or one the core already held at the start |
| `Upload.RejectionResponses` | app.py:35-43 | GET shows the form; POST without a file part, or with an empty name, redirects back with that message; a disallowed extension shows the form again; none of them changes the store |
| `Upload.AcceptedUploadIndexesUnderSavedName` | app.py:43-49 | an accepted file is saved, its text is extracted from the saved bytes and indexed under the same name; success is reported iff it was indexed; failures leave the index untouched |
| `Upload.ReuploadOverwrites` | app.py:44-47 | after two indexed uploads with the same sanitised name, the index is the old one with that single entry set to the second text; other documents are unchanged |
| `Upload.FailedReuploadLeavesStaleDocument` | app.py:44-47 | a re-upload whose extraction fails replaces the file but leaves the old document in the index |
| `Upload.MalwareIsTurnedAway` | app.py:43 | `malware.exe` under `{'pdf'}` writes nothing, indexes nothing and shows the form |
| `Upload.ReportPdfAccepted` | app.py:36-43 | `report.pdf` passes all three checks under `{'pdf'}` |
| `Upload.TrailingNewlineStripped` | app.py:134 | `strip()` removes a single trailing newline from text with non-blank ends, and nothing else |
| `Upload.ReportIsIndexed` | app.py:43-49 | `report.pdf` with text `Quarterly Revenue Growth` plus a newline is saved and indexed as `{report.pdf: Quarterly Revenue Growth}` |
| `Upload.UploadService.constructor` | app.py:18-22 | the service starts with the configured allow-list, on the existing upload folder and the existing Solr core, which need not be empty |
| `Upload.UploadService.UploadFile` | app.py:35-50 | the checks return early in order, then save, extract and index; the new state and the answer are `UploadOutcome` of the old state; the invariant `IndexBackedSince` (relative to the start state) is kept |

## Left out

- Flask plumbing is not modelled: routing, `redirect`, `url_for`, `flash`,
  the HTML of `search_form` and `upload_form`, and `app.run`. Answers are
  values of the `Response` and `SearchAnswer` datatypes.
- werkzeug's `secure_filename` is not modelled. Its code is not part of this
  model, so it is a parameter.
- Tika's `parser.from_file` and its failure modes are not modelled. They are
  folded into a parameter that returns content or `None`.
- The Solr client is not modelled: `add`, `search`, their 10-second
  timeouts, wildcard matching, ranking and commit visibility. These happen in
  Solr, so `add` succeeding is a boolean parameter. `search` is a function
  parameter that gives the ids or a failure.
- The filesystem is not modelled. The upload folder is a map from sanitised
  name to bytes. Path joining with `UPLOAD_FOLDER` is not modelled, nor is a
  sanitised name that is empty and so would name the folder itself.
- `request.args` and `request.files` are modelled as maps with one value per
  key. Flask's `MultiDict.get` and `request.files['file']` return the first
  of repeated values.
- The invariant says nothing about documents the Solr core held before the
  application started. They need not have a saved file, and their text need
  not be stripped. Only documents indexed by this application are covered.
- Concurrent requests racing on the same name are not modelled. Each handler
  call is one atomic step on the state.
- `PyStr.Lower`: lower-cases only the ASCII letters A-Z. Python's `str.lower()`
  also maps non-ASCII letters, and for a few of them changes the length. The
  model does not cover this, so a non-ASCII extension may be judged
  differently. `Validation.AllowedFile` and its lemmas inherit this.
- config.py's `UPLOAD_FOLDER` and `SOLR_URL` are not modelled. They play no
  part in the logic. `ALLOWED_EXTENSIONS` is
  `Validation.DefaultAllowedExtensions`.
