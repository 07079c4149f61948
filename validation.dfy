/**
 * `allowed_file` (app.py): whether an uploaded file's name carries an
 * extension from the configured allow-list.
 */
module Validation {
  import opened PyStr

  /** `ALLOWED_EXTENSIONS` in config.py, the allow-list the application
      starts with. */
  const DefaultAllowedExtensions: set<string> := {"pdf"}

  /** `'.' in filename and filename.rsplit('.', 1)[1].lower() in allowed`.
      The right-hand operand of `and` runs only when a dot is present, which
      is what makes the index `[1]` safe. */
  function AllowedFile(filename: string, allowed: set<string>): (ok: bool)
    ensures ok ==> '.' in filename
  {
    '.' in filename && Lower(RSplitOnce(filename, '.')[1]) in allowed
  }

  /** Only the text after the LAST dot decides, compared lower-cased: for
      any stem (dots included) and any dot-free extension, the name
      `stem.ext` is accepted exactly when `ext.lower()` is allowed. */
  lemma {:induction false} ExtensionDecides(stem: string, ext: string, allowed: set<string>)
    requires '.' !in ext
    ensures AllowedFile(stem + "." + ext, allowed) <==> Lower(ext) in allowed
  {
    RSplitOnceOfJoin(stem, '.', ext);
  }

  /** Every name with a dot is `stem.ext` for the text after its last dot. */
  lemma SplitAtLastDot(filename: string) returns (stem: string, ext: string)
    requires '.' in filename
    ensures filename == stem + "." + ext && '.' !in ext
  {
    var parts := RSplitOnce(filename, '.');
    stem, ext := parts[0], parts[1];
  }

  /** The check is case-insensitive: a name and its lower-cased form are
      accepted or rejected together. */
  lemma {:induction false} AllowedFileIgnoresCase(filename: string, allowed: set<string>)
    ensures AllowedFile(Lower(filename), allowed) == AllowedFile(filename, allowed)
  {
    LowerKeepsDots(filename);
    if '.' in filename {
      var stem, ext := SplitAtLastDot(filename);
      LowerConcat(stem + ".", ext);
      LowerConcat(stem, ".");
      assert Lower(".") == ".";
      LowerKeepsDots(ext);
      ExtensionDecides(stem, ext, allowed);
      ExtensionDecides(Lower(stem), Lower(ext), allowed);
      LowerIdempotent(ext);
    }
  }

  /** A name that ends in a dot has an empty extension: it is accepted only
      when the empty string is on the allow-list. */
  lemma TrailingDot(stem: string, allowed: set<string>)
    ensures AllowedFile(stem + ".", allowed) <==> "" in allowed
  {
    assert stem + "." == stem + "." + "";
    ExtensionDecides(stem, "", allowed);
  }

  /** A name that starts with its only dot is judged by what follows it, so
      `.pdf` is accepted with the default list. */
  lemma LeadingDot(ext: string, allowed: set<string>)
    requires '.' !in ext
    ensures AllowedFile("." + ext, allowed) <==> Lower(ext) in allowed
  {
    assert "." + ext == "" + "." + ext;
    ExtensionDecides("", ext, allowed);
  }

  /** Only the last extension counts: `a.tar.pdf` passes, `a.pdf.exe`
      does not. */
  lemma LastExtensionCounts()
    ensures AllowedFile("a.tar.pdf", DefaultAllowedExtensions)
    ensures !AllowedFile("a.pdf.exe", DefaultAllowedExtensions)
  {
    assert Lower("pdf") == "pdf";
    assert Lower("exe") == "exe";
    assert "a.tar" + "." + "pdf" == "a.tar.pdf";
    assert "a.pdf" + "." + "exe" == "a.pdf.exe";
    ExtensionDecides("a.tar", "pdf", DefaultAllowedExtensions);
    ExtensionDecides("a.pdf", "exe", DefaultAllowedExtensions);
  }

  /** Upper-case extensions pass: `REPORT.PDF` is accepted. */
  lemma UpperCaseExtensionPasses()
    ensures AllowedFile("REPORT.PDF", DefaultAllowedExtensions)
  {
    assert Lower("PDF") == "pdf";
    assert "REPORT" + "." + "PDF" == "REPORT.PDF";
    ExtensionDecides("REPORT", "PDF", DefaultAllowedExtensions);
  }

  /** The dot edge cases: `file.` and `pdf` are refused, `.pdf` passes. */
  lemma DotEdgeCases()
    ensures !AllowedFile("file.", DefaultAllowedExtensions)
    ensures !AllowedFile("pdf", DefaultAllowedExtensions)
    ensures AllowedFile(".pdf", DefaultAllowedExtensions)
  {
    assert Lower("pdf") == "pdf";
    assert "file" + "." == "file.";
    TrailingDot("file", DefaultAllowedExtensions);
    LeadingDot("pdf", DefaultAllowedExtensions);
  }
}
