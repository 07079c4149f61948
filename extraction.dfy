/**
 * `extract_text_tika` (app.py): the text Tika extracts from a stored file,
 * stripped of surrounding whitespace.
 */
module Extraction {
  import opened Wrappers
  import opened PyStr

  newtype byte = x: int | 0 <= x < 256

  /** The raw bytes of an uploaded file. */
  type Bytes = seq<byte>

  /** `parser.from_file(path)['content'].strip()`. Tika is the parameter
      `tika`: it gives the `content` string it parsed from the file's bytes,
      or `None` when the call raises or the content is `None` (then
      `.strip()` raises). Either way the caller gets no text (`None`). */
  function ExtractTextTika(tika: Bytes -> Option<string>, file: Bytes): (text: Option<string>)
    ensures text.None? <==> tika(file).None?
    ensures text.Some? ==> IsStripped(text.value) && |text.value| <= |tika(file).value|
  {
    match tika(file)
    case None => None
    case Some(content) => Some(Strip(content))
  }

  /** The text handed to Solr is Tika's content with whitespace removed at
      the two ends only: it is a slice of the content with nothing but
      whitespace around it. */
  lemma ExtractedTextIsTrimmedContent(tika: Bytes -> Option<string>, file: Bytes)
      returns (lo: nat, hi: nat)
    requires tika(file).Some?
    ensures ExtractTextTika(tika, file).Some?
    ensures lo <= hi <= |tika(file).value|
    ensures ExtractTextTika(tika, file).value == tika(file).value[lo..hi]
    ensures forall i :: 0 <= i < lo ==> IsSpace(tika(file).value[i])
    ensures forall i :: hi <= i < |tika(file).value| ==> IsSpace(tika(file).value[i])
  {
    lo, hi := StripIsSlice(tika(file).value);
  }

  /** A document with no text but whitespace (an image-only PDF, say) is
      extracted as the empty string, not as a failure. */
  lemma BlankContentGivesEmptyText(tika: Bytes -> Option<string>, file: Bytes)
    requires tika(file).Some?
    requires forall i :: 0 <= i < |tika(file).value| ==> IsSpace(tika(file).value[i])
    ensures ExtractTextTika(tika, file) == Some("")
  {
    StripEmptyIffAllSpace(tika(file).value);
  }
}
