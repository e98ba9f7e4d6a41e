/**
 * The string work of the LM Studio client (n6_ocrmedical/src/lmstudio_client.py):
 * the media type guessed from a file name's extension, and the RFC 2397
 * `data:` URL that carries an image to the vision model.
 */
module LmStudio {
  import opened Wrappers
  import opened Text

  const PngMime: string := "image/png"
  const WebpMime: string := "image/webp"
  const JpegMime: string := "image/jpeg"
  const OctetStream: string := "application/octet-stream"

  /** `s.endswith(suffix)`. */
  predicate EndsWith(s: string, suffix: string)
  {
    |suffix| <= |s| && s[|s| - |suffix|..] == suffix
  }

  /**
   * `infer_mime_from_filename` (lines 6-14): the name is lower-cased, then
   * its extension is tested against `.png`, `.webp`, `.jpg` and `.jpeg`, in
   * that order.
   */
  function InferMime(filename: string): (mime: string)
    ensures mime == PngMime || mime == WebpMime || mime == JpegMime || mime == OctetStream
  {
    var low := Lower(filename);
    if EndsWith(low, ".png") then PngMime
    else if EndsWith(low, ".webp") then WebpMime
    else if EndsWith(low, ".jpg") || EndsWith(low, ".jpeg") then JpegMime
    else OctetStream
  }

  lemma LowerIdempotent(s: string)
    ensures Lower(Lower(s)) == Lower(s)
  {
    assert forall i :: 0 <= i < |s| ==> LowerChar(LowerChar(s[i])) == LowerChar(s[i]);
  }

  /** The extension is matched without regard to case: names equal up to case get the same type. */
  lemma InferMimeIgnoresCase(a: string, b: string)
    requires Lower(a) == Lower(b)
    ensures InferMime(a) == InferMime(b)
    ensures InferMime(Lower(a)) == InferMime(a)
  {
    LowerIdempotent(a);
  }

  /** The character `k` places before the end of a name ending in `suffix`. */
  lemma EndsWithAt(s: string, suffix: string, k: nat)
    ensures EndsWith(s, suffix) && k < |suffix| ==> s[|s| - 1 - k] == suffix[|suffix| - 1 - k]
  {
    if EndsWith(s, suffix) && k < |suffix| {
      assert s[|s| - |suffix|..][|suffix| - 1 - k] == s[|s| - 1 - k];
    }
  }

  /** `.png`, `.webp` and `.jpg` or `.jpeg` exclude each other. */
  lemma SuffixesDisjoint(low: string)
    ensures EndsWith(low, ".webp") ==> !EndsWith(low, ".png")
    ensures EndsWith(low, ".jpg") ==> !EndsWith(low, ".png") && !EndsWith(low, ".webp")
    ensures EndsWith(low, ".jpeg") ==> !EndsWith(low, ".png") && !EndsWith(low, ".webp")
  {
    // The last character tells `.webp` from the others, the third last
    // `.jpg` from `.png`, the fourth last `.jpeg` from `.png`.
    EndsWithAt(low, ".png", 0);
    EndsWithAt(low, ".webp", 0);
    EndsWithAt(low, ".jpg", 0);
    EndsWithAt(low, ".jpeg", 0);
    EndsWithAt(low, ".png", 2);
    EndsWithAt(low, ".jpg", 2);
    EndsWithAt(low, ".png", 3);
    EndsWithAt(low, ".jpeg", 3);
  }

  /**
   * Each media type comes from exactly its own extensions, matched on the
   * lower-cased name; any other name is an octet stream.
   */
  lemma InferMimeCases(filename: string)
    ensures var low := Lower(filename);
            && (InferMime(filename) == PngMime <==> EndsWith(low, ".png"))
            && (InferMime(filename) == WebpMime <==> EndsWith(low, ".webp"))
            && (InferMime(filename) == JpegMime <==> EndsWith(low, ".jpg") || EndsWith(low, ".jpeg"))
            && (InferMime(filename) == OctetStream <==>
                  !EndsWith(low, ".png") && !EndsWith(low, ".webp")
                  && !EndsWith(low, ".jpg") && !EndsWith(low, ".jpeg"))
  {
    SuffixesDisjoint(Lower(filename));
    assert PngMime != WebpMime && PngMime != JpegMime && PngMime != OctetStream;
    assert WebpMime != JpegMime && WebpMime != OctetStream && JpegMime != OctetStream;
  }

  /**
   * `to_data_url` (lines 16-20): `data:`, the media type, `;base64,` and the
   * base64 text of the file. Reading the file and encoding it are outside
   * the model; the encoded text is an input.
   */
  function ToDataUrl(path: string, payload: string): string
  {
    "data:" + InferMime(path) + ";base64," + payload
  }

  /** The position of the first `c` in `s`, or `|s|` when there is none. */
  function Find(s: string, c: char): (k: nat)
    ensures k <= |s|
    ensures k < |s| ==> s[k] == c
    ensures forall j :: 0 <= j < k ==> s[j] != c
  {
    if s == [] || s[0] == c then 0 else 1 + Find(s[1..], c)
  }

  /**
   * Reads a URL of the form `data:<type>;base64,<data>` (section 3 of
   * RFC 2397) back into its media type and its data; the type ends at the
   * first `;`.
   */
  function ParseDataUrl(url: string): Option<(string, string)>
  {
    if |url| < 5 || url[..5] != "data:" then None
    else
      var rest := url[5..];
      var k := Find(rest, ';');
      if k + 8 <= |rest| && rest[k..k + 8] == ";base64," then Some((rest[..k], rest[k + 8..]))
      else None
  }

  /** A URL built from a media type without `;` reads back as that type and the data. */
  lemma ParseBuiltDataUrl(mime: string, payload: string)
    requires ';' !in mime
    ensures ParseDataUrl("data:" + mime + ";base64," + payload) == Some((mime, payload))
  {
    var rest := mime + ";base64," + payload;
    var url := "data:" + mime + ";base64," + payload;
    assert url == "data:" + rest;
    assert url[..5] == "data:" && url[5..] == rest;
    assert rest[|mime|] == ';';
    assert forall j :: 0 <= j < |mime| ==> rest[j] == mime[j];
    assert Find(rest, ';') == |mime|;
    assert rest[|mime|..|mime| + 8] == ";base64,";
    assert rest[..|mime|] == mime;
    assert rest[|mime| + 8..] == payload;
  }

  lemma MimeHasNoSemicolon(path: string)
    ensures ';' !in InferMime(path)
  {
    var m := InferMime(path);
    assert m == PngMime || m == WebpMime || m == JpegMime || m == OctetStream;
  }

  /** The media type and the data can be read back from the URL the client builds. */
  lemma DataUrlRoundTrip(path: string, payload: string)
    ensures ParseDataUrl(ToDataUrl(path, payload)) == Some((InferMime(path), payload))
  {
    MimeHasNoSemicolon(path);
    ParseBuiltDataUrl(InferMime(path), payload);
  }
}
