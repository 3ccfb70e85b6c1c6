/**
 * The upload helpers shared by the package and category handlers: the file
 * extension, the base64 payload of a data URL, the generated file name and
 * its public URL, and the file name recovered from such a URL on delete.
 */
module Uploads {
  import opened Text

  /**
   * What `Date.now()` and `Math.random().toString(36).substring(7)` yield
   * for one upload; both are inputs of the model.
   */
  datatype Stamp = Stamp(timestamp: nat, random: string)

  /** The alphabet of `Number.prototype.toString(36)` after the "0." prefix. */
  predicate IsBase36(s: string) {
    forall i | 0 <= i < |s| :: IsDigit(s[i]) || 'a' <= s[i] <= 'z'
  }

  const DataUrlMarker: string := ";base64,"

  /** `name.split('.').pop() || 'jpg'`. */
  function Extension(name: string): (r: string)
    ensures r != ""
  {
    var last := LastPiece(name, ".");
    if last == "" then "jpg" else last
  }

  /** `dataUrl.split(';base64,').pop()`: the payload that is base64-decoded and written. */
  function Payload(dataUrl: string): (r: string)
    ensures |r| <= |dataUrl| && r == dataUrl[|dataUrl| - |r|..]
    ensures !Contains(r, DataUrlMarker)
  {
    LastPieceIsSuffix(dataUrl, DataUrlMarker);
    LastPieceExcludesSeparator(dataUrl, DataUrlMarker);
    LastPiece(dataUrl, DataUrlMarker)
  }

  /** `` `${kind}-${timestamp}-${random}.${extension}` ``. */
  function GeneratedFileName(kind: string, stamp: Stamp, extension: string): string {
    kind + "-" + NatToDecimal(stamp.timestamp) + "-" + stamp.random + "." + extension
  }

  /** `` `/uploads/${fileName}` ``: the public URL of a file under public/uploads. */
  function UploadUrl(fileName: string): string {
    "/uploads/" + fileName
  }

  /** `url.split('/').pop()`: the file that category deletion unlinks. */
  function FileNameOfUrl(url: string): (r: string)
    ensures |r| <= |url| && r == url[|url| - |r|..]
    ensures !Contains(r, "/")
  {
    LastPieceIsSuffix(url, "/");
    LastPieceExcludesSeparator(url, "/");
    LastPiece(url, "/")
  }

  // ---------------------------------------------------------------------------
  // Properties
  // ---------------------------------------------------------------------------

  /** The extension is never empty and never contains a dot. */
  lemma ExtensionShape(name: string)
    ensures Extension(name) != ""
    ensures '.' !in Extension(name)
  {
    LastPieceExcludesSeparator(name, ".");
    ContainsChar(LastPiece(name, "."), '.');
  }

  /** A name without a dot is its own extension; only the empty name falls back to "jpg". */
  lemma ExtensionWithoutDot(name: string)
    requires '.' !in name
    ensures Extension(name) == if name == "" then "jpg" else name
  {
    ContainsChar(name, '.');
    LastPieceWithoutSeparator(name, ".");
  }

  /** The extension is the text after the last dot, and "jpg" when that text is empty. */
  lemma ExtensionAfterLastDot(stem: string, ext: string)
    requires '.' !in ext
    ensures Extension(stem + "." + ext) == if ext == "" then "jpg" else ext
  {
    ContainsChar(ext, '.');
    LastPieceAfterFinalSeparator(stem, ".", ext);
  }

  /** Without the marker the whole string is the payload. */
  lemma PayloadWithoutMarker(s: string)
    requires !Contains(s, DataUrlMarker)
    ensures Payload(s) == s
  {
    LastPieceWithoutSeparator(s, DataUrlMarker);
  }

  /**
   * For a base64 data URL `data:<mediatype>;base64,<data>` (section 3 of
   * RFC 2397) the payload is exactly `<data>`, whose alphabet has no ';'.
   */
  lemma PayloadOfDataUrl(mediatype: string, data: string)
    requires ';' !in data
    ensures Payload("data:" + mediatype + DataUrlMarker + data) == data
  {
    forall i | 0 <= i <= |data| - |DataUrlMarker|
      ensures !ContainsAt(data, DataUrlMarker, i)
    {
      assert data[i..i + |DataUrlMarker|][0] == data[i] != ';';
    }
    assert "data:" + mediatype + DataUrlMarker + data == ("data:" + mediatype) + DataUrlMarker + data;
    LastPieceAfterFinalSeparator("data:" + mediatype, DataUrlMarker, data);
  }

  /** A generated file name has no '/' as long as the random part and the extension have none. */
  lemma GeneratedFileNameHasNoSlash(kind: string, stamp: Stamp, ext: string)
    requires '/' !in kind && IsBase36(stamp.random) && '/' !in ext
    ensures '/' !in GeneratedFileName(kind, stamp, ext)
  {
    var digits := NatToDecimal(stamp.timestamp);
    assert forall i | 0 <= i < |digits| :: digits[i] != '/';
    assert forall i | 0 <= i < |stamp.random| :: stamp.random[i] != '/';
  }

  /**
   * The file name recovered from an upload URL on delete is the file name
   * that was written, provided the file name has no '/'.
   */
  lemma FileNameOfUploadUrl(fileName: string)
    requires '/' !in fileName
    ensures FileNameOfUrl(UploadUrl(fileName)) == fileName
  {
    ContainsChar(fileName, '/');
    assert UploadUrl(fileName) == "/uploads" + "/" + fileName;
    LastPieceAfterFinalSeparator("/uploads", "/", fileName);
  }

  /** A generated file name keeps the extension it was generated with. */
  lemma GeneratedFileNameExtension(kind: string, stamp: Stamp, name: string)
    ensures Extension(GeneratedFileName(kind, stamp, Extension(name))) == Extension(name)
  {
    ExtensionShape(name);
    var stem := kind + "-" + NatToDecimal(stamp.timestamp) + "-" + stamp.random;
    assert GeneratedFileName(kind, stamp, Extension(name)) == stem + "." + Extension(name);
    ExtensionAfterLastDot(stem, Extension(name));
  }
}
