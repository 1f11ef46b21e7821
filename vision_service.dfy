/** The two local decisions of the vision service: the MIME type guessed
    from a resource's file name, and the size check on raw image bytes. */
module VisionService {
  import opened Wrappers
  import opened Strings

  const Png: string := "image/png"
  const Jpeg: string := "image/jpeg"
  const Gif: string := "image/gif"
  const Webp: string := "image/webp"

  /** getMimeTypeFromResource: the first matching suffix, ignoring case, with
      a missing file name read as "" and "image/jpeg" as the fallback. */
  function MimeTypeFromFilename(filename: Option<string>): (r: string)
    ensures r in {Png, Jpeg, Gif, Webp}
  {
    var name := if filename.Some? then filename.value else "";
    if EndsWithIgnoreCase(name, ".png") then Png
    else if EndsWithIgnoreCase(name, ".jpg") then Jpeg
    else if EndsWithIgnoreCase(name, ".jpeg") then Jpeg
    else if EndsWithIgnoreCase(name, ".gif") then Gif
    else if EndsWithIgnoreCase(name, ".webp") then Webp
    else Jpeg
  }

  /** The lower-cased name ends with ext. */
  predicate HasExtension(name: string, ext: string) {
    EndsWith(Lower(name), ext)
  }

  /** The suffixes are exclusive, so each one alone decides the type, and a
      name with none of them (or no name) gets the JPEG default. */
  lemma MimeTypeBySuffix(name: string)
    ensures HasExtension(name, ".png") ==> MimeTypeFromFilename(Some(name)) == Png
    ensures HasExtension(name, ".jpg") || HasExtension(name, ".jpeg") ==>
              MimeTypeFromFilename(Some(name)) == Jpeg
    ensures HasExtension(name, ".gif") ==> MimeTypeFromFilename(Some(name)) == Gif
    ensures HasExtension(name, ".webp") ==> MimeTypeFromFilename(Some(name)) == Webp
    ensures MimeTypeFromFilename(Some(name)) == Webp ==> HasExtension(name, ".webp")
    ensures MimeTypeFromFilename(Some(name)) == Gif ==> HasExtension(name, ".gif")
    ensures MimeTypeFromFilename(Some(name)) == Png ==> HasExtension(name, ".png")
    ensures !HasExtension(name, ".png") && !HasExtension(name, ".jpg") && !HasExtension(name, ".jpeg")
            && !HasExtension(name, ".gif") && !HasExtension(name, ".webp") ==>
              MimeTypeFromFilename(Some(name)) == Jpeg
  {
    var l := Lower(name);
    assert Lower(".png") == ".png" && Lower(".jpg") == ".jpg" && Lower(".jpeg") == ".jpeg";
    assert Lower(".gif") == ".gif" && Lower(".webp") == ".webp";
    if EndsWith(l, ".png") {
      assert l[|l| - 1] == 'g' && l[|l| - 2] == 'n';
    }
    if EndsWith(l, ".gif") {
      assert l[|l| - 1] == 'f';
    }
    if EndsWith(l, ".webp") {
      assert l[|l| - 1] == 'p';
    }
    if EndsWith(l, ".jpg") {
      assert l[|l| - 2] == 'p' && l[|l| - 1] == 'g';
    }
    if EndsWith(l, ".jpeg") {
      assert l[|l| - 2] == 'e' && l[|l| - 1] == 'g';
    }
  }

  lemma MimeTypeMissingName()
    ensures MimeTypeFromFilename(None) == Jpeg
  {
  }

  const BytesPerMB: nat := 1024 * 1024

  /** validateImageSize: the size in megabytes, as a double, against the limit. */
  function ValidateImageSize(byteCount: nat, maxSizeMB: int): bool {
    (byteCount as real) / (1024.0 * 1024.0) <= maxSizeMB as real
  }

  /** The division is by a power of two, so the check is exact in bytes. */
  lemma ValidateImageSizeExact(byteCount: nat, maxSizeMB: int)
    ensures ValidateImageSize(byteCount, maxSizeMB) <==> byteCount <= maxSizeMB * BytesPerMB
  {
    var x := byteCount as real;
    assert x / 1048576.0 * 1048576.0 == x;
    assert (maxSizeMB * BytesPerMB) as real == maxSizeMB as real * 1048576.0;
  }

  /** Accepting n bytes means accepting every smaller size, under every
      larger limit. */
  lemma ValidateImageSizeMonotone(n: nat, m: nat, maxSizeMB: int, larger: int)
    requires m <= n && maxSizeMB <= larger
    requires ValidateImageSize(n, maxSizeMB)
    ensures ValidateImageSize(m, larger)
  {
    ValidateImageSizeExact(n, maxSizeMB);
    ValidateImageSizeExact(m, larger);
  }

  /** With the default limit of 20 MB, exactly 20 MiB is accepted and one byte
      more is not. */
  lemma DefaultLimitBoundary()
    ensures ValidateImageSize(20 * BytesPerMB, 20)
    ensures !ValidateImageSize(20 * BytesPerMB + 1, 20)
  {
    ValidateImageSizeExact(20 * BytesPerMB, 20);
    ValidateImageSizeExact(20 * BytesPerMB + 1, 20);
  }
}
