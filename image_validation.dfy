/** Checks an uploaded image before it is sent for analysis: it must not be
    empty, must fit the size limit and must carry a supported content type. */
module ImageValidation {
  import opened Wrappers
  import opened Strings

  /** The parts of an uploaded multipart file the checks look at. */
  datatype Upload = Upload(isEmpty: bool, size: nat, contentType: Option<string>)

  datatype ValidationResult = ValidationResult(isValid: bool, message: string)

  /** The allowed content types, in the order the set was written. */
  const AllowedContentTypes: seq<string> :=
    ["image/png", "image/jpeg", "image/jpg", "image/gif", "image/webp"]

  /** 20 MiB in bytes. */
  const MaxFileSize: nat := 20 * 1024 * 1024

  const EmptyMessage: string := "파일이 비어있습니다."
  const SuccessMessage: string := "검증 성공"

  function MaxFileSizeMB(): (r: nat)
    ensures r == 20 && r * 1024 * 1024 == MaxFileSize
  {
    MaxFileSize / 1024 / 1024
  }

  function TooLargeMessage(): string {
    "파일 크기가 너무 큽니다. 최대 " + NatToString(MaxFileSizeMB()) + "MB까지 지원합니다."
  }

  /** The rejection text names the type as received, "null" when absent. */
  function UnsupportedMessage(contentType: Option<string>): string {
    "지원하지 않는 파일 형식입니다. PNG, JPEG, GIF, WebP만 지원합니다. (현재: "
      + (if contentType.Some? then contentType.value else "null") + ")"
  }

  /** The content type is present and, lower-cased, one of the allowed types. */
  predicate SupportedType(contentType: Option<string>) {
    contentType.Some? && Lower(contentType.value) in AllowedContentTypes
  }

  /** validateImage: the three checks in order, the first failing one decides
      the message. */
  function ValidateImage(file: Upload): (r: ValidationResult)
    ensures r.isValid <==> !file.isEmpty && file.size <= MaxFileSize && SupportedType(file.contentType)
    ensures file.isEmpty ==> r.message == EmptyMessage
    ensures !file.isEmpty && file.size > MaxFileSize ==> r.message == TooLargeMessage()
    ensures !file.isEmpty && file.size <= MaxFileSize && !SupportedType(file.contentType) ==>
              r.message == UnsupportedMessage(file.contentType)
    ensures r.isValid ==> r.message == SuccessMessage
  {
    if file.isEmpty then ValidationResult(false, EmptyMessage)
    else if file.size > MaxFileSize then ValidationResult(false, TooLargeMessage())
    else if file.contentType == None || Lower(file.contentType.value) !in AllowedContentTypes then
      ValidationResult(false, UnsupportedMessage(file.contentType))
    else ValidationResult(true, SuccessMessage)
  }

  /** getSupportedFormats: the five allowed types, lower-case and distinct. */
  function SupportedFormats(): (r: seq<string>)
    ensures |r| == 5 && NoDuplicates(r)
    ensures forall i :: 0 <= i < |r| ==> Lower(r[i]) == r[i]
  {
    AllowedContentTypes
  }

  /** A file of exactly 20 MiB with an allowed type passes; one byte more is
      rejected for its size. */
  lemma SizeBoundary(t: string)
    requires t in AllowedContentTypes
    ensures ValidateImage(Upload(false, MaxFileSize, Some(t))).isValid
    ensures ValidateImage(Upload(false, MaxFileSize + 1, Some(t))) ==
            ValidationResult(false, TooLargeMessage())
  {
    assert Lower(t) == t;
  }

  /** The content type is compared without regard to letter case. */
  lemma ContentTypeCaseInsensitive(file: Upload, t: string)
    requires file.contentType.Some? && Lower(t) == Lower(file.contentType.value)
    ensures ValidateImage(file).isValid == ValidateImage(file.(contentType := Some(t))).isValid
  {
  }

  /** The three rejection messages and the success message differ, so the
      message tells which check failed. */
  lemma MessagesDistinct(contentType: Option<string>)
    ensures EmptyMessage != TooLargeMessage() && EmptyMessage != UnsupportedMessage(contentType)
    ensures TooLargeMessage() != UnsupportedMessage(contentType)
    ensures SuccessMessage !in {EmptyMessage, TooLargeMessage(), UnsupportedMessage(contentType)}
  {
    assert NatToString(20) == "20";
    assert EmptyMessage[2] != TooLargeMessage()[2];
    assert |UnsupportedMessage(contentType)| > |TooLargeMessage()| > |EmptyMessage| > |SuccessMessage|;
  }
}
