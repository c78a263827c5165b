/**
 * The client's check of a chosen video before upload, present in identical
 * form in the conversion feature's service and in the core service.
 */
module FileValidation {
  import opened Wrappers
  import opened Strings

  const Mp4Type := "video/mp4"
  const Megabyte := 1024 * 1024

  /** `environment.maxFileSize`: 10 MB. */
  const MaxFileSize := 10 * Megabyte

  const OnlyMp4Allowed := "Only MP4 videos are allowed"

  /** `File size must not exceed ${environment.maxFileSize / (1024 * 1024)}MB` */
  function SizeLimitMessage(): (r: string)
    ensures r == "File size must not exceed " + NatToString(10) + "MB"
  {
    assert MaxFileSize / Megabyte == 10;
    "File size must not exceed " + NatToString(MaxFileSize / Megabyte) + "MB"
  }

  /**
   * `validateFile(file)` for a file of MIME type `mimeType` and `size` bytes:
   * the first problem found, or none.
   */
  function ValidateFile(mimeType: string, size: nat): (r: Option<string>)
    ensures r.None? <==> mimeType == Mp4Type && size <= MaxFileSize
    ensures mimeType != Mp4Type ==> r == Some(OnlyMp4Allowed)
    ensures mimeType == Mp4Type && size > MaxFileSize ==> r == Some(SizeLimitMessage())
  {
    if mimeType != Mp4Type then Some(OnlyMp4Allowed)
    else if size > MaxFileSize then Some(SizeLimitMessage())
    else None
  }

  /** The type is checked first: for any other type the size makes no difference. */
  lemma TypeCheckedBeforeSize(mimeType: string, size1: nat, size2: nat)
    requires mimeType != Mp4Type
    ensures ValidateFile(mimeType, size1) == ValidateFile(mimeType, size2) == Some(OnlyMp4Allowed)
  {
  }

  /** The limit is inclusive: exactly 10 MB passes, one byte more does not. */
  lemma LimitIsInclusive()
    ensures ValidateFile(Mp4Type, MaxFileSize) == None
    ensures ValidateFile(Mp4Type, MaxFileSize + 1) == Some(SizeLimitMessage())
  {
  }

  /** The size message states the limit in megabytes: "File size must not exceed 10MB". */
  lemma SizeLimitMessageText()
    ensures SizeLimitMessage() == "File size must not exceed 10MB"
  {
    assert NatToString(10) == "10" by {
      assert NatToString(1) == "1";
    }
  }
}
