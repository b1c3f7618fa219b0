/** The check run on a picture before it is uploaded to storage. */
module UploadValidation {
  import opened Wrappers

  const MaxSize := 5 * 1024 * 1024
  const AllowedTypes := ["image/jpeg", "image/jpg", "image/png", "image/webp"]

  const TooLarge := "File size must be less than 5MB"
  const BadType := "Only JPEG, PNG, and WebP images are allowed"

  /** `{ valid, error? }`: `error` is present exactly when the file is refused. */
  datatype Validation = Validation(valid: bool, error: Option<string>)

  /** `validateImageFile`: the size is checked first, then the MIME type. */
  function ValidateImageFile(size: nat, mimeType: string): (r: Validation)
    ensures r.valid <==> size <= MaxSize && mimeType in AllowedTypes
    ensures r.valid <==> r.error.None?
    ensures size > MaxSize ==> r.error == Some(TooLarge)
    ensures size <= MaxSize && mimeType !in AllowedTypes ==> r.error == Some(BadType)
  {
    if size > MaxSize then Validation(false, Some(TooLarge))
    else if mimeType !in AllowedTypes then Validation(false, Some(BadType))
    else Validation(true, None)
  }

  /** The limit is inclusive: a file of exactly 5 MiB of an allowed type passes, one byte more does not. */
  lemma LimitInclusive(mimeType: string)
    requires mimeType in AllowedTypes
    ensures ValidateImageFile(5242880, mimeType).valid
    ensures ValidateImageFile(5242881, mimeType) == Validation(false, Some(TooLarge))
  {
  }

  /** An oversized file with a refused type gets the size message. */
  lemma SizeReportedFirst(size: nat)
    requires size > MaxSize
    ensures ValidateImageFile(size, "image/gif").error == Some(TooLarge)
  {
  }
}
