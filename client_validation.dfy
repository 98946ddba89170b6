/**
 * The browser's copy of the validators (frontend/src/utils/validation.ts).
 * The source duplicates the backend code rather than sharing it; the model
 * keeps the copy separate and proves that the two agree.
 */
module ClientValidation {
  import opened Base
  import opened Text
  import V = Validation

  type ValidationResult = V.ValidationResult

  /** A browser `File`: its name, its MIME `type` and its size in bytes. */
  datatype BrowserFile = BrowserFile(name: string, mimeType: string, size: nat)

  /** `validateEmail(email)` on the form's string state. */
  function ValidateEmail(email: string): (r: ValidationResult)
    ensures r == V.Valid <==> V.MatchesEmailPattern(email)
    ensures r.Invalid? && IsBlank(email) ==> r.error == V.EmailRequiredMessage
    ensures r.Invalid? && !IsBlank(email) ==> r.error == V.EmailFormatMessage
  {
    if email == "" || IsBlank(email) then V.Invalid(V.EmailRequiredMessage)
    else (V.EmailShapeIsPattern(email);
          if !V.EmailShape(email) then V.Invalid(V.EmailFormatMessage) else V.Valid)
  }

  /** `validateRequired(value, fieldName)`. */
  function ValidateRequired(value: Option<string>, fieldName: string): (r: ValidationResult)
    ensures r == V.Valid <==> value.Some? && !AllWs(value.value)
    ensures r.Invalid? ==> r.error == V.RequiredMessage(fieldName)
  {
    if value.None? || value.value == "" then V.Invalid(V.RequiredMessage(fieldName))
    else (BlankIffAllWs(value.value);
          if IsBlank(value.value) then V.Invalid(V.RequiredMessage(fieldName)) else V.Valid)
  }

  /** `validateMinLength(value, minLength, fieldName)`. */
  function ValidateMinLength(value: string, minLength: int, fieldName: string): (r: ValidationResult)
    ensures r == V.Valid <==> |value| >= minLength
  {
    if |value| < minLength then V.Invalid(V.MinLengthMessage(fieldName, minLength)) else V.Valid
  }

  /** `validateFile(file)`: `type`, then extension, then size, with the backend's messages. */
  function ValidateFile(file: Option<BrowserFile>): (r: ValidationResult)
    ensures file.None? ==> r == V.Valid
    ensures file.Some? ==>
      (r == V.Valid <==> file.value.mimeType in V.AllowedMimeTypes
                          && V.ValidationExtension(file.value.name) in V.AllowedExtensions
                          && file.value.size <= V.MaxFileSize)
  {
    match file
    case None => V.Valid
    case Some(f) =>
      if f.mimeType !in V.AllowedMimeTypes then V.Invalid(V.FileTypeMessage)
      else
        var extension := SubstringFrom(ToLower(f.name), LastIndexOf(f.name, '.'));
        if extension !in V.AllowedExtensions then V.Invalid(V.FileExtensionMessage)
        else if f.size > V.MaxFileSize then V.Invalid(V.FileSizeMessage)
        else V.Valid
  }

  /** `validateDateRange(startDate, endDate)`. */
  function ValidateDateRange(parse: V.DateParser, startDate: Option<string>, endDate: Option<string>): (r: ValidationResult)
    ensures !Truthy(startDate) || !Truthy(endDate) ==> r == V.Valid
    ensures Truthy(startDate) && Truthy(endDate) ==>
      (parse(startDate.value).None? || parse(endDate.value).None? ==> r == V.Invalid(V.DateFormatMessage))
    ensures Truthy(startDate) && Truthy(endDate) && parse(startDate.value).Some? && parse(endDate.value).Some? ==>
      (r == V.Valid <==> parse(startDate.value).value <= parse(endDate.value).value)
    ensures Truthy(startDate) && Truthy(endDate) && parse(startDate.value).Some? && parse(endDate.value).Some? ==>
      (parse(endDate.value).value < parse(startDate.value).value ==> r == V.Invalid(V.DateOrderMessage))
  {
    if !Truthy(startDate) || !Truthy(endDate) then V.Valid
    else
      var start := parse(startDate.value);
      var end := parse(endDate.value);
      if start.None? || end.None? then V.Invalid(V.DateFormatMessage)
      else if end.value < start.value then V.Invalid(V.DateOrderMessage)
      else V.Valid
  }

  /** The browser and the server give the same verdict and message on every email string. */
  lemma EmailCopiesAgree(email: string)
    ensures ValidateEmail(email) == V.ValidateEmail(Some(email))
  {
  }

  lemma RequiredCopiesAgree(value: Option<string>, fieldName: string)
    ensures ValidateRequired(value, fieldName) == V.ValidateRequired(value, fieldName)
  {
  }

  lemma MinLengthCopiesAgree(value: string, minLength: int, fieldName: string)
    ensures ValidateMinLength(value, minLength, fieldName) == V.ValidateMinLength(value, minLength, fieldName)
  {
  }

  /** A browser file and the upload the server receives for it get the same verdict and message. */
  lemma FileCopiesAgree(file: BrowserFile, buffer: seq<byte>)
    ensures ValidateFile(Some(file))
         == V.ValidateFile(Some(V.UploadedFile(file.name, file.mimeType, file.size, buffer)))
  {
  }

  lemma DateRangeCopiesAgree(parse: V.DateParser, startDate: Option<string>, endDate: Option<string>)
    ensures ValidateDateRange(parse, startDate, endDate) == V.ValidateDateRange(parse, startDate, endDate)
  {
  }
}
