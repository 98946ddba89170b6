/**
 * The backend field validators (backend/src/utils/validation.ts). Each one
 * returns `Valid` or `Invalid` with the first failing check's message.
 */
module Validation {
  import opened Base
  import opened Text

  datatype ValidationResult = Valid | Invalid(error: string)

  /**
   * `new Date(s)` followed by `getTime()`: a point in time, or `None` for an
   * Invalid Date. JavaScript's date parser is not modelled; callers supply one.
   */
  type DateParser = string -> Option<int>

  /** An uploaded file as the upload middleware hands it over (`Express.Multer.File`). */
  datatype UploadedFile = UploadedFile(originalName: string, mimeType: string, size: nat, buffer: seq<byte>)

  const EmailRequiredMessage := "El email es obligatorio"
  const EmailFormatMessage := "El formato del email no es válido"
  const DateFormatMessage := "Las fechas deben tener un formato válido"
  const DateOrderMessage := "La fecha de fin debe ser posterior a la fecha de inicio"
  const SingleDateFormatMessage := "La fecha debe tener un formato válido"
  const FileTypeMessage := "El archivo debe ser PDF o DOCX"
  const FileExtensionMessage := "El archivo debe tener extensión .pdf o .docx"
  const FileSizeMessage := "El archivo no puede exceder 10MB"

  const PdfMime := "application/pdf"
  const DocxMime := "application/vnd.openxmlformats-officedocument.wordprocessingml.document"
  const DocMime := "application/msword"
  const AllowedMimeTypes: seq<string> := [PdfMime, DocxMime, DocMime]
  const AllowedExtensions: seq<string> := [".pdf", ".docx", ".doc"]

  /** 10 MiB. */
  const MaxFileSize: nat := 10 * 1024 * 1024

  function RequiredMessage(fieldName: string): string {
    fieldName + " es obligatorio"
  }

  function MinLengthMessage(fieldName: string, minLength: int): string {
    fieldName + " debe tener al menos " + IntToString(minLength) + " caracteres"
  }

  // ---------------------------------------------------------------- email

  /** A character the class `[^\s@]` admits. */
  predicate EmailChar(c: char) {
    !IsWs(c) && c != '@'
  }

  /**
   * The language of `/^[^\s@]+@[^\s@]+\.[^\s@]+$/`, stated by the positions of
   * the '@' and of a '.' after it: non-empty text before the '@', between
   * the '@' and the '.', and after the '.', and no other '@' or whitespace.
   */
  ghost predicate MatchesEmailPattern(s: string) {
    exists at, dot | 0 < at && at + 1 < dot && dot + 1 < |s| ::
      s[at] == '@' && s[dot] == '.' && forall j | 0 <= j < |s| && j != at :: EmailChar(s[j])
  }

  /** The pattern test, computed: one '@' not in front, no whitespace, and a '.' strictly inside the domain. */
  predicate EmailShape(s: string) {
    var at := LastIndexOf(s, '@');
    && 0 < at
    && (forall j | 0 <= j < |s| && j != at :: EmailChar(s[j]))
    && (exists dot | at + 1 < dot < |s| - 1 :: s[dot] == '.')
  }

  lemma EmailShapeIsPattern(s: string)
    ensures EmailShape(s) <==> MatchesEmailPattern(s)
  {
    if MatchesEmailPattern(s) {
      var at, dot :| 0 < at && at + 1 < dot && dot + 1 < |s|
        && s[at] == '@' && s[dot] == '.' && forall j | 0 <= j < |s| && j != at :: EmailChar(s[j]);
      assert LastIndexOf(s, '@') == at;
      assert at + 1 < dot < |s| - 1 && s[dot] == '.';
    }
  }

  /** `validateEmail(email)`. */
  function ValidateEmail(email: Option<string>): (r: ValidationResult)
    ensures r == Valid <==> email.Some? && MatchesEmailPattern(email.value)
    ensures r.Invalid? && (!Truthy(email) || IsBlank(email.value)) ==> r.error == EmailRequiredMessage
    ensures r.Invalid? && Truthy(email) && !IsBlank(email.value) ==> r.error == EmailFormatMessage
  {
    if !Truthy(email) || IsBlank(email.value) then Invalid(EmailRequiredMessage)
    else (EmailShapeIsPattern(email.value);
          if !EmailShape(email.value) then Invalid(EmailFormatMessage) else Valid)
  }

  /** An absent, empty or whitespace-only email is reported as missing, not as malformed. */
  lemma EmailMissingWhenBlank(email: Option<string>)
    requires email.None? || AllWs(email.value)
    ensures ValidateEmail(email) == Invalid(EmailRequiredMessage)
  {
    if email.Some? {
      BlankIffAllWs(email.value);
    }
  }

  /** A string whose first character is not whitespace is not blank. */
  lemma NotBlankWithNonWsHead(s: string)
    requires |s| > 0 && !IsWs(s[0])
    ensures !IsBlank(s)
  {
    BlankIffAllWs(s);
  }

  lemma WellFormedEmailExample()
    ensures ValidateEmail(Some("test@example.com")) == Valid
  {
    var s := "test@example.com";
    assert s[4] == '@' && s[12] == '.';
    assert forall j | 0 <= j < |s| && j != 4 :: EmailChar(s[j]);
    assert MatchesEmailPattern(s);
  }

  /** A string without '@' is malformed. */
  lemma EmailWithoutAt(s: string)
    requires |s| > 0 && !IsWs(s[0]) && forall j | 0 <= j < |s| :: s[j] != '@'
    ensures ValidateEmail(Some(s)) == Invalid(EmailFormatMessage)
  {
    NotBlankWithNonWsHead(s);
  }

  lemma MalformedEmailExamples()
    ensures ValidateEmail(Some("invalid-email")) == Invalid(EmailFormatMessage)
    ensures ValidateEmail(Some("testexample.com")) == Invalid(EmailFormatMessage)
    ensures ValidateEmail(Some("test@")) == Invalid(EmailFormatMessage)
    ensures ValidateEmail(Some("")) == Invalid(EmailRequiredMessage)
  {
    EmailWithoutAt("invalid-email");
    EmailWithoutAt("testexample.com");
    NotBlankWithNonWsHead("test@");
  }

  // ---------------------------------------------------------------- required, length

  /** `validateRequired(value, fieldName)`. */
  function ValidateRequired(value: Option<string>, fieldName: string): (r: ValidationResult)
    ensures r == Valid <==> value.Some? && !AllWs(value.value)
    ensures r.Invalid? ==> r.error == RequiredMessage(fieldName)
  {
    if !Truthy(value) then Invalid(RequiredMessage(fieldName))
    else (BlankIffAllWs(value.value);
          if IsBlank(value.value) then Invalid(RequiredMessage(fieldName)) else Valid)
  }

  /** `validateMinLength(value, minLength, fieldName)`: the untrimmed length is compared. */
  function ValidateMinLength(value: string, minLength: int, fieldName: string): (r: ValidationResult)
    ensures r == Valid <==> |value| >= minLength
    ensures r.Invalid? ==> r.error == MinLengthMessage(fieldName, minLength)
  {
    if |value| < minLength then Invalid(MinLengthMessage(fieldName, minLength)) else Valid
  }

  // ---------------------------------------------------------------- dates

  /** `validateDateRange(startDate, endDate)`. */
  function ValidateDateRange(parse: DateParser, startDate: Option<string>, endDate: Option<string>): (r: ValidationResult)
    ensures !Truthy(startDate) || !Truthy(endDate) ==> r == Valid
    ensures Truthy(startDate) && Truthy(endDate) ==>
      (parse(startDate.value).None? || parse(endDate.value).None? ==> r == Invalid(DateFormatMessage))
    ensures Truthy(startDate) && Truthy(endDate) && parse(startDate.value).Some? && parse(endDate.value).Some? ==>
      (r == Valid <==> parse(startDate.value).value <= parse(endDate.value).value)
    ensures Truthy(startDate) && Truthy(endDate) && parse(startDate.value).Some? && parse(endDate.value).Some? ==>
      (parse(endDate.value).value < parse(startDate.value).value ==> r == Invalid(DateOrderMessage))
    ensures r.Invalid? ==> r.error == DateFormatMessage || r.error == DateOrderMessage
  {
    if !Truthy(startDate) || !Truthy(endDate) then Valid
    else
      var start := parse(startDate.value);
      var end := parse(endDate.value);
      if start.None? || end.None? then Invalid(DateFormatMessage)
      else if end.value < start.value then Invalid(DateOrderMessage)
      else Valid
  }

  /** Equal dates form a valid range. */
  lemma EqualDatesPass(parse: DateParser, date: string)
    requires date != "" && parse(date).Some?
    ensures ValidateDateRange(parse, Some(date), Some(date)) == Valid
  {
  }

  /** `validateDate(dateString)`. */
  function ValidateDate(parse: DateParser, dateString: Option<string>): (r: ValidationResult)
    ensures r == Valid <==> !Truthy(dateString) || parse(dateString.value).Some?
    ensures r.Invalid? ==> r.error == SingleDateFormatMessage
  {
    if !Truthy(dateString) then Valid
    else if parse(dateString.value).None? then Invalid(SingleDateFormatMessage)
    else Valid
  }

  // ---------------------------------------------------------------- files

  /**
   * The extension `validateFile` compares:
   * `name.toLowerCase().substring(name.lastIndexOf('.'))`. Without a '.', the
   * index is -1 and the whole lower-cased name is taken.
   */
  function ValidationExtension(name: string): (ext: string)
    ensures LastIndexOf(name, '.') < 0 ==> ext == ToLower(name)
    ensures LastIndexOf(name, '.') >= 0 ==> ext == ToLower(name)[LastIndexOf(name, '.')..]
  {
    SubstringFrom(ToLower(name), LastIndexOf(name, '.'))
  }

  /** `validateFile(file)`: MIME type, then extension, then size; the first failing check wins. */
  function ValidateFile(file: Option<UploadedFile>): (r: ValidationResult)
    ensures file.None? ==> r == Valid
    ensures file.Some? ==>
      (r == Valid <==> file.value.mimeType in AllowedMimeTypes
                        && ValidationExtension(file.value.originalName) in AllowedExtensions
                        && file.value.size <= MaxFileSize)
    ensures file.Some? && file.value.mimeType !in AllowedMimeTypes ==> r == Invalid(FileTypeMessage)
    ensures (file.Some? && file.value.mimeType in AllowedMimeTypes
             && ValidationExtension(file.value.originalName) !in AllowedExtensions)
            ==> r == Invalid(FileExtensionMessage)
    ensures (file.Some? && file.value.mimeType in AllowedMimeTypes
             && ValidationExtension(file.value.originalName) in AllowedExtensions
             && file.value.size > MaxFileSize)
            ==> r == Invalid(FileSizeMessage)
  {
    match file
    case None => Valid
    case Some(f) =>
      if f.mimeType !in AllowedMimeTypes then Invalid(FileTypeMessage)
      else if ValidationExtension(f.originalName) !in AllowedExtensions then Invalid(FileExtensionMessage)
      else if f.size > MaxFileSize then Invalid(FileSizeMessage)
      else Valid
  }

  /** A file of exactly 10 MiB passes; one byte more fails on size. */
  lemma FileSizeBoundary(name: string, mime: string, buffer: seq<byte>)
    requires mime in AllowedMimeTypes && ValidationExtension(name) in AllowedExtensions
    ensures ValidateFile(Some(UploadedFile(name, mime, MaxFileSize, buffer))) == Valid
    ensures ValidateFile(Some(UploadedFile(name, mime, MaxFileSize + 1, buffer))) == Invalid(FileSizeMessage)
  {
  }
}
