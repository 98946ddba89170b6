/**
 * The résumé upload stage in front of the upload controller
 * (backend/src/middleware/upload.middleware.ts): multer's file filter, its
 * 10 MiB size limit, and the mapping of upload errors to HTTP errors.
 */
module UploadMiddleware {
  import opened Base
  import opened Text
  import opened ErrorMiddleware
  import V = Validation

  const FilterMessage := "Solo se permiten archivos PDF o DOCX"
  const TooLargeMessage := "El archivo excede el tamaño máximo de 10MB"
  const UploadErrorPrefix := "Error al subir archivo: "
  const LimitFileSizeCode := "LIMIT_FILE_SIZE"

  /** A `multer.MulterError`: its `code` and `message`. */
  datatype MulterError = MulterError(code: string, message: string)

  /** What multer hands to the callback of `upload.single('cv')`. */
  datatype UploadError =
    | FromMulter(multerError: MulterError)
    | FromElsewhere(error: AppError)

  /** The result of running multer on a request: an error, or the parsed file if there was one. */
  datatype Received = ReceiveFailed(error: UploadError) | ReceivedFile(file: Option<V.UploadedFile>)

  /** `fileFilter`: the MIME type and the lower-cased `path.extname` must both be allowed. */
  predicate FileFilter(mimeType: string, originalName: string): (accepted: bool)
    ensures accepted <==> mimeType in V.AllowedMimeTypes && ToLower(ExtName(originalName)) in V.AllowedExtensions
    ensures accepted ==> ExtName(originalName) != ""
  {
    assert ToLower("") == "";
    mimeType in V.AllowedMimeTypes && ToLower(ExtName(originalName)) in V.AllowedExtensions
  }

  /**
   * multer configured with `fileFilter` and `limits.fileSize`: the filter runs
   * first and its rejection is passed on as it is; a file larger than the limit
   * then fails with LIMIT_FILE_SIZE.
   */
  function Receive(file: Option<V.UploadedFile>): (r: Received)
    ensures file.None? ==> r == ReceivedFile(None)
    ensures file.Some? && !FileFilter(file.value.mimeType, file.value.originalName) ==>
      r == ReceiveFailed(FromElsewhere(CreateError(FilterMessage, 400)))
    ensures file.Some? && FileFilter(file.value.mimeType, file.value.originalName) && file.value.size > V.MaxFileSize ==>
      r == ReceiveFailed(FromMulter(MulterError(LimitFileSizeCode, "File too large")))
    ensures file.Some? && FileFilter(file.value.mimeType, file.value.originalName) && file.value.size <= V.MaxFileSize ==>
      r == ReceivedFile(file)
    ensures r.ReceivedFile? && r.file.Some? ==>
      file == r.file && FileFilter(r.file.value.mimeType, r.file.value.originalName)
      && r.file.value.size <= V.MaxFileSize
  {
    match file
    case None => ReceivedFile(None)
    case Some(f) =>
      if !FileFilter(f.mimeType, f.originalName) then ReceiveFailed(FromElsewhere(CreateError(FilterMessage, 400)))
      else if f.size > V.MaxFileSize then ReceiveFailed(FromMulter(MulterError(LimitFileSizeCode, "File too large")))
      else ReceivedFile(file)
  }

  /** The callback of `uploadCV`: `None` is `next()`, `Some(e)` is `next(e)`. */
  function UploadCallback(err: Option<UploadError>): (r: Option<AppError>)
    ensures err.None? <==> r.None?
    ensures err.Some? && err.value.FromMulter? && err.value.multerError.code == LimitFileSizeCode ==>
      r == Some(CreateError(TooLargeMessage, 400))
    ensures err.Some? && err.value.FromMulter? && err.value.multerError.code != LimitFileSizeCode ==>
      r == Some(CreateError(UploadErrorPrefix + err.value.multerError.message, 400))
    ensures err.Some? && err.value.FromElsewhere? ==> r == Some(err.value.error)
  {
    match err
    case None => None
    case Some(FromMulter(e)) =>
      if e.code == LimitFileSizeCode then Some(CreateError(TooLargeMessage, 400))
      else Some(CreateError(UploadErrorPrefix + e.message, 400))
    case Some(FromElsewhere(e)) => Some(e)
  }

  /** The whole stage: the error passed on, or the file the controller sees. */
  function UploadCV(file: Option<V.UploadedFile>): (r: (Option<AppError>, Option<V.UploadedFile>))
    ensures r.0.None? <==> file.None? || (FileFilter(file.value.mimeType, file.value.originalName) && file.value.size <= V.MaxFileSize)
    ensures r.0.None? ==> r.1 == file
    ensures r.0.Some? ==> r.1.None?
    ensures file.Some? && !FileFilter(file.value.mimeType, file.value.originalName) ==>
      r.0 == Some(CreateError(FilterMessage, 400))
    ensures file.Some? && FileFilter(file.value.mimeType, file.value.originalName) && file.value.size > V.MaxFileSize ==>
      r.0 == Some(CreateError(TooLargeMessage, 400))
  {
    match Receive(file)
    case ReceiveFailed(e) => (UploadCallback(Some(e)), None)
    case ReceivedFile(f) => (UploadCallback(None), f)
  }

  /** Every rejection the stage produces reaches the client as a 400. */
  lemma UploadRejectionsAre400(file: Option<V.UploadedFile>)
    ensures UploadCV(file).0.Some? ==> StatusOf(UploadCV(file).0.value) == 400
    ensures UploadCV(file).0.None? ==> UploadCV(file).1 == file
  {
  }

  /** A mismatched pair fails whichever half is wrong. */
  lemma MismatchedPairRejected(mimeType: string, originalName: string)
    requires (mimeType in V.AllowedMimeTypes) != (ToLower(ExtName(originalName)) in V.AllowedExtensions)
    ensures !FileFilter(mimeType, originalName)
  {
  }

  /** Lower-casing and taking a suffix commute. */
  lemma ToLowerSuffix(s: string, i: nat)
    requires i <= |s|
    ensures ToLower(s)[i..] == ToLower(s[i..])
  {
  }

  /**
   * A file the filter and the size limit let through also passes `validateFile`,
   * so the validation inside `saveFile` never fails behind this stage.
   */
  lemma ReceivedFilePassesValidation(file: V.UploadedFile)
    requires FileFilter(file.mimeType, file.originalName) && file.size <= V.MaxFileSize
    ensures V.ValidateFile(Some(file)) == V.Valid
  {
    var name := file.originalName;
    assert ExtName(name) != "" by {
      assert ToLower(ExtName(name)) in V.AllowedExtensions;
      assert |ToLower(ExtName(name))| > 0;
    }
    ExtNameIsLastDotSuffix(name);
    ToLowerSuffix(name, LastIndexOf(name, '.'));
  }

  /** The converse fails: a file named ".pdf" passes `validateFile`... */
  lemma DotPdfPassesValidation()
    ensures V.ValidateFile(Some(V.UploadedFile(".pdf", V.PdfMime, 1, []))) == V.Valid
  {
    var name := ".pdf";
    assert V.ValidationExtension(name) == name by {
      LastIndexOfAt(name, 0, '.');
      assert ToLower(name) == name;
    }
    assert name in V.AllowedExtensions && V.PdfMime in V.AllowedMimeTypes;
  }

  /** ...but not the filter, since `path.extname(".pdf")` is "". */
  lemma DotPdfFailsFilter()
    ensures !FileFilter(V.PdfMime, ".pdf")
  {
    var name := ".pdf";
    assert ExtName(name) == "" by {
      LastIndexOfAbsent(name, '/');
      assert BaseName(name) == name;
      LastIndexOfAt(name, 0, '.');
    }
    NoExtensionRejected(V.PdfMime, name);
  }

  /** A name without an extension never passes the filter. */
  lemma NoExtensionRejected(mimeType: string, originalName: string)
    requires ExtName(originalName) == ""
    ensures !FileFilter(mimeType, originalName)
  {
    assert ToLower("") == "";
    assert "" !in V.AllowedExtensions;
  }
}
