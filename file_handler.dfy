/**
 * The résumé file store (backend/src/utils/fileHandler.ts). The file system
 * is a set of directories and a map from path to contents; `Date.now()` is a
 * parameter of `SaveFile`.
 */
module FileHandler {
  import opened Base
  import opened Text
  import opened ErrorMiddleware
  import V = Validation
  import U = UploadMiddleware

  /** The uploads directory. The absolute prefix `__dirname` gives it is not modelled. */
  const UploadsDir := "uploads/cvs"
  const StoredNamePrefix := "candidate-"
  const OctetStream := "application/octet-stream"
  const InvalidFileMessage := "Archivo inválido"
  const ReadFailurePrefix := "No se pudo leer el archivo: "

  /** What `saveFile` returns. */
  datatype SavedFile = SavedFile(fileName: string, filePath: string, mimeType: string)

  /** What `getFile` returns. */
  datatype FileContents = FileContents(buffer: seq<byte>, mimeType: string, fileName: string)

  /**
   * `candidate-{id}-{timestamp}{ext}`, where `ext` is `path.extname` of the
   * original name, case kept: the name starts with the stem and has exactly
   * the original name's extension.
   */
  function StoredName(candidateId: int, timestamp: nat, originalName: string): (name: string)
    ensures StoredStem(candidateId, timestamp) <= name
    ensures ExtName(name) == ExtName(originalName)
    ensures forall j | 0 <= j < |name| :: name[j] != '/'
  {
    var stem := StoredStem(candidateId, timestamp);
    var ext := ExtName(originalName);
    StoredStemPlain(candidateId, timestamp);
    ExtNameAfterPlainStem(stem, ext);
    assert forall j | 0 <= j < |stem + ext| :: (stem + ext)[j] != '/' by {
      forall j | 0 <= j < |stem + ext| ensures (stem + ext)[j] != '/' {
        if j < |stem| {
          assert (stem + ext)[j] == stem[j];
        } else {
          assert (stem + ext)[j] == ext[j - |stem|];
        }
      }
    }
    stem + ext
  }

  function StoredStem(candidateId: int, timestamp: nat): string {
    StoredNamePrefix + IntToString(candidateId) + "-" + NatToString(timestamp)
  }

  /** `path.join(UPLOADS_DIR, fileName)`: its base name is the stored name, so it keeps the original extension. */
  function StoredPath(candidateId: int, timestamp: nat, originalName: string): (path: string)
    ensures BaseName(path) == StoredName(candidateId, timestamp, originalName)
    ensures ExtName(path) == ExtName(originalName)
  {
    var name := StoredName(candidateId, timestamp, originalName);
    var path := JoinPath(UploadsDir, name);
    BaseNameOfJoin(UploadsDir, name);
    ExtNameOfBaseName(path);
    path
  }

  /** The MIME type `getFile` derives from a lower-cased extension. */
  function MimeForExtension(ext: string): (mime: string)
    ensures ext in V.AllowedExtensions <==> mime != OctetStream
    ensures forall k | 0 <= k < |V.AllowedExtensions| :: ext == V.AllowedExtensions[k] ==> mime == V.AllowedMimeTypes[k]
  {
    if ext == ".pdf" then V.PdfMime
    else if ext == ".docx" then V.DocxMime
    else if ext == ".doc" then V.DocMime
    else OctetStream
  }

  /** The outcome of `saveFile` once the directory exists: validate, then name the file. */
  function SaveOutcome(file: V.UploadedFile, candidateId: int, timestamp: nat): (r: Result<SavedFile>)
    ensures r.Fail? <==> V.ValidateFile(Some(file)).Invalid?
    ensures r.Fail? ==> r.error.statusCode.None? && r.error.message == V.ValidateFile(Some(file)).error
    ensures r.Ok? ==> r.value.fileName == StoredName(candidateId, timestamp, file.originalName)
    ensures r.Ok? ==> r.value.filePath == JoinPath(UploadsDir, r.value.fileName)
    ensures r.Ok? ==> r.value.mimeType == file.mimeType
  {
    match V.ValidateFile(Some(file))
    case Invalid(error) => Fail(PlainError(if error != "" then error else InvalidFileMessage))
    case Valid =>
      var fileName := StoredName(candidateId, timestamp, file.originalName);
      Ok(SavedFile(fileName, JoinPath(UploadsDir, fileName), file.mimeType))
  }

  /** The outcome of `getFile` on the given contents of the file system. */
  function ReadFile(files: map<string, seq<byte>>, filePath: string): (r: Result<FileContents>)
    ensures r.Fail? <==> filePath !in files
    ensures r.Fail? ==> r.error == PlainError(ReadFailurePrefix + filePath)
    ensures r.Ok? ==> r.value.buffer == files[filePath]
    ensures r.Ok? ==> r.value.fileName == BaseName(filePath)
    ensures r.Ok? ==> r.value.mimeType == MimeForExtension(ToLower(ExtName(filePath)))
  {
    if filePath !in files then Fail(PlainError(ReadFailurePrefix + filePath))
    else Ok(FileContents(files[filePath], MimeForExtension(ToLower(ExtName(filePath))), BaseName(filePath)))
  }

  class FileSystem {
    var dirs: set<string>
    var files: map<string, seq<byte>>

    constructor (dirs: set<string>, files: map<string, seq<byte>>)
      ensures this.dirs == dirs && this.files == files
    {
      this.dirs := dirs;
      this.files := files;
    }

    /** `ensureUploadsDir`: create the directory only when it is missing; calling it again changes nothing. */
    method EnsureUploadsDir()
      modifies this`dirs
      ensures dirs == old(dirs) + {UploadsDir}
      ensures UploadsDir in old(dirs) ==> dirs == old(dirs)
    {
      if UploadsDir !in dirs {
        dirs := dirs + {UploadsDir};
      }
    }

    /** `saveFile(file, candidateId)` at time `now`: nothing is written unless the file is valid. */
    method SaveFile(file: V.UploadedFile, candidateId: int, now: nat) returns (r: Result<SavedFile>)
      modifies this
      ensures dirs == old(dirs) + {UploadsDir}
      ensures r == SaveOutcome(file, candidateId, now)
      ensures r.Fail? ==> files == old(files)
      ensures r.Ok? ==> files == old(files)[r.value.filePath := file.buffer]
    {
      EnsureUploadsDir();
      var validation := V.ValidateFile(Some(file));
      if validation.Invalid? {
        var message := if validation.error != "" then validation.error else InvalidFileMessage;
        return Fail(PlainError(message));
      }
      var fileExtension := ExtName(file.originalName);
      var fileName := StoredNamePrefix + IntToString(candidateId) + "-" + NatToString(now) + fileExtension;
      var filePath := JoinPath(UploadsDir, fileName);
      files := files[filePath := file.buffer];
      r := Ok(SavedFile(fileName, filePath, file.mimeType));
    }

    /** `deleteFile(filePath)`: never fails; a missing file is left missing. */
    method DeleteFile(filePath: string)
      modifies this`files
      ensures files == old(files) - {filePath}
      ensures filePath !in old(files) ==> files == old(files)
    {
      if filePath in files {
        files := files - {filePath};
      }
    }

    /** `getFile(filePath)`. */
    method GetFile(filePath: string) returns (r: Result<FileContents>)
      ensures r == ReadFile(files, filePath)
    {
      if filePath !in files {
        return Fail(PlainError(ReadFailurePrefix + filePath));
      }
      var buffer := files[filePath];
      var fileName := BaseName(filePath);
      var ext := ToLower(ExtName(filePath));
      var mimeType := OctetStream;
      if ext == ".pdf" {
        mimeType := V.PdfMime;
      } else if ext == ".docx" {
        mimeType := V.DocxMime;
      } else if ext == ".doc" {
        mimeType := V.DocMime;
      }
      r := Ok(FileContents(buffer, mimeType, fileName));
    }
  }

  // ---------------------------------------------------------------- stored names

  predicate NoSlashOrDot(s: string) {
    forall j | 0 <= j < |s| :: s[j] != '/' && s[j] != '.'
  }

  lemma StoredStemPlain(candidateId: int, timestamp: nat)
    ensures NoSlashOrDot(StoredStem(candidateId, timestamp))
    ensures |StoredStem(candidateId, timestamp)| > |StoredNamePrefix|
  {
    var id := IntToString(candidateId);
    var ts := NatToString(timestamp);
    var stem := StoredNamePrefix + id + "-" + ts;
    forall j | 0 <= j < |stem| ensures stem[j] != '/' && stem[j] != '.' {
      if j < |StoredNamePrefix| {
        assert stem[j] == StoredNamePrefix[j];
      } else if j < |StoredNamePrefix| + |id| {
        assert stem[j] == id[j - |StoredNamePrefix|];
      } else if j == |StoredNamePrefix| + |id| {
        assert stem[j] == '-';
      } else {
        assert stem[j] == ts[j - |StoredNamePrefix| - |id| - 1];
      }
    }
  }

  /** A non-empty stem without '/' or '.' followed by an extension has that extension. */
  lemma ExtNameAfterPlainStem(stem: string, ext: string)
    requires |stem| > 0 && NoSlashOrDot(stem)
    requires ext != "" ==> ext[0] == '.'
    requires forall j | 0 <= j < |ext| :: ext[j] != '/' && (j > 0 ==> ext[j] != '.')
    ensures ExtName(stem + ext) == ext
  {
    NoSlashInJoin(stem, ext);
    LastDotOfJoin(stem, ext);
    if ext == "" {
      ExtNameByLastDot(stem + ext, -1, ext);
    } else {
      assert (stem + ext)[0] == stem[0];
      assert (stem + ext)[|stem|..] == ext;
      ExtNameByLastDot(stem + ext, |stem|, ext);
    }
  }

  lemma NoSlashInJoin(stem: string, ext: string)
    requires NoSlashOrDot(stem) && forall j | 0 <= j < |ext| :: ext[j] != '/'
    ensures LastIndexOf(stem + ext, '/') == -1
  {
    LastIndexOfAbsent(stem, '/');
    LastIndexOfAbsent(ext, '/');
    LastIndexOfAppend(stem, ext, '/');
  }

  lemma LastDotOfJoin(stem: string, ext: string)
    requires NoSlashOrDot(stem)
    requires ext != "" ==> ext[0] == '.'
    requires forall j | 0 < j < |ext| :: ext[j] != '.'
    ensures ext == "" ==> LastIndexOf(stem + ext, '.') == -1
    ensures ext != "" ==> LastIndexOf(stem + ext, '.') == |stem|
  {
    LastIndexOfAbsent(stem, '.');
    if ext == "" {
      assert stem + ext == stem;
    } else {
      LastIndexOfAt(ext, 0, '.');
      LastIndexOfAppend(stem, ext, '.');
    }
  }

  /** `path.extname` of a name without '/' whose last '.' is at `d`. */
  lemma ExtNameByLastDot(name: string, d: int, ext: string)
    requires LastIndexOf(name, '/') == -1 && d == LastIndexOf(name, '.')
    requires (d == -1 && ext == "") || (0 < d && name[0] != '.' && ext == name[d..])
    ensures ExtName(name) == ext
  {
    assert BaseName(name) == name by {
      assert name[0..] == name;
    }
  }

  // ---------------------------------------------------------------- save, read, delete

  /**
   * Reading back what `saveFile` wrote gives the saved bytes, the saved name,
   * and the MIME type of the original name's extension.
   */
  lemma SaveThenRead(files: map<string, seq<byte>>, file: V.UploadedFile, candidateId: int, timestamp: nat)
    requires SaveOutcome(file, candidateId, timestamp).Ok?
    ensures var saved := SaveOutcome(file, candidateId, timestamp).value;
      ReadFile(files[saved.filePath := file.buffer], saved.filePath)
        == Ok(FileContents(file.buffer, MimeForExtension(ToLower(ExtName(file.originalName))), saved.fileName))
  {
    var saved := SaveOutcome(file, candidateId, timestamp).value;
    ReadSavedPath(files[saved.filePath := file.buffer], StoredPath(candidateId, timestamp, file.originalName),
                  StoredName(candidateId, timestamp, file.originalName), file.originalName, file.buffer);
  }

  lemma ReadSavedPath(files: map<string, seq<byte>>, path: string, name: string, originalName: string, buffer: seq<byte>)
    requires path in files && files[path] == buffer
    requires BaseName(path) == name && ExtName(path) == ExtName(originalName)
    ensures ReadFile(files, path) == Ok(FileContents(buffer, MimeForExtension(ToLower(ExtName(originalName))), name))
  {
  }

  /** A save that fails leaves nothing to read at the name it would have used. */
  lemma FailedSaveWritesNothing(file: V.UploadedFile, candidateId: int, timestamp: nat)
    requires V.ValidateFile(Some(file)).Invalid?
    ensures SaveOutcome(file, candidateId, timestamp).Fail?
    ensures StatusOf(SaveOutcome(file, candidateId, timestamp).error) == 500
  {
  }

  /** Behind the upload stage, `saveFile` always succeeds. */
  lemma SaveSucceedsAfterUploadStage(file: V.UploadedFile, candidateId: int, timestamp: nat)
    requires U.FileFilter(file.mimeType, file.originalName) && file.size <= V.MaxFileSize
    ensures SaveOutcome(file, candidateId, timestamp).Ok?
  {
    U.ReceivedFilePassesValidation(file);
  }

  /**
   * A file that passed the upload filter is served back with the MIME type of
   * its extension, which is one of the accepted types.
   */
  lemma DownloadTypeOfFilteredUpload(file: V.UploadedFile, candidateId: int, timestamp: nat)
    requires U.FileFilter(file.mimeType, file.originalName)
    ensures MimeForExtension(ToLower(ExtName(StoredPath(candidateId, timestamp, file.originalName)))) in V.AllowedMimeTypes
  {
  }

  /** After `deleteFile` the path reads as missing, and every other path reads as before. */
  lemma ReadAfterDelete(files: map<string, seq<byte>>, deleted: string, other: string)
    requires other != deleted
    ensures ReadFile(files - {deleted}, deleted).Fail?
    ensures ReadFile(files - {deleted}, other) == ReadFile(files, other)
  {
  }
}
