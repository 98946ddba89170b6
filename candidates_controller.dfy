/**
 * The request handlers of the candidate routes
 * (backend/src/controllers/candidates.controller.ts): the order of the body
 * checks, the id and query parsing, and which service and file calls each
 * handler makes on which outcome. A handler either responds or passes an
 * error on to the error handler (`next(error)`).
 */
module CandidatesController {
  import opened Base
  import opened Text
  import opened ErrorMiddleware
  import V = Validation
  import opened CandidateService
  import F = FileHandler

  const InvalidIdMessage := "ID de candidato inválido"
  const NoFileMessage := "No se proporcionó ningún archivo"
  const NoCvMessage := "El candidato no tiene CV cargado"
  const DeletedMessage := "Candidato eliminado exitosamente"
  const EducationPrefix := "Educación: "
  const WorkPrefix := "Experiencia laboral: "
  const FirstNameField := "Nombre"
  const LastNameField := "Apellido"

  /** The body of a successful response. */
  datatype Reply =
    | CandidateReply(record: CandidateRecord)
    | ListReply(page: CandidatePage)
    | DeletedReply(message: string)
    | CvReply(saved: F.SavedFile)
    | FileReply(contents: F.FileContents)

  /** What a handler does: respond with a status and a body, or call `next(error)`. */
  datatype Handled = Respond(status: int, reply: Reply) | Next(error: AppError)

  function AnswerRecord(status: int, r: Result<CandidateRecord>): (h: Handled)
    ensures r.Ok? ==> h == Respond(status, CandidateReply(r.value))
    ensures r.Fail? ==> h == Next(r.error)
  {
    match r
    case Ok(record) => Respond(status, CandidateReply(record))
    case Fail(e) => Next(e)
  }

  // ---------------------------------------------------------------- ids and queries

  /** `parseInt(req.params.id)`, with NaN as `None`. */
  function ParseId(param: string): (r: Option<int>)
    ensures forall i :: param == IntToString(i) ==> r == Some(i)
  {
    forall i | param == IntToString(i) ensures ParseInt(param) == Some(i) {
      ParseIntOfIntToString(i);
    }
    ParseInt(param)
  }

  /** The `ID de candidato inválido` rejection every handler with an id starts with. */
  function InvalidId(): (e: AppError)
    ensures StatusOf(e) == 400 && e.message == InvalidIdMessage
  {
    CreateError(InvalidIdMessage, 400)
  }

  /** `parseInt(query) || fallback`, as written: NaN and 0 give the fallback, anything else is kept. */
  function QueryNumber(query: Option<string>, fallback: int): (r: int)
    ensures r == fallback || (query.Some? && ParseInt(query.value) == Some(r) && r != 0)
    ensures query.None? || ParseInt(query.value).None? ==> r == fallback
  {
    if query.None? then fallback
    else match ParseInt(query.value)
      case None => fallback
      case Some(n) => if n == 0 then fallback else n
  }

  /** A negative query is kept as it is, so `page=-1` reaches the service as page -1, whose `skip` is negative. */
  lemma NegativeQueryKept(n: int, fallback: int)
    requires n < 0
    ensures QueryNumber(Some(IntToString(n)), fallback) == n
    ensures (QueryNumber(Some(IntToString(n)), fallback) - 1) * 10 < 0
  {
    ParseIntOfIntToString(n);
    ParsedQueryKept(IntToString(n), n, fallback);
  }

  /** A query that parses to a non-zero number is taken as it is. */
  lemma ParsedQueryKept(query: string, n: int, fallback: int)
    requires ParseInt(query) == Some(n) && n != 0
    ensures QueryNumber(Some(query), fallback) == n
  {
  }

  /** The query number the list handler evidently intends: anything below 1 falls back too. */
  function PositiveQueryNumber(query: Option<string>, fallback: int): (r: int)
    requires fallback >= 1
    ensures r >= 1
  {
    var n := QueryNumber(query, fallback);
    if n < 1 then fallback else n
  }

  /** The corrected reading agrees with `parseInt(query) || fallback` whenever that is a valid page number. */
  lemma PositiveQueryNumberAgrees(query: Option<string>, fallback: int)
    requires fallback >= 1
    ensures QueryNumber(query, fallback) >= 1 ==> PositiveQueryNumber(query, fallback) == QueryNumber(query, fallback)
    ensures QueryNumber(query, fallback) < 1 ==> PositiveQueryNumber(query, fallback) == fallback
    ensures query.None? ==> PositiveQueryNumber(query, fallback) == fallback
  {
  }

  // ---------------------------------------------------------------- date ranges

  type DateRange = (Option<string>, Option<string>)

  function EducationRanges(entries: Option<seq<EducationInput>>): (r: seq<DateRange>)
    ensures entries.None? ==> r == []
    ensures entries.Some? ==>
      |r| == |entries.value| && forall k | 0 <= k < |r| :: r[k] == (entries.value[k].startDate, entries.value[k].endDate)
  {
    match entries
    case None => []
    case Some(es) => seq(|es|, k requires 0 <= k < |es| => (es[k].startDate, es[k].endDate))
  }

  function WorkRanges(entries: Option<seq<WorkInput>>): (r: seq<DateRange>)
    ensures entries.None? ==> r == []
    ensures entries.Some? ==>
      |r| == |entries.value| && forall k | 0 <= k < |r| :: r[k] == (entries.value[k].startDate, entries.value[k].endDate)
  {
    match entries
    case None => []
    case Some(ws) => seq(|ws|, k requires 0 <= k < |ws| => (ws[k].startDate, ws[k].endDate))
  }

  /** An entry passes the handler's date check: unless both dates are given, it is not checked. */
  predicate RangeAccepted(parse: V.DateParser, range: DateRange) {
    !(Truthy(range.0) && Truthy(range.1)) || V.ValidateDateRange(parse, range.0, range.1) == V.Valid
  }

  /** The error of the first entry from `from` on whose range fails, with the list's prefix on the validator's message. */
  function FirstDateError(parse: V.DateParser, prefix: string, ranges: seq<DateRange>, from: nat): (r: Option<AppError>)
    requires from <= |ranges|
    ensures r.None? <==> forall k | from <= k < |ranges| :: RangeAccepted(parse, ranges[k])
    ensures r.Some? ==> exists k | from <= k < |ranges| ::
      && !RangeAccepted(parse, ranges[k])
      && (forall j | from <= j < k :: RangeAccepted(parse, ranges[j]))
      && r.value == CreateError(prefix + V.ValidateDateRange(parse, ranges[k].0, ranges[k].1).error, 400)
    decreases |ranges| - from
  {
    if from == |ranges| then None
    else if !RangeAccepted(parse, ranges[from]) then
      Some(CreateError(prefix + V.ValidateDateRange(parse, ranges[from].0, ranges[from].1).error, 400))
    else FirstDateError(parse, prefix, ranges, from + 1)
  }

  /** The `for ... of` loop over a list's entries, throwing on the first bad range. */
  method CheckDateRanges(parse: V.DateParser, prefix: string, ranges: seq<DateRange>) returns (r: Option<AppError>)
    ensures r == FirstDateError(parse, prefix, ranges, 0)
  {
    var i := 0;
    while i < |ranges|
      invariant 0 <= i <= |ranges|
      invariant FirstDateError(parse, prefix, ranges, 0) == FirstDateError(parse, prefix, ranges, i)
    {
      var (startDate, endDate) := ranges[i];
      if Truthy(startDate) && Truthy(endDate) {
        var validation := V.ValidateDateRange(parse, startDate, endDate);
        if validation.Invalid? {
          return Some(CreateError(prefix + validation.error, 400));
        }
      }
      i := i + 1;
    }
    return None;
  }

  // ---------------------------------------------------------------- body checks

  /** `validateRequired(name, field)` turned into the 400 the handlers throw. */
  function RequiredNameError(name: Option<string>, field: string): (r: Option<AppError>)
    ensures r.None? <==> name.Some? && !AllWs(name.value)
    ensures r.Some? ==> r.value == CreateError(V.RequiredMessage(field), 400) && StatusOf(r.value) == 400
  {
    var validation := V.ValidateRequired(name, field);
    if validation.Invalid? then Some(CreateError(validation.error, 400)) else None
  }

  /** `validateMinLength(name, 2, field)` turned into the 400 the handlers throw. */
  function ShortNameError(name: string, field: string): (r: Option<AppError>)
    ensures r.None? <==> |name| >= 2
    ensures r.Some? ==> r.value == CreateError(V.MinLengthMessage(field, 2), 400) && StatusOf(r.value) == 400
  {
    if V.ValidateMinLength(name, 2, field).Invalid? then Some(CreateError(V.MinLengthMessage(field, 2), 400)) else None
  }

  /** `validateEmail(email)` turned into the 400 the handlers throw. */
  function EmailFieldError(email: Option<string>): (r: Option<AppError>)
    ensures r.None? <==> email.Some? && V.MatchesEmailPattern(email.value)
    ensures r.Some? ==> r.value == CreateError(V.ValidateEmail(email).error, 400) && StatusOf(r.value) == 400
  {
    var validation := V.ValidateEmail(email);
    if validation.Invalid? then Some(CreateError(validation.error, 400)) else None
  }

  /** A name `validateRequired` accepts: present and not blank. */
  predicate NamePresent(name: Option<string>) {
    name.Some? && !AllWs(name.value)
  }

  /**
   * The create handler's checks of the scalar fields, in the order it runs them:
   * required first name, required last name, email, first-name length,
   * last-name length. The first failing check's message is the error.
   */
  function CreateFieldsError(body: UpdateData): (r: Option<AppError>)
    ensures r.Some? ==> StatusOf(r.value) == 400
    ensures !NamePresent(body.firstName) ==>
      r == Some(CreateError(V.RequiredMessage(FirstNameField), 400))
    ensures NamePresent(body.firstName) && !NamePresent(body.lastName) ==>
      r == Some(CreateError(V.RequiredMessage(LastNameField), 400))
    ensures NamePresent(body.firstName) && NamePresent(body.lastName) && !(body.email.Some? && V.MatchesEmailPattern(body.email.value)) ==>
      r == Some(CreateError(V.ValidateEmail(body.email).error, 400))
    ensures NamePresent(body.firstName) && NamePresent(body.lastName) && body.email.Some? && V.MatchesEmailPattern(body.email.value) ==>
      (|body.firstName.value| < 2 ==> r == Some(CreateError(V.MinLengthMessage(FirstNameField, 2), 400)))
    ensures NamePresent(body.firstName) && NamePresent(body.lastName) && body.email.Some? && V.MatchesEmailPattern(body.email.value) ==>
      (|body.firstName.value| >= 2 && |body.lastName.value| < 2 ==> r == Some(CreateError(V.MinLengthMessage(LastNameField, 2), 400)))
    ensures r.None? <==> NameAccepted(body.firstName) && NameAccepted(body.lastName)
                         && body.email.Some? && V.MatchesEmailPattern(body.email.value)
  {
    var firstName := RequiredNameError(body.firstName, FirstNameField);
    var lastName := RequiredNameError(body.lastName, LastNameField);
    var email := EmailFieldError(body.email);
    if firstName.Some? then firstName
    else if lastName.Some? then lastName
    else if email.Some? then email
    else
      var firstLength := ShortNameError(body.firstName.value, FirstNameField);
      if firstLength.Some? then firstLength
      else ShortNameError(body.lastName.value, LastNameField)
  }

  /** The date checks both handlers run after the field checks: education entries first, then work entries. */
  function DatesError(parse: V.DateParser, body: UpdateData): (r: Option<AppError>)
    ensures r.Some? ==> StatusOf(r.value) == 400
    ensures r.None? <==> AllRangesAccepted(parse, EducationRanges(body.education))
                         && AllRangesAccepted(parse, WorkRanges(body.workExperience))
  {
    var education := FirstDateError(parse, EducationPrefix, EducationRanges(body.education), 0);
    if education.Some? then education else FirstDateError(parse, WorkPrefix, WorkRanges(body.workExperience), 0)
  }

  predicate AllRangesAccepted(parse: V.DateParser, ranges: seq<DateRange>) {
    forall k | 0 <= k < |ranges| :: RangeAccepted(parse, ranges[k])
  }

  /** The create handler's checks: the first failure is the error. */
  function CreateBodyError(parse: V.DateParser, body: UpdateData): (r: Option<AppError>)
    ensures r.Some? ==> StatusOf(r.value) == 400
    ensures r.None? <==> CreateBodyAccepted(parse, body)
  {
    if CreateFieldsError(body).Some? then CreateFieldsError(body) else DatesError(parse, body)
  }

  /**
   * Only ranges with both dates are checked: an entry whose one date does not
   * parse passes the handler's checks and reaches the service.
   */
  lemma UnparseableSingleDateAccepted(parse: V.DateParser, body: UpdateData, entry: EducationInput)
    requires Truthy(entry.startDate) && parse(entry.startDate.value).None? && entry.endDate.None?
    requires body.education == Some([entry]) && body.workExperience.None?
    ensures DatesError(parse, body).None?
  {
    assert EducationRanges(body.education) == [(entry.startDate, entry.endDate)];
  }

  /** A name the create handler takes: present, not blank, at least two characters. */
  predicate NameAccepted(name: Option<string>) {
    name.Some? && !AllWs(name.value) && |name.value| >= 2
  }

  /** What a body must satisfy to reach `createCandidate`, stated check by check. */
  ghost predicate CreateBodyAccepted(parse: V.DateParser, body: UpdateData) {
    && NameAccepted(body.firstName)
    && NameAccepted(body.lastName)
    && body.email.Some? && V.MatchesEmailPattern(body.email.value)
    && AllRangesAccepted(parse, EducationRanges(body.education))
    && AllRangesAccepted(parse, WorkRanges(body.workExperience))
  }

  /** The presence checks come before the email and length checks: a missing first name is reported as such whatever else is wrong. */
  lemma MissingFirstNameReportedFirst(parse: V.DateParser, body: UpdateData)
    requires body.firstName.None? || AllWs(body.firstName.value)
    ensures CreateBodyError(parse, body) == Some(CreateError(V.RequiredMessage(FirstNameField), 400))
  {
  }

  /** A malformed email is reported before a first name that is too short. */
  lemma EmailCheckedBeforeLength(parse: V.DateParser, body: UpdateData)
    requires body.firstName.Some? && !AllWs(body.firstName.value)
    requires body.lastName.Some? && !AllWs(body.lastName.value)
    requires V.ValidateEmail(body.email).Invalid?
    ensures CreateBodyError(parse, body) == Some(CreateError(V.ValidateEmail(body.email).error, 400))
  {
  }

  /** A bad education range is reported before a bad work range. */
  lemma EducationDatesCheckedFirst(parse: V.DateParser, body: UpdateData)
    requires NameAccepted(body.firstName) && NameAccepted(body.lastName)
    requires body.email.Some? && V.MatchesEmailPattern(body.email.value)
    requires FirstDateError(parse, EducationPrefix, EducationRanges(body.education), 0).Some?
    ensures CreateBodyError(parse, body) == FirstDateError(parse, EducationPrefix, EducationRanges(body.education), 0)
  {
  }

  /** The create data a body that passed the checks carries. */
  function CreateDataOf(body: UpdateData): (d: CreateData)
    requires body.firstName.Some? && body.lastName.Some? && body.email.Some?
    ensures d.education == body.education && d.workExperience == body.workExperience
    ensures d.phone == body.phone && d.address == body.address
  {
    CreateData(body.firstName.value, body.lastName.value, body.email.value, body.phone, body.address,
               body.education, body.workExperience)
  }

  /** The update handler's checks of one supplied name: present and not blank, then at least two characters. */
  function SuppliedNameError(name: Option<string>, field: string): (r: Option<AppError>)
    ensures r.None? <==> name.None? || NameAccepted(name)
    ensures r.Some? ==> StatusOf(r.value) == 400
    ensures name.Some? && AllWs(name.value) ==> r == Some(CreateError(V.RequiredMessage(field), 400))
  {
    if name.None? then None
    else
      var required := RequiredNameError(name, field);
      if required.Some? then required else ShortNameError(name.value, field)
  }

  /** The update handler's checks of the scalar fields: only a present field is checked, as on create. */
  function UpdateFieldsError(body: UpdateData): (r: Option<AppError>)
    ensures r.Some? ==> StatusOf(r.value) == 400
    ensures r.None? <==> (body.firstName.None? || NameAccepted(body.firstName))
                         && (body.lastName.None? || NameAccepted(body.lastName))
                         && (body.email.None? || V.MatchesEmailPattern(body.email.value))
  {
    var firstName := SuppliedNameError(body.firstName, FirstNameField);
    if firstName.Some? then firstName
    else
      var lastName := SuppliedNameError(body.lastName, LastNameField);
      if lastName.Some? then lastName
      else if body.email.Some? then EmailFieldError(body.email)
      else None
  }

  function UpdateBodyError(parse: V.DateParser, body: UpdateData): (r: Option<AppError>)
    ensures r.Some? ==> StatusOf(r.value) == 400
    ensures r.None? <==> UpdateBodyAccepted(parse, body)
  {
    if UpdateFieldsError(body).Some? then UpdateFieldsError(body) else DatesError(parse, body)
  }

  ghost predicate UpdateBodyAccepted(parse: V.DateParser, body: UpdateData) {
    && (body.firstName.None? || NameAccepted(body.firstName))
    && (body.lastName.None? || NameAccepted(body.lastName))
    && (body.email.None? || V.MatchesEmailPattern(body.email.value))
    && AllRangesAccepted(parse, EducationRanges(body.education))
    && AllRangesAccepted(parse, WorkRanges(body.workExperience))
  }

  /** A body that passes the create checks passes the update checks too. */
  lemma CreateAcceptedIsUpdateAccepted(parse: V.DateParser, body: UpdateData)
    requires CreateBodyError(parse, body).None?
    ensures UpdateBodyError(parse, body).None?
  {
  }

  /** A supplied empty first name is still rejected as missing. */
  lemma EmptyFirstNameRejectedOnUpdate(parse: V.DateParser, body: UpdateData)
    requires body.firstName == Some("")
    ensures UpdateBodyError(parse, body) == Some(CreateError(V.RequiredMessage(FirstNameField), 400))
  {
  }

  // ---------------------------------------------------------------- handlers that only read

  /** `getCandidatesController`, with the page and limit read as the corrected query numbers. */
  function ListCandidates(db: Database, pageQuery: Option<string>, limitQuery: Option<string>): (h: Handled)
    requires Listed(db)
    ensures h.Respond? && h.status == 200 && h.reply.ListReply?
    ensures h.reply.page.pagination.page >= 1 && h.reply.page.pagination.limit >= 1
    ensures |h.reply.page.candidates| <= h.reply.page.pagination.limit
    ensures h.reply.page == ListPage(db, PositiveQueryNumber(pageQuery, 1), PositiveQueryNumber(limitQuery, 10))
  {
    Respond(200, ListReply(ListPage(db, PositiveQueryNumber(pageQuery, 1), PositiveQueryNumber(limitQuery, 10))))
  }

  /** Without a query the first ten candidates, newest first, are listed. */
  lemma DefaultListing(db: Database)
    requires Listed(db)
    ensures ListCandidates(db, None, None).reply.page == ListPage(db, 1, 10)
  {
  }

  /** `getCandidateByIdController`. */
  function GetCandidate(db: Database, idParam: string): (h: Handled)
    ensures ParseId(idParam).None? ==> h == Next(InvalidId())
    ensures ParseId(idParam).Some? ==> h == AnswerRecord(200, Find(db, ParseId(idParam).value))
  {
    match ParseId(idParam)
    case None => Next(InvalidId())
    case Some(id) => AnswerRecord(200, Find(db, id))
  }

  /** `downloadCVController`: the file's bytes with the type and name `getFile` gives. */
  function DownloadCv(db: Database, files: map<string, seq<byte>>, idParam: string): (h: Handled)
    ensures ParseId(idParam).None? ==> h == Next(InvalidId())
    ensures ParseId(idParam).Some? && ParseId(idParam).value !in db.candidates ==>
      h == Next(CreateError(NotFoundMessage, 404))
    ensures ParseId(idParam).Some? && ParseId(idParam).value in db.candidates
            && !Truthy(db.candidates[ParseId(idParam).value].cvFilePath) ==>
      h == Next(CreateError(NoCvMessage, 404))
    ensures ParseId(idParam).Some? && ParseId(idParam).value in db.candidates
            && Truthy(db.candidates[ParseId(idParam).value].cvFilePath) ==>
      var read := F.ReadFile(files, db.candidates[ParseId(idParam).value].cvFilePath.value);
      (read.Fail? ==> h == Next(read.error)) && (read.Ok? ==> h == Respond(200, FileReply(read.value)))
  {
    match ParseId(idParam)
    case None => Next(InvalidId())
    case Some(id) =>
      match Find(db, id)
      case Fail(e) => Next(e)
      case Ok(record) =>
        if !Truthy(record.candidate.cvFilePath) then Next(CreateError(NoCvMessage, 404))
        else match F.ReadFile(files, record.candidate.cvFilePath.value)
          case Fail(e) => Next(e)
          case Ok(contents) => Respond(200, FileReply(contents))
  }

  /**
   * An upload followed by a download of the same candidate returns the bytes
   * that were uploaded, under the stored name.
   */
  lemma UploadThenDownload(db: Database, files: map<string, seq<byte>>, id: int, file: V.UploadedFile, now: nat)
    requires id in db.candidates && F.SaveOutcome(file, id, now).Ok?
    ensures var saved := F.SaveOutcome(file, id, now).value;
      var h := DownloadCv(SetCv(db, id, saved.fileName, saved.filePath, saved.mimeType).db,
                          files[saved.filePath := file.buffer], IntToString(id));
      h.Respond? && h.reply.contents.buffer == file.buffer && h.reply.contents.fileName == saved.fileName
  {
    var saved := F.SaveOutcome(file, id, now).value;
    ParseIntOfIntToString(id);
    F.SaveThenRead(files, file, id, now);
    assert saved.filePath != "";
  }

  /** After a delete, downloading that candidate's CV fails 404. */
  lemma DownloadAfterDelete(db: Database, files: map<string, seq<byte>>, id: int)
    requires id in db.candidates
    ensures DownloadCv(Delete(db, id).db, files, IntToString(id)) == Next(CreateError(NotFoundMessage, 404))
  {
    ParseIntOfIntToString(id);
  }

  // ---------------------------------------------------------------- handlers that write

  /** `createCandidateController`. */
  method CreateCandidateController(store: CandidateStore, parse: V.DateParser, body: UpdateData) returns (h: Handled)
    requires store.Valid()
    modifies store
    ensures store.Valid()
    ensures CreateBodyError(parse, body).Some? ==>
      h == Next(CreateBodyError(parse, body).value) && store.Snapshot() == old(store.Snapshot())
    ensures CreateBodyError(parse, body).None? ==>
      var o := Create(old(store.Snapshot()), CreateDataOf(body));
      store.Snapshot() == o.db && h == AnswerRecord(201, o.result)
  {
    var fieldsError := CreateFieldsError(body);
    if fieldsError.Some? {
      return Next(fieldsError.value);
    }
    var dateError := CheckDateRanges(parse, EducationPrefix, EducationRanges(body.education));
    if dateError.Some? {
      return Next(dateError.value);
    }
    dateError := CheckDateRanges(parse, WorkPrefix, WorkRanges(body.workExperience));
    if dateError.Some? {
      return Next(dateError.value);
    }
    var created := store.CreateCandidate(CreateDataOf(body));
    h := AnswerRecord(201, created);
  }

  /** `updateCandidateController`. */
  method UpdateCandidateController(store: CandidateStore, parse: V.DateParser, idParam: string, body: UpdateData) returns (h: Handled)
    requires store.Valid()
    modifies store
    ensures store.Valid()
    ensures ParseId(idParam).None? ==> h == Next(InvalidId()) && store.Snapshot() == old(store.Snapshot())
    ensures ParseId(idParam).Some? && UpdateBodyError(parse, body).Some? ==>
      h == Next(UpdateBodyError(parse, body).value) && store.Snapshot() == old(store.Snapshot())
    ensures ParseId(idParam).Some? && UpdateBodyError(parse, body).None? ==>
      var o := Update(old(store.Snapshot()), ParseId(idParam).value, body);
      store.Snapshot() == o.db && h == AnswerRecord(200, o.result)
  {
    var id := ParseId(idParam);
    if id.None? {
      return Next(InvalidId());
    }
    var fieldsError := UpdateFieldsError(body);
    if fieldsError.Some? {
      return Next(fieldsError.value);
    }
    var dateError := CheckDateRanges(parse, EducationPrefix, EducationRanges(body.education));
    if dateError.Some? {
      return Next(dateError.value);
    }
    dateError := CheckDateRanges(parse, WorkPrefix, WorkRanges(body.workExperience));
    if dateError.Some? {
      return Next(dateError.value);
    }
    var updated := store.UpdateCandidate(id.value, body);
    h := AnswerRecord(200, updated);
  }

  /** `deleteCandidateController`: the CV file goes too when the deleted record names one. */
  method DeleteCandidateController(store: CandidateStore, files: F.FileSystem, idParam: string) returns (h: Handled)
    requires store.Valid()
    modifies store, files
    ensures store.Valid()
    ensures files.dirs == old(files.dirs)
    ensures ParseId(idParam).None? ==>
      h == Next(InvalidId()) && store.Snapshot() == old(store.Snapshot()) && files.files == old(files.files)
    ensures ParseId(idParam).Some? ==>
      var o := Delete(old(store.Snapshot()), ParseId(idParam).value);
      && store.Snapshot() == o.db
      && (o.result.Fail? ==> h == Next(o.result.error) && files.files == old(files.files))
      && (o.result.Ok? ==> h == Respond(200, DeletedReply(DeletedMessage)))
      && (o.result.Ok? && Truthy(o.result.value.cvFilePath) ==> files.files == old(files.files) - {o.result.value.cvFilePath.value})
      && (o.result.Ok? && !Truthy(o.result.value.cvFilePath) ==> files.files == old(files.files))
  {
    var id := ParseId(idParam);
    if id.None? {
      return Next(InvalidId());
    }
    var deleted := store.DeleteCandidate(id.value);
    if deleted.Fail? {
      return Next(deleted.error);
    }
    if Truthy(deleted.value.cvFilePath) {
      files.DeleteFile(deleted.value.cvFilePath.value);
    }
    h := Respond(200, DeletedReply(DeletedMessage));
  }

  /**
   * `uploadCVController`, behind the upload stage: id, then file, then the
   * candidate's existence, all before anything is written; then the file is
   * saved and its metadata recorded on the candidate.
   */
  method UploadCvController(store: CandidateStore, files: F.FileSystem, idParam: string, file: Option<V.UploadedFile>, now: nat)
    returns (h: Handled)
    requires store.Valid()
    modifies store, files
    ensures store.Valid()
    ensures ParseId(idParam).None? ==>
      h == Next(InvalidId()) && store.Snapshot() == old(store.Snapshot())
      && files.files == old(files.files) && files.dirs == old(files.dirs)
    ensures ParseId(idParam).Some? && file.None? ==>
      h == Next(CreateError(NoFileMessage, 400)) && store.Snapshot() == old(store.Snapshot())
      && files.files == old(files.files) && files.dirs == old(files.dirs)
    ensures ParseId(idParam).Some? && file.Some? && ParseId(idParam).value !in old(store.candidates) ==>
      h == Next(CreateError(NotFoundMessage, 404)) && store.Snapshot() == old(store.Snapshot())
      && files.files == old(files.files) && files.dirs == old(files.dirs)
    ensures ParseId(idParam).Some? && file.Some? && ParseId(idParam).value in old(store.candidates) ==>
      var id := ParseId(idParam).value;
      var saved := F.SaveOutcome(file.value, id, now);
      && files.dirs == old(files.dirs) + {F.UploadsDir}
      && (saved.Fail? ==> h == Next(saved.error) && store.Snapshot() == old(store.Snapshot()) && files.files == old(files.files))
      && (saved.Ok? ==>
            && files.files == old(files.files)[saved.value.filePath := file.value.buffer]
            && store.Snapshot() == SetCv(old(store.Snapshot()), id, saved.value.fileName, saved.value.filePath, saved.value.mimeType).db
            && h == Respond(200, CvReply(saved.value)))
  {
    var id := ParseId(idParam);
    if id.None? {
      return Next(InvalidId());
    }
    if file.None? {
      return Next(CreateError(NoFileMessage, 400));
    }
    var found := store.GetCandidateById(id.value);
    if found.Fail? {
      return Next(found.error);
    }
    var saved := files.SaveFile(file.value, id.value, now);
    if saved.Fail? {
      return Next(saved.error);
    }
    var _ := store.UpdateCandidateCV(id.value, saved.value.fileName, saved.value.filePath, saved.value.mimeType);
    h := Respond(200, CvReply(saved.value));
  }
}
