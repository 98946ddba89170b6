/**
 * The candidate form of the recruiter's browser client
 * (frontend/src/components/CandidateForm/CandidateForm.tsx): the error map
 * `validateForm` fills, the request `handleSubmit` sends, and the helpers
 * that edit the education and work lists.
 */
module CandidateForm {
  import opened Base
  import opened Text
  import V = Validation
  import C = ClientValidation
  import opened CandidateService
  import Ctl = CandidatesController

  const FixErrorsMessage := "Por favor, corrige los errores en el formulario"
  const CreateFailedMessage := "Error al crear el candidato"

  /** The form's state: the text inputs, the two lists and the chosen CV file. */
  datatype FormState = FormState(
    firstName: string, lastName: string, email: string, phone: string, address: string,
    education: seq<EducationInput>, workExperience: seq<WorkInput>,
    cvFile: Option<C.BrowserFile>)

  /** Which field of a list entry an error is recorded under. */
  datatype EntryPart = Institution | Degree | Company | Position | Dates

  /** A key of the error map: `firstName`, or `education-{i}-degree` and the like. */
  datatype FieldKey =
    | FirstNameKey
    | LastNameKey
    | EmailKey
    | EducationKey(index: nat, part: EntryPart)
    | WorkKey(index: nat, part: EntryPart)

  function PartName(part: EntryPart): string {
    match part
    case Institution => "institution"
    case Degree => "degree"
    case Company => "company"
    case Position => "position"
    case Dates => "dates"
  }

  /** The key as the source spells it. */
  function KeyName(k: FieldKey): (name: string)
    ensures k.EducationKey? ==> StartsWith(name, "education-")
    ensures k.WorkKey? ==> StartsWith(name, "work-")
  {
    match k
    case FirstNameKey => "firstName"
    case LastNameKey => "lastName"
    case EmailKey => "email"
    case EducationKey(i, part) => "education-" + NatToString(i) + "-" + PartName(part)
    case WorkKey(i, part) => "work-" + NatToString(i) + "-" + PartName(part)
  }

  // ---------------------------------------------------------------- what each key records

  /** A name gets the required error, and only if it has one passes on to the length check. */
  function NameError(value: string, fieldName: string): (r: Option<string>)
    ensures r.None? <==> !AllWs(value) && |value| >= 2
    ensures AllWs(value) ==> r == Some(V.RequiredMessage(fieldName))
    ensures !AllWs(value) && |value| < 2 ==> r == Some(V.MinLengthMessage(fieldName, 2))
  {
    var required := C.ValidateRequired(Some(value), fieldName);
    if required.Invalid? then Some(required.error)
    else
      var length := C.ValidateMinLength(value, 2, fieldName);
      if length.Invalid? then Some(length.error) else None
  }

  function RequiredError(value: string, fieldName: string): (r: Option<string>)
    ensures r.None? <==> !AllWs(value)
    ensures r.Some? ==> r.value == V.RequiredMessage(fieldName)
  {
    var required := C.ValidateRequired(Some(value), fieldName);
    if required.Invalid? then Some(required.error) else None
  }

  /** A `...-dates` error: only when both dates are given and the range fails. */
  function DatesError(parse: V.DateParser, startDate: Option<string>, endDate: Option<string>): (r: Option<string>)
    ensures r.Some? <==> Truthy(startDate) && Truthy(endDate) && C.ValidateDateRange(parse, startDate, endDate).Invalid?
  {
    if Truthy(startDate) && Truthy(endDate) then
      var range := C.ValidateDateRange(parse, startDate, endDate);
      if range.Invalid? then Some(range.error) else None
    else None
  }

  function EducationError(parse: V.DateParser, entry: EducationInput, part: EntryPart): Option<string> {
    match part
    case Institution => RequiredError(entry.institution, "Institución")
    case Degree => RequiredError(entry.degree, "Título")
    case Dates => DatesError(parse, entry.startDate, entry.endDate)
    case _ => None
  }

  function WorkError(parse: V.DateParser, entry: WorkInput, part: EntryPart): Option<string> {
    match part
    case Company => RequiredError(entry.company, "Empresa")
    case Position => RequiredError(entry.position, "Puesto")
    case Dates => DatesError(parse, entry.startDate, entry.endDate)
    case _ => None
  }

  /** The error `validateForm` records under `k`, if any. */
  function ErrorFor(parse: V.DateParser, form: FormState, k: FieldKey): Option<string> {
    match k
    case FirstNameKey => NameError(form.firstName, "Nombre")
    case LastNameKey => NameError(form.lastName, "Apellido")
    case EmailKey => EmailError(form.email)
    case EducationKey(i, part) =>
      if i < |form.education| then EducationError(parse, form.education[i], part) else None
    case WorkKey(i, part) =>
      if i < |form.workExperience| then WorkError(parse, form.workExperience[i], part) else None
  }

  /** An education entry that records no error. */
  predicate EducationEntryAccepted(parse: V.DateParser, entry: EducationInput) {
    !AllWs(entry.institution) && !AllWs(entry.degree) && Ctl.RangeAccepted(parse, (entry.startDate, entry.endDate))
  }

  /** A work entry that records no error. */
  predicate WorkEntryAccepted(parse: V.DateParser, entry: WorkInput) {
    !AllWs(entry.company) && !AllWs(entry.position) && Ctl.RangeAccepted(parse, (entry.startDate, entry.endDate))
  }

  /** A form that records no error, stated field by field. */
  ghost predicate FormAccepted(parse: V.DateParser, form: FormState) {
    && !AllWs(form.firstName) && |form.firstName| >= 2
    && !AllWs(form.lastName) && |form.lastName| >= 2
    && V.MatchesEmailPattern(form.email)
    && (forall i | 0 <= i < |form.education| :: EducationEntryAccepted(parse, form.education[i]))
    && (forall i | 0 <= i < |form.workExperience| :: WorkEntryAccepted(parse, form.workExperience[i]))
  }

  lemma EducationEntryErrors(parse: V.DateParser, entry: EducationInput)
    ensures EducationEntryAccepted(parse, entry) <==>
      EducationError(parse, entry, Institution).None? && EducationError(parse, entry, Degree).None?
      && EducationError(parse, entry, Dates).None?
  {
    assert EducationError(parse, entry, Institution).None? <==> !AllWs(entry.institution);
    assert EducationError(parse, entry, Degree).None? <==> !AllWs(entry.degree);
    C.DateRangeCopiesAgree(parse, entry.startDate, entry.endDate);
    assert EducationError(parse, entry, Dates).None? <==> Ctl.RangeAccepted(parse, (entry.startDate, entry.endDate));
  }

  lemma WorkEntryErrors(parse: V.DateParser, entry: WorkInput)
    ensures WorkEntryAccepted(parse, entry) <==>
      WorkError(parse, entry, Company).None? && WorkError(parse, entry, Position).None?
      && WorkError(parse, entry, Dates).None?
  {
    assert WorkError(parse, entry, Company).None? <==> !AllWs(entry.company);
    assert WorkError(parse, entry, Position).None? <==> !AllWs(entry.position);
    C.DateRangeCopiesAgree(parse, entry.startDate, entry.endDate);
    assert WorkError(parse, entry, Dates).None? <==> Ctl.RangeAccepted(parse, (entry.startDate, entry.endDate));
  }

  /** An accepted education entry records nothing under any of its keys. */
  lemma AcceptedEducationPart(parse: V.DateParser, entry: EducationInput, part: EntryPart)
    requires EducationEntryAccepted(parse, entry)
    ensures EducationError(parse, entry, part).None?
  {
    EducationEntryErrors(parse, entry);
    match part
    case Dates =>
    case _ =>
  }

  /** An accepted work entry records nothing under any of its keys. */
  lemma AcceptedWorkPart(parse: V.DateParser, entry: WorkInput, part: EntryPart)
    requires WorkEntryAccepted(parse, entry)
    ensures WorkError(parse, entry, part).None?
  {
    WorkEntryErrors(parse, entry);
    match part
    case Dates =>
    case _ =>
  }

  /** An accepted form records no error under any key. */
  lemma AcceptedRecordsNothing(parse: V.DateParser, form: FormState, k: FieldKey)
    requires FormAccepted(parse, form)
    ensures ErrorFor(parse, form, k).None?
  {
    match k
    case FirstNameKey =>
    case LastNameKey =>
    case EmailKey =>
    case EducationKey(i, part) =>
      if i < |form.education| {
        assert EducationEntryAccepted(parse, form.education[i]);
        AcceptedEducationPart(parse, form.education[i], part);
      }
    case WorkKey(i, part) =>
      if i < |form.workExperience| {
        assert WorkEntryAccepted(parse, form.workExperience[i]);
        AcceptedWorkPart(parse, form.workExperience[i], part);
      }
  }

  /** An education entry whose three keys record nothing is accepted. */
  lemma EducationEntryRecordsNothing(parse: V.DateParser, form: FormState, i: nat)
    requires i < |form.education|
    requires ErrorFor(parse, form, EducationKey(i, Institution)).None? && ErrorFor(parse, form, EducationKey(i, Degree)).None?
    requires ErrorFor(parse, form, EducationKey(i, Dates)).None?
    ensures EducationEntryAccepted(parse, form.education[i])
  {
    EducationEntryErrors(parse, form.education[i]);
  }

  /** A work entry whose three keys record nothing is accepted. */
  lemma WorkEntryRecordsNothing(parse: V.DateParser, form: FormState, i: nat)
    requires i < |form.workExperience|
    requires ErrorFor(parse, form, WorkKey(i, Company)).None? && ErrorFor(parse, form, WorkKey(i, Position)).None?
    requires ErrorFor(parse, form, WorkKey(i, Dates)).None?
    ensures WorkEntryAccepted(parse, form.workExperience[i])
  {
    WorkEntryErrors(parse, form.workExperience[i]);
  }

  /** A form that records no error under any key is accepted. */
  lemma NothingRecordedIsAccepted(parse: V.DateParser, form: FormState)
    requires forall k :: ErrorFor(parse, form, k).None?
    ensures FormAccepted(parse, form)
  {
    assert ErrorFor(parse, form, FirstNameKey).None?;
    assert ErrorFor(parse, form, LastNameKey).None?;
    assert ErrorFor(parse, form, EmailKey).None?;
    forall i | 0 <= i < |form.education|
      ensures EducationEntryAccepted(parse, form.education[i])
    {
      EducationEntryRecordsNothing(parse, form, i);
    }
    forall i | 0 <= i < |form.workExperience|
      ensures WorkEntryAccepted(parse, form.workExperience[i])
    {
      WorkEntryRecordsNothing(parse, form, i);
    }
  }

  /** No key records an error exactly when the form is accepted. */
  lemma NoErrorIffAccepted(parse: V.DateParser, form: FormState)
    ensures (forall k :: ErrorFor(parse, form, k).None?) <==> FormAccepted(parse, form)
  {
    if FormAccepted(parse, form) {
      forall k
        ensures ErrorFor(parse, form, k).None?
      {
        AcceptedRecordsNothing(parse, form, k);
      }
    }
    if forall k :: ErrorFor(parse, form, k).None? {
      NothingRecordedIsAccepted(parse, form);
    }
  }

  // ---------------------------------------------------------------- validateForm

  /** The keys `validateForm` has visited after `educationDone` education entries and `workDone` work entries. */
  predicate Visited(k: FieldKey, educationDone: nat, workDone: nat) {
    match k
    case EducationKey(i, part) => i < educationDone && part in {Institution, Degree, Dates}
    case WorkKey(i, part) => i < workDone && part in {Company, Position, Dates}
    case _ => true
  }

  /** `if (error) newErrors[key] = error`. */
  function Record(errors: map<FieldKey, string>, key: FieldKey, error: Option<string>): map<FieldKey, string> {
    if error.Some? then errors[key := error.value] else errors
  }

  /** The email's entry: `validateEmail`'s message when it fails. */
  function EmailError(email: string): (r: Option<string>)
    ensures r.None? <==> V.MatchesEmailPattern(email)
  {
    var result := C.ValidateEmail(email);
    if result.Invalid? then Some(result.error) else None
  }

  /** The map after the two names and the email. */
  function NameErrors(form: FormState): map<FieldKey, string> {
    var errors := Record(map[], FirstNameKey, NameError(form.firstName, "Nombre"));
    var errors := Record(errors, LastNameKey, NameError(form.lastName, "Apellido"));
    Record(errors, EmailKey, EmailError(form.email))
  }

  /** One pass of the education loop, on entry `i`. */
  function RecordEducationEntry(parse: V.DateParser, errors: map<FieldKey, string>, i: nat, entry: EducationInput): map<FieldKey, string> {
    var errors := Record(errors, EducationKey(i, Institution), RequiredError(entry.institution, "Institución"));
    var errors := Record(errors, EducationKey(i, Degree), RequiredError(entry.degree, "Título"));
    Record(errors, EducationKey(i, Dates), DatesError(parse, entry.startDate, entry.endDate))
  }

  /** One pass of the work loop, on entry `j`. */
  function RecordWorkEntry(parse: V.DateParser, errors: map<FieldKey, string>, j: nat, entry: WorkInput): map<FieldKey, string> {
    var errors := Record(errors, WorkKey(j, Company), RequiredError(entry.company, "Empresa"));
    var errors := Record(errors, WorkKey(j, Position), RequiredError(entry.position, "Puesto"));
    Record(errors, WorkKey(j, Dates), DatesError(parse, entry.startDate, entry.endDate))
  }



  /** Recording `error` under `key` writes that key only. */
  lemma RecordAt(errors: map<FieldKey, string>, key: FieldKey, error: Option<string>, k: FieldKey)
    ensures k == key && error.Some? ==> k in Record(errors, key, error) && Record(errors, key, error)[k] == error.value
    ensures k != key || error.None? ==> (k in Record(errors, key, error) <==> k in errors)
    ensures (k != key || error.None?) && k in errors ==> Record(errors, key, error)[k] == errors[k]
  {
  }

  /** The names and the email: each scalar key holds its own error, and nothing else is recorded. */
  lemma NameErrorsAt(parse: V.DateParser, form: FormState, k: FieldKey)
    ensures HoldsErrorOf(parse, form, NameErrors(form), k, Visited(k, 0, 0))
  {
    var first := Record(map[], FirstNameKey, NameError(form.firstName, "Nombre"));
    var last := Record(first, LastNameKey, NameError(form.lastName, "Apellido"));
    RecordAt(map[], FirstNameKey, NameError(form.firstName, "Nombre"), k);
    RecordAt(first, LastNameKey, NameError(form.lastName, "Apellido"), k);
    RecordAt(last, EmailKey, EmailError(form.email), k);
  }

  /** One education pass writes the keys of entry `i` and leaves every other key as it was. */
  lemma RecordEducationEntryAt(parse: V.DateParser, errors: map<FieldKey, string>, i: nat, entry: EducationInput, k: FieldKey)
    requires k.EducationKey? && k.index == i ==> k !in errors
    ensures var next := RecordEducationEntry(parse, errors, i, entry);
      if k.EducationKey? && k.index == i then
        (k in next <==> EducationError(parse, entry, k.part).Some?)
        && (k in next ==> next[k] == EducationError(parse, entry, k.part).value)
      else
        (k in next <==> k in errors) && (k in next ==> next[k] == errors[k])
  {
    var institution := Record(errors, EducationKey(i, Institution), RequiredError(entry.institution, "Institución"));
    var degree := Record(institution, EducationKey(i, Degree), RequiredError(entry.degree, "Título"));
    RecordAt(errors, EducationKey(i, Institution), RequiredError(entry.institution, "Institución"), k);
    RecordAt(institution, EducationKey(i, Degree), RequiredError(entry.degree, "Título"), k);
    RecordAt(degree, EducationKey(i, Dates), DatesError(parse, entry.startDate, entry.endDate), k);
    if k.EducationKey? && k.index == i {
      assert EducationError(parse, entry, k.part) == match k.part
        case Institution => RequiredError(entry.institution, "Institución")
        case Degree => RequiredError(entry.degree, "Título")
        case Company => None
        case Position => None
        case Dates => DatesError(parse, entry.startDate, entry.endDate);
    }
  }

  /** One work pass writes the keys of entry `j` and leaves every other key as it was. */
  lemma RecordWorkEntryAt(parse: V.DateParser, errors: map<FieldKey, string>, j: nat, entry: WorkInput, k: FieldKey)
    requires k.WorkKey? && k.index == j ==> k !in errors
    ensures var next := RecordWorkEntry(parse, errors, j, entry);
      if k.WorkKey? && k.index == j then
        (k in next <==> WorkError(parse, entry, k.part).Some?)
        && (k in next ==> next[k] == WorkError(parse, entry, k.part).value)
      else
        (k in next <==> k in errors) && (k in next ==> next[k] == errors[k])
  {
    var company := Record(errors, WorkKey(j, Company), RequiredError(entry.company, "Empresa"));
    var position := Record(company, WorkKey(j, Position), RequiredError(entry.position, "Puesto"));
    RecordAt(errors, WorkKey(j, Company), RequiredError(entry.company, "Empresa"), k);
    RecordAt(company, WorkKey(j, Position), RequiredError(entry.position, "Puesto"), k);
    RecordAt(position, WorkKey(j, Dates), DatesError(parse, entry.startDate, entry.endDate), k);
    if k.WorkKey? && k.index == j {
      assert WorkError(parse, entry, k.part) == match k.part
        case Institution => None
        case Degree => None
        case Company => RequiredError(entry.company, "Empresa")
        case Position => RequiredError(entry.position, "Puesto")
        case Dates => DatesError(parse, entry.startDate, entry.endDate);
    }
  }

  /** `errors` holds the error of `k` exactly when `k` has one and is among the keys `visited` describes. */
  ghost predicate HoldsErrorOf(parse: V.DateParser, form: FormState, errors: map<FieldKey, string>, k: FieldKey, visited: bool) {
    && (k in errors <==> ErrorFor(parse, form, k).Some? && visited)
    && (k in errors ==> errors[k] == ErrorFor(parse, form, k).value)
  }

  /** Education entry `i`'s pass extends what the map holds from `i` entries to `i + 1`. */
  lemma EducationPassAt(parse: V.DateParser, form: FormState, i: nat, errors: map<FieldKey, string>, k: FieldKey)
    requires i < |form.education| && HoldsErrorOf(parse, form, errors, k, Visited(k, i, 0))
    ensures HoldsErrorOf(parse, form, RecordEducationEntry(parse, errors, i, form.education[i]), k, Visited(k, i + 1, 0))
  {
    var entry := form.education[i];
    RecordEducationEntryAt(parse, errors, i, entry, k);
    if k.EducationKey? && k.index == i {
      assert ErrorFor(parse, form, k) == EducationError(parse, entry, k.part);
      assert Visited(k, i + 1, 0) <==> k.part in {Institution, Degree, Dates};
    } else {
      assert Visited(k, i + 1, 0) <==> Visited(k, i, 0);
    }
  }

  /** Work entry `j`'s pass extends what the map holds from `j` entries to `j + 1`. */
  lemma WorkPassAt(parse: V.DateParser, form: FormState, j: nat, errors: map<FieldKey, string>, k: FieldKey)
    requires j < |form.workExperience| && HoldsErrorOf(parse, form, errors, k, Visited(k, |form.education|, j))
    ensures HoldsErrorOf(parse, form, RecordWorkEntry(parse, errors, j, form.workExperience[j]), k, Visited(k, |form.education|, j + 1))
  {
    var entry := form.workExperience[j];
    RecordWorkEntryAt(parse, errors, j, entry, k);
    if k.WorkKey? && k.index == j {
      assert ErrorFor(parse, form, k) == WorkError(parse, entry, k.part);
      assert Visited(k, |form.education|, j + 1) <==> k.part in {Company, Position, Dates};
    } else {
      assert Visited(k, |form.education|, j + 1) <==> Visited(k, |form.education|, j);
    }
  }

  /** Education entry `i`'s pass, for every key at once. */
  lemma EducationPass(parse: V.DateParser, form: FormState, i: nat, before: map<FieldKey, string>, after: map<FieldKey, string>, next: nat)
    requires i < |form.education| && next == i + 1
    requires after == RecordEducationEntry(parse, before, i, form.education[i])
    requires forall k :: HoldsErrorOf(parse, form, before, k, Visited(k, i, 0))
    ensures forall k :: HoldsErrorOf(parse, form, after, k, Visited(k, next, 0))
  {
    forall k
      ensures HoldsErrorOf(parse, form, after, k, Visited(k, next, 0))
    {
      EducationPassAt(parse, form, i, before, k);
    }
  }

  /** Work entry `j`'s pass, for every key at once. */
  lemma WorkPass(parse: V.DateParser, form: FormState, j: nat, before: map<FieldKey, string>, after: map<FieldKey, string>, next: nat)
    requires j < |form.workExperience| && next == j + 1
    requires after == RecordWorkEntry(parse, before, j, form.workExperience[j])
    requires forall k :: HoldsErrorOf(parse, form, before, k, Visited(k, |form.education|, j))
    ensures forall k :: HoldsErrorOf(parse, form, after, k, Visited(k, |form.education|, next))
  {
    forall k
      ensures HoldsErrorOf(parse, form, after, k, Visited(k, |form.education|, next))
    {
      WorkPassAt(parse, form, j, before, k);
    }
  }

  /** Once both loops have run, the map holds exactly the errors `ErrorFor` names, and is empty exactly for an accepted form. */
  lemma AllKeysRecorded(parse: V.DateParser, form: FormState, errors: map<FieldKey, string>)
    requires forall k :: HoldsErrorOf(parse, form, errors, k, Visited(k, |form.education|, |form.workExperience|))
    ensures forall k :: k in errors <==> ErrorFor(parse, form, k).Some?
    ensures forall k | k in errors :: errors[k] == ErrorFor(parse, form, k).value
    ensures |errors| == 0 <==> errors == map[]
    ensures |errors| == 0 <==> FormAccepted(parse, form)
  {
    forall k
      ensures k in errors <==> ErrorFor(parse, form, k).Some?
      ensures k in errors ==> errors[k] == ErrorFor(parse, form, k).value
    {
      assert HoldsErrorOf(parse, form, errors, k, Visited(k, |form.education|, |form.workExperience|));
      VisitedEveryKey(parse, form, k);
    }
    if |errors| == 0 {
      assert errors.Keys == {};
    }
    NoErrorIffAccepted(parse, form);
  }

  /** `validateForm()`: fills the error map key by key and reports whether it stayed empty. */
  method ValidateForm(parse: V.DateParser, form: FormState) returns (errors: map<FieldKey, string>, ok: bool)
    ensures forall k :: k in errors <==> ErrorFor(parse, form, k).Some?
    ensures forall k | k in errors :: errors[k] == ErrorFor(parse, form, k).value
    ensures ok <==> errors == map[]
    ensures ok <==> FormAccepted(parse, form)
  {
    errors := map[];
    errors := Record(errors, FirstNameKey, NameError(form.firstName, "Nombre"));
    errors := Record(errors, LastNameKey, NameError(form.lastName, "Apellido"));
    errors := Record(errors, EmailKey, EmailError(form.email));
    assert errors == NameErrors(form);
    forall k
      ensures HoldsErrorOf(parse, form, errors, k, Visited(k, 0, 0))
    {
      NameErrorsAt(parse, form, k);
    }

    var i := 0;
    while i < |form.education|
      invariant 0 <= i <= |form.education|
      invariant forall k :: HoldsErrorOf(parse, form, errors, k, Visited(k, i, 0))
    {
      var entry := form.education[i];
      ghost var before := errors;
      errors := Record(errors, EducationKey(i, Institution), RequiredError(entry.institution, "Institución"));
      errors := Record(errors, EducationKey(i, Degree), RequiredError(entry.degree, "Título"));
      errors := Record(errors, EducationKey(i, Dates), DatesError(parse, entry.startDate, entry.endDate));
      assert errors == RecordEducationEntry(parse, before, i, entry);
      EducationPass(parse, form, i, before, errors, i + 1);
      i := i + 1;
    }

    var j := 0;
    while j < |form.workExperience|
      invariant 0 <= j <= |form.workExperience|
      invariant forall k :: HoldsErrorOf(parse, form, errors, k, Visited(k, |form.education|, j))
    {
      var entry := form.workExperience[j];
      ghost var before := errors;
      errors := Record(errors, WorkKey(j, Company), RequiredError(entry.company, "Empresa"));
      errors := Record(errors, WorkKey(j, Position), RequiredError(entry.position, "Puesto"));
      errors := Record(errors, WorkKey(j, Dates), DatesError(parse, entry.startDate, entry.endDate));
      assert errors == RecordWorkEntry(parse, before, j, entry);
      WorkPass(parse, form, j, before, errors, j + 1);
      j := j + 1;
    }

    ok := |errors| == 0;
    AllKeysRecorded(parse, form, errors);
  }


  /** Every key that can record an error is visited once both loops have run to the end. */
  lemma VisitedEveryKey(parse: V.DateParser, form: FormState, k: FieldKey)
    ensures ErrorFor(parse, form, k).Some? ==> Visited(k, |form.education|, |form.workExperience|)
  {
  }

  /** The name checks: an empty first name records the required error and never the length error. */
  lemma BlankNameRecordsRequired(parse: V.DateParser, form: FormState)
    requires AllWs(form.firstName)
    ensures ErrorFor(parse, form, FirstNameKey) == Some(V.RequiredMessage("Nombre"))
  {
  }

  // ---------------------------------------------------------------- handleSubmit

  /** The body `api.createCandidate` is sent: empty optional fields and empty lists become undefined. */
  function SubmitPayload(form: FormState): (body: UpdateData)
    ensures body.firstName == Some(form.firstName) && body.lastName == Some(form.lastName) && body.email == Some(form.email)
    ensures body.phone.None? <==> form.phone == ""
    ensures body.address.None? <==> form.address == ""
    ensures body.education.None? <==> |form.education| == 0
    ensures body.workExperience.None? <==> |form.workExperience| == 0
    ensures body.education.Some? ==> body.education.value == form.education
    ensures body.workExperience.Some? ==> body.workExperience.value == form.workExperience
  {
    UpdateData(
      Some(form.firstName), Some(form.lastName), Some(form.email),
      if form.phone == "" then None else Some(form.phone),
      if form.address == "" then None else Some(form.address),
      if |form.education| > 0 then Some(form.education) else None,
      if |form.workExperience| > 0 then Some(form.workExperience) else None)
  }

  /**
   * A form the client accepts yields a request the server's create checks
   * accept too: the client checks every field the server checks, in the same way.
   */
  lemma AcceptedFormPassesServerChecks(parse: V.DateParser, form: FormState)
    requires FormAccepted(parse, form)
    ensures Ctl.CreateBodyError(parse, SubmitPayload(form)).None?
  {
    var body := SubmitPayload(form);
    assert Ctl.AllRangesAccepted(parse, Ctl.EducationRanges(body.education)) by {
      forall k | 0 <= k < |Ctl.EducationRanges(body.education)|
        ensures Ctl.RangeAccepted(parse, Ctl.EducationRanges(body.education)[k])
      {
        assert Ctl.EducationRanges(body.education)[k] == (form.education[k].startDate, form.education[k].endDate);
      }
    }
    assert Ctl.AllRangesAccepted(parse, Ctl.WorkRanges(body.workExperience)) by {
      forall k | 0 <= k < |Ctl.WorkRanges(body.workExperience)|
        ensures Ctl.RangeAccepted(parse, Ctl.WorkRanges(body.workExperience)[k])
      {
        assert Ctl.WorkRanges(body.workExperience)[k] == (form.workExperience[k].startDate, form.workExperience[k].endDate);
      }
    }
  }

  /** The converse fails: the server does not check the entries' required fields. */
  lemma ServerSkipsEntryFields(parse: V.DateParser, form: FormState)
    requires Ctl.NameAccepted(Some(form.firstName)) && Ctl.NameAccepted(Some(form.lastName))
    requires V.MatchesEmailPattern(form.email) && form.workExperience == []
    requires form.education == [EducationInput("", "", None, None, None, None)]
    ensures Ctl.CreateBodyError(parse, SubmitPayload(form)).None?
    ensures !FormAccepted(parse, form)
  {
    var body := SubmitPayload(form);
    assert Ctl.EducationRanges(body.education) == [(None, None)];
    assert AllWs(form.education[0].institution);
  }

  /** What `api.createCandidate` resolved to: the created id, or a rejection with its message. */
  datatype CreateResponse = CreateResolved(candidateId: Option<int>) | CreateRejected(message: Option<string>)

  /** The state `handleSubmit` leaves: the request sent, the CV upload started, and the success flag or error shown. */
  datatype SubmitResult = SubmitResult(
    request: Option<UpdateData>, uploadFor: Option<int>, success: bool, error: Option<string>)

  /**
   * `handleSubmit`. The create call is a parameter: how it resolved. The CV
   * upload's own outcome is caught and only logged, so it does not enter.
   */
  method HandleSubmit(parse: V.DateParser, form: FormState, response: CreateResponse)
    returns (r: SubmitResult)
    ensures !FormAccepted(parse, form) ==> r == SubmitResult(None, None, false, Some(FixErrorsMessage))
    ensures FormAccepted(parse, form) ==> r.request == Some(SubmitPayload(form))
    ensures r.success <==> FormAccepted(parse, form) && response.CreateResolved?
    ensures r.success ==> r.error.None?
    ensures FormAccepted(parse, form) && response.CreateRejected? ==>
      r.error == Some(response.message.GetOr(CreateFailedMessage)) && r.uploadFor.None?
    ensures r.uploadFor.Some? <==>
      FormAccepted(parse, form) && form.cvFile.Some? && response.CreateResolved?
      && response.candidateId.Some? && response.candidateId.value != 0
    ensures r.uploadFor.Some? ==> r.uploadFor == response.candidateId
  {
    var _, ok := ValidateForm(parse, form);
    if !ok {
      return SubmitResult(None, None, false, Some(FixErrorsMessage));
    }
    var request := SubmitPayload(form);
    match response
    case CreateRejected(message) =>
      r := SubmitResult(Some(request), None, false, Some(message.GetOr(CreateFailedMessage)));
    case CreateResolved(candidateId) =>
      var uploadFor := None;
      if form.cvFile.Some? && candidateId.Some? && candidateId.value != 0 {
        uploadFor := candidateId;
      }
      r := SubmitResult(Some(request), uploadFor, true, None);
  }

  // ---------------------------------------------------------------- list helpers

  /** `list.filter((_, i) => i !== index)`. */
  function RemoveAt<T>(list: seq<T>, index: int): (r: seq<T>)
    ensures 0 <= index < |list| ==> r == list[..index] + list[index + 1..]
    ensures !(0 <= index < |list|) ==> r == list
  {
    if |list| == 0 then []
    else
      var init := RemoveAt(list[..|list| - 1], index);
      if index == |list| - 1 then init else init + [list[|list| - 1]]
  }

  /** `updated[index] = { ...updated[index], [field]: value }` on a copy of the list. */
  function ReplaceAt<T>(list: seq<T>, index: int, entry: T): (r: seq<T>)
    requires 0 <= index < |list|
    ensures |r| == |list| && r[index] == entry
    ensures forall j | 0 <= j < |list| && j != index :: r[j] == list[j]
  {
    list[index := entry]
  }

  const BlankEducation := EducationInput("", "", None, None, None, None)
  const BlankWork := WorkInput("", "", None, None, None, None)

  /** `addEducation`. */
  function AddEducation(list: seq<EducationInput>): (r: seq<EducationInput>)
    ensures |r| == |list| + 1 && r[..|list|] == list && r[|list|] == BlankEducation
  {
    list + [BlankEducation]
  }

  function AddWorkExperience(list: seq<WorkInput>): (r: seq<WorkInput>)
    ensures |r| == |list| + 1 && r[..|list|] == list && r[|list|] == BlankWork
  {
    list + [BlankWork]
  }

  /** Removing the entry just added gives back the list as it was. */
  lemma RemoveUndoesAdd(list: seq<EducationInput>)
    ensures RemoveAt(AddEducation(list), |list|) == list
  {
    assert AddEducation(list)[..|list|] == list;
  }

  /** A freshly added entry is reported as missing its institution and degree. */
  lemma BlankEntryRecordsErrors(parse: V.DateParser, form: FormState)
    requires form.education == AddEducation([])
    ensures ErrorFor(parse, form, EducationKey(0, Institution)) == Some(V.RequiredMessage("Institución"))
    ensures ErrorFor(parse, form, EducationKey(0, Degree)) == Some(V.RequiredMessage("Título"))
  {
    assert form.education[0] == BlankEducation;
  }

  /** One field of an education entry, with its new value. */
  datatype EducationEdit =
    | SetInstitution(text: string)
    | SetDegree(text: string)
    | SetFieldOfStudy(text: string)
    | SetStartDate(text: string)
    | SetEndDate(text: string)
    | SetEducationCurrent(flag: bool)

  /** `{ ...entry, [field]: value }`: only the edited field changes. */
  function EditEducation(entry: EducationInput, edit: EducationEdit): (r: EducationInput)
    ensures r.institution == (if edit.SetInstitution? then edit.text else entry.institution)
    ensures r.degree == (if edit.SetDegree? then edit.text else entry.degree)
    ensures r.fieldOfStudy == (if edit.SetFieldOfStudy? then Some(edit.text) else entry.fieldOfStudy)
    ensures r.startDate == (if edit.SetStartDate? then Some(edit.text) else entry.startDate)
    ensures r.endDate == (if edit.SetEndDate? then Some(edit.text) else entry.endDate)
    ensures r.isCurrent == (if edit.SetEducationCurrent? then Some(edit.flag) else entry.isCurrent)
  {
    match edit
    case SetInstitution(v) => entry.(institution := v)
    case SetDegree(v) => entry.(degree := v)
    case SetFieldOfStudy(v) => entry.(fieldOfStudy := Some(v))
    case SetStartDate(v) => entry.(startDate := Some(v))
    case SetEndDate(v) => entry.(endDate := Some(v))
    case SetEducationCurrent(v) => entry.(isCurrent := Some(v))
  }

  /** `updateEducation(index, field, value)`. */
  function UpdateEducation(list: seq<EducationInput>, index: int, edit: EducationEdit): (r: seq<EducationInput>)
    requires 0 <= index < |list|
    ensures |r| == |list|
    ensures r[index] == EditEducation(list[index], edit)
    ensures forall j | 0 <= j < |list| && j != index :: r[j] == list[j]
  {
    ReplaceAt(list, index, EditEducation(list[index], edit))
  }

  /** One field of a work entry, with its new value. */
  datatype WorkEdit =
    | SetCompany(text: string)
    | SetPosition(text: string)
    | SetDescription(text: string)
    | SetWorkStartDate(text: string)
    | SetWorkEndDate(text: string)
    | SetWorkCurrent(flag: bool)

  function EditWork(entry: WorkInput, edit: WorkEdit): (r: WorkInput)
    ensures r.company == (if edit.SetCompany? then edit.text else entry.company)
    ensures r.position == (if edit.SetPosition? then edit.text else entry.position)
    ensures r.description == (if edit.SetDescription? then Some(edit.text) else entry.description)
    ensures r.startDate == (if edit.SetWorkStartDate? then Some(edit.text) else entry.startDate)
    ensures r.endDate == (if edit.SetWorkEndDate? then Some(edit.text) else entry.endDate)
    ensures r.isCurrent == (if edit.SetWorkCurrent? then Some(edit.flag) else entry.isCurrent)
  {
    match edit
    case SetCompany(v) => entry.(company := v)
    case SetPosition(v) => entry.(position := v)
    case SetDescription(v) => entry.(description := Some(v))
    case SetWorkStartDate(v) => entry.(startDate := Some(v))
    case SetWorkEndDate(v) => entry.(endDate := Some(v))
    case SetWorkCurrent(v) => entry.(isCurrent := Some(v))
  }

  function UpdateWorkExperience(list: seq<WorkInput>, index: int, edit: WorkEdit): (r: seq<WorkInput>)
    requires 0 <= index < |list|
    ensures |r| == |list|
    ensures r[index] == EditWork(list[index], edit)
    ensures forall j | 0 <= j < |list| && j != index :: r[j] == list[j]
  {
    ReplaceAt(list, index, EditWork(list[index], edit))
  }

  /** Editing one entry's institution changes the institution error of that entry only. */
  lemma EditTouchesOneKey(parse: V.DateParser, form: FormState, index: int, text: string, k: FieldKey)
    requires 0 <= index < |form.education|
    requires k != EducationKey(index, Institution)
    ensures ErrorFor(parse, form.(education := UpdateEducation(form.education, index, SetInstitution(text))), k)
         == ErrorFor(parse, form, k)
  {
    var edited := UpdateEducation(form.education, index, SetInstitution(text));
    if k.EducationKey? && k.index < |form.education| {
      assert edited[k.index].degree == form.education[k.index].degree;
      assert edited[k.index].startDate == form.education[k.index].startDate;
      assert edited[k.index].endDate == form.education[k.index].endDate;
    }
  }
}
