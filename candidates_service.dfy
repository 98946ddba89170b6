/**
 * The candidate store (backend/src/services/candidates.service.ts). The
 * database becomes a class: a map from id to candidate, the creation order,
 * the Education and WorkExperience tables as sequences of rows that name
 * their owner, and the next id the database will hand out.
 */
module CandidateService {
  import opened Base
  import opened Text
  import opened ErrorMiddleware

  const NotFoundMessage := "Candidato no encontrado"
  const EmailTakenMessage := "El email ya está registrado"
  /** The message of the database's unique-constraint error; its exact text is the client library's. */
  const UniqueViolationMessage := "Unique constraint failed on the fields: (`email`)"

  // ---------------------------------------------------------------- request data

  datatype EducationInput = EducationInput(
    institution: string, degree: string, fieldOfStudy: Option<string>,
    startDate: Option<string>, endDate: Option<string>, isCurrent: Option<bool>)

  datatype WorkInput = WorkInput(
    company: string, position: string, description: Option<string>,
    startDate: Option<string>, endDate: Option<string>, isCurrent: Option<bool>)

  /** `CreateCandidateData`. */
  datatype CreateData = CreateData(
    firstName: string, lastName: string, email: string,
    phone: Option<string>, address: Option<string>,
    education: Option<seq<EducationInput>>, workExperience: Option<seq<WorkInput>>)

  /** `UpdateCandidateData`: every field may be absent. */
  datatype UpdateData = UpdateData(
    firstName: Option<string>, lastName: Option<string>, email: Option<string>,
    phone: Option<string>, address: Option<string>,
    education: Option<seq<EducationInput>>, workExperience: Option<seq<WorkInput>>)

  // ---------------------------------------------------------------- stored data

  datatype Education = Education(
    institution: string, degree: string, fieldOfStudy: Option<string>,
    startDate: Option<string>, endDate: Option<string>, isCurrent: bool)

  datatype WorkExperience = WorkExperience(
    company: string, position: string, description: Option<string>,
    startDate: Option<string>, endDate: Option<string>, isCurrent: bool)

  /** A row of a child table: its owner's id and its data. */
  datatype Row<D> = Row(candidateId: int, data: D)

  datatype Candidate = Candidate(
    id: int, firstName: string, lastName: string, email: string,
    phone: Option<string>, address: Option<string>,
    cvFileName: Option<string>, cvFilePath: Option<string>, cvMimeType: Option<string>)

  /** A candidate read with `include: { education: true, workExperience: true }`. */
  datatype CandidateRecord = CandidateRecord(
    candidate: Candidate, education: seq<Education>, workExperience: seq<WorkExperience>)

  datatype Pagination = Pagination(page: int, limit: int, total: nat, totalPages: int)

  datatype CandidatePage = CandidatePage(candidates: seq<CandidateRecord>, pagination: Pagination)

  /** `value || null` for an optional string. */
  function OrNull(value: Option<string>): (r: Option<string>)
    ensures r.Some? <==> Truthy(value)
    ensures r.Some? ==> r == value
  {
    if Truthy(value) then value else None
  }

  /** The row `createCandidate` and `updateCandidate` build from an education entry. */
  function EducationRow(e: EducationInput): Education {
    Education(e.institution, e.degree, OrNull(e.fieldOfStudy), OrNull(e.startDate), OrNull(e.endDate), e.isCurrent.GetOr(false))
  }

  function WorkRow(w: WorkInput): WorkExperience {
    WorkExperience(w.company, w.position, OrNull(w.description), OrNull(w.startDate), OrNull(w.endDate), w.isCurrent.GetOr(false))
  }

  /** `data.education?.map(...) || []`. */
  function EducationRows(entries: Option<seq<EducationInput>>): (r: seq<Education>)
    ensures entries.None? ==> r == []
    ensures entries.Some? ==>
      |r| == |entries.value| && forall i | 0 <= i < |r| :: r[i] == EducationRow(entries.value[i])
  {
    match entries
    case None => []
    case Some(es) => seq(|es|, i requires 0 <= i < |es| => EducationRow(es[i]))
  }

  function WorkRows(entries: Option<seq<WorkInput>>): (r: seq<WorkExperience>)
    ensures entries.None? ==> r == []
    ensures entries.Some? ==>
      |r| == |entries.value| && forall i | 0 <= i < |r| :: r[i] == WorkRow(entries.value[i])
  {
    match entries
    case None => []
    case Some(ws) => seq(|ws|, i requires 0 <= i < |ws| => WorkRow(ws[i]))
  }

  /** Missing optional fields of a new entry are stored as null and `isCurrent` defaults to false. */
  lemma NewEducationDefaults(e: EducationInput)
    requires e.fieldOfStudy.None? && e.startDate.None? && e.endDate.None? && e.isCurrent.None?
    ensures EducationRow(e) == Education(e.institution, e.degree, None, None, None, false)
  {
  }

  lemma NewWorkDefaults(w: WorkInput)
    requires w.description.None? && w.startDate.None? && w.endDate.None? && w.isCurrent.None?
    ensures WorkRow(w) == WorkExperience(w.company, w.position, None, None, None, false)
  {
  }

  /** The candidate `createCandidate` stores: no CV yet, empty phone and address become null. */
  function NewCandidate(id: int, data: CreateData): (c: Candidate)
    ensures c.id == id && c.email == data.email
    ensures c.phone.Some? <==> Truthy(data.phone)
    ensures c.address.Some? <==> Truthy(data.address)
    ensures c.cvFileName.None? && c.cvFilePath.None? && c.cvMimeType.None?
  {
    Candidate(id, data.firstName, data.lastName, data.email, OrNull(data.phone), OrNull(data.address), None, None, None)
  }

  /** The scalar part of `updateCandidate`: each field is written only when it is supplied. */
  function Patch(c: Candidate, data: UpdateData): (p: Candidate)
    ensures p.id == c.id
    ensures p.cvFileName == c.cvFileName && p.cvFilePath == c.cvFilePath && p.cvMimeType == c.cvMimeType
    ensures p.firstName == data.firstName.GetOr(c.firstName)
    ensures p.lastName == data.lastName.GetOr(c.lastName)
    ensures p.email == data.email.GetOr(c.email)
    ensures data.phone.None? ==> p.phone == c.phone
    ensures data.phone.Some? ==> (p.phone.Some? <==> data.phone.value != "") && (p.phone.Some? ==> p.phone == data.phone)
    ensures data.address.None? ==> p.address == c.address
    ensures data.address.Some? ==> (p.address.Some? <==> data.address.value != "") && (p.address.Some? ==> p.address == data.address)
  {
    c.(
      firstName := if data.firstName.Some? then data.firstName.value else c.firstName,
      lastName := if data.lastName.Some? then data.lastName.value else c.lastName,
      email := if data.email.Some? then data.email.value else c.email,
      phone := if data.phone.Some? then OrNull(data.phone) else c.phone,
      address := if data.address.Some? then OrNull(data.address) else c.address)
  }

  /** An update that supplies nothing changes nothing. */
  lemma EmptyPatchIsIdentity(c: Candidate)
    ensures Patch(c, UpdateData(None, None, None, None, None, None, None)) == c
  {
  }

  /** The three CV fields are all set or all unset. */
  predicate CvConsistent(c: Candidate) {
    (c.cvFileName.Some? <==> c.cvFilePath.Some?) && (c.cvFilePath.Some? <==> c.cvMimeType.Some?)
  }

  /** The `data` of `updateCandidateCV`: the three CV fields are written together, nothing else. */
  function WithCv(c: Candidate, fileName: string, filePath: string, mimeType: string): (r: Candidate)
    ensures CvConsistent(r)
    ensures r.cvFileName == Some(fileName) && r.cvFilePath == Some(filePath) && r.cvMimeType == Some(mimeType)
    ensures r.(cvFileName := c.cvFileName, cvFilePath := c.cvFilePath, cvMimeType := c.cvMimeType) == c
  {
    c.(cvFileName := Some(fileName), cvFilePath := Some(filePath), cvMimeType := Some(mimeType))
  }

  // ---------------------------------------------------------------- child tables

  /** The data of the rows owned by `id`, in table order. */
  function OwnedBy<D>(rows: seq<Row<D>>, id: int): (r: seq<D>)
    ensures |r| <= |rows|
  {
    if |rows| == 0 then []
    else OwnedBy(rows[..|rows| - 1], id) + (if rows[|rows| - 1].candidateId == id then [rows[|rows| - 1].data] else [])
  }

  /**
   * A child table during `updateCandidate`: when the list is supplied, the
   * owner's rows are deleted and, if the write goes through, the new entries
   * are created; an omitted list leaves the table alone.
   */
  function ReplaceRows<D>(rows: seq<Row<D>>, id: int, supplied: bool, ds: seq<D>, written: bool): (r: seq<Row<D>>)
    ensures forall i | 0 <= i < |r| :: r[i].candidateId == id || r[i] in rows
  {
    if !supplied then rows else DeleteOwned(rows, id) + (if written then Own(id, ds) else [])
  }

  /** What `ReplaceRows` leaves for each owner: the new list for `id` when supplied and written, nothing when only deleted, the old list otherwise. */
  lemma ReplaceRowsOwnedBy<D>(rows: seq<Row<D>>, id: int, supplied: bool, ds: seq<D>, written: bool, owner: int)
    ensures OwnedBy(ReplaceRows(rows, id, supplied, ds, written), owner)
         == if !supplied || owner != id then OwnedBy(rows, owner) else if written then ds else []
  {
    if supplied {
      if written {
        ReplaceChildren(rows, id, ds, owner);
      } else {
        assert DeleteOwned(rows, id) + [] == DeleteOwned(rows, id);
        OwnedByDeleteOwned(rows, id, owner);
      }
    }
  }

  /** `deleteMany({ where: { candidateId: id } })`. */
  function DeleteOwned<D>(rows: seq<Row<D>>, id: int): (r: seq<Row<D>>)
    ensures |r| <= |rows|
    ensures forall i | 0 <= i < |r| :: r[i].candidateId != id && r[i] in rows
  {
    if |rows| == 0 then []
    else DeleteOwned(rows[..|rows| - 1], id) + (if rows[|rows| - 1].candidateId != id then [rows[|rows| - 1]] else [])
  }

  /** The rows a nested `create` adds for the owner `id`. */
  function Own<D>(id: int, ds: seq<D>): (r: seq<Row<D>>)
    ensures |r| == |ds| && forall i | 0 <= i < |r| :: r[i] == Row(id, ds[i])
  {
    seq(|ds|, i requires 0 <= i < |ds| => Row(id, ds[i]))
  }

  lemma {:induction false} OwnedByAppend<D>(a: seq<Row<D>>, b: seq<Row<D>>, id: int)
    ensures OwnedBy(a + b, id) == OwnedBy(a, id) + OwnedBy(b, id)
  {
    if |b| == 0 {
      assert a + b == a;
    } else {
      assert (a + b)[..|a + b| - 1] == a + b[..|b| - 1];
      OwnedByAppend(a, b[..|b| - 1], id);
    }
  }

  lemma {:induction false} OwnedByNobody<D>(rows: seq<Row<D>>, id: int)
    requires forall i | 0 <= i < |rows| :: rows[i].candidateId != id
    ensures OwnedBy(rows, id) == []
  {
    if |rows| > 0 {
      OwnedByNobody(rows[..|rows| - 1], id);
    }
  }

  lemma {:induction false} OwnedByOwn<D>(owner: int, ds: seq<D>, id: int)
    ensures OwnedBy(Own(owner, ds), id) == if id == owner then ds else []
  {
    if |ds| > 0 {
      var rows := Own(owner, ds);
      assert rows[..|rows| - 1] == Own(owner, ds[..|ds| - 1]);
      OwnedByOwn(owner, ds[..|ds| - 1], id);
      assert ds == ds[..|ds| - 1] + [ds[|ds| - 1]];
    }
  }

  /** Deleting the rows of `id` empties its list and leaves every other owner's list as it was. */
  lemma {:induction false} OwnedByDeleteOwned<D>(rows: seq<Row<D>>, deleted: int, id: int)
    ensures OwnedBy(DeleteOwned(rows, deleted), id) == if id == deleted then [] else OwnedBy(rows, id)
  {
    if |rows| > 0 {
      var last := rows[|rows| - 1];
      OwnedByDeleteOwned(rows[..|rows| - 1], deleted, id);
      OwnedByAppend(DeleteOwned(rows[..|rows| - 1], deleted), if last.candidateId != deleted then [last] else [], id);
    }
  }

  /**
   * Replacing the children of `owner` wholesale: afterwards its list is
   * exactly the supplied one, and no other owner's list has changed.
   */
  lemma ReplaceChildren<D>(rows: seq<Row<D>>, owner: int, ds: seq<D>, id: int)
    ensures OwnedBy(DeleteOwned(rows, owner) + Own(owner, ds), id) == if id == owner then ds else OwnedBy(rows, id)
  {
    OwnedByAppend(DeleteOwned(rows, owner), Own(owner, ds), id);
    OwnedByDeleteOwned(rows, owner, id);
    OwnedByOwn(owner, ds, id);
  }

  // ---------------------------------------------------------------- ordering and pages

  predicate StrictlyIncreasing(s: seq<int>) {
    forall i, j | 0 <= i < j < |s| :: s[i] < s[j]
  }

  function Reverse<T>(s: seq<T>): (r: seq<T>)
    ensures |r| == |s| && forall i | 0 <= i < |s| :: r[i] == s[|s| - 1 - i]
  {
    seq(|s|, i requires 0 <= i < |s| => s[|s| - 1 - i])
  }

  /** `orderBy: { createdAt: 'desc' }` on ids handed out in increasing order: the newest first. */
  lemma NewestFirstIsDescending(order: seq<int>)
    requires StrictlyIncreasing(order)
    ensures forall i, j | 0 <= i < j < |order| :: Reverse(order)[i] > Reverse(order)[j]
  {
  }

  /** `Math.ceil(total / limit)`. */
  function CeilDiv(total: nat, limit: int): (r: nat)
    requires limit >= 1
    ensures r * limit >= total && (r == 0 || (r - 1) * limit < total)
  {
    if total == 0 then 0 else 1 + CeilDiv(if total <= limit then 0 else total - limit, limit)
  }

  /** `skip` then `take` on a sequence: the part of `s` from `skip`, at most `limit` long. */
  function SkipTake<T>(s: seq<T>, skip: nat, limit: nat): (r: seq<T>)
    ensures |r| <= limit
    ensures skip >= |s| ==> r == []
    ensures skip < |s| ==> |r| == (if skip + limit <= |s| then limit else |s| - skip)
    ensures forall i | 0 <= i < |r| :: skip + i < |s| && r[i] == s[skip + i]
  {
    if skip >= |s| then [] else if skip + limit <= |s| then s[skip..skip + limit] else s[skip..]
  }

  /** Pages 1 to `pages` of size `limit`, one after another, list the first `pages * limit` elements. */
  lemma {:induction false} PagesCoverPrefix<T>(s: seq<T>, limit: nat, pages: nat, covered: nat)
    requires limit >= 1 && covered == pages * limit
    ensures Pages(s, limit, pages) == s[..if covered <= |s| then covered else |s|]
  {
    if pages > 0 {
      var skip := covered - limit;
      assert skip == (pages - 1) * limit by {
        MulPredecessor(pages, limit);
      }
      PagesCoverPrefix(s, limit, pages - 1, skip);
      PageExtendsPrefix(s, skip, limit, if skip <= |s| then skip else |s|, if covered <= |s| then covered else |s|);
    }
  }

  /** The page starting at `skip` continues the prefix of length `skip`. */
  lemma PageExtendsPrefix<T>(s: seq<T>, skip: nat, limit: nat, before: nat, after: nat)
    requires before == (if skip <= |s| then skip else |s|)
    requires after == (if skip + limit <= |s| then skip + limit else |s|)
    ensures s[..before] + SkipTake(s, skip, limit) == s[..after]
  {
    if skip < |s| {
      assert SkipTake(s, skip, limit) == s[skip..after];
      assert s[..after] == s[..skip] + s[skip..after];
    }
  }

  lemma MulPredecessor(n: nat, m: nat)
    requires n >= 1
    ensures (n - 1) * m == n * m - m
  {
  }

  /** Every page of the listing, concatenated: `ceil(total / limit)` pages list every element once. */
  lemma PagesCoverAll<T>(s: seq<T>, limit: nat)
    requires limit >= 1
    ensures Pages(s, limit, CeilDiv(|s|, limit)) == s
  {
    PagesCoverPrefix(s, limit, CeilDiv(|s|, limit), CeilDiv(|s|, limit) * limit);
  }

  function Pages<T>(s: seq<T>, limit: nat, pages: nat): seq<T> {
    if pages == 0 then [] else Pages(s, limit, pages - 1) + SkipTake(s, (pages - 1) * limit, limit)
  }

  /** `order` without `id`. */
  function RemoveId(order: seq<int>, id: int): (r: seq<int>)
    ensures forall x :: x in r <==> x in order && x != id
  {
    if |order| == 0 then []
    else RemoveId(order[..|order| - 1], id) + (if order[|order| - 1] != id then [order[|order| - 1]] else [])
  }

  /** Removing an id from the creation order keeps it increasing. */
  lemma {:induction false} RemoveIdKeepsIncreasing(order: seq<int>, id: int)
    requires StrictlyIncreasing(order)
    ensures StrictlyIncreasing(RemoveId(order, id))
  {
    if |order| > 0 {
      var init := order[..|order| - 1];
      RemoveIdKeepsIncreasing(init, id);
      var last := order[|order| - 1];
      if last != id {
        var prefix := RemoveId(init, id);
        var r := prefix + [last];
        assert r == RemoveId(order, id);
        forall i, j | 0 <= i < j < |r| ensures r[i] < r[j] {
          if j == |prefix| {
            assert r[i] in init;
          }
        }
      }
    }
  }

  /** A strictly increasing sequence lists as many ids as the set of its elements holds. */
  lemma {:induction false} IncreasingCard(s: seq<int>)
    requires StrictlyIncreasing(s)
    ensures |set x | x in s| == |s|
  {
    if |s| > 0 {
      var init := s[..|s| - 1];
      IncreasingCard(init);
      assert s == init + [s[|s| - 1]];
      assert (set x | x in s) == (set x | x in init) + {s[|s| - 1]};
      assert s[|s| - 1] !in (set x | x in init);
    }
  }

  // ---------------------------------------------------------------- the database

  /** The three tables and the id sequence of the database, as one value. */
  datatype Database = Database(
    candidates: map<int, Candidate>,
    order: seq<int>,
    education: seq<Row<Education>>,
    workExperience: seq<Row<WorkExperience>>,
    nextId: int)

  const EmptyDatabase := Database(map[], [], [], [], 1)

  /** Every key is its candidate's id, and every id was handed out before `nextId`. */
  ghost predicate IdsIssued(db: Database) {
    && 1 <= db.nextId
    && forall id | id in db.candidates :: db.candidates[id].id == id && 1 <= id < db.nextId
  }

  /** The unique index on `email`. */
  ghost predicate EmailsUnique(db: Database) {
    forall a, b | a in db.candidates && b in db.candidates && a != b :: db.candidates[a].email != db.candidates[b].email
  }

  ghost predicate CvsConsistent(db: Database) {
    forall id | id in db.candidates :: CvConsistent(db.candidates[id])
  }

  /** The foreign keys of both child tables. */
  ghost predicate RowsOwned(db: Database) {
    && (forall i | 0 <= i < |db.education| :: db.education[i].candidateId in db.candidates)
    && (forall i | 0 <= i < |db.workExperience| :: db.workExperience[i].candidateId in db.candidates)
  }

  /** `order` lists every candidate once, oldest first. */
  predicate Listed(db: Database) {
    forall k | 0 <= k < |db.order| :: db.order[k] in db.candidates
  }

  ghost predicate OrderMatches(db: Database) {
    StrictlyIncreasing(db.order) && Listed(db) && forall id | id in db.candidates :: id in db.order
  }

  /** What every operation keeps. */
  ghost predicate Consistent(db: Database) {
    IdsIssued(db) && EmailsUnique(db) && CvsConsistent(db) && RowsOwned(db) && OrderMatches(db)
  }

  lemma EmptyDatabaseConsistent()
    ensures Consistent(EmptyDatabase)
  {
  }

  predicate EmailTaken(db: Database, email: string) {
    exists id | id in db.candidates :: db.candidates[id].email == email
  }

  /** Candidate `id` with its children, as a read with `include` returns it. */
  function RecordOf(db: Database, id: int): CandidateRecord
    requires id in db.candidates
  {
    CandidateRecord(db.candidates[id], OwnedBy(db.education, id), OwnedBy(db.workExperience, id))
  }

  /** A state change of the database together with what the call returns or throws. */
  datatype Outcome<T> = Outcome(db: Database, result: Result<T>)

  /** `createCandidate(data)`. */
  function Create(db: Database, data: CreateData): (o: Outcome<CandidateRecord>)
    ensures EmailTaken(db, data.email) ==> o == Outcome(db, Fail(CreateError(EmailTakenMessage, 409)))
    ensures !EmailTaken(db, data.email) ==>
      && o.result.Ok?
      && o.result.value.candidate == NewCandidate(db.nextId, data)
      && o.db.candidates.Keys == db.candidates.Keys + {db.nextId}
      && o.db.nextId == db.nextId + 1
  {
    if EmailTaken(db, data.email) then Outcome(db, Fail(CreateError(EmailTakenMessage, 409)))
    else
      var id := db.nextId;
      var educationData := EducationRows(data.education);
      var workExperienceData := WorkRows(data.workExperience);
      var candidate := NewCandidate(id, data);
      Outcome(
        Database(db.candidates[id := candidate], db.order + [id],
                 db.education + Own(id, educationData), db.workExperience + Own(id, workExperienceData),
                 id + 1),
        Ok(CandidateRecord(candidate, educationData, workExperienceData)))
  }

  /** `getCandidateById(id)`. */
  function Find(db: Database, id: int): (r: Result<CandidateRecord>)
    ensures r.Ok? <==> id in db.candidates
    ensures r.Fail? ==> r.error == CreateError(NotFoundMessage, 404)
  {
    if id !in db.candidates then Fail(CreateError(NotFoundMessage, 404)) else Ok(RecordOf(db, id))
  }

  /** Every candidate with its children, newest first (`orderBy: { createdAt: 'desc' }`). */
  function Newest(db: Database): (r: seq<CandidateRecord>)
    requires Listed(db)
    ensures |r| == |db.order|
  {
    var ids := Reverse(db.order);
    seq(|ids|, i requires 0 <= i < |ids| => RecordOf(db, ids[i]))
  }

  /** `getCandidates(page, limit)`. */
  function ListPage(db: Database, page: int, limit: int): (r: CandidatePage)
    requires page >= 1 && limit >= 1 && Listed(db)
    ensures r.pagination == Pagination(page, limit, |db.candidates|, CeilDiv(|db.candidates|, limit))
    ensures |r.candidates| <= limit
    ensures forall i | 0 <= i < |r.candidates| ::
      (page - 1) * limit + i < |Newest(db)| && r.candidates[i] == Newest(db)[(page - 1) * limit + i]
  {
    CandidatePage(SkipTake(Newest(db), (page - 1) * limit, limit),
                  Pagination(page, limit, |db.candidates|, CeilDiv(|db.candidates|, limit)))
  }

  /** `updateCandidate(id, data)`. */
  function Update(db: Database, id: int, data: UpdateData): (o: Outcome<CandidateRecord>)
    ensures id !in db.candidates ==> o == Outcome(db, Fail(CreateError(NotFoundMessage, 404)))
    ensures id in db.candidates ==>
      (o == Outcome(db, Fail(CreateError(EmailTakenMessage, 409)))
       <==> Truthy(data.email) && data.email.value != db.candidates[id].email && EmailTaken(db, data.email.value))
    ensures o.result.Ok? ==> o.db.candidates == db.candidates[id := Patch(db.candidates[id], data)]
    ensures o.db.order == db.order && o.db.nextId == db.nextId
  {
    if id !in db.candidates then Outcome(db, Fail(CreateError(NotFoundMessage, 404)))
    else
      var existing := db.candidates[id];
      if Truthy(data.email) && data.email.value != existing.email && EmailTaken(db, data.email.value) then
        Outcome(db, Fail(CreateError(EmailTakenMessage, 409)))
      else
        // Without a 409 the unique index can still reject the write; the child
        // rows of supplied lists are deleted before it either way.
        var violation := data.email.Some? && data.email.value != existing.email && EmailTaken(db, data.email.value);
        var d := db.(
          candidates := if violation then db.candidates else db.candidates[id := Patch(existing, data)],
          education := ReplaceRows(db.education, id, data.education.Some?, EducationRows(data.education), !violation),
          workExperience := ReplaceRows(db.workExperience, id, data.workExperience.Some?, WorkRows(data.workExperience), !violation));
        Outcome(d, if violation then Fail(PlainError(UniqueViolationMessage)) else Ok(RecordOf(d, id)))
  }

  /** `deleteCandidate(id)`: the candidate goes, and its rows with it (`onDelete: Cascade`). */
  function Delete(db: Database, id: int): (o: Outcome<Candidate>)
    ensures id !in db.candidates ==> o == Outcome(db, Fail(CreateError(NotFoundMessage, 404)))
    ensures id in db.candidates ==> o.result == Ok(db.candidates[id]) && o.db.candidates == db.candidates - {id}
  {
    if id !in db.candidates then Outcome(db, Fail(CreateError(NotFoundMessage, 404)))
    else
      Outcome(
        Database(db.candidates - {id}, RemoveId(db.order, id),
                 DeleteOwned(db.education, id), DeleteOwned(db.workExperience, id), db.nextId),
        Ok(db.candidates[id]))
  }

  /** `updateCandidateCV(id, cvFileName, cvFilePath, cvMimeType)`. */
  function SetCv(db: Database, id: int, cvFileName: string, cvFilePath: string, cvMimeType: string): (o: Outcome<Candidate>)
    requires id in db.candidates
    ensures o.result.Ok? && CvConsistent(o.result.value) && o.result.value.cvFilePath == Some(cvFilePath)
    ensures o.result.value == WithCv(db.candidates[id], cvFileName, cvFilePath, cvMimeType)
    ensures o.db.candidates == db.candidates[id := o.result.value]
    ensures o.db.order == db.order && o.db.education == db.education
    ensures o.db.workExperience == db.workExperience && o.db.nextId == db.nextId
    ensures o.db.candidates.Keys == db.candidates.Keys
  {
    var updated := WithCv(db.candidates[id], cvFileName, cvFilePath, cvMimeType);
    Outcome(db.(candidates := db.candidates[id := updated]), Ok(updated))
  }

  // ---------------------------------------------------------------- create

  /** A created candidate's id was never in use, and a read returns exactly the created record. */
  lemma CreateThenFind(db: Database, data: CreateData)
    requires Consistent(db) && !EmailTaken(db, data.email)
    ensures db.nextId !in db.candidates
    ensures Find(Create(db, data).db, db.nextId) == Create(db, data).result
    ensures Create(db, data).result.value.education == EducationRows(data.education)
    ensures Create(db, data).result.value.workExperience == WorkRows(data.workExperience)
  {
    var id := db.nextId;
    var o := Create(db, data);
    var educationData := EducationRows(data.education);
    var workExperienceData := WorkRows(data.workExperience);
    assert o.db.education == db.education + Own(id, educationData);
    assert o.db.workExperience == db.workExperience + Own(id, workExperienceData);
    assert o.db.candidates[id] == o.result.value.candidate;
    OwnedByNobody(db.education, id);
    OwnedByNobody(db.workExperience, id);
    OwnedByAppend(db.education, Own(id, EducationRows(data.education)), id);
    OwnedByOwn(id, EducationRows(data.education), id);
    OwnedByAppend(db.workExperience, Own(id, WorkRows(data.workExperience)), id);
    OwnedByOwn(id, WorkRows(data.workExperience), id);
    assert OwnedBy(o.db.education, id) == educationData;
    assert OwnedBy(o.db.workExperience, id) == workExperienceData;
    assert RecordOf(o.db, id) == o.result.value;
  }

  /** Creating a candidate changes what a read of any other id returns in no way. */
  lemma CreateKeepsOthers(db: Database, data: CreateData, other: int)
    requires other != db.nextId
    ensures Find(Create(db, data).db, other) == Find(db, other)
  {
    if !EmailTaken(db, data.email) {
      var id := db.nextId;
      var o := Create(db, data);
      assert o.db.education == db.education + Own(id, EducationRows(data.education));
      assert o.db.workExperience == db.workExperience + Own(id, WorkRows(data.workExperience));
      assert o.db.candidates == db.candidates[id := NewCandidate(id, data)];
      assert other in o.db.candidates <==> other in db.candidates;
      OwnedByAppend(db.education, Own(id, EducationRows(data.education)), other);
      OwnedByOwn(id, EducationRows(data.education), other);
      OwnedByAppend(db.workExperience, Own(id, WorkRows(data.workExperience)), other);
      OwnedByOwn(id, WorkRows(data.workExperience), other);
      if other in db.candidates {
        assert o.db.candidates[other] == db.candidates[other];
        assert OwnedBy(o.db.education, other) == OwnedBy(db.education, other);
        assert OwnedBy(o.db.workExperience, other) == OwnedBy(db.workExperience, other);
      }
    }
  }

  lemma CreateKeepsConsistent(db: Database, data: CreateData)
    requires Consistent(db)
    ensures Consistent(Create(db, data).db)
  {
    if !EmailTaken(db, data.email) {
      var d := Create(db, data).db;
      var id := db.nextId;
      assert d == Database(db.candidates[id := NewCandidate(id, data)], db.order + [id],
                           db.education + Own(id, EducationRows(data.education)),
                           db.workExperience + Own(id, WorkRows(data.workExperience)), id + 1);
      assert EmailsUnique(d) by {
        forall a, b | a in d.candidates && b in d.candidates && a != b
          ensures d.candidates[a].email != d.candidates[b].email
        {
          if a == id {
            assert db.candidates[b].email != data.email;
          } else if b == id {
            assert db.candidates[a].email != data.email;
          }
        }
      }
      assert OrderMatches(d) by {
        forall i, j | 0 <= i < j < |d.order| ensures d.order[i] < d.order[j] {
          if j == |db.order| {
            assert db.order[i] in db.candidates;
          }
        }
      }
    }
  }

  // ---------------------------------------------------------------- list

  /** The listing is newest first: ids strictly decrease down the list. */
  lemma NewestIsDescending(db: Database)
    requires Consistent(db)
    ensures forall i, j | 0 <= i < j < |Newest(db)| :: Newest(db)[i].candidate.id > Newest(db)[j].candidate.id
  {
    forall i, j | 0 <= i < j < |Newest(db)|
      ensures Newest(db)[i].candidate.id > Newest(db)[j].candidate.id
    {
      var ids := Reverse(db.order);
      assert Newest(db)[i].candidate.id == ids[i] && Newest(db)[j].candidate.id == ids[j];
    }
  }

  /** Every stored candidate appears in the listing, and `total` counts exactly the listed ones. */
  lemma NewestListsEveryone(db: Database)
    requires Consistent(db)
    ensures |Newest(db)| == |db.candidates|
    ensures forall id | id in db.candidates :: exists k | 0 <= k < |Newest(db)| :: Newest(db)[k] == RecordOf(db, id)
  {
    ListedCount(db);
    forall id | id in db.candidates
      ensures exists k | 0 <= k < |Newest(db)| :: Newest(db)[k] == RecordOf(db, id)
    {
      var j :| 0 <= j < |db.order| && db.order[j] == id;
      assert Newest(db)[|db.order| - 1 - j] == RecordOf(db, id);
    }
  }

  lemma ListedCount(db: Database)
    requires OrderMatches(db)
    ensures |db.order| == |db.candidates|
  {
    IncreasingCard(db.order);
    var listed := set x | x in db.order;
    assert listed == db.candidates.Keys by {
      forall x | x in listed ensures x in db.candidates {
        var k :| 0 <= k < |db.order| && db.order[k] == x;
      }
      forall x | x in db.candidates ensures x in listed {
        assert x in db.order;
      }
    }
  }

  /** Pages 1 to `totalPages`, read one after the other, list every candidate newest first. */
  lemma PagesListEveryone(db: Database, limit: int)
    requires Consistent(db) && limit >= 1
    ensures Pages(Newest(db), limit, ListPage(db, 1, limit).pagination.totalPages) == Newest(db)
  {
    NewestListsEveryone(db);
    PagesCoverAll(Newest(db), limit);
  }

  /** A page is the slice of the newest-first listing that `skip` and `take` select. */
  lemma PageIsSlice(db: Database, page: int, limit: int)
    requires page >= 1 && limit >= 1 && Listed(db)
    ensures ListPage(db, page, limit).candidates == SkipTake(Newest(db), (page - 1) * limit, limit)
  {
  }

  // ---------------------------------------------------------------- update

  /**
   * A successful update: the scalar fields are patched, a supplied list
   * replaces the candidate's rows exactly, an omitted list keeps them, and a
   * read returns what the update returned.
   */
  lemma UpdateThenFind(db: Database, id: int, data: UpdateData)
    requires Update(db, id, data).result.Ok?
    ensures id in db.candidates
    ensures Find(Update(db, id, data).db, id) == Update(db, id, data).result
    ensures Update(db, id, data).result.value.candidate == Patch(db.candidates[id], data)
    ensures Update(db, id, data).result.value.education
         == if data.education.Some? then EducationRows(data.education) else OwnedBy(db.education, id)
    ensures Update(db, id, data).result.value.workExperience
         == if data.workExperience.Some? then WorkRows(data.workExperience) else OwnedBy(db.workExperience, id)
  {
    ReplaceRowsOwnedBy(db.education, id, data.education.Some?, EducationRows(data.education), true, id);
    ReplaceRowsOwnedBy(db.workExperience, id, data.workExperience.Some?, WorkRows(data.workExperience), true, id);
  }

  /** An update, successful or not, changes what a read of any other id returns in no way. */
  lemma UpdateKeepsOthers(db: Database, id: int, data: UpdateData, other: int)
    requires other != id
    ensures Find(Update(db, id, data).db, other) == Find(db, other)
  {
    if id in db.candidates {
      var existing := db.candidates[id];
      var violation := data.email.Some? && data.email.value != existing.email && EmailTaken(db, data.email.value);
      ReplaceRowsOwnedBy(db.education, id, data.education.Some?, EducationRows(data.education), !violation, other);
      ReplaceRowsOwnedBy(db.workExperience, id, data.workExperience.Some?, WorkRows(data.workExperience), !violation, other);
    }
  }

  /**
   * The only failure after the checks: an email that is defined but empty, so
   * not checked, and held by another candidate. The supplied lists have
   * already been cleared when the write fails.
   */
  lemma UpdateUniqueViolation(db: Database, id: int, data: UpdateData)
    requires id in db.candidates && Update(db, id, data).result.Fail?
    requires Update(db, id, data).result.error != CreateError(EmailTakenMessage, 409)
    ensures Update(db, id, data).result == Fail(PlainError(UniqueViolationMessage))
    ensures data.email == Some("")
    ensures OwnedBy(Update(db, id, data).db.education, id)
         == if data.education.Some? then [] else OwnedBy(db.education, id)
    ensures Update(db, id, data).db.candidates == db.candidates
  {
    ReplaceRowsOwnedBy(db.education, id, data.education.Some?, EducationRows(data.education), false, id);
  }

  lemma UpdateKeepsConsistent(db: Database, id: int, data: UpdateData)
    requires Consistent(db)
    ensures Consistent(Update(db, id, data).db)
  {
    var d := Update(db, id, data).db;
    if id in db.candidates && d != db {
      assert d.candidates.Keys == db.candidates.Keys;
      if Update(db, id, data).result.Ok? {
        ReplaceKeepsUnique(db.candidates, id, Patch(db.candidates[id], data), d.candidates);
      }
    }
  }

  /** Rewriting one candidate keeps emails unique if no other candidate holds its new email. */
  lemma ReplaceKeepsUnique(candidates: map<int, Candidate>, id: int, c: Candidate, updated: map<int, Candidate>)
    requires id in candidates && updated == candidates[id := c]
    requires forall a, b | a in candidates && b in candidates && a != b :: candidates[a].email != candidates[b].email
    requires c.email == candidates[id].email || forall b | b in candidates :: candidates[b].email != c.email
    ensures forall a, b | a in updated && b in updated && a != b :: updated[a].email != updated[b].email
  {
  }

  // ---------------------------------------------------------------- delete

  /** After a delete, a read of that id fails 404, and the returned record is the one read before. */
  lemma DeleteThenFind(db: Database, id: int)
    requires id in db.candidates
    ensures Find(Delete(db, id).db, id) == Fail(CreateError(NotFoundMessage, 404))
    ensures Delete(db, id).result == Ok(Find(db, id).value.candidate)
  {
  }

  /** Deleting a candidate takes every row it owned with it. */
  lemma DeleteRemovesRows(db: Database, id: int)
    requires id in db.candidates
    ensures OwnedBy(Delete(db, id).db.education, id) == [] && OwnedBy(Delete(db, id).db.workExperience, id) == []
  {
    OwnedByDeleteOwned(db.education, id, id);
    OwnedByDeleteOwned(db.workExperience, id, id);
  }

  lemma DeleteKeepsOthers(db: Database, id: int, other: int)
    requires other != id
    ensures Find(Delete(db, id).db, other) == Find(db, other)
  {
    OwnedByDeleteOwned(db.education, id, other);
    OwnedByDeleteOwned(db.workExperience, id, other);
  }

  lemma DeleteKeepsConsistent(db: Database, id: int)
    requires Consistent(db)
    ensures Consistent(Delete(db, id).db)
  {
    if id in db.candidates {
      RemoveIdKeepsIncreasing(db.order, id);
      var d := Delete(db, id).db;
      assert Listed(d) by {
        forall k | 0 <= k < |d.order| ensures d.order[k] in d.candidates {
          assert d.order[k] in RemoveId(db.order, id);
        }
      }
    }
  }

  // ---------------------------------------------------------------- CV

  /** After `updateCandidateCV`, a read shows the new CV fields, and the rest of the record is as before. */
  lemma SetCvThenFind(db: Database, id: int, cvFileName: string, cvFilePath: string, cvMimeType: string)
    requires id in db.candidates
    ensures Find(SetCv(db, id, cvFileName, cvFilePath, cvMimeType).db, id)
         == Ok(RecordOf(db, id).(candidate := WithCv(db.candidates[id], cvFileName, cvFilePath, cvMimeType)))
  {
  }

  lemma SetCvKeepsOthers(db: Database, id: int, cvFileName: string, cvFilePath: string, cvMimeType: string, other: int)
    requires id in db.candidates && other != id
    ensures Find(SetCv(db, id, cvFileName, cvFilePath, cvMimeType).db, other) == Find(db, other)
  {
  }

  lemma SetCvKeepsConsistent(db: Database, id: int, cvFileName: string, cvFilePath: string, cvMimeType: string)
    requires Consistent(db) && id in db.candidates
    ensures Consistent(SetCv(db, id, cvFileName, cvFilePath, cvMimeType).db)
  {
    var c := WithCv(db.candidates[id], cvFileName, cvFilePath, cvMimeType);
    ReplaceKeepsUnique(db.candidates, id, c, db.candidates[id := c]);
  }

  /** Only `updateCandidateCV` writes the CV fields: every other operation keeps a candidate's CV as it was. */
  lemma OnlySetCvWritesCv(db: Database, id: int, data: UpdateData, candidateId: int)
    requires candidateId in db.candidates && candidateId in Update(db, id, data).db.candidates
    ensures Update(db, id, data).db.candidates[candidateId].cvFilePath == db.candidates[candidateId].cvFilePath
  {
  }

  // ---------------------------------------------------------------- the store

  /**
   * The database the service talks to. Each method makes the change the
   * service's database calls make, as the functions above define it, and
   * commits it in one assignment of the fields. The field-by-field
   * `updateData` of `updateCandidate` is `Patch`, the `deleteMany` calls are
   * `ReplaceRows`, and the `include` reads are `RecordOf`.
   */
  class CandidateStore {
    var candidates: map<int, Candidate>
    /** Ids in creation order, the oldest first. */
    var order: seq<int>
    var education: seq<Row<Education>>
    var workExperience: seq<Row<WorkExperience>>
    /** The id the next created candidate gets. */
    var nextId: int

    function Snapshot(): Database
      reads this
    {
      Database(candidates, order, education, workExperience, nextId)
    }

    ghost predicate Valid()
      reads this
    {
      Consistent(Snapshot())
    }

    constructor ()
      ensures Valid() && Snapshot() == EmptyDatabase
    {
      candidates := map[];
      order := [];
      education := [];
      workExperience := [];
      nextId := 1;
    }

    /** Writes a new state of every table. */
    method Commit(db: Database)
      modifies this
      ensures Snapshot() == db
    {
      candidates := db.candidates;
      order := db.order;
      education := db.education;
      workExperience := db.workExperience;
      nextId := db.nextId;
    }

    method CreateCandidate(data: CreateData) returns (r: Result<CandidateRecord>)
      requires Valid()
      modifies this
      ensures Valid()
      ensures Snapshot() == Create(old(Snapshot()), data).db && r == Create(old(Snapshot()), data).result
    {
      var o := Create(Snapshot(), data);
      CreateKeepsConsistent(Snapshot(), data);
      Commit(o.db);
      r := o.result;
    }

    method GetCandidates(page: int, limit: int) returns (r: CandidatePage)
      requires Valid() && page >= 1 && limit >= 1
      ensures r == ListPage(Snapshot(), page, limit)
    {
      r := ListPage(Snapshot(), page, limit);
    }

    method GetCandidateById(id: int) returns (r: Result<CandidateRecord>)
      ensures r == Find(Snapshot(), id)
    {
      r := Find(Snapshot(), id);
    }

    method UpdateCandidate(id: int, data: UpdateData) returns (r: Result<CandidateRecord>)
      requires Valid()
      modifies this
      ensures Valid()
      ensures Snapshot() == Update(old(Snapshot()), id, data).db && r == Update(old(Snapshot()), id, data).result
    {
      var o := Update(Snapshot(), id, data);
      UpdateKeepsConsistent(Snapshot(), id, data);
      Commit(o.db);
      r := o.result;
    }

    method DeleteCandidate(id: int) returns (r: Result<Candidate>)
      requires Valid()
      modifies this
      ensures Valid()
      ensures Snapshot() == Delete(old(Snapshot()), id).db && r == Delete(old(Snapshot()), id).result
    {
      var o := Delete(Snapshot(), id);
      DeleteKeepsConsistent(Snapshot(), id);
      Commit(o.db);
      r := o.result;
    }

    method UpdateCandidateCV(id: int, cvFileName: string, cvFilePath: string, cvMimeType: string) returns (r: Candidate)
      requires Valid() && id in candidates
      modifies this
      ensures Valid()
      ensures var o := SetCv(old(Snapshot()), id, cvFileName, cvFilePath, cvMimeType);
        Snapshot() == o.db && r == o.result.value
    {
      var o := SetCv(Snapshot(), id, cvFileName, cvFilePath, cvMimeType);
      SetCvKeepsConsistent(Snapshot(), id, cvFileName, cvFilePath, cvMimeType);
      Commit(o.db);
      r := o.result.value;
    }
  }
}
