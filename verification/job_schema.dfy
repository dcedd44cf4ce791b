/**
 The job-application document (`server/models/Jobs.js`): its fields, the
 five-value status enumeration, and what Mongoose does to a new document before
 it is saved — apply the `trim` setters, fill in the defaults, then run the
 `required` and `enum` validators.
 */
module JobSchema {
  import opened Http
  import Text
  import UserModel

  type JobId = nat

  /** The owner reference (`ref: "User"`). */
  type UserId = UserModel.UserId

  type Timestamp = UserModel.Timestamp

  /** The status enumeration, in the order the schema lists it. */
  const Statuses: seq<string> := ["applied", "interview", "offer", "rejected", "saved"]

  /** The status a new job gets when the request leaves it out. */
  const DefaultStatus: string := "applied"

  predicate IsKnownStatus(s: string)
  {
    s in Statuses
  }

  /** A stored job. `status` is a free string: the enumeration is only checked
      when a job is created, and an update can store any value. */
  datatype Job = Job(
    id: JobId,
    owner: UserId,
    title: string,
    company: string,
    location: Option<string>,
    status: string,
    dateApplied: Timestamp,
    notes: Option<string>)

  /** The five fields a request body may carry; any other body field is
      ignored. */
  datatype JobFields = JobFields(
    title: Option<string>,
    company: Option<string>,
    location: Option<string>,
    status: Option<string>,
    notes: Option<string>)

  /** The paths whose validator can reject a new job. */
  datatype Path = TitlePath | CompanyPath | StatusPath

  /** The outcome of validating a new document: the document to save, or the
      paths that failed validation. */
  datatype Validated = Valid(job: Job) | Invalid(paths: set<Path>)

  /** The `trim: true` setter applied to an optional string field. */
  function TrimField(v: Option<string>): (r: Option<string>)
    ensures r.Some? <==> v.Some?
    ensures r.Some? ==> Text.IsTrimmed(r.value)
    ensures v.Some? ==> exists i: nat :: Text.IsSpaceCut(v.value, r.value, i)
  {
    match v
    case None => None
    case Some(s) => Some(Text.Trim(s))
  }

  /** Mongoose's `required` validator on a string: the value must be present
      and non-empty (after the setter has trimmed it). */
  predicate IsPresent(v: Option<string>)
  {
    v.Some? && v.value != ""
  }

  /** The `enum` validator: an omitted status is accepted (the default then
      applies), a given one must be one of the five. */
  predicate StatusAccepted(v: Option<string>)
  {
    v.None? || IsKnownStatus(v.value)
  }

  /** The invariant of every job the schema lets through at creation: title
      and company present and trimmed, location and notes trimmed when
      present, and a known status. */
  predicate IsSchemaValid(j: Job)
  {
    && j.title != "" && Text.IsTrimmed(j.title)
    && j.company != "" && Text.IsTrimmed(j.company)
    && (j.location.Some? ==> Text.IsTrimmed(j.location.value))
    && (j.notes.Some? ==> Text.IsTrimmed(j.notes.value))
    && IsKnownStatus(j.status)
  }

  /** Whether the validator on `path` rejects the body. */
  predicate Fails(f: JobFields, path: Path)
  {
    match path
    case TitlePath => !IsPresent(TrimField(f.title))
    case CompanyPath => !IsPresent(TrimField(f.company))
    case StatusPath => !StatusAccepted(f.status)
  }

  /** The failing paths for a body, each validator judged on its own. */
  function FailingPaths(f: JobFields): (r: set<Path>)
    ensures forall path :: path in r <==> Fails(f, path)
  {
    set path | path in {TitlePath, CompanyPath, StatusPath} && Fails(f, path)
  }

  /** `new Job({ ... })` followed by validation on `save()`. A valid result
      carries the caller's owner, `now` as `dateApplied`, the trimmed body
      fields and the default status when the body has none, and satisfies the
      schema invariant. An invalid result names exactly the failing paths. */
  function NewJob(f: JobFields, id: JobId, owner: UserId, now: Timestamp): (r: Validated)
    ensures r.Valid? <==> IsPresent(TrimField(f.title)) && IsPresent(TrimField(f.company)) && StatusAccepted(f.status)
    ensures r.Valid? ==> IsSchemaValid(r.job)
    ensures r.Valid? ==> && r.job.id == id && r.job.owner == owner && r.job.dateApplied == now
                         && Some(r.job.title) == TrimField(f.title)
                         && Some(r.job.company) == TrimField(f.company)
                         && r.job.location == TrimField(f.location)
                         && r.job.notes == TrimField(f.notes)
                         && r.job.status == (if f.status.Some? then f.status.value else DefaultStatus)
    ensures r.Invalid? ==> r.paths != {}
    ensures r.Invalid? ==> (TitlePath in r.paths <==> !IsPresent(TrimField(f.title)))
    ensures r.Invalid? ==> (CompanyPath in r.paths <==> !IsPresent(TrimField(f.company)))
    ensures r.Invalid? ==> (StatusPath in r.paths <==> !StatusAccepted(f.status))
  {
    var title := TrimField(f.title);
    var company := TrimField(f.company);
    if IsPresent(title) && IsPresent(company) && StatusAccepted(f.status) then
      var status := if f.status.Some? then f.status.value else DefaultStatus;
      Valid(Job(id, owner, title.value, company.value, TrimField(f.location), status, now, TrimField(f.notes)))
    else
      var paths := FailingPaths(f);
      assert Fails(f, TitlePath) || Fails(f, CompanyPath) || Fails(f, StatusPath);
      Invalid(paths)
  }

  /** A body without a status gets the default `applied`. */
  lemma StatusDefaultsToApplied(f: JobFields, id: JobId, owner: UserId, now: Timestamp)
    requires f.status.None? && NewJob(f, id, owner, now).Valid?
    ensures NewJob(f, id, owner, now).job.status == "applied"
  {
  }

  /** A body whose title or company is missing, or trims to nothing, is
      rejected whatever the other fields say. */
  lemma MissingRequiredRejected(f: JobFields, id: JobId, owner: UserId, now: Timestamp)
    requires || f.title.None? || f.company.None?
             || (f.title.Some? && Text.Trim(f.title.value) == "")
             || (f.company.Some? && Text.Trim(f.company.value) == "")
    ensures NewJob(f, id, owner, now).Invalid?
  {
  }

  /** A status outside the enumeration is rejected. */
  lemma UnknownStatusRejected(f: JobFields, id: JobId, owner: UserId, now: Timestamp)
    requires f.status.Some? && f.status.value !in Statuses
    ensures NewJob(f, id, owner, now).Invalid?
    ensures StatusPath in NewJob(f, id, owner, now).paths
  {
  }

  /** Re-applying the trim setters to a stored job's fields changes nothing. */
  lemma StoredFieldsAreTrimFixedPoints(f: JobFields, id: JobId, owner: UserId, now: Timestamp)
    requires NewJob(f, id, owner, now).Valid?
    ensures var j := NewJob(f, id, owner, now).job;
            && Text.Trim(j.title) == j.title
            && Text.Trim(j.company) == j.company
            && TrimField(j.location) == j.location
            && TrimField(j.notes) == j.notes
  {
    var j := NewJob(f, id, owner, now).job;
    Text.TrimKeepsTrimmed(j.title);
    Text.TrimKeepsTrimmed(j.company);
    if j.location.Some? {
      Text.TrimKeepsTrimmed(j.location.value);
    }
    if j.notes.Some? {
      Text.TrimKeepsTrimmed(j.notes.value);
    }
  }
}
